/** The ENA download path of `rsfq/src/core.rs`: one run's FASTQ files
    fetched with `aria2c`, each retried until its MD5 checksum matches. */
module Core {
  import opened Wrappers
  import opened Text
  import opened Paths
  import opened Os
  import Utils
  import Ena
  import Cli

  const PAIRED := "PAIRED"
  const R1 := "_1.fastq.gz"
  const R2 := "_2.fastq.gz"
  const MB := 1_048_576
  const BUFFER_SIZE := 10 * MB

  /** The output directory used when none is given. */
  const DEFAULT_OUTDIR := "DOWNLOADS"

  /** The messages of the panics of `core.rs`. */
  const FILE_NOT_FOUND := "ERROR: File not found!"
  const SPAWN_FAILED := "ERROR: Failed to execute command"
  const NO_EXIT_CODE := "ERROR: No exit code found!"
  const MD5_FAILED := "ERROR: Failed to calculate MD5sum!"
  const NO_FILE_NAME := "ERROR: No file name found"
  const NO_FASTQ_FTP := "ERROR: No fastq_ftp field found in the run data!"
  const NO_FASTQ_MD5 := "ERROR: No fastq_md5 field found in the run data!"
  const NO_LAYOUT := "ERROR: No library_layout field found in the run data!"
  const NO_DATA := "ERROR: No data found!"

  /** The message of `Option::unwrap` on `None`. */
  const UNWRAP_NONE := "called `Option::unwrap()` on a `None` value"

  /** The length of one read into a `BUFFER_SIZE` buffer from a file with
      `remaining` bytes left, when the reader offers `offered` bytes: never
      past the end of the file or the buffer, and zero only at the end. */
  function ReadLength(offered: nat, remaining: nat): (n: nat)
    ensures n <= remaining && n <= BUFFER_SIZE
    ensures n == 0 <==> remaining == 0
  {
    if remaining == 0 then 0
    else
      var m := if offered == 0 then 1 else offered;
      var m := if m <= remaining then m else remaining;
      if m <= BUFFER_SIZE then m else BUFFER_SIZE
  }

  /** What `md5sum` yields for `path` when the files are `files`: the
      digest of the file, or of the file the search finds when the path is
      missing; nothing when that file cannot be opened; a panic when the
      search finds nothing. */
  function Md5Of(md5: Bytes -> string, search: string -> Option<string>, files: map<string, Bytes>, path: string)
    : (r: Result<Option<string>, Abort>)
    ensures r.Err? ==> path !in files && search(path).None? && r.error == Panic(FILE_NOT_FOUND)
  {
    if path in files then Ok(Some(md5(files[path])))
    else match search(path)
      case None => Err(Panic(FILE_NOT_FOUND))
      case Some(found) => if found in files then Ok(Some(md5(files[found]))) else Ok(None)
  }

  /** `md5sum`: the file is read in chunks of at most `BUFFER_SIZE` bytes
      until a read returns nothing, and the chunks are hashed in order, so
      the digest is that of the whole file. */
  method Md5Sum(os: Os, path: string) returns (r: Result<Option<string>, Abort>)
    ensures path in os.files ==> r == Ok(Some(os.md5(os.files[path])))
    ensures path !in os.files && os.search(path).None? ==> r == Err(Panic(FILE_NOT_FOUND))
    ensures path !in os.files && os.search(path).Some? ==>
              r == if os.search(path).value in os.files then Ok(Some(os.md5(os.files[os.search(path).value])))
                   else Ok(None)
    ensures r == Md5Of(os.md5, os.search, os.files, path)
  {
    var file: string;
    if path in os.files {
      file := path;
    } else {
      match os.search(path) {
        case None =>
          return Err(Panic(FILE_NOT_FOUND));
        case Some(found) =>
          file := found;
      }
    }
    if file !in os.files {
      return Ok(None);
    }
    var contents := os.files[file];
    var consumed: Bytes := [];
    var pos := 0;
    var readCount := 0;
    while true
      invariant pos <= |contents| && consumed == contents[..pos]
      decreases |contents| - pos
    {
      var n := ReadLength(os.readSize(readCount), |contents| - pos);
      readCount := readCount + 1;
      if n == 0 {
        break;
      }
      assert contents[..pos + n] == contents[..pos] + contents[pos..pos + n];
      consumed := consumed + contents[pos..pos + n];
      pos := pos + n;
    }
    assert consumed == contents;
    return Ok(Some(os.md5(consumed)));
  }

  /** Where `download` puts the file of a URL: its file name inside `outdir`. */
  function Destination(outdir: string, ftp: string): Option<string>
  {
    match FileName(ftp)
    case None => None
    case Some(name) => Some(JoinPath(outdir, name))
  }

  /** A destination exists exactly when the URL has a file name, and it
      keeps that file name. */
  lemma DestinationName(outdir: string, ftp: string)
    ensures Destination(outdir, ftp).Some? <==> FileName(ftp).Some?
    ensures Destination(outdir, ftp).Some? ==>
              FileName(Destination(outdir, ftp).value) == FileName(ftp)
              && EndsWith(Destination(outdir, ftp).value, FileName(ftp).value)
  {
    if FileName(ftp).Some? {
      FileNameOfJoin(outdir, FileName(ftp).value);
    }
  }

  /** `aria2c -x4 -c "-o <dest>" http://<ftp>`. */
  function AriaCommand(dest: string, ftp: string): Command
  {
    Command("aria2c", ["-x4", "-c", "-o " + dest, "http://" + ftp], None)
  }

  /** How one attempt of `download` ends. */
  datatype Attempt = Retry | Accept | Crash(abort: Abort)

  /** The verdict on an attempt that ended with `status`, given the
      checksum `digest` of the file then: a non-zero exit is retried; a zero
      exit is accepted under `force`, and otherwise when the checksum is the
      expected one, retried when it differs. */
  function Judge(status: ExitStatus, force: bool, digest: Result<Option<string>, Abort>, expected: string): (a: Attempt)
    ensures a.Crash? ==> a.abort.Panic? || (digest.Err? && a.abort == digest.error)
    ensures a == Accept ==> status.Success()
    ensures !status.Exited? ==> a.Crash?
  {
    match status
    case SpawnFailed(_) => Crash(Panic(SPAWN_FAILED))
    case Signalled => Crash(Panic(NO_EXIT_CODE))
    case Exited(code) =>
      if code != 0 then Retry
      else if force then Accept
      else match digest
        case Err(e) => Crash(e)
        case Ok(None) => Crash(Panic(MD5_FAILED))
        case Ok(Some(d)) => if d != expected then Retry else Accept
  }

  /** The verdict on the attempt made by the `k`-th process. */
  function Outcome(os: Os, k: nat, dest: string, force: bool, expected: string): Attempt
  {
    Judge(os.world(k).status, force, Md5Of(os.md5, os.search, os.world(k).after, dest), expected)
  }

  /** Under `force` the checksum is never consulted. */
  lemma ForceIgnoresChecksum(status: ExitStatus, d1: Result<Option<string>, Abort>, d2: Result<Option<string>, Abort>, expected: string)
    ensures Judge(status, true, d1, expected) == Judge(status, true, d2, expected)
    ensures Judge(status, true, d1, expected) == Accept <==> status.Success()
  {
  }

  /** Without `force`, a successful exit is accepted exactly when the
      checksum equals the expected one (compared as written, so case
      matters). */
  lemma ChecksumDecides(d: string, expected: string)
    ensures Judge(Exited(0), false, Ok(Some(d)), expected) == Accept <==> d == expected
    ensures Judge(Exited(0), false, Ok(Some(d)), expected) != Accept ==>
              Judge(Exited(0), false, Ok(Some(d)), expected) == Retry
  {
  }

  /** One attempt of `download`: `aria2c` is spawned and its exit judged,
      the checksum of the destination being computed only after a zero exit
      without `force`. */
  method AttemptOnce(os: Os, cmd: Command, dest: string, force: bool, md5: string) returns (a: Attempt)
    modifies os
    ensures os.spawned == old(os.spawned) + [cmd]
    ensures a == Outcome(os, |old(os.spawned)|, dest, force, md5)
    ensures a.Crash? ==> a.abort.Panic?
    ensures os.files == os.FilesAfter(old(os.files), |old(os.spawned)|, 1)
    ensures os.slept == old(os.slept) && os.dirs == old(os.dirs)
  {
    ghost var k := |os.spawned|;
    var status := os.Spawn(cmd);
    if status.SpawnFailed? {
      return Crash(Panic(SPAWN_FAILED));
    }
    if status.Signalled? {
      return Crash(Panic(NO_EXIT_CODE));
    }
    if status.code != 0 {
      return Retry;
    }
    if force {
      return Accept;
    }
    var digest := Md5Sum(os, dest);
    if digest.Err? {
      return Crash(digest.error);
    }
    if digest.value.None? {
      return Crash(Panic(MD5_FAILED));
    }
    a := if digest.value.value != md5 then Retry else Accept;
  }

  /** The attempts numbered from `base` before the `n`-th were all retried. */
  ghost predicate AllRetried(os: Os, base: nat, n: nat, dest: string, force: bool, expected: string)
  {
    forall k :: base <= k < base + n ==> Outcome(os, k, dest, force, expected) == Retry
  }

  /** How the attempts of one download end: between one and
      `maxAttempts + 1` of them, every one but the last retried, the last
      retried only when it was the final one allowed; a crash of the last
      is the result. */
  ghost predicate AttemptsEnded(os: Os, base: nat, n: nat, maxAttempts: nat, dest: string, force: bool,
                                expected: string, r: Result<Unit, Abort>)
  {
    && Ran(os, base, n, maxAttempts, dest, force, expected)
    && var last := Outcome(os, base + n - 1, dest, force, expected);
       r == if last.Crash? then Err(last.abort) else Ok(Unit)
  }

  /** The attempts of one download, whatever its result: between one and
      `maxAttempts + 1`, every one but the last retried, the last retried
      only when it was the final one allowed. */
  ghost predicate Ran(os: Os, base: nat, n: nat, maxAttempts: nat, dest: string, force: bool, expected: string)
  {
    && 1 <= n <= maxAttempts + 1
    && AllRetried(os, base, n - 1, dest, force, expected)
    && (Outcome(os, base + n - 1, dest, force, expected) == Retry ==> n == maxAttempts + 1)
  }

  /** How many sleeps `n` attempts numbered from `base` make: one after
      each retried attempt. */
  ghost function Sleeps(os: Os, base: nat, n: nat, dest: string, force: bool, expected: string): nat
  {
    if n >= 1 && Outcome(os, base + n - 1, dest, force, expected) == Retry then n
    else if n >= 1 then n - 1
    else 0
  }

  /** A retried attempt extends the run of retried attempts. */
  lemma RetriedStep(os: Os, base: nat, n: nat, dest: string, force: bool, expected: string)
    requires AllRetried(os, base, n, dest, force, expected)
    requires Outcome(os, base + n, dest, force, expected) == Retry
    ensures AllRetried(os, base, n + 1, dest, force, expected)
  {
  }

  /** An attempt that is not retried ends the download, with no sleep after it. */
  lemma EndedByAttempt(os: Os, base: nat, n: nat, maxAttempts: nat, dest: string, force: bool, expected: string)
    requires n <= maxAttempts && AllRetried(os, base, n, dest, force, expected)
    requires Outcome(os, base + n, dest, force, expected) != Retry
    ensures var last := Outcome(os, base + n, dest, force, expected);
            AttemptsEnded(os, base, n + 1, maxAttempts, dest, force, expected,
                          if last.Crash? then Err(last.abort) else Ok(Unit))
    ensures Sleeps(os, base, n + 1, dest, force, expected) == n
  {
  }

  /** Retrying the final allowed attempt ends the download after a sleep. */
  lemma EndedByExhaustion(os: Os, base: nat, maxAttempts: nat, dest: string, force: bool, expected: string)
    requires AllRetried(os, base, maxAttempts + 1, dest, force, expected)
    ensures AttemptsEnded(os, base, maxAttempts + 1, maxAttempts, dest, force, expected, Ok(Unit))
    ensures Sleeps(os, base, maxAttempts + 1, dest, force, expected) == maxAttempts + 1
  {
    assert Outcome(os, base + maxAttempts, dest, force, expected) == Retry;
  }

  /** The state after `n` attempts of a download that are all retried:
      `n` runs of the command, `n` sleeps, and the files the runs left. */
  ghost predicate Progress(os: Os, cmd: Command, dest: string, force: bool, md5: string, sleep: nat,
                           spawned0: seq<Command>, slept0: seq<nat>, files0: map<string, Bytes>, n: nat)
    reads os
  {
    && os.spawned == spawned0 + Repeat(cmd, n)
    && AllRetried(os, |spawned0|, n, dest, force, md5)
    && os.slept == slept0 + Repeat(sleep, n)
    && os.files == os.FilesAfter(files0, |spawned0|, n)
  }

  /** The state after a download's `n` attempts ended with `r`. */
  ghost predicate Finished(os: Os, cmd: Command, dest: string, maxAttempts: nat, force: bool, md5: string, sleep: nat,
                           spawned0: seq<Command>, slept0: seq<nat>, files0: map<string, Bytes>, n: nat,
                           r: Result<Unit, Abort>)
    reads os
  {
    && os.spawned == spawned0 + Repeat(cmd, n)
    && AttemptsEnded(os, |spawned0|, n, maxAttempts, dest, force, md5, r)
    && os.slept == slept0 + Repeat(sleep, Sleeps(os, |spawned0|, n, dest, force, md5))
    && os.files == os.FilesAfter(files0, |spawned0|, n)
  }

  /** One turn of the retry loop of `download`: an attempt, and a sleep
      when it is retried. */
  method AttemptStep(os: Os, cmd: Command, dest: string, maxAttempts: nat, sleep: nat, force: bool, md5: string,
                     attempt: nat, ghost spawned0: seq<Command>, ghost slept0: seq<nat>, ghost files0: map<string, Bytes>)
    returns (a: Attempt)
    requires attempt <= maxAttempts
    requires Progress(os, cmd, dest, force, md5, sleep, spawned0, slept0, files0, attempt)
    modifies os
    ensures a.Crash? ==> a.abort.Panic?
    ensures a == Retry ==> Progress(os, cmd, dest, force, md5, sleep, spawned0, slept0, files0, attempt + 1)
    ensures a != Retry ==>
              Finished(os, cmd, dest, maxAttempts, force, md5, sleep, spawned0, slept0, files0, attempt + 1,
                       if a.Crash? then Err(a.abort) else Ok(Unit))
    ensures os.dirs == old(os.dirs)
  {
    ghost var base := |spawned0|;
    ghost var filesBefore := os.files;
    assert |os.spawned| == base + attempt;
    a := AttemptOnce(os, cmd, dest, force, md5);
    assert os.files == os.FilesAfter(filesBefore, base + attempt, 1);
    os.FilesAfterStep(files0, base, attempt);
    assert os.spawned == spawned0 + Repeat(cmd, attempt + 1);
    if a != Retry {
      EndedByAttempt(os, base, attempt, maxAttempts, dest, force, md5);
      return;
    }
    RetriedStep(os, base, attempt, dest, force, md5);
    os.Sleep(sleep);
    assert os.slept == slept0 + Repeat(sleep, attempt + 1);
  }

  /** The retry loop of `download`; `n` is the number of attempts. */
  method AriaAttempts(os: Os, cmd: Command, dest: string, maxAttempts: nat, sleep: nat, force: bool, md5: string)
    returns (r: Result<Unit, Abort>, ghost n: nat)
    modifies os
    ensures Finished(os, cmd, dest, maxAttempts, force, md5, sleep, old(os.spawned), old(os.slept), old(os.files), n, r)
    ensures r.Err? ==> r.error.Panic?
    ensures os.dirs == old(os.dirs)
  {
    ghost var spawned0, slept0, files0 := os.spawned, os.slept, os.files;
    var attempt := 0;
    while maxAttempts >= attempt
      invariant attempt <= maxAttempts + 1
      invariant Progress(os, cmd, dest, force, md5, sleep, spawned0, slept0, files0, attempt)
      invariant os.dirs == old(os.dirs)
      decreases maxAttempts + 1 - attempt
    {
      var a := AttemptStep(os, cmd, dest, maxAttempts, sleep, force, md5, attempt, spawned0, slept0, files0);
      if a != Retry {
        return (if a.Crash? then Err(a.abort) else Ok(Unit)), attempt + 1;
      }
      attempt := attempt + 1;
    }
    EndedByExhaustion(os, |spawned0|, maxAttempts, dest, force, md5);
    r, n := Ok(Unit), attempt;
  }

  /** A download without `force` whose last attempt was accepted, on any
      attempt including the final one allowed, leaves files whose checksum
      for the destination is the expected one. */
  lemma AcceptedDownloadVerified(os: Os, start: map<string, Bytes>, base: nat, n: nat, maxAttempts: nat,
                                 dest: string, expected: string, r: Result<Unit, Abort>)
    requires AttemptsEnded(os, base, n, maxAttempts, dest, false, expected, r)
    requires Outcome(os, base + n - 1, dest, false, expected) == Accept
    ensures r.Ok?
    ensures Md5Of(os.md5, os.search, os.FilesAfter(start, base, n), dest) == Ok(Some(expected))
  {
    assert !os.world(base + n - 1).status.SpawnFailed?;
  }

  /** Download `j` of a chain runs `aria2c` exactly when `download` pulls
      its file, that is when its destination was missing before it or
      `force` is set; its attempts then end as `Ran` says and leave the
      files they leave. A skipped download changes nothing. */
  lemma ChainAt(os: Os, dir: string, force: bool, attempts: nat, calls: seq<(string, string)>, counts: seq<nat>,
                states: seq<(nat, map<string, Bytes>)>, j: nat)
    requires |calls| == |counts| && Chain(os, dir, force, attempts, calls, counts, states)
    requires j < |calls|
    ensures Pulls(dir, calls[j].0, force, states[j].1) <==> 1 <= counts[j]
    ensures Pulls(dir, calls[j].0, force, states[j].1) ==>
              && Ran(os, states[j].0, counts[j], attempts, Destination(dir, calls[j].0).value, force, calls[j].1)
              && states[j + 1].1 == os.FilesAfter(states[j].1, states[j].0, counts[j])
    ensures !Pulls(dir, calls[j].0, force, states[j].1) ==> counts[j] == 0 && states[j + 1] == states[j]
  {
    assert states[j + 1].0 == states[j].0 + counts[j];
    assert (counts[j], states[j + 1].1) == PairRun(os, dir, calls[j], force, attempts, states[j].0, states[j].1);
    if Pulls(dir, calls[j].0, force, states[j].1) {
      RanAttempts(os, states[j].0, counts[j], attempts, Destination(dir, calls[j].0).value, force, calls[j].1);
    }
  }

  /** `download`: nothing is done when the file name is missing (a panic)
      or when the destination exists and `force` is off. Otherwise
      `aria2c` runs until an attempt is accepted or panics, or until
      `maxAttempts + 1` attempts were all retried, sleeping after each
      retried attempt; the destination is returned even then. */
  method Download(os: Os, ftp: string, outdir: string, maxAttempts: nat, sleep: nat, force: bool, md5: string)
    returns (r: Result<Option<string>, Abort>)
    modifies os
    ensures |os.spawned| >= |old(os.spawned)|
    ensures os.spawned == old(os.spawned)
                          + Repeat(AriaCommand(Destination(outdir, ftp).GetOr(""), ftp), |os.spawned| - |old(os.spawned)|)
    ensures r.Err? ==> r.error.Panic?
    ensures FileName(ftp).None? ==>
              r == Err(Panic(NO_FILE_NAME))
              && os.spawned == old(os.spawned) && os.files == old(os.files) && os.slept == old(os.slept)
    ensures FileName(ftp).Some? && Destination(outdir, ftp).value in old(os.files) && !force ==>
              r == Ok(None)
              && os.spawned == old(os.spawned) && os.files == old(os.files) && os.slept == old(os.slept)
    ensures FileName(ftp).Some? && !(Destination(outdir, ftp).value in old(os.files) && !force) ==>
              var dest := Destination(outdir, ftp).value;
              && Finished(os, AriaCommand(dest, ftp), dest, maxAttempts, force, md5, sleep,
                          old(os.spawned), old(os.slept), old(os.files), |os.spawned| - |old(os.spawned)|,
                          if r.Err? then Err(r.error) else Ok(Unit))
              && (r.Ok? ==> r == Ok(Some(dest)))
    ensures os.dirs == old(os.dirs)
  {
    var destination := Destination(outdir, ftp);
    if destination.None? {
      return Err(Panic(NO_FILE_NAME));
    }
    var fastq := destination.value;
    if fastq in os.files && !force {
      return Ok(None);
    }
    var done, n := AriaAttempts(os, AriaCommand(fastq, ftp), fastq, maxAttempts, sleep, force, md5);
    assert |os.spawned| - |old(os.spawned)| == n;
    r := if done.Err? then Err(done.error) else Ok(Some(fastq));
    assert done == if r.Err? then Err(r.error) else Ok(Unit);
  }

  /** The pairs `zip` makes: as many as the shorter sequence has. */
  function Zip(a: seq<string>, b: seq<string>): (r: seq<(string, string)>)
    ensures |r| == if |a| <= |b| then |a| else |b|
    ensures forall i :: 0 <= i < |r| ==> r[i] == (a[i], b[i])
  {
    var n := if |a| <= |b| then |a| else |b|;
    seq(n, i requires 0 <= i < n => (a[i], b[i]))
  }

  /** The file-name policy of `download_fastq` for paired runs: a name
      that is not a mate file must be `<run_accession>.fastq.gz`;
      otherwise the process ends with status 1. */
  function CheckName(ftp: string, run: Ena.Record): Result<Unit, Abort>
  {
    if EndsWith(ftp, R1) || EndsWith(ftp, R2) then Ok(Unit)
    else match FileName(ftp)
      case None => Err(Panic(UNWRAP_NONE))
      case Some(observed) =>
        if "run_accession" !in run then Err(Panic(UNWRAP_NONE))
        else if observed != run["run_accession"] + ".fastq.gz" then Err(Exit(1))
        else Ok(Unit)
  }

  /** A name passes exactly when it is a mate file or the run's own
      `<run_accession>.fastq.gz`; a mismatch ends the process with status
      1, and a missing name or accession panics. */
  lemma CheckNameCases(ftp: string, run: Ena.Record)
    ensures CheckName(ftp, run) == Ok(Unit) <==>
              EndsWith(ftp, R1) || EndsWith(ftp, R2)
              || ("run_accession" in run && FileName(ftp) == Some(run["run_accession"] + ".fastq.gz"))
    ensures CheckName(ftp, run) == Err(Exit(1)) <==>
              !EndsWith(ftp, R1) && !EndsWith(ftp, R2) && FileName(ftp).Some? && "run_accession" in run
              && FileName(ftp) != Some(run["run_accession"] + ".fastq.gz")
    ensures CheckName(ftp, run).Err? && CheckName(ftp, run) != Err(Exit(1)) ==>
              CheckName(ftp, run) == Err(Panic(UNWRAP_NONE))
  {
  }

  /** What `download_fastq` demands of one (URL, checksum) pair of a paired
      run before downloading it: the name policy, then a checksum. */
  function CheckPair(pair: (string, string), run: Ena.Record): Result<Unit, Abort>
  {
    match CheckName(pair.0, run)
    case Err(e) => Err(e)
    case Ok(_) => if pair.1 == "" then Err(Exit(1)) else Ok(Unit)
  }

  /** A pair passes when its name does and its checksum is not empty; the
      name is checked first. */
  lemma CheckPairCases(pair: (string, string), run: Ena.Record)
    ensures CheckPair(pair, run).Ok? <==> CheckName(pair.0, run).Ok? && pair.1 != ""
    ensures CheckName(pair.0, run).Err? ==> CheckPair(pair, run) == CheckName(pair.0, run)
    ensures CheckName(pair.0, run).Ok? && pair.1 == "" ==> CheckPair(pair, run) == Err(Exit(1))
  {
  }

  /** A URL whose file name is `<acc>.fastq.gz` passes the name policy of
      a run with that accession, whatever the directories before it. */
  lemma SingleNameAccepted(dir: string, acc: string, run: Ena.Record)
    requires "run_accession" in run && run["run_accession"] == acc && '/' !in acc
    ensures CheckName(JoinPath(dir, acc + ".fastq.gz"), run) == Ok(Unit)
  {
    FileNameOfJoin(dir, acc + ".fastq.gz");
  }

  /** The mate files pass the name policy, even for another run's name. */
  lemma MateNamesAccepted(prefix: string, run: Ena.Record)
    ensures CheckName(prefix + R1, run) == Ok(Unit) && CheckName(prefix + R2, run) == Ok(Unit)
  {
    assert (prefix + R1)[|prefix + R1| - |R1|..] == R1;
    assert (prefix + R2)[|prefix + R2| - |R2|..] == R2;
  }

  /** All the `aria2c` commands of a sequence of downloads, in order:
      `counts[i]` attempts for download `i`. */
  function AriaRuns(dir: string, calls: seq<(string, string)>, counts: seq<nat>): seq<Command>
    requires |calls| == |counts|
  {
    if calls == [] then []
    else
      var i := |calls| - 1;
      AriaRuns(dir, calls[..i], counts[..i])
      + Repeat(AriaCommand(Destination(dir, calls[i].0).GetOr(""), calls[i].0), counts[i])
  }

  /** Whether `download` runs `aria2c` for `ftp` into `dir` when the files
      are `files`: the URL has a file name, and its destination is missing
      or `force` is set. */
  predicate Pulls(dir: string, ftp: string, force: bool, files: map<string, Bytes>)
  {
    Destination(dir, ftp).Some? && !(Destination(dir, ftp).value in files && !force)
  }

  /** One download of `download_fastq`, whose result is discarded except
      for its panics: no `aria2c` run and nothing changed when the URL has
      no file name (a panic) or the destination exists without `force`;
      otherwise the attempts as `Finished` says. */
  method FetchPair(os: Os, ftp: string, md5: string, dir: string, attempts: nat, sleep: nat, force: bool)
    returns (r: Result<Unit, Abort>, ghost n: nat)
    modifies os
    ensures n <= attempts + 1
    ensures os.spawned == old(os.spawned) + Repeat(AriaCommand(Destination(dir, ftp).GetOr(""), ftp), n)
    ensures r.Err? ==> r.error.Panic?
    ensures Destination(dir, ftp).None? ==> r == Err(Panic(NO_FILE_NAME))
    ensures !Pulls(dir, ftp, force, old(os.files)) ==>
              n == 0 && os.files == old(os.files) && os.slept == old(os.slept)
    ensures Pulls(dir, ftp, force, old(os.files)) ==>
              var dest := Destination(dir, ftp).value;
              Finished(os, AriaCommand(dest, ftp), dest, attempts, force, md5, sleep,
                       old(os.spawned), old(os.slept), old(os.files), n, r)
    ensures (n, os.files) == PairRun(os, dir, (ftp, md5), force, attempts, |old(os.spawned)|, old(os.files))
    ensures os.dirs == old(os.dirs)
  {
    ghost var before := |os.spawned|;
    DestinationName(dir, ftp);
    var d := Download(os, ftp, dir, attempts, sleep, force, md5);
    n := |os.spawned| - before;
    r := if d.Err? then Err(d.error) else Ok(Unit);
    if Pulls(dir, ftp, force, old(os.files)) {
      RanAttempts(os, before, n, attempts, Destination(dir, ftp).value, force, md5);
    }
  }

  /** The verdict "retry" on each process of a download. */
  ghost function Retrying(os: Os, dest: string, force: bool, expected: string): nat -> bool
  {
    (k: nat) => Outcome(os, k, dest, force, expected) == Retry
  }

  /** The retried attempts that open a download from process `k`, at most
      `limit` of them. */
  ghost function Retries(retried: nat -> bool, k: nat, limit: nat): (m: nat)
    ensures m <= limit
    decreases limit
  {
    if limit == 0 || !retried(k) then 0 else 1 + Retries(retried, k + 1, limit - 1)
  }

  /** The number of attempts a download from process `base` makes: its
      opening retries, then one more. */
  ghost function Attempts(os: Os, base: nat, maxAttempts: nat, dest: string, force: bool, expected: string): (n: nat)
    ensures 1 <= n <= maxAttempts + 1
  {
    1 + Retries(Retrying(os, dest, force, expected), base, maxAttempts)
  }

  /** The opening retries are all retried, and the attempt after them is
      not, unless the limit cut them short. */
  lemma {:induction false} RetriesRetried(retried: nat -> bool, k: nat, limit: nat)
    ensures forall i :: k <= i < k + Retries(retried, k, limit) ==> retried(i)
    ensures Retries(retried, k, limit) < limit ==> !retried(k + Retries(retried, k, limit))
    decreases limit
  {
    if limit > 0 && retried(k) {
      RetriesRetried(retried, k + 1, limit - 1);
    }
  }

  /** The attempts of a download are determined by the world: `Ran` holds
      for exactly one count, `Attempts`. */
  lemma RanAttempts(os: Os, base: nat, n: nat, maxAttempts: nat, dest: string, force: bool, expected: string)
    ensures Ran(os, base, n, maxAttempts, dest, force, expected) <==> n == Attempts(os, base, maxAttempts, dest, force, expected)
  {
    var retried := Retrying(os, dest, force, expected);
    RetriesRetried(retried, base, maxAttempts);
    assert forall k: nat :: retried(k) == (Outcome(os, k, dest, force, expected) == Retry);
  }

  /** One download of a pair, numbered from process `base`, on the files
      `before`: the `aria2c` runs it makes and the files they leave; none
      and no change when `download` skips it. */
  ghost function PairRun(os: Os, dir: string, pair: (string, string), force: bool, attempts: nat, base: nat,
                         before: map<string, Bytes>): (nat, map<string, Bytes>)
  {
    if Pulls(dir, pair.0, force, before) then
      var n := Attempts(os, base, attempts, Destination(dir, pair.0).value, force, pair.1);
      (n, os.FilesAfter(before, base, n))
    else (0, before)
  }

  /** The downloads of `calls`: `states[j]` is where processes and files
      stood before download `j` (the number of the next process, the
      files), `states[j + 1]` after it, and download `j` made `counts[j]`
      runs. */
  ghost predicate Chain(os: Os, dir: string, force: bool, attempts: nat, calls: seq<(string, string)>,
                        counts: seq<nat>, states: seq<(nat, map<string, Bytes>)>)
    requires |calls| == |counts|
  {
    && |states| == |calls| + 1
    && forall j :: 0 <= j < |calls| ==>
         && states[j + 1].0 == states[j].0 + counts[j]
         && (counts[j], states[j + 1].1) == PairRun(os, dir, calls[j], force, attempts, states[j].0, states[j].1)
  }

  lemma ChainSnoc(os: Os, dir: string, force: bool, attempts: nat, calls: seq<(string, string)>,
                  counts: seq<nat>, states: seq<(nat, map<string, Bytes>)>,
                  pair: (string, string), n: nat, after: map<string, Bytes>)
    requires |calls| == |counts| && Chain(os, dir, force, attempts, calls, counts, states)
    requires (n, after) == PairRun(os, dir, pair, force, attempts, states[|calls|].0, states[|calls|].1)
    ensures Chain(os, dir, force, attempts, calls + [pair], counts + [n], states + [(states[|calls|].0 + n, after)])
  {
    var states1 := states + [(states[|calls|].0 + n, after)];
    assert forall j :: 0 <= j <= |calls| ==> states1[j] == states[j];
  }

  lemma AriaRunsSnoc(dir: string, calls: seq<(string, string)>, counts: seq<nat>, pair: (string, string), n: nat)
    requires |calls| == |counts|
    ensures AriaRuns(dir, calls + [pair], counts + [n])
            == AriaRuns(dir, calls, counts) + Repeat(AriaCommand(Destination(dir, pair.0).GetOr(""), pair.0), n)
  {
    assert (calls + [pair])[..|calls|] == calls && (counts + [n])[..|counts|] == counts;
  }

  lemma TakeSnoc<T>(s: seq<T>, i: nat)
    requires i < |s|
    ensures s[..i + 1] == s[..i] + [s[i]]
  {
  }

  lemma AppendAssoc<T>(a: seq<T>, b: seq<T>, c: seq<T>)
    ensures (a + b) + c == a + (b + c)
  {
  }

  /** Every pair passed its check. */
  predicate AllChecked(pairs: seq<(string, string)>, run: Ena.Record)
  {
    forall j :: 0 <= j < |pairs| ==> CheckPair(pairs[j], run).Ok?
  }

  lemma AllCheckedSnoc(pairs: seq<(string, string)>, pair: (string, string), run: Ena.Record)
    requires AllChecked(pairs, run) && CheckPair(pair, run).Ok?
    ensures AllChecked(pairs + [pair], run)
  {
  }

  /** The state after the downloads of `calls`, the first pairs of
      `pairs`, each of which passed its check and took `counts[i]` attempts,
      at most `attempts + 1`. */
  ghost predicate Fetched(os: Os, pairs: seq<(string, string)>, run: Ena.Record, dir: string, attempts: nat,
                          force: bool, spawned0: seq<Command>, files0: map<string, Bytes>,
                          calls: seq<(string, string)>, counts: seq<nat>, states: seq<(nat, map<string, Bytes>)>)
    reads os
  {
    && |calls| == |counts| && (forall j :: 0 <= j < |counts| ==> counts[j] <= attempts + 1)
    && os.spawned == spawned0 + AriaRuns(dir, calls, counts)
    && |calls| <= |pairs| && calls == pairs[..|calls|] && AllChecked(calls, run)
    && Chain(os, dir, force, attempts, calls, counts, states)
    && states[0] == (|spawned0|, files0) && states[|calls|] == (|os.spawned|, os.files)
  }

  /** One turn of the loop of `download_fastq` over the pairs of a paired
      run: the pair is checked, then downloaded. */
  method FetchNext(os: Os, pairs: seq<(string, string)>, i: nat, run: Ena.Record, dir: string, attempts: nat,
                   sleep: nat, force: bool, ghost spawned0: seq<Command>, ghost files0: map<string, Bytes>,
                   ghost calls: seq<(string, string)>, ghost counts: seq<nat>, ghost states: seq<(nat, map<string, Bytes>)>)
    returns (r: Result<Unit, Abort>, ghost calls1: seq<(string, string)>, ghost counts1: seq<nat>,
             ghost states1: seq<(nat, map<string, Bytes>)>)
    requires i == |calls| < |pairs|
    requires Fetched(os, pairs, run, dir, attempts, force, spawned0, files0, calls, counts, states)
    modifies os
    ensures Fetched(os, pairs, run, dir, attempts, force, spawned0, files0, calls1, counts1, states1)
    ensures r.Ok? ==> calls1 == calls + [pairs[i]]
    ensures r.Err? ==> (calls1 == calls && CheckPair(pairs[i], run) == Err(r.error))
                       || (|calls1| > 0 && r.error.Panic?)
    ensures os.dirs == old(os.dirs)
  {
    var check := CheckPair(pairs[i], run);
    if check.Err? {
      return check, calls, counts, states;
    }
    var d, n := FetchPair(os, pairs[i].0, pairs[i].1, dir, attempts, sleep, force);
    ghost var next := (states[i].0 + n, os.files);
    assert next.0 == |os.spawned|;
    ChainSnoc(os, dir, force, attempts, calls, counts, states, pairs[i], n, os.files);
    AriaRunsSnoc(dir, calls, counts, pairs[i], n);
    AppendAssoc(spawned0, AriaRuns(dir, calls, counts),
                Repeat(AriaCommand(Destination(dir, pairs[i].0).GetOr(""), pairs[i].0), n));
    AllCheckedSnoc(calls, pairs[i], run);
    calls1, counts1, states1 := calls + [pairs[i]], counts + [n], states + [next];
    TakeSnoc(pairs, i);
    r := if d.Err? then Err(d.error) else Ok(Unit);
  }

  /** The downloads of a paired run, one pair after another: each pair is
      checked, then downloaded; the first pair that fails its check ends
      the process, and a download's panic is passed on. */
  method FetchPairs(os: Os, pairs: seq<(string, string)>, run: Ena.Record, dir: string, attempts: nat, sleep: nat, force: bool)
    returns (r: Result<Unit, Abort>, ghost calls: seq<(string, string)>, ghost counts: seq<nat>,
             ghost states: seq<(nat, map<string, Bytes>)>)
    modifies os
    ensures Fetched(os, pairs, run, dir, attempts, force, old(os.spawned), old(os.files), calls, counts, states)
    ensures r.Ok? ==> calls == pairs
    ensures r.Err? ==> (|calls| < |pairs| && CheckPair(pairs[|calls|], run) == Err(r.error))
                       || (|calls| > 0 && r.error.Panic?)
    ensures os.dirs == old(os.dirs)
  {
    calls, counts, states := [], [], [(|os.spawned| as nat, os.files)];
    for i := 0 to |pairs|
      invariant i == |calls|
      invariant Fetched(os, pairs, run, dir, attempts, force, old(os.spawned), old(os.files), calls, counts, states)
      invariant os.dirs == old(os.dirs)
    {
      r, calls, counts, states := FetchNext(os, pairs, i, run, dir, attempts, sleep, force, old(os.spawned),
                                            old(os.files), calls, counts, states);
      if r.Err? {
        return;
      }
    }
    assert calls == pairs[..|pairs|];
    r := Ok(Unit);
  }

  /** What `download_fastq` does with a run, downloading into `dir`: the
      `fastq_ftp`, `fastq_md5` and `library_layout` fields are required,
      and a panic names the first one missing; a run that is not paired
      succeeds with nothing done. For a paired run the URLs and checksums
      are zipped, and `calls` are the first pairs, each checked and then
      downloaded with `counts` attempts of `aria2c`: all of them on
      success, otherwise up to the pair whose check failed, or up to a
      download that panicked. `states` are the files before each download
      and after the last: a download runs `aria2c` exactly when
      `download` pulls its file (`ChainAt`). */
  ghost predicate FastqDownloaded(os: Os, run: Ena.Record, dir: string, attempts: nat, force: bool,
                                  spawned0: seq<Command>, spawned: seq<Command>,
                                  files0: map<string, Bytes>, files: map<string, Bytes>,
                                  slept0: seq<nat>, slept: seq<nat>, calls: seq<(string, string)>,
                                  counts: seq<nat>, states: seq<(nat, map<string, Bytes>)>, r: Result<Unit, Abort>)
  {
    && |calls| == |counts| && (forall i :: 0 <= i < |counts| ==> counts[i] <= attempts + 1)
    && spawned == spawned0 + AriaRuns(dir, calls, counts)
    && ("fastq_ftp" !in run ==> r == Err(Panic(NO_FASTQ_FTP)))
    && ("fastq_ftp" in run && "fastq_md5" !in run ==> r == Err(Panic(NO_FASTQ_MD5)))
    && ("fastq_ftp" in run && "fastq_md5" in run && "library_layout" !in run ==> r == Err(Panic(NO_LAYOUT)))
    && ("fastq_ftp" in run && "fastq_md5" in run && "library_layout" in run && run["library_layout"] != PAIRED ==>
          r == Ok(Unit))
    && (!("fastq_ftp" in run && "fastq_md5" in run && "library_layout" in run && run["library_layout"] == PAIRED) ==>
          calls == [] && files == files0 && slept == slept0)
    && ("fastq_ftp" in run && "fastq_md5" in run && "library_layout" in run && run["library_layout"] == PAIRED ==>
          var pairs := Zip(Split(run["fastq_ftp"], ';'), Split(run["fastq_md5"], ';'));
          && |calls| <= |pairs| && calls == pairs[..|calls|]
          && AllChecked(calls, run)
          && Chain(os, dir, force, attempts, calls, counts, states)
          && states[0] == (|spawned0|, files0) && states[|calls|] == (|spawned|, files)
          && (r.Ok? ==> calls == pairs)
          && (r.Err? ==> (|calls| < |pairs| && CheckPair(pairs[|calls|], run) == Err(r.error))
                         || (|calls| > 0 && r.error.Panic?)))
  }

  /** `download_fastq`. The ghost results are the pairs downloaded, how
      many `aria2c` attempts each took and the files between them. */
  method DownloadFastq(os: Os, run: Ena.Record, outdir: Option<string>, attempts: nat, sleep: nat, force: bool)
    returns (r: Result<Unit, Abort>, ghost calls: seq<(string, string)>, ghost counts: seq<nat>,
             ghost states: seq<(nat, map<string, Bytes>)>)
    modifies os
    ensures FastqDownloaded(os, run, outdir.GetOr(DEFAULT_OUTDIR), attempts, force, old(os.spawned), os.spawned,
                            old(os.files), os.files, old(os.slept), os.slept, calls, counts, states, r)
    ensures os.dirs == old(os.dirs)
  {
    calls, counts, states := [], [], [(|os.spawned| as nat, os.files)];
    if "fastq_ftp" !in run {
      return Err(Panic(NO_FASTQ_FTP)), calls, counts, states;
    }
    var ftp := run["fastq_ftp"];
    if "fastq_md5" !in run {
      return Err(Panic(NO_FASTQ_MD5)), calls, counts, states;
    }
    var md5 := run["fastq_md5"];
    if "library_layout" !in run {
      return Err(Panic(NO_LAYOUT)), calls, counts, states;
    }
    var layout := run["library_layout"];
    if layout != PAIRED {
      return Ok(Unit), calls, counts, states;
    }
    var dir := outdir.GetOr(DEFAULT_OUTDIR);
    var pairs := Zip(Split(ftp, ';'), Split(md5, ';'));
    r, calls, counts, states := FetchPairs(os, pairs, run, dir, attempts, sleep, force);
  }

  /** What the portal yields for an accession, when the `k`-th request is
      answered by `replies(k)`: an accession no pattern matches ends the
      process with status 1 before any request; otherwise between one and
      `maxAttempts + 1` requests are made, all but the last failing, and the
      first record of the last reply is the run unless that reply failed
      too (status 1 again). */
  ghost predicate Queried(accession: string, maxAttempts: nat, replies: nat -> Ena.HttpReply, requests: nat,
                          r: Result<Ena.Record, Abort>)
  {
    match Utils.ValidateQuery(accession)
    case Err(_) => r == Err(Exit(1)) && requests == 0
    case Ok(_) =>
      && 1 <= requests <= maxAttempts + 1
      && (forall k :: 0 <= k < requests - 1 ==> Ena.MetadataResponse(replies(k)).Error?)
      && var last := Ena.MetadataResponse(replies(requests - 1));
         && (last.Error? ==> r == Err(Exit(1)) && requests == maxAttempts + 1)
         && (last.Success? ==> r == Ok(last.data[0]))
  }

  /** The first half of `get_fastqs` for one accession: the accession is
      classified, its runs are asked of the portal, and the first one is
      kept (more than one is only warned about). */
  method FirstRun(accession: string, maxAttempts: nat, sleep: nat, replies: nat -> Ena.HttpReply)
    returns (r: Result<Ena.Record, Abort>, ghost requests: nat)
    ensures Queried(accession, maxAttempts, replies, requests, r)
  {
    requests := 0;
    var query := Utils.ValidateQuery(accession);
    if query.Err? {
      return Err(Exit(1)), requests;
    }
    var info, urls, failures, slept := Ena.GetRunInfo(query.value, maxAttempts, sleep, replies);
    requests := |urls|;
    if info.Err? {
      return Err(info.error), requests;
    }
    var data := info.value;
    if |data| == 0 {
      return Err(Panic(NO_DATA)), requests;
    }
    r := Ok(data[0]);
  }

  /** `get_fastqs`: the first run of a single accession is downloaded; a
      list of accessions is not implemented. `requests` counts the portal
      requests and `first` is what the portal yielded. */
  method GetFastqs(os: Os, args: Cli.Args, replies: nat -> Ena.HttpReply)
    returns (r: Result<Unit, Abort>, ghost requests: nat, ghost first: Result<Ena.Record, Abort>,
             ghost calls: seq<(string, string)>, ghost counts: seq<nat>, ghost states: seq<(nat, map<string, Bytes>)>)
    modifies os
    ensures args.accession.List? || first.Err? ==>
              r == Err(if args.accession.List? then Panic("not yet implemented") else first.error)
              && os.spawned == old(os.spawned) && os.files == old(os.files) && os.slept == old(os.slept)
    ensures args.accession.Single? ==> Queried(args.accession.accession, args.attempts, replies, requests, first)
    ensures args.accession.Single? && first.Ok? ==>
              FastqDownloaded(os, first.value, args.outdir.GetOr(DEFAULT_OUTDIR), args.attempts, args.force,
                              old(os.spawned), os.spawned, old(os.files), os.files, old(os.slept), os.slept,
                              calls, counts, states, r)
    ensures os.dirs == old(os.dirs)
  {
    requests, first, calls, counts, states := 0, Err(Panic("not yet implemented")), [], [], [(|os.spawned| as nat, os.files)];
    match args.accession {
      case List(_) =>
        return Err(Panic("not yet implemented")), requests, first, calls, counts, states;
      case Single(accession) =>
        var run;
        run, requests := FirstRun(accession, args.attempts, args.sleep, replies);
        first := run;
        if run.Err? {
          return Err(run.error), requests, first, calls, counts, states;
        }
        r, calls, counts, states := DownloadFastq(os, run.value, args.outdir, args.attempts, args.sleep, args.force);
    }
  }
}
