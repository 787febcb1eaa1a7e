/** The SRA Toolkit downloader of `rsfq/src/provs/sra.rs`: `prefetch`,
    then `fasterq-dump`, then `pigz` on every raw FASTQ, each external tool
    run through a retry loop, with idempotent skipping of runs whose
    compressed FASTQs are already present. */
module Sra {
  import opened Wrappers
  import opened Text
  import opened Paths
  import opened Os

  /** Which compressed FASTQs a run should end with: one single-end file,
      the two mates, or either. */
  datatype Layout = Single | Paired | Global

  /** `SRAError`. */
  datatype SraError =
    | MissingTool(tool: string)
    | CommandFailed(tool: string, code: int)
    | NotFound(tool: string)
    | Io(error: string)
    | NoFastqProduced(accession: string)
    | LayoutMismatch(accession: string)

  const PREFETCH := "prefetch"
  const FASTERQ_DUMP := "fasterq-dump"
  const PIGZ := "pigz"

  /** The tools checked before anything else, in this order. */
  const TOOLS: seq<string> := [PREFETCH, FASTERQ_DUMP, PIGZ]

  /** The first of `tools` that is not on `PATH`. */
  function FirstMissing(onPath: set<string>, tools: seq<string>): Option<string>
  {
    if tools == [] then None
    else if tools[0] !in onPath then Some(tools[0])
    else FirstMissing(onPath, tools[1..])
  }

  /** No tool is missing exactly when all are on `PATH`; a missing one is
      the first tool not on `PATH`. */
  lemma {:induction false} FirstMissingSpec(onPath: set<string>, tools: seq<string>)
    ensures FirstMissing(onPath, tools).None? <==> forall i :: 0 <= i < |tools| ==> tools[i] in onPath
    ensures var r := FirstMissing(onPath, tools);
            r.Some? ==> exists i :: 0 <= i < |tools| && tools[i] == r.value && r.value !in onPath
                                    && forall j :: 0 <= j < i ==> tools[j] in onPath
  {
    if tools != [] && tools[0] in onPath {
      var rest := FirstMissing(onPath, tools[1..]);
      FirstMissingSpec(onPath, tools[1..]);
      assert forall i :: 1 <= i < |tools| ==> tools[i] == tools[1..][i - 1];
      if rest.Some? {
        var i :| 0 <= i < |tools[1..]| && tools[1..][i] == rest.value && rest.value !in onPath
                 && forall j :: 0 <= j < i ==> tools[1..][j] in onPath;
        assert tools[i + 1] == rest.value;
      }
    }
  }

  /** `ensure_tools`: the first tool `which` does not find is the error. */
  method EnsureTools(onPath: set<string>) returns (r: Result<Unit, SraError>)
    ensures r == match FirstMissing(onPath, TOOLS)
                 case None => Ok(Unit)
                 case Some(t) => Err(MissingTool(t))
  {
    for i := 0 to |TOOLS|
      invariant FirstMissing(onPath, TOOLS) == FirstMissing(onPath, TOOLS[i..])
    {
      assert TOOLS[i..][1..] == TOOLS[i + 1..];
      if TOOLS[i] !in onPath {
        return Err(MissingTool(TOOLS[i]));
      }
    }
    return Ok(Unit);
  }

  /** `threads.max(1)`. */
  function Max1(n: nat): nat { if n >= 1 then n else 1 }

  /** The compressed FASTQs a run can have: single-end, mate 1, mate 2. */
  function GzCandidates(acc: string, outdir: string): (c: seq<string>)
    ensures |c| == 3
  {
    [JoinPath(outdir, acc + ".fastq.gz"), JoinPath(outdir, acc + "_1.fastq.gz"),
     JoinPath(outdir, acc + "_2.fastq.gz")]
  }

  /** The uncompressed FASTQs `fasterq-dump --split-3` can write. */
  function RawCandidates(acc: string, outdir: string): (c: seq<string>)
    ensures |c| == 3
  {
    [JoinPath(outdir, acc + ".fastq"), JoinPath(outdir, acc + "_1.fastq"),
     JoinPath(outdir, acc + "_2.fastq")]
  }

  /** The `.sra` file `prefetch -o` writes inside the output directory. */
  function SraFile(acc: string, outdir: string): string
  {
    JoinPath(outdir, acc + ".sra")
  }

  /** Names built from the accession are all relative, or all absolute. */
  lemma SameAbsoluteness(acc: string, x: string, y: string)
    requires x != [] && y != [] && x[0] != '/' && y[0] != '/'
    ensures StartsWith(acc + x, "/") == StartsWith(acc + y, "/")
  {
    assert (acc + x)[0] == if acc != [] then acc[0] else x[0];
    assert (acc + y)[0] == if acc != [] then acc[0] else y[0];
  }

  /** Two suffixes of the accession name the same path only when they are equal. */
  lemma AccessionPathsDiffer(outdir: string, acc: string, x: string, y: string)
    requires x != [] && y != [] && x[0] != '/' && y[0] != '/'
    ensures JoinPath(outdir, acc + x) == JoinPath(outdir, acc + y) ==> x == y
  {
    if JoinPath(outdir, acc + x) == JoinPath(outdir, acc + y) {
      SameAbsoluteness(acc, x, y);
      JoinInjective(outdir, acc + x, acc + y);
      assert x == (acc + x)[|acc|..];
      assert y == (acc + y)[|acc|..];
    }
  }

  /** Different suffixes of the accession name different paths. */
  lemma SuffixesDiffer(outdir: string, acc: string, x: string, y: string)
    requires x != [] && y != [] && x[0] != '/' && y[0] != '/' && x != y
    ensures JoinPath(outdir, acc + x) != JoinPath(outdir, acc + y)
  {
    AccessionPathsDiffer(outdir, acc, x, y);
  }

  /** The three compressed candidates are different paths. */
  lemma GzDistinct(acc: string, outdir: string)
    ensures var gz := GzCandidates(acc, outdir);
            gz[0] != gz[1] && gz[0] != gz[2] && gz[1] != gz[2]
  {
    var single, mate1, mate2 := ".fastq.gz", "_1.fastq.gz", "_2.fastq.gz";
    assert |single| == 9 && |mate1| == 11 && mate1[1] == '1' && mate2[1] == '2';
    SuffixesDiffer(outdir, acc, single, mate1);
    SuffixesDiffer(outdir, acc, single, mate2);
    SuffixesDiffer(outdir, acc, mate1, mate2);
  }

  /** The three raw candidates are different paths. */
  lemma RawDistinct(acc: string, outdir: string)
    ensures var raw := RawCandidates(acc, outdir);
            raw[0] != raw[1] && raw[0] != raw[2] && raw[1] != raw[2]
  {
    var single, mate1, mate2 := ".fastq", "_1.fastq", "_2.fastq";
    assert |single| == 6 && |mate1| == 8 && mate1[1] == '1' && mate2[1] == '2';
    SuffixesDiffer(outdir, acc, single, mate1);
    SuffixesDiffer(outdir, acc, single, mate2);
    SuffixesDiffer(outdir, acc, mate1, mate2);
  }

  /** A suffix of the accession that differs from `.sra` names another path. */
  lemma NotSraSuffix(outdir: string, acc: string, x: string)
    requires x != [] && x[0] != '/' && x != ".sra"
    ensures SraFile(acc, outdir) != JoinPath(outdir, acc + x)
  {
    var sra := ".sra";
    assert sra[0] == '.';
    SuffixesDiffer(outdir, acc, sra, x);
  }

  /** The `.sra` file is none of the compressed candidates. */
  lemma SraNotGz(acc: string, outdir: string)
    ensures SraFile(acc, outdir) !in GzCandidates(acc, outdir)
  {
    var single, mate1, mate2 := ".fastq.gz", "_1.fastq.gz", "_2.fastq.gz";
    assert |single| == 9 && |mate1| == 11 && |mate2| == 11;
    NotSraSuffix(outdir, acc, single);
    NotSraSuffix(outdir, acc, mate1);
    NotSraSuffix(outdir, acc, mate2);
  }

  /** The `.sra` file is none of the raw candidates. */
  lemma SraNotRaw(acc: string, outdir: string)
    ensures SraFile(acc, outdir) !in RawCandidates(acc, outdir)
  {
    var single, mate1, mate2 := ".fastq", "_1.fastq", "_2.fastq";
    assert |single| == 6 && |mate1| == 8 && |mate2| == 8;
    NotSraSuffix(outdir, acc, single);
    NotSraSuffix(outdir, acc, mate1);
    NotSraSuffix(outdir, acc, mate2);
  }

  /** The candidates are different paths and the `.sra` file is none of them. */
  lemma CandidatesDistinct(acc: string, outdir: string)
    ensures var gz := GzCandidates(acc, outdir);
            gz[0] != gz[1] && gz[0] != gz[2] && gz[1] != gz[2]
    ensures var raw := RawCandidates(acc, outdir);
            raw[0] != raw[1] && raw[0] != raw[2] && raw[1] != raw[2]
    ensures SraFile(acc, outdir) !in GzCandidates(acc, outdir)
    ensures SraFile(acc, outdir) !in RawCandidates(acc, outdir)
  {
    GzDistinct(acc, outdir);
    RawDistinct(acc, outdir);
    SraNotGz(acc, outdir);
    SraNotRaw(acc, outdir);
  }

  /** Compressing the raw file with one suffix gives the compressed file
      with that suffix. */
  lemma GzOfRawSuffix(acc: string, outdir: string, raw: string, gz: string)
    requires raw != [] && gz == raw + ".gz"
    ensures JoinPath(outdir, acc + gz) == JoinPath(outdir, acc + raw) + ".gz"
  {
    assert acc + gz == (acc + raw) + ".gz";
    JoinAppend(outdir, acc + raw, ".gz");
  }

  /** Compressing a raw candidate gives the compressed candidate of the same position. */
  lemma GzOfRaw(acc: string, outdir: string)
    ensures forall i :: 0 <= i < 3 ==> GzCandidates(acc, outdir)[i] == RawCandidates(acc, outdir)[i] + ".gz"
  {
    GzOfRawSuffix(acc, outdir, ".fastq", ".fastq.gz");
    GzOfRawSuffix(acc, outdir, "_1.fastq", "_1.fastq.gz");
    GzOfRawSuffix(acc, outdir, "_2.fastq", "_2.fastq.gz");
  }

  /** With an accession that is a single path component, the candidates
      are named after it. */
  lemma CandidateNames(acc: string, outdir: string)
    requires acc != "" && '/' !in acc
    ensures FileName(GzCandidates(acc, outdir)[0]) == Some(acc + ".fastq.gz")
    ensures FileName(GzCandidates(acc, outdir)[1]) == Some(acc + "_1.fastq.gz")
    ensures FileName(GzCandidates(acc, outdir)[2]) == Some(acc + "_2.fastq.gz")
  {
    FileNameOfJoin(outdir, acc + ".fastq.gz");
    FileNameOfJoin(outdir, acc + "_1.fastq.gz");
    FileNameOfJoin(outdir, acc + "_2.fastq.gz");
  }

  /** `layout_satisfied`, with `present` the paths that exist. */
  predicate LayoutSatisfied(layout: Layout, present: set<string>, acc: string, outdir: string)
  {
    var c := GzCandidates(acc, outdir);
    var hasSingle := c[0] in present;
    var hasPaired := c[1] in present && c[2] in present;
    match layout
    case Single => hasSingle
    case Paired => hasPaired
    case Global => hasSingle || hasPaired
  }

  /** A global layout is satisfied exactly when a single or a paired one is. */
  lemma GlobalEitherLayout(present: set<string>, acc: string, outdir: string)
    ensures LayoutSatisfied(Global, present, acc, outdir)
            <==> LayoutSatisfied(Single, present, acc, outdir) || LayoutSatisfied(Paired, present, acc, outdir)
  {
  }

  /** More files never unsatisfy a layout. */
  lemma LayoutMonotone(layout: Layout, present: set<string>, more: set<string>, acc: string, outdir: string)
    requires present <= more && LayoutSatisfied(layout, present, acc, outdir)
    ensures LayoutSatisfied(layout, more, acc, outdir)
  {
  }

  /** `existing_paths`: the paths that exist, in their order. */
  function ExistingPaths(paths: seq<string>, present: set<string>): (r: seq<string>)
    ensures |r| <= |paths|
    ensures forall p :: p in r <==> p in paths && p in present
  {
    if paths == [] then []
    else (if paths[0] in present then [paths[0]] else []) + ExistingPaths(paths[1..], present)
  }

  /** Filtering two lists one after the other is filtering the whole: the
      paths kept stay in their order. */
  lemma {:induction false} ExistingPathsAppend(a: seq<string>, b: seq<string>, present: set<string>)
    ensures ExistingPaths(a + b, present) == ExistingPaths(a, present) + ExistingPaths(b, present)
  {
    if a == [] {
      assert a + b == b;
    } else {
      assert (a + b)[1..] == a[1..] + b;
      ExistingPathsAppend(a[1..], b, present);
    }
  }

  /** A present path is kept as often as it is listed, and an absent one
      never. */
  lemma {:induction false} ExistingPathsCount(paths: seq<string>, present: set<string>)
    ensures forall p :: multiset(ExistingPaths(paths, present))[p] == if p in present then multiset(paths)[p] else 0
  {
    if paths != [] {
      ExistingPathsCount(paths[1..], present);
      assert paths == [paths[0]] + paths[1..];
    }
  }

  /** All paths present gives them all back in order; none gives nothing. */
  lemma {:induction false} ExistingPathsAll(paths: seq<string>, present: set<string>)
    requires forall i :: 0 <= i < |paths| ==> paths[i] in present
    ensures ExistingPaths(paths, present) == paths
  {
    if paths != [] {
      ExistingPathsAll(paths[1..], present);
    }
  }

  /** A satisfied layout always leaves at least one path to report, two
      for paired runs. */
  lemma SatisfiedHasPaths(layout: Layout, present: set<string>, acc: string, outdir: string)
    requires LayoutSatisfied(layout, present, acc, outdir)
    ensures ExistingPaths(GzCandidates(acc, outdir), present) != []
    ensures layout == Paired ==> |ExistingPaths(GzCandidates(acc, outdir), present)| >= 2
  {
    var c := GzCandidates(acc, outdir);
    var e := ExistingPaths(c, present);
    assert c[0] in c && c[1] in c && c[2] in c;
    if layout == Paired {
      GzDistinct(acc, outdir);
      assert c[1] in e && c[2] in e;
      TwoMembers(e, c[1], c[2]);
    }
  }

  /** A sequence holding two different values has at least two elements. */
  lemma TwoMembers<T>(e: seq<T>, a: T, b: T)
    requires a in e && b in e && a != b
    ensures |e| >= 2
  {
  }

  /** `remove_existing`: every one of `paths` that exists is removed. */
  method RemoveExisting(os: Os, paths: seq<string>)
    modifies os
    ensures os.files == old(os.files) - (set p | p in paths)
    ensures os.dirs == old(os.dirs) && os.spawned == old(os.spawned) && os.slept == old(os.slept)
  {
    for i := 0 to |paths|
      invariant os.files == old(os.files) - (set p | p in paths[..i])
      invariant os.dirs == old(os.dirs) && os.spawned == old(os.spawned) && os.slept == old(os.slept)
    {
      assert paths[..i + 1] == paths[..i] + [paths[i]];
      if paths[i] in os.files {
        os.RemoveFile(paths[i]);
      }
    }
    assert paths[..|paths|] == paths;
  }

  /** `cleanup_sra`: the `.sra` file is removed if it exists. */
  method CleanupSra(os: Os, acc: string, outdir: string)
    modifies os
    ensures os.files == old(os.files) - {SraFile(acc, outdir)}
    ensures os.dirs == old(os.dirs) && os.spawned == old(os.spawned) && os.slept == old(os.slept)
  {
    var sra := SraFile(acc, outdir);
    if sra in os.files {
      os.RemoveFile(sra);
    }
  }

  /** A failure `run_with_retry` answers with another attempt. */
  predicate Transient(st: ExitStatus)
  {
    st.Exited? && st.code != 0 && st.code != 3
  }

  /** What `run_with_retry` returns after the attempt that ended with `st`
      when it stops there. */
  function Verdict(st: ExitStatus, tool: string): (r: Result<Unit, SraError>)
    ensures r.Ok? <==> st.Success()
    ensures r.Err? ==> !r.error.NoFastqProduced? && !r.error.LayoutMismatch?
  {
    match st
    case SpawnFailed(e) => Err(Io(e))
    case Signalled => Err(CommandFailed(tool, -1))
    case Exited(c) =>
      if c == 0 then Ok(Unit) else if c == 3 then Err(NotFound(tool)) else Err(CommandFailed(tool, c))
  }

  /** `run_with_retry`: run `cmd` until it succeeds, at most `attempts`
      times, sleeping `sleep` seconds between attempts. Only an ordinary
      failure (an exit code other than 0 and 3) is retried; a missing
      exit code, exit code 3 and a failure to spawn stop at once. */
  method RunWithRetry(os: Os, cmd: Command, attempts: nat, sleep: nat, tool: string)
    returns (r: Result<Unit, SraError>, ghost n: nat)
    modifies os
    ensures os.spawned == old(os.spawned) + Repeat(cmd, n)
    ensures Retried(os, |old(os.spawned)|, n, attempts)
    ensures r == RetryResult(os, |old(os.spawned)|, n, tool)
    ensures os.slept == old(os.slept) + Repeat(sleep, Pauses(n))
    ensures os.files == os.FilesAfter(old(os.files), |old(os.spawned)|, n)
    ensures os.dirs == old(os.dirs)
  {
    ghost var base := |os.spawned|;
    var current := 0;
    while current < attempts
      invariant 0 <= current <= attempts
      invariant os.spawned == old(os.spawned) + Repeat(cmd, current)
      invariant forall k :: base <= k < base + current ==> Transient(os.world(k).status)
      invariant os.slept == old(os.slept) + Repeat(sleep, current)
      invariant os.files == os.FilesAfter(old(os.files), base, current)
      invariant os.dirs == old(os.dirs)
      invariant current == 0 || current < attempts
    {
      current := current + 1;
      var status := os.Spawn(cmd);
      assert os.spawned == old(os.spawned) + Repeat(cmd, current);
      if status.SpawnFailed? {
        return Err(Io(status.error)), current;
      }
      if status.Success() {
        return Ok(Unit), current;
      }
      match status {
        case Exited(code) =>
          if code == 3 {
            return Err(NotFound(tool)), current;
          }
          if current >= attempts {
            return Err(CommandFailed(tool, code)), current;
          }
        case Signalled =>
          return Err(CommandFailed(tool, -1)), current;
      }
      os.Sleep(sleep);
      assert os.slept == old(os.slept) + Repeat(sleep, current);
    }
    return Err(CommandFailed(tool, 1)), current;
  }

  function PrefetchCommand(acc: string, outdir: string): Command
  {
    Command(PREFETCH, [acc, "--max-size", "10T", "-o", acc + ".sra"], Some(outdir))
  }

  function DumpCommand(acc: string, outdir: string, threads: nat): Command
  {
    Command(FASTERQ_DUMP, [acc, "--split-3", "--mem", "1G", "--threads", NatToString(Max1(threads))], Some(outdir))
  }

  function PigzCommand(raw: string, outdir: string, threads: nat): Command
  {
    Command(PIGZ, ["--force", "-p", NatToString(Max1(threads)), "-n", raw], Some(outdir))
  }

  /** The first `|flags|` elements of `xs` whose flag is set, in order. */
  function Pick(xs: seq<string>, flags: seq<bool>): (r: seq<string>)
    requires |flags| <= |xs|
    ensures |r| <= |flags|
  {
    if flags == [] then []
    else
      var n := |flags| - 1;
      Pick(xs, flags[..n]) + (if flags[n] then [xs[n]] else [])
  }

  /** Everything picked is one of the elements. */
  lemma {:induction false} PickIn(xs: seq<string>, flags: seq<bool>)
    requires |flags| <= |xs|
    ensures forall p :: p in Pick(xs, flags) ==> p in xs
  {
    if flags != [] {
      PickIn(xs, flags[..|flags| - 1]);
    }
  }

  /** The compressed name of each path, in order. */
  function GzNames(raws: seq<string>): (r: seq<string>)
    ensures |r| == |raws| && forall i :: 0 <= i < |raws| ==> r[i] == raws[i] + ".gz"
  {
    seq(|raws|, i requires 0 <= i < |raws| => raws[i] + ".gz")
  }

  /** The `pigz` command of each path, in order. */
  function PigzCommands(raws: seq<string>, outdir: string, threads: nat): (r: seq<Command>)
    ensures |r| == |raws| && forall i :: 0 <= i < |raws| ==> r[i] == PigzCommand(raws[i], outdir, threads)
  {
    seq(|raws|, i requires 0 <= i < |raws| => PigzCommand(raws[i], outdir, threads))
  }

  lemma PickSnoc(xs: seq<string>, flags: seq<bool>, b: bool)
    requires |flags| < |xs|
    ensures Pick(xs, flags + [b]) == Pick(xs, flags) + (if b then [xs[|flags|]] else [])
  {
    assert (flags + [b])[..|flags|] == flags;
  }

  lemma PigzCommandsSnoc(raws: seq<string>, raw: string, outdir: string, threads: nat)
    ensures PigzCommands(raws + [raw], outdir, threads) == PigzCommands(raws, outdir, threads) + [PigzCommand(raw, outdir, threads)]
  {
  }

  lemma GzNamesSnoc(raws: seq<string>, raw: string)
    ensures GzNames(raws + [raw]) == GzNames(raws) + [raw + ".gz"]
  {
  }

  /** One `pigz` attempt on `raw`. */
  method CompressOne(os: Os, raw: string, outdir: string, threads: nat) returns (res: Result<Unit, SraError>)
    modifies os
    ensures os.spawned == old(os.spawned) + [PigzCommand(raw, outdir, threads)]
    ensures res == Verdict(os.world(|old(os.spawned)|).status, PIGZ)
    ensures os.files == os.FilesAfter(old(os.files), |old(os.spawned)|, 1)
    ensures os.dirs == old(os.dirs) && os.slept == old(os.slept)
  {
    ghost var n;
    res, n := RunWithRetry(os, PigzCommand(raw, outdir, threads), 1, 0, PIGZ);
    assert Repeat(PigzCommand(raw, outdir, threads), 1) == [PigzCommand(raw, outdir, threads)];
  }

  /** What the loop of `compress_fastqs` has done once the first `|seen|`
      of `raws` have been checked, given the commands `spawned` and the
      files `files` at that point: `done` are the candidates found, each
      compressed by one `pigz` run, in order. */
  ghost predicate Traced(os: Os, raws: seq<string>, outdir: string, threads: nat,
                         start: map<string, Bytes>, spawned0: seq<Command>,
                         spawned: seq<Command>, files: map<string, Bytes>,
                         seen: seq<bool>, done: seq<string>)
  {
    && |seen| <= |raws| && done == Pick(raws, seen)
    && spawned == spawned0 + PigzCommands(done, outdir, threads)
    && CompressTrace(os, raws, seen, start, |spawned0|)
    && files == os.FilesAfter(start, |spawned0|, |done|)
  }

  /** A candidate found is compressed by the next `pigz` run. */
  lemma TracedPresent(os: Os, raws: seq<string>, outdir: string, threads: nat,
                      start: map<string, Bytes>, spawned0: seq<Command>,
                      spawned: seq<Command>, files: map<string, Bytes>,
                      seen: seq<bool>, done: seq<string>,
                      spawned1: seq<Command>, files1: map<string, Bytes>)
    requires |seen| < |raws| && Traced(os, raws, outdir, threads, start, spawned0, spawned, files, seen, done)
    requires raws[|seen|] in files
    requires spawned1 == spawned + [PigzCommand(raws[|seen|], outdir, threads)]
    requires files1 == os.FilesAfter(files, |spawned|, 1)
    ensures Traced(os, raws, outdir, threads, start, spawned0, spawned1, files1, seen + [true], done + [raws[|seen|]])
  {
    PickSnoc(raws, seen, true);
    CompressTraceSnoc(os, raws, seen, true, start, |spawned0|);
    os.FilesAfterStep(start, |spawned0|, |done|);
    PigzCommandsSnoc(done, raws[|seen|], outdir, threads);
  }

  /** A candidate missing is skipped. */
  lemma TracedAbsent(os: Os, raws: seq<string>, outdir: string, threads: nat,
                     start: map<string, Bytes>, spawned0: seq<Command>,
                     spawned: seq<Command>, files: map<string, Bytes>,
                     seen: seq<bool>, done: seq<string>)
    requires |seen| < |raws| && Traced(os, raws, outdir, threads, start, spawned0, spawned, files, seen, done)
    requires raws[|seen|] !in files
    ensures Traced(os, raws, outdir, threads, start, spawned0, spawned, files, seen + [false], done)
  {
    PickSnoc(raws, seen, false);
    CompressTraceSnoc(os, raws, seen, false, start, |spawned0|);
  }

  /** The state of the loop of `compress_fastqs` between turns: every
      compression so far succeeded and `produced` holds the `.gz` names. */
  ghost predicate Compressed(os: Os, raws: seq<string>, outdir: string, threads: nat,
                             start: map<string, Bytes>, spawned0: seq<Command>,
                             seen: seq<bool>, done: seq<string>, produced: seq<string>)
    reads os
  {
    && Traced(os, raws, outdir, threads, start, spawned0, os.spawned, os.files, seen, done)
    && produced == GzNames(done)
    && (forall k :: |spawned0| <= k < |spawned0| + |done| ==> os.world(k).status.Success())
  }

  /** One turn of the loop of `compress_fastqs`: the next candidate is
      compressed if it exists. */
  method CompressNext(os: Os, raws: seq<string>, i: nat, outdir: string, threads: nat,
                      ghost start: map<string, Bytes>, ghost spawned0: seq<Command>,
                      ghost seen: seq<bool>, ghost done: seq<string>, produced: seq<string>)
    returns (r: Result<Unit, SraError>, ghost seen1: seq<bool>, ghost done1: seq<string>, produced1: seq<string>)
    requires i == |seen| < |raws| && Compressed(os, raws, outdir, threads, start, spawned0, seen, done, produced)
    modifies os
    ensures seen1 == seen + [raws[|seen|] in old(os.files)]
    ensures Traced(os, raws, outdir, threads, start, spawned0, os.spawned, os.files, seen1, done1)
    ensures forall k :: |spawned0| <= k < |os.spawned| - 1 ==> os.world(k).status.Success()
    ensures r.Ok? ==> Compressed(os, raws, outdir, threads, start, spawned0, seen1, done1, produced1)
    ensures r.Err? ==> done1 != [] && Verdict(os.world(|os.spawned| - 1).status, PIGZ) == r
                       && !os.world(|os.spawned| - 1).status.Success()
    ensures os.dirs == old(os.dirs) && os.slept == old(os.slept)
  {
    if raws[i] in os.files {
      ghost var spawned, files := os.spawned, os.files;
      r := CompressOne(os, raws[i], outdir, threads);
      TracedPresent(os, raws, outdir, threads, start, spawned0, spawned, files, seen, done, os.spawned, os.files);
      GzNamesSnoc(done, raws[i]);
      seen1 := seen + [true];
      done1 := done + [raws[i]];
      produced1 := produced + [raws[i] + ".gz"];
    } else {
      TracedAbsent(os, raws, outdir, threads, start, spawned0, os.spawned, os.files, seen, done);
      seen1 := seen + [false];
      done1 := done;
      produced1 := produced;
      r := Ok(Unit);
    }
  }

  /** The loop of `compress_fastqs` over `raws`: every path that exists
      when it is reached is compressed by one `pigz` attempt, in order, and
      its `.gz` name is reported; the first failed compression stops the
      loop. `seen[j]` records whether `raws[j]` existed when it was checked. */
  method CompressEach(os: Os, raws: seq<string>, outdir: string, threads: nat)
    returns (res: Result<Unit, SraError>, produced: seq<string>, ghost seen: seq<bool>, ghost done: seq<string>)
    modifies os
    ensures |seen| <= |raws| && done == Pick(raws, seen)
    ensures CompressTrace(os, raws, seen, old(os.files), |old(os.spawned)|)
    ensures os.spawned == old(os.spawned) + PigzCommands(done, outdir, threads)
    ensures os.files == os.FilesAfter(old(os.files), |old(os.spawned)|, |done|)
    ensures forall k :: |old(os.spawned)| <= k < |os.spawned| - 1 ==> os.world(k).status.Success()
    ensures res.Ok? ==> |seen| == |raws| && produced == GzNames(done)
                        && (done != [] ==> os.world(|os.spawned| - 1).status.Success())
    ensures res.Err? ==> done != [] && Verdict(os.world(|os.spawned| - 1).status, PIGZ) == res
                         && !os.world(|os.spawned| - 1).status.Success()
    ensures os.dirs == old(os.dirs) && os.slept == old(os.slept)
  {
    ghost var spawned0 := os.spawned;
    ghost var start := os.files;
    done := [];
    produced := [];
    seen := [];
    for i := 0 to |raws|
      invariant |seen| == i
      invariant Compressed(os, raws, outdir, threads, start, spawned0, seen, done, produced)
      invariant os.dirs == old(os.dirs) && os.slept == old(os.slept)
    {
      res, seen, done, produced := CompressNext(os, raws, i, outdir, threads, start, spawned0, seen, done, produced);
      if res.Err? {
        return;
      }
    }
    res := Ok(Unit);
  }

  /** What `compress_fastqs` yields when it starts from the files `files0`
      and the next process spawned is number `base`: `seen` traces which
      raw candidates existed when checked, and `done` are the ones
      compressed, in order. Every compression before the last succeeded.
      Success reports their `.gz` names; a failure is the verdict on the
      last compression or, when no candidate existed, `NoFastqProduced`. */
  ghost predicate CompressOutcome(os: Os, acc: string, outdir: string, files0: map<string, Bytes>, base: nat,
                                  seen: seq<bool>, done: seq<string>, r: Result<seq<string>, SraError>)
  {
    && |seen| <= 3 && done == Pick(RawCandidates(acc, outdir), seen)
    && CompressTrace(os, RawCandidates(acc, outdir), seen, files0, base)
    && (forall k :: base <= k < base + |done| - 1 ==> os.world(k).status.Success())
    && (r.Ok? ==> |seen| == 3 && r.value == GzNames(done) && r.value != []
                  && os.world(base + |done| - 1).status.Success())
    && (r == Err(NoFastqProduced(acc)) <==> |seen| == 3 && done == [])
    && (r.Err? && done == [] ==> r == Err(NoFastqProduced(acc)))
    && (r.Err? && done != [] ==> Verdict(os.world(base + |done| - 1).status, PIGZ) == Err(r.error)
                                 && !os.world(base + |done| - 1).status.Success())
  }

  /** `compress_fastqs`: the raw candidates compressed in order; none
      found is the error `NoFastqProduced`. */
  method CompressFastqs(os: Os, acc: string, outdir: string, threads: nat)
    returns (r: Result<seq<string>, SraError>, ghost seen: seq<bool>, ghost done: seq<string>)
    modifies os
    ensures CompressOutcome(os, acc, outdir, old(os.files), |old(os.spawned)|, seen, done, r)
    ensures os.spawned == old(os.spawned) + PigzCommands(done, outdir, threads)
    ensures os.files == os.FilesAfter(old(os.files), |old(os.spawned)|, |done|)
    ensures os.dirs == old(os.dirs) && os.slept == old(os.slept)
  {
    var res, produced;
    res, produced, seen, done := CompressEach(os, RawCandidates(acc, outdir), outdir, threads);
    assert |os.spawned| == |old(os.spawned)| + |done|;
    if res.Err? {
      return Err(res.error), seen, done;
    }
    assert |produced| == |done|;
    if produced == [] {
      return Err(NoFastqProduced(acc)), seen, done;
    }
    return Ok(produced), seen, done;
  }

  /** Whether `download_run` finds nothing to do: every tool is on `PATH`,
      downloading is not forced and the layout is already satisfied. */
  predicate Skips(onPath: set<string>, present: set<string>, acc: string, outdir: string, force: bool, layout: Layout)
  {
    FirstMissing(onPath, TOOLS).None? && !force && LayoutSatisfied(layout, present, acc, outdir)
  }

  /** The processes `download_run` spawns once it downloads: `nPrefetch`
      attempts of `prefetch`, then `nDump` of `fasterq-dump`, then one `pigz`
      per raw FASTQ in `compressed`; a tool runs only after the one before
      it succeeded, and only raw candidates are compressed. */
  ghost predicate FetchShape(os: Os, spawned0: seq<Command>, spawned: seq<Command>, acc: string, outdir: string,
                             threads: nat, attempts: nat, nPrefetch: nat, nDump: nat, compressed: seq<string>)
  {
    && spawned == spawned0 + Repeat(PrefetchCommand(acc, outdir), nPrefetch)
                     + Repeat(DumpCommand(acc, outdir, threads), nDump)
                     + PigzCommands(compressed, outdir, threads)
    && nPrefetch <= attempts && nDump <= attempts
    && (nDump > 0 ==> nPrefetch > 0 && os.world(|spawned0| + nPrefetch - 1).status.Success())
    && (compressed != [] ==>
          nDump > 0 && os.world(|spawned0| + nPrefetch + nDump - 1).status.Success())
    && (forall p :: p in compressed ==> p in RawCandidates(acc, outdir))
  }

  /** What `run_with_retry` returns after `n` attempts numbered from
      `base`: the verdict on the last one, or `CommandFailed(tool, 1)` when
      no attempt was made. */
  function RetryResult(os: Os, base: nat, n: nat, tool: string): Result<Unit, SraError>
  {
    if n == 0 then Err(CommandFailed(tool, 1)) else Verdict(os.world(base + n - 1).status, tool)
  }

  /** The attempts of `run_with_retry` numbered from `base`: none exactly
      when `attempts` is zero and at most `attempts`; every one before the
      last was an ordinary failure, and the last is one only when the
      attempts ran out. */
  ghost predicate Retried(os: Os, base: nat, n: nat, attempts: nat)
  {
    && n <= attempts && (n == 0 <==> attempts == 0)
    && (forall k :: base <= k < base + n - 1 ==> Transient(os.world(k).status))
    && (n > 0 && Transient(os.world(base + n - 1).status) ==> n == attempts)
  }

  /** The sleeps between `n` attempts. */
  function Pauses(n: nat): nat { if n == 0 then 0 else n - 1 }

  /** The end of `download_run`, from the files `files0` with the next
      process numbered `base`, when `compress_fastqs` compressed `done`
      with the outcome `compression`: a failure is passed on and the
      `.sra` file stays; otherwise the `.sra` file is removed, and the
      result is `LayoutMismatch` when the files left do not satisfy the
      layout, else the compressed names, or the candidates that exist
      when none was compressed. The second component is the files left. */
  function ConvertResult(os: Os, acc: string, outdir: string, layout: Layout, files0: map<string, Bytes>, base: nat,
                         done: seq<string>, compression: Result<seq<string>, SraError>)
    : (Result<seq<string>, SraError>, map<string, Bytes>)
  {
    var compressed := os.FilesAfter(files0, base, |done|);
    if compression.Err? then (Err(compression.error), compressed)
    else
      var left := compressed - {SraFile(acc, outdir)};
      if !LayoutSatisfied(layout, left.Keys, acc, outdir) then (Err(LayoutMismatch(acc)), left)
      else if compression.value == [] then (Ok(ExistingPaths(GzCandidates(acc, outdir), left.Keys)), left)
      else (Ok(compression.value), left)
  }

  /** `download_run` after `prefetch` succeeded, from the files `files0`
      with the next process numbered `base`, when `fasterq-dump` made
      `nDump` attempts: its failure is the result (`?`), otherwise the run
      is converted. The second component is the files left. */
  function DumpResult(os: Os, acc: string, outdir: string, layout: Layout, files0: map<string, Bytes>, base: nat,
                      nDump: nat, done: seq<string>, compression: Result<seq<string>, SraError>)
    : (Result<seq<string>, SraError>, map<string, Bytes>)
  {
    var dumped := RetryResult(os, base, nDump, FASTERQ_DUMP);
    var files1 := os.FilesAfter(files0, base, nDump);
    if dumped.Err? then (Err(dumped.error), files1)
    else ConvertResult(os, acc, outdir, layout, files1, base + nDump, done, compression)
  }

  /** `download_run` once it downloads, from the files `files0` with the
      next process numbered `base`, when `prefetch` made `nPrefetch`
      attempts: its failure is the result (`?`) and nothing after it runs;
      otherwise the run is dumped and converted. The second component is
      the files left. */
  function DownloadResult(os: Os, acc: string, outdir: string, layout: Layout, files0: map<string, Bytes>, base: nat,
                          nPrefetch: nat, nDump: nat, done: seq<string>, compression: Result<seq<string>, SraError>)
    : (Result<seq<string>, SraError>, map<string, Bytes>)
  {
    var fetched := RetryResult(os, base, nPrefetch, PREFETCH);
    var files1 := os.FilesAfter(files0, base, nPrefetch);
    if fetched.Err? then (Err(fetched.error), files1)
    else DumpResult(os, acc, outdir, layout, files1, base + nPrefetch, nDump, done, compression)
  }

  /** The attempts behind `DumpResult`: `fasterq-dump` retried as
      `run_with_retry` does, then, after its success, `compress_fastqs` as
      `CompressOutcome` says. */
  ghost predicate DumpTrace(os: Os, acc: string, outdir: string, attempts: nat, files0: map<string, Bytes>, base: nat,
                            nDump: nat, seen: seq<bool>, done: seq<string>, compression: Result<seq<string>, SraError>)
  {
    && Retried(os, base, nDump, attempts)
    && (RetryResult(os, base, nDump, FASTERQ_DUMP).Ok? ==>
          CompressOutcome(os, acc, outdir, os.FilesAfter(files0, base, nDump), base + nDump, seen, done, compression))
  }

  /** The attempts behind `DownloadResult`: `prefetch` retried as
      `run_with_retry` does, then, after its success, the rest as
      `DumpTrace` says. */
  ghost predicate DownloadTrace(os: Os, acc: string, outdir: string, attempts: nat,
                                files0: map<string, Bytes>, base: nat, nPrefetch: nat, nDump: nat,
                                seen: seq<bool>, done: seq<string>, compression: Result<seq<string>, SraError>)
  {
    && Retried(os, base, nPrefetch, attempts)
    && (RetryResult(os, base, nPrefetch, PREFETCH).Ok? ==>
          DumpTrace(os, acc, outdir, attempts, os.FilesAfter(files0, base, nPrefetch), base + nPrefetch,
                    nDump, seen, done, compression))
  }

  /** A successful conversion, after a `compress_fastqs` that reports the
      `.gz` names of what it compressed and never none, reports those names,
      satisfies the layout and leaves no `.sra` file. */
  lemma ConvertSucceeded(os: Os, acc: string, outdir: string, layout: Layout, files0: map<string, Bytes>, base: nat,
                         done: seq<string>, compression: Result<seq<string>, SraError>,
                         r: Result<seq<string>, SraError>, files: map<string, Bytes>)
    requires compression.Ok? ==> compression.value == GzNames(done) && compression.value != []
    requires (r, files) == ConvertResult(os, acc, outdir, layout, files0, base, done, compression)
    requires r.Ok?
    ensures r.value == GzNames(done) && r.value != []
    ensures LayoutSatisfied(layout, files.Keys, acc, outdir) && SraFile(acc, outdir) !in files
  {
  }

  /** With no attempts allowed, `prefetch` never runs and `download_run`
      fails with `CommandFailed(prefetch, 1)`, leaving the files as they
      were. */
  lemma NoAttemptsFetchNothing(os: Os, acc: string, outdir: string, layout: Layout,
                               files0: map<string, Bytes>, base: nat, nPrefetch: nat, nDump: nat,
                               done: seq<string>, compression: Result<seq<string>, SraError>)
    requires Retried(os, base, nPrefetch, 0)
    ensures nPrefetch == 0
    ensures DownloadResult(os, acc, outdir, layout, files0, base, nPrefetch, nDump, done, compression)
            == (Err(CommandFailed(PREFETCH, 1)), files0)
  {
  }

  /** The work of `download_run` once it has decided to download:
      `prefetch` (retried), then the rest as `DumpAndConvert` does. The
      ghost results count the attempts of each tool, name the raw files
      compressed and give the trace and the outcome of `compress_fastqs`. */
  method Fetch(os: Os, acc: string, outdir: string, threads: nat, attempts: nat, sleep: nat, layout: Layout,
               ghost files0: map<string, Bytes>, ghost base: nat)
    returns (r: Result<seq<string>, SraError>, ghost nPrefetch: nat, ghost nDump: nat, ghost seen: seq<bool>,
             ghost compressed: seq<string>, ghost compression: Result<seq<string>, SraError>)
    requires files0 == os.files && base == |os.spawned|
    modifies os
    ensures FetchShape(os, old(os.spawned), os.spawned, acc, outdir, threads, attempts, nPrefetch, nDump, compressed)
    ensures DownloadTrace(os, acc, outdir, attempts, files0, base, nPrefetch, nDump, seen, compressed, compression)
    ensures (r, os.files) == DownloadResult(os, acc, outdir, layout, files0, base, nPrefetch, nDump, compressed, compression)
    ensures r.Ok? ==> nPrefetch > 0 && nDump > 0
    ensures r.Ok? ==> r.value == GzNames(compressed) && r.value != []
                      && LayoutSatisfied(layout, os.files.Keys, acc, outdir) && SraFile(acc, outdir) !in os.files
    ensures os.slept == old(os.slept) + Repeat(sleep, Pauses(nPrefetch)) + Repeat(sleep, Pauses(nDump))
    ensures os.dirs == old(os.dirs)
  {
    var fetched;
    fetched, nPrefetch := RunWithRetry(os, PrefetchCommand(acc, outdir), attempts, sleep, PREFETCH);
    if fetched.Err? {
      nDump, seen, compressed, compression := 0, [], [], Err(NoFastqProduced(acc));
      assert Repeat(sleep, 0) == [] && Repeat(DumpCommand(acc, outdir, threads), 0) == [];
      FetchFailed(os, acc, outdir, layout, attempts, files0, base, nPrefetch, nDump, seen, compressed, compression);
      return Err(fetched.error), nPrefetch, nDump, seen, compressed, compression;
    }
    assert nPrefetch > 0 && os.world(base + nPrefetch - 1).status.Success();
    r, nDump, seen, compressed, compression :=
      DumpAndConvert(os, acc, outdir, threads, attempts, sleep, layout, os.FilesAfter(files0, base, nPrefetch), base + nPrefetch);
    FetchDumped(os, acc, outdir, layout, attempts, files0, base, nPrefetch, nDump, seen, compressed, compression);
  }

  /** After a failed `prefetch`, the download fails with its error and
      nothing else runs. */
  lemma FetchFailed(os: Os, acc: string, outdir: string, layout: Layout, attempts: nat,
                    files0: map<string, Bytes>, base: nat, nPrefetch: nat, nDump: nat,
                    seen: seq<bool>, done: seq<string>, compression: Result<seq<string>, SraError>)
    requires Retried(os, base, nPrefetch, attempts) && RetryResult(os, base, nPrefetch, PREFETCH).Err?
    ensures DownloadTrace(os, acc, outdir, attempts, files0, base, nPrefetch, nDump, seen, done, compression)
    ensures DownloadResult(os, acc, outdir, layout, files0, base, nPrefetch, nDump, done, compression)
            == (Err(RetryResult(os, base, nPrefetch, PREFETCH).error), os.FilesAfter(files0, base, nPrefetch))
  {
  }

  /** After a successful `prefetch`, the trace and the result of the whole
      of the download are those of the rest. */
  lemma FetchDumped(os: Os, acc: string, outdir: string, layout: Layout, attempts: nat,
                    files0: map<string, Bytes>, base: nat, nPrefetch: nat, nDump: nat,
                    seen: seq<bool>, done: seq<string>, compression: Result<seq<string>, SraError>)
    requires Retried(os, base, nPrefetch, attempts) && RetryResult(os, base, nPrefetch, PREFETCH).Ok?
    ensures DownloadTrace(os, acc, outdir, attempts, files0, base, nPrefetch, nDump, seen, done, compression)
            <==> DumpTrace(os, acc, outdir, attempts, os.FilesAfter(files0, base, nPrefetch), base + nPrefetch,
                           nDump, seen, done, compression)
    ensures DownloadResult(os, acc, outdir, layout, files0, base, nPrefetch, nDump, done, compression)
            == DumpResult(os, acc, outdir, layout, os.FilesAfter(files0, base, nPrefetch), base + nPrefetch,
                          nDump, done, compression)
  {
  }

  /** `download_run` after `prefetch` succeeded: `fasterq-dump` (retried),
      then one `pigz` per raw FASTQ, in that order; then the `.sra` file is
      removed and the layout checked. */
  method DumpAndConvert(os: Os, acc: string, outdir: string, threads: nat, attempts: nat, sleep: nat, layout: Layout,
                        ghost files0: map<string, Bytes>, ghost base: nat)
    returns (r: Result<seq<string>, SraError>, ghost nDump: nat, ghost seen: seq<bool>,
             ghost compressed: seq<string>, ghost compression: Result<seq<string>, SraError>)
    requires files0 == os.files && base == |os.spawned|
    modifies os
    ensures os.spawned == old(os.spawned) + Repeat(DumpCommand(acc, outdir, threads), nDump)
                          + PigzCommands(compressed, outdir, threads)
    ensures nDump <= attempts
    ensures compressed != [] ==> nDump > 0 && os.world(base + nDump - 1).status.Success()
    ensures forall p :: p in compressed ==> p in RawCandidates(acc, outdir)
    ensures DumpTrace(os, acc, outdir, attempts, files0, base, nDump, seen, compressed, compression)
    ensures (r, os.files) == DumpResult(os, acc, outdir, layout, files0, base, nDump, compressed, compression)
    ensures r.Ok? ==> nDump > 0
    ensures r.Ok? ==> r.value == GzNames(compressed) && r.value != []
                      && LayoutSatisfied(layout, os.files.Keys, acc, outdir) && SraFile(acc, outdir) !in os.files
    ensures os.slept == old(os.slept) + Repeat(sleep, Pauses(nDump))
    ensures os.dirs == old(os.dirs)
  {
    var dumped;
    dumped, nDump := RunWithRetry(os, DumpCommand(acc, outdir, threads), attempts, sleep, FASTERQ_DUMP);
    if dumped.Err? {
      seen, compressed, compression := [], [], Err(NoFastqProduced(acc));
      return Err(dumped.error), nDump, seen, compressed, compression;
    }
    assert nDump > 0 && os.world(base + nDump - 1).status.Success();
    ghost var spawned1 := os.spawned;
    r, seen, compressed, compression :=
      Convert(os, acc, outdir, threads, layout, os.FilesAfter(files0, base, nDump), base + nDump);
    assert os.spawned == spawned1 + PigzCommands(compressed, outdir, threads);
    DumpConverted(os, acc, outdir, layout, attempts, files0, base, nDump, seen, compressed, compression);
  }

  /** After a successful `fasterq-dump`, the trace and the result of the
      rest of the download are those of the conversion. */
  lemma DumpConverted(os: Os, acc: string, outdir: string, layout: Layout, attempts: nat,
                      files0: map<string, Bytes>, base: nat, nDump: nat,
                      seen: seq<bool>, done: seq<string>, compression: Result<seq<string>, SraError>)
    requires Retried(os, base, nDump, attempts) && RetryResult(os, base, nDump, FASTERQ_DUMP).Ok?
    ensures DumpTrace(os, acc, outdir, attempts, files0, base, nDump, seen, done, compression)
            <==> CompressOutcome(os, acc, outdir, os.FilesAfter(files0, base, nDump), base + nDump, seen, done, compression)
    ensures DumpResult(os, acc, outdir, layout, files0, base, nDump, done, compression)
            == ConvertResult(os, acc, outdir, layout, os.FilesAfter(files0, base, nDump), base + nDump, done, compression)
  {
  }

  /** The end of `download_run`: compress the raw FASTQs, remove the `.sra`
      file and check the layout. */
  method Convert(os: Os, acc: string, outdir: string, threads: nat, layout: Layout,
                 ghost files0: map<string, Bytes>, ghost base: nat)
    returns (r: Result<seq<string>, SraError>, ghost seen: seq<bool>, ghost compressed: seq<string>,
             ghost compression: Result<seq<string>, SraError>)
    requires files0 == os.files && base == |os.spawned|
    modifies os
    ensures os.spawned == old(os.spawned) + PigzCommands(compressed, outdir, threads)
    ensures CompressOutcome(os, acc, outdir, files0, base, seen, compressed, compression)
    ensures (r, os.files) == ConvertResult(os, acc, outdir, layout, files0, base, compressed, compression)
    ensures r.Ok? ==> r.value == GzNames(compressed) && r.value != []
                      && LayoutSatisfied(layout, os.files.Keys, acc, outdir) && SraFile(acc, outdir) !in os.files
    ensures forall p :: p in compressed ==> p in RawCandidates(acc, outdir)
    ensures os.dirs == old(os.dirs) && os.slept == old(os.slept)
  {
    var result;
    result, seen, compressed := CompressFastqs(os, acc, outdir, threads);
    compression := result;
    assert forall p :: p in compressed ==> p in RawCandidates(acc, outdir) by {
      var raws := RawCandidates(acc, outdir);
      PickIn(raws, seen);
    }
    if result.Err? {
      return Err(result.error), seen, compressed, compression;
    }
    var produced := result.value;
    CleanupSra(os, acc, outdir);
    if !LayoutSatisfied(layout, os.files.Keys, acc, outdir) {
      return Err(LayoutMismatch(acc)), seen, compressed, compression;
    }
    var present := os.files.Keys;
    if produced == [] {
      r := Ok(ExistingPaths(GzCandidates(acc, outdir), present));
    } else {
      r := Ok(produced);
    }
    ConvertSucceeded(os, acc, outdir, layout, files0, base, compressed, compression, r, os.files);
  }

  /** `download_run`. The tools are checked before anything else; an
      already satisfied layout is reported without a download unless
      `force`, which removes the old compressed files instead; otherwise
      the run is fetched and converted. */
  method DownloadRun(os: Os, acc: string, outdir: string, threads: nat, attempts: nat, sleep: nat,
                     force: bool, layout: Layout)
    returns (r: Result<seq<string>, SraError>, ghost nPrefetch: nat, ghost nDump: nat, ghost seen: seq<bool>,
             ghost compressed: seq<string>, ghost compression: Result<seq<string>, SraError>)
    modifies os
    ensures FirstMissing(os.onPath, TOOLS).Some? ==>
              r == Err(MissingTool(FirstMissing(os.onPath, TOOLS).value))
              && os.files == old(os.files) && os.dirs == old(os.dirs)
              && os.spawned == old(os.spawned) && os.slept == old(os.slept)
    ensures FirstMissing(os.onPath, TOOLS).None? ==> os.dirs == old(os.dirs) + {outdir}
    ensures Skips(os.onPath, old(os.files).Keys, acc, outdir, force, layout) ==>
              r == Ok(ExistingPaths(GzCandidates(acc, outdir), old(os.files).Keys))
              && os.files == old(os.files) && os.spawned == old(os.spawned) && os.slept == old(os.slept)
    ensures FetchShape(os, old(os.spawned), os.spawned, acc, outdir, threads, attempts, nPrefetch, nDump, compressed)
    ensures FirstMissing(os.onPath, TOOLS).None? && !Skips(os.onPath, old(os.files).Keys, acc, outdir, force, layout) ==>
              && DownloadTrace(os, acc, outdir, attempts,
                               if force then old(os.files) - (set p | p in GzCandidates(acc, outdir)) else old(os.files),
                               |old(os.spawned)|, nPrefetch, nDump, seen, compressed, compression)
              && (r, os.files) == DownloadResult(os, acc, outdir, layout,
                                                 if force then old(os.files) - (set p | p in GzCandidates(acc, outdir)) else old(os.files),
                                                 |old(os.spawned)|, nPrefetch, nDump, compressed, compression)
              && os.slept == old(os.slept) + Repeat(sleep, Pauses(nPrefetch)) + Repeat(sleep, Pauses(nDump))
    ensures FirstMissing(os.onPath, TOOLS).None? && force && attempts == 0 ==>
              r == Err(CommandFailed(PREFETCH, 1)) && os.spawned == old(os.spawned)
              && os.files == old(os.files) - (set p | p in GzCandidates(acc, outdir))
    ensures r.Ok? && !Skips(os.onPath, old(os.files).Keys, acc, outdir, force, layout) ==>
              && nPrefetch > 0 && nDump > 0
              && r.value == GzNames(compressed) && r.value != []
              && LayoutSatisfied(layout, os.files.Keys, acc, outdir)
              && SraFile(acc, outdir) !in os.files
  {
    seen, compression := [], Err(NoFastqProduced(acc));
    var tools := EnsureTools(os.onPath);
    if tools.Err? {
      return Err(tools.error), 0, 0, seen, [], compression;
    }
    os.CreateDirAll(outdir);
    var gzPaths := GzCandidates(acc, outdir);
    if !force && LayoutSatisfied(layout, os.files.Keys, acc, outdir) {
      return Ok(ExistingPaths(gzPaths, os.files.Keys)), 0, 0, seen, [], compression;
    }
    r, nPrefetch, nDump, seen, compressed, compression :=
      Refetch(os, acc, outdir, threads, attempts, sleep, force, layout, old(os.files), |old(os.spawned)|);
  }

  /** `download_run` once it has decided to download: with `force` the old
      compressed files are removed first. */
  method Refetch(os: Os, acc: string, outdir: string, threads: nat, attempts: nat, sleep: nat,
                 force: bool, layout: Layout, ghost files0: map<string, Bytes>, ghost base: nat)
    returns (r: Result<seq<string>, SraError>, ghost nPrefetch: nat, ghost nDump: nat, ghost seen: seq<bool>,
             ghost compressed: seq<string>, ghost compression: Result<seq<string>, SraError>)
    requires files0 == os.files && base == |os.spawned|
    modifies os
    ensures FetchShape(os, old(os.spawned), os.spawned, acc, outdir, threads, attempts, nPrefetch, nDump, compressed)
    ensures DownloadTrace(os, acc, outdir, attempts, if force then files0 - (set p | p in GzCandidates(acc, outdir)) else files0,
                          base, nPrefetch, nDump, seen, compressed, compression)
    ensures (r, os.files) == DownloadResult(os, acc, outdir, layout,
                                            if force then files0 - (set p | p in GzCandidates(acc, outdir)) else files0,
                                            base, nPrefetch, nDump, compressed, compression)
    ensures force && attempts == 0 ==>
              r == Err(CommandFailed(PREFETCH, 1)) && os.spawned == old(os.spawned)
              && os.files == old(os.files) - (set p | p in GzCandidates(acc, outdir))
    ensures r.Ok? ==>
              && nPrefetch > 0 && nDump > 0
              && r.value == GzNames(compressed) && r.value != []
              && LayoutSatisfied(layout, os.files.Keys, acc, outdir)
              && SraFile(acc, outdir) !in os.files
    ensures os.slept == old(os.slept) + Repeat(sleep, Pauses(nPrefetch)) + Repeat(sleep, Pauses(nDump))
    ensures os.dirs == old(os.dirs)
  {
    if force {
      RemoveExisting(os, GzCandidates(acc, outdir));
    }
    ghost var start := if force then files0 - (set p | p in GzCandidates(acc, outdir)) else files0;
    r, nPrefetch, nDump, seen, compressed, compression := Fetch(os, acc, outdir, threads, attempts, sleep, layout, start, base);
    if attempts == 0 {
      NoAttemptsFetchNothing(os, acc, outdir, layout, start, base, nPrefetch, nDump, compressed, compression);
      assert Repeat(PrefetchCommand(acc, outdir), 0) == [] && Repeat(DumpCommand(acc, outdir, threads), 0) == [];
    }
  }

  /** The trace of `compress_fastqs`: each candidate checked was found
      exactly when it existed after the compressions before it. */
  ghost predicate CompressTrace(os: Os, raws: seq<string>, seen: seq<bool>, start: map<string, Bytes>, base: nat)
    requires |seen| <= |raws|
  {
    seen != [] ==>
      var n := |seen| - 1;
      && CompressTrace(os, raws, seen[..n], start, base)
      && seen[n] == (raws[n] in os.FilesAfter(start, base, |Pick(raws, seen[..n])|))
  }

  lemma CompressTraceSnoc(os: Os, raws: seq<string>, seen: seq<bool>, b: bool, start: map<string, Bytes>, base: nat)
    requires |seen| < |raws| && CompressTrace(os, raws, seen, start, base)
    requires b == (raws[|seen|] in os.FilesAfter(start, base, |Pick(raws, seen)|))
    ensures CompressTrace(os, raws, seen + [b], start, base)
  {
    assert (seen + [b])[..|seen|] == seen;
  }

  /** In a trace, candidate `j` was found exactly when it existed after the
      compressions of the candidates before it. */
  lemma {:induction false} CompressTraceAt(os: Os, raws: seq<string>, seen: seq<bool>, start: map<string, Bytes>, base: nat, j: nat)
    requires |seen| <= |raws| && CompressTrace(os, raws, seen, start, base)
    requires j < |seen|
    ensures seen[j] == (raws[j] in os.FilesAfter(start, base, |Pick(raws, seen[..j])|))
  {
    var n := |seen| - 1;
    if j < n {
      CompressTraceAt(os, raws, seen[..n], start, base, j);
      assert seen[..n][..j] == seen[..j];
    }
  }
}
