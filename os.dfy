/** The operating system as the tool sees it: a file system, the programs
    on `PATH`, child processes and sleeps. What a child process does is not
    known to the tool, so it comes from an oracle: the `k`-th process
    spawned ends with `world(k).status` and leaves the files `world(k).after`. */
module Os {
  import opened Wrappers

  type byte = bv8

  type Bytes = seq<byte>

  /** Process exit codes (`i32`). */
  type i32 = x: int | -0x8000_0000 <= x < 0x8000_0000

  /** How a child process ended: with an exit code, killed by a signal (no
      code), or never started because spawning it failed. */
  datatype ExitStatus = Exited(code: i32) | Signalled | SpawnFailed(error: string)
  {
    /** `ExitStatus::success`. */
    predicate Success() { Exited? && code == 0 }
  }

  /** A program, its arguments and its working directory. */
  datatype Command = Command(program: string, args: seq<string>, cwd: Option<string>)

  /** What one child process does. */
  datatype Effect = Effect(status: ExitStatus, after: map<string, Bytes>)

  /** `n` copies of `x`. */
  function Repeat<T>(x: T, n: nat): (r: seq<T>)
    ensures |r| == n && forall i :: 0 <= i < n ==> r[i] == x
  {
    seq(n, _ => x)
  }

  class Os {
    /** The regular files and their contents. */
    var files: map<string, Bytes>
    /** Directories created by the tool. */
    var dirs: set<string>
    /** Every command spawned, in order. */
    var spawned: seq<Command>
    /** Every sleep, in seconds, in order. */
    var slept: seq<nat>
    /** The programs that `which` finds. */
    const onPath: set<string>
    /** The oracle for child processes. */
    const world: nat -> Effect
    /** The MD5 digest, as lower-case hex, of some bytes (the `md5` crate). */
    const md5: Bytes -> string
    /** How many bytes the `k`-th read of a file asks to return. */
    const readSize: nat -> nat
    /** Where a search of the working directory finds a file with the name
        of a missing path, if anywhere. */
    const search: string -> Option<string>

    constructor (files: map<string, Bytes>, onPath: set<string>, world: nat -> Effect,
                 md5: Bytes -> string, readSize: nat -> nat, search: string -> Option<string>)
      ensures this.files == files && dirs == {} && spawned == [] && slept == []
      ensures this.onPath == onPath && this.world == world
      ensures this.md5 == md5 && this.readSize == readSize && this.search == search
    {
      this.files := files;
      this.dirs := {};
      this.spawned := [];
      this.slept := [];
      this.onPath := onPath;
      this.world := world;
      this.md5 := md5;
      this.readSize := readSize;
      this.search := search;
    }

    /** The files after the `m` processes numbered from `base` have run,
        starting from `start`: a process that could not be spawned changes
        nothing. */
    function FilesAfter(start: map<string, Bytes>, base: nat, m: nat): map<string, Bytes>
    {
      if m == 0 then start
      else if world(base + m - 1).status.SpawnFailed? then FilesAfter(start, base, m - 1)
      else world(base + m - 1).after
    }

    /** One more process run on top of `m` of them. */
    lemma FilesAfterStep(start: map<string, Bytes>, base: nat, m: nat)
      ensures FilesAfter(FilesAfter(start, base, m), base + m, 1) == FilesAfter(start, base, m + 1)
    {
    }

    /** `std::fs::create_dir_all`. */
    method CreateDirAll(dir: string)
      modifies this
      ensures dirs == old(dirs) + {dir}
      ensures files == old(files) && spawned == old(spawned) && slept == old(slept)
    {
      dirs := dirs + {dir};
    }

    /** `std::fs::remove_file` on a file that exists. */
    method RemoveFile(path: string)
      requires path in files
      modifies this
      ensures files == old(files) - {path}
      ensures dirs == old(dirs) && spawned == old(spawned) && slept == old(slept)
    {
      files := files - {path};
    }

    /** Spawns a command and waits for it. */
    method Spawn(cmd: Command) returns (status: ExitStatus)
      modifies this
      ensures spawned == old(spawned) + [cmd]
      ensures status == world(|old(spawned)|).status
      ensures files == if status.SpawnFailed? then old(files) else world(|old(spawned)|).after
      ensures dirs == old(dirs) && slept == old(slept)
    {
      var effect := world(|spawned|);
      status := effect.status;
      if !status.SpawnFailed? {
        files := effect.after;
      }
      spawned := spawned + [cmd];
    }

    /** `tokio::time::sleep`. */
    method Sleep(seconds: nat)
      modifies this
      ensures slept == old(slept) + [seconds]
      ensures files == old(files) && dirs == old(dirs) && spawned == old(spawned)
    {
      slept := slept + [seconds];
    }
  }
}
