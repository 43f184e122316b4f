/**
 * The operating system as the compile subcommand sees it: a file system, the
 * process's working directory, the external programs it spawns and the lines
 * it reports. The real system calls become methods of `Host`; what an external
 * program does is not modelled, only how it ends, which the `outcome` oracle
 * decides.
 */
module Os {
  import opened Wrappers
  import opened Paths

  /** An external program and its arguments. */
  datatype Command = Command(program: string, args: seq<string>)

  /** How a finished process ended: with an exit code, or killed by a signal (no code). */
  datatype ExitStatus = Exited(code: int) | Signalled

  /** What became of a request to run a command. */
  datatype ProcessOutcome = NotSpawned | Finished(status: ExitStatus)

  /** A line the tool reports to the user (its wording is not modelled, except for printed errors). */
  datatype Note =
    | ChdirFailed(dir: PathBuf)
    | RemovalFailed(entry: Location)
    | Printed(line: string)

  /** The parent of a non-root location. */
  function ParentOf(l: Location): Location
    requires |l| > 0
  {
    l[..|l| - 1]
  }

  /** `fs::create_dir` succeeds on a new entry of an existing directory that may be written. */
  predicate CreateDirAllowed(fs: FileSystem, l: Location, readOnly: set<Location>) {
    |l| > 0 && l !in fs && IsDir(fs, ParentOf(l)) && ParentOf(l) !in readOnly
  }

  /** `fs::create_dir(p)` succeeds: `p` is walkable and names a new entry of a directory that may be written. */
  predicate CanCreateDir(fs: FileSystem, cwd: Location, p: PathBuf, readOnly: set<Location>) {
    !IsEmpty(p) && Walkable(fs, cwd, p) && CreateDirAllowed(fs, Resolve(cwd, p), readOnly)
  }

  /** `fs::remove_file` succeeds on an existing non-directory whose directory may be written. */
  predicate RemoveFileAllowed(fs: FileSystem, l: Location, readOnly: set<Location>) {
    |l| > 0 && l in fs && !fs[l].Dir? && ParentOf(l) !in readOnly
  }

  class Host {
    /** The file system. */
    var fs: FileSystem
    /** The process's working directory. */
    var cwd: Location
    /** Every command the process asked the system to run, in order. */
    var ran: seq<Command>
    /** Every line the process reported, in order. */
    var notes: seq<Note>
    /** Whether `env::current_dir` can report the working directory. */
    const cwdReadable: bool
    /** Directories in which no entry may be created or removed. */
    const readOnly: set<Location>
    /** How the n-th command the process runs ends. */
    const outcome: (nat, Command) -> ProcessOutcome

    constructor (fs: FileSystem, cwd: Location, cwdReadable: bool, readOnly: set<Location>,
                 outcome: (nat, Command) -> ProcessOutcome)
      ensures this.fs == fs && this.cwd == cwd && this.cwdReadable == cwdReadable
      ensures this.readOnly == readOnly && this.outcome == outcome
      ensures ran == [] && notes == []
    {
      this.fs, this.cwd, this.cwdReadable := fs, cwd, cwdReadable;
      this.readOnly, this.outcome := readOnly, outcome;
      ran, notes := [], [];
    }

    /** `fs::create_dir(p)`. */
    method CreateDir(p: PathBuf) returns (ok: bool)
      modifies this`fs
      ensures ok == CanCreateDir(old(fs), cwd, p, readOnly)
      ensures fs == if ok then old(fs)[Resolve(cwd, p) := Dir] else old(fs)
    {
      var l := Resolve(cwd, p);
      ok := CanCreateDir(fs, cwd, p, readOnly);
      if ok {
        fs := fs[l := Dir];
      }
    }

    /** `env::set_current_dir(p)`: succeeds when `p` reaches a directory. */
    method SetCurrentDir(p: PathBuf) returns (ok: bool)
      modifies this`cwd
      ensures ok == (Exists(fs, old(cwd), p) && IsDir(fs, Resolve(old(cwd), p)))
      ensures cwd == if ok then Resolve(old(cwd), p) else old(cwd)
    {
      var l := Resolve(cwd, p);
      ok := Exists(fs, cwd, p) && IsDir(fs, l);
      if ok {
        cwd := l;
      }
    }

    /** `fs::read_to_string(p)`. */
    method ReadToString(p: PathBuf) returns (r: Option<string>)
      ensures r == ReadPath(fs, cwd, p)
    {
      r := if Exists(fs, cwd, p) then ReadText(fs, Resolve(cwd, p)) else None;
    }

    /** `fs::read_dir`: the entries of a directory; reading anything else fails. */
    method ReadDir(p: PathBuf) returns (r: Option<set<Location>>)
      ensures r == if Exists(fs, cwd, p) && IsDir(fs, Resolve(cwd, p)) then Some(Children(fs, Resolve(cwd, p))) else None
    {
      var l := Resolve(cwd, p);
      r := if Exists(fs, cwd, p) && IsDir(fs, l) then Some(Children(fs, l)) else None;
    }

    /** `fs::remove_file` on an entry found by listing a directory. */
    method RemoveFile(l: Location) returns (ok: bool)
      modifies this`fs
      ensures ok == RemoveFileAllowed(old(fs), l, readOnly)
      ensures fs == if ok then old(fs) - {l} else old(fs)
    {
      ok := RemoveFileAllowed(fs, l, readOnly);
      if ok {
        fs := fs - {l};
      }
    }

    /** `Command::output()`: runs the command to completion with its output captured. */
    method Spawn(cmd: Command) returns (o: ProcessOutcome)
      modifies this`ran
      ensures o == outcome(|old(ran)|, cmd)
      ensures ran == old(ran) + [cmd]
    {
      o := outcome(|ran|, cmd);
      ran := ran + [cmd];
    }

    /** Reports a line to the user. */
    method Report(n: Note)
      modifies this`notes
      ensures notes == old(notes) + [n]
    {
      notes := notes + [n];
    }
  }
}
