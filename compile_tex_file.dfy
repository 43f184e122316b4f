/**
 * Compiling the main document: prepare the output directory, move into the
 * project, detect glossary and bibliography, then run `pdflatex`,
 * `makeglossaries`, `biber` and `pdflatex` again as needed, stopping at the
 * first command that fails.
 */
module CompileTexFile {
  import opened Wrappers
  import opened Config
  import opened Paths
  import opened Logs
  import opened Os
  import opened Detection

  const MSG_CREATE_OUTPUT: string := "While creating output directory."
  const MSG_READ_MAIN: string :=
    "Failed to read the content of the main file. Unable to determine the presence of glossary and/or bibliography."

  /** `pdflatex -halt-on-error -output-directory out main.tex` */
  const PDFLATEX: Command := Command("pdflatex", ["-halt-on-error", "-output-directory", OUTPUT_DIRECTORY, MAIN_TEX_FILE])
  /** `makeglossaries -d out main` */
  const MAKEGLOSSARIES: Command := Command("makeglossaries", ["-d", OUTPUT_DIRECTORY, MAIN_FILE_NAME])
  /** `biber --input-directory out --output-directory out main` */
  const BIBER: Command :=
    Command("biber", ["--input-directory", OUTPUT_DIRECTORY, "--output-directory", OUTPUT_DIRECTORY, MAIN_FILE_NAME])

  /** `status.success()`: the process exited with code 0. */
  predicate Succeeded(o: ProcessOutcome) {
    o == Finished(Exited(0))
  }

  /** `status.code().unwrap_or(-1)`. */
  function ExitCode(s: ExitStatus): int {
    match s
    case Exited(code) => code
    case Signalled => -1
  }

  /**
   * `run_shell_cmd` as written: a command that could not be started is
   * reported under the name `pdflatex`, whichever program it was.
   */
  function RunShellCmdAsWritten(program: string, o: ProcessOutcome): (r: Result<(), Log>)
    ensures r.Ok? <==> Succeeded(o)
    ensures r.Err? && o.Finished? ==> r == Err(ShellCommandError(program, ExitFailure(ExitCode(o.status))))
    ensures o.NotSpawned? ==> r == Err(ShellCommandError("pdflatex", SpawnFailed))
  {
    match o
    case NotSpawned => Err(ShellCommandError("pdflatex", SpawnFailed))
    case Finished(status) =>
      if status == Exited(0) then Ok(()) else Err(ShellCommandError(program, ExitFailure(ExitCode(status))))
  }

  /**
   * `run_shell_cmd`: success exactly when the process exited with code 0;
   * otherwise a shell-command error naming the program, with its exit code
   * (-1 when it reported none) or the failure to start it.
   */
  function RunShellCmd(program: string, o: ProcessOutcome): (r: Result<(), Log>)
    ensures r.Ok? <==> Succeeded(o)
    ensures r.Err? ==> r.error.ShellCommandError? && r.error.program == program
    ensures r.Err? && o.Finished? ==> r.error.failure == ExitFailure(ExitCode(o.status)) && r.error.failure.code != 0
    ensures o.NotSpawned? ==> r == Err(ShellCommandError(program, SpawnFailed))
  {
    match o
    case NotSpawned => Err(ShellCommandError(program, SpawnFailed))
    case Finished(status) =>
      if status == Exited(0) then Ok(()) else Err(ShellCommandError(program, ExitFailure(ExitCode(status))))
  }

  /**
   * The two agree except when a program other than `pdflatex` cannot be
   * started: then the message as written names the wrong program.
   */
  lemma SpawnErrorNamesWrongProgram(program: string, o: ProcessOutcome)
    ensures o.Finished? || program == "pdflatex" ==> RunShellCmdAsWritten(program, o) == RunShellCmd(program, o)
    ensures o.NotSpawned? && program != "pdflatex" ==>
      RunShellCmdAsWritten(program, o).error.program != RunShellCmd(program, o).error.program
    ensures RunShellCmdAsWritten(MAKEGLOSSARIES.program, NotSpawned) == Err(ShellCommandError("pdflatex", SpawnFailed))
  {
  }

  /** `xs` when `cond`, nothing otherwise. */
  function When(cond: bool, xs: seq<Command>): seq<Command> {
    if cond then xs else []
  }

  /**
   * The passes to run, given what was detected: always `pdflatex` first and
   * last, `makeglossaries` exactly when a glossary was detected, `biber`
   * exactly when a bibliography was, and a second `pdflatex` exactly when
   * either was.
   */
  function Plan(hasGlossary: bool, hasBibliography: bool): (r: seq<Command>)
  {
    [PDFLATEX] + When(hasGlossary, [MAKEGLOSSARIES]) + When(hasBibliography, [BIBER])
      + When(hasGlossary || hasBibliography, [PDFLATEX])
  }

  /** The commands that were run and how the run ended. */
  datatype Trace = Trace(ran: seq<Command>, result: Result<(), Log>)

  /**
   * Run `plan` in order, the first command being the `n`-th the process runs,
   * and stop at the first that fails (the `?` after each `run_shell_cmd`).
   */
  function Execute(plan: seq<Command>, outcome: (nat, Command) -> ProcessOutcome, n: nat): (t: Trace)
    ensures |t.ran| <= |plan|
    ensures t.result.Ok? ==> t.ran == plan
    decreases |plan|
  {
    if plan == [] then Trace([], Ok(()))
    else
      var first := RunShellCmd(plan[0].program, outcome(n, plan[0]));
      if first.Err? then Trace([plan[0]], first)
      else
        var rest := Execute(plan[1..], outcome, n + 1);
        Trace([plan[0]] + rest.ran, rest.result)
  }

  /** The `k`-th command of `plan` succeeds when it is the (`n`+`k`)-th the process runs. */
  predicate StepSucceeds(plan: seq<Command>, outcome: (nat, Command) -> ProcessOutcome, n: nat, k: nat)
    requires k < |plan|
  {
    RunShellCmd(plan[k].program, outcome(n + k, plan[k])).Ok?
  }

  /** The position of the first command of `plan` that fails, or `|plan|` when none does. */
  function FirstFailure(plan: seq<Command>, outcome: (nat, Command) -> ProcessOutcome, n: nat): (k: nat)
    ensures k <= |plan|
    ensures forall j | 0 <= j < k :: StepSucceeds(plan, outcome, n, j)
    ensures k < |plan| ==> !StepSucceeds(plan, outcome, n, k)
    decreases |plan|
  {
    if plan == [] || !StepSucceeds(plan, outcome, n, 0) then 0
    else
      var m := n + 1;
      var k := FirstFailure(plan[1..], outcome, m);
      assert forall j | 0 < j <= k :: StepSucceeds(plan[1..], outcome, m, j - 1) ==> StepSucceeds(plan, outcome, n, j);
      assert k < |plan| - 1 ==> !StepSucceeds(plan[1..], outcome, m, k) ==> !StepSucceeds(plan, outcome, n, k + 1);
      k + 1
  }

  /**
   * Running a plan runs it up to and including its first failing command and
   * no further, and ends with that command's error; it succeeds exactly when
   * no command fails, and then every command of the plan ran.
   */
  lemma {:induction false} ExecuteStopsAtFirstFailure(plan: seq<Command>, outcome: (nat, Command) -> ProcessOutcome, n: nat)
    ensures var k := FirstFailure(plan, outcome, n);
      Execute(plan, outcome, n) ==
        if k == |plan| then Trace(plan, Ok(()))
        else Trace(plan[..k + 1], RunShellCmd(plan[k].program, outcome(n + k, plan[k])))
    decreases |plan|
  {
    if plan != [] && StepSucceeds(plan, outcome, n, 0) {
      var rest, m := plan[1..], n + 1;
      ExecuteStopsAtFirstFailure(rest, outcome, m);
      var k := FirstFailure(rest, outcome, m);
      assert plan == [plan[0]] + rest;
      if k < |rest| {
        assert plan[..k + 2] == [plan[0]] + rest[..k + 1];
      }
    }
  }

  /** Running `a` then `b` is running `a` and, if all of it succeeded, `b` after it. */
  lemma {:induction false} ExecuteAppend(a: seq<Command>, b: seq<Command>, outcome: (nat, Command) -> ProcessOutcome, n: nat)
    ensures var ta := Execute(a, outcome, n);
      Execute(a + b, outcome, n) ==
        if ta.result.Err? then ta
        else var tb := Execute(b, outcome, n + |a|); Trace(ta.ran + tb.ran, tb.result)
    decreases |a|
  {
    if a == [] {
      assert a + b == b;
    } else {
      var ab := a + b;
      assert ab != [] && ab[0] == a[0] && ab[1..] == a[1..] + b;
      var first := RunShellCmd(a[0].program, outcome(n, a[0]));
      if first.Ok? {
        var m := n + 1;
        ExecuteAppend(a[1..], b, outcome, m);
        var rest := Execute(a[1..], outcome, m);
        assert Execute(a, outcome, n) == Trace([a[0]] + rest.ran, rest.result);
        assert m + |a[1..]| == n + |a|;
        if rest.result.Ok? {
          assert [a[0]] + (rest.ran + Execute(b, outcome, n + |a|).ran) == ([a[0]] + rest.ran) + Execute(b, outcome, n + |a|).ran;
        }
      }
    }
  }

  /** If every pass succeeds, the passes are exactly `pdflatex`, then the auxiliary passes detected, then `pdflatex` again when there was one. */
  lemma PlanOrder(g: bool, b: bool)
    ensures Plan(g, b)[0] == PDFLATEX
    ensures Plan(false, false) == [PDFLATEX]
    ensures Plan(true, false) == [PDFLATEX, MAKEGLOSSARIES, PDFLATEX]
    ensures Plan(false, true) == [PDFLATEX, BIBER, PDFLATEX]
    ensures Plan(true, true) == [PDFLATEX, MAKEGLOSSARIES, BIBER, PDFLATEX]
    ensures Plan(g, b)[|Plan(g, b)| - 1] == PDFLATEX
    ensures (MAKEGLOSSARIES in Plan(g, b)) == g && (BIBER in Plan(g, b)) == b
    ensures |Plan(g, b)| == 1 <==> !g && !b
  {
  }

  /** Run one pass: spawn it, then map how it ended to a result. */
  method RunPass(h: Host, cmd: Command) returns (r: Result<(), Log>)
    modifies h`ran
    ensures h.ran == old(h.ran) + [cmd]
    ensures r == RunShellCmd(cmd.program, h.outcome(|old(h.ran)|, cmd))
    ensures Execute([cmd], h.outcome, |old(h.ran)|) == Trace([cmd], r)
  {
    var o := h.Spawn(cmd);
    r := RunShellCmd(cmd.program, o);
  }

  /**
   * Lines 81-126: the passes, each only if the previous succeeded. What runs
   * and how it ends is `Execute` of the plan.
   */
  method RunPasses(h: Host, hasGlossary: bool, hasBibliography: bool) returns (r: Result<(), Log>)
    modifies h`ran
    ensures h.ran == old(h.ran) + Execute(Plan(hasGlossary, hasBibliography), h.outcome, |old(h.ran)|).ran
    ensures r == Execute(Plan(hasGlossary, hasBibliography), h.outcome, |old(h.ran)|).result
  {
    ghost var n := |h.ran|;
    ghost var plan := Plan(hasGlossary, hasBibliography);
    // 1. pdflatex
    r := RunPass(h, PDFLATEX);
    ghost var done: seq<Command> := [PDFLATEX];
    if r.Err? {
      ExecuteAppend(done, plan[1..], h.outcome, n);
      assert plan == done + plan[1..];
      return;
    }
    // 2. makeglossaries
    if hasGlossary {
      r := Step(h, MAKEGLOSSARIES, done, plan, n);
      done := done + [MAKEGLOSSARIES];
      if r.Err? {
        return;
      }
    }
    // 3. biber
    if hasBibliography {
      r := Step(h, BIBER, done, plan, n);
      done := done + [BIBER];
      if r.Err? {
        return;
      }
    }
    // 4. pdflatex again
    if hasGlossary || hasBibliography {
      r := Step(h, PDFLATEX, done, plan, n);
      done := done + [PDFLATEX];
      if r.Err? {
        return;
      }
    }
    assert plan == done;
    r := Ok(());
  }

  /**
   * One more pass after the passes `done`, which all succeeded, at the head
   * of what remains of `plan`; an error ends the whole plan.
   */
  method Step(h: Host, cmd: Command, ghost done: seq<Command>, ghost plan: seq<Command>, ghost n: nat)
    returns (r: Result<(), Log>)
    requires |h.ran| == n + |done|
    requires Execute(done, h.outcome, n) == Trace(done, Ok(()))
    requires |done| < |plan| && plan[..|done| + 1] == done + [cmd]
    modifies h`ran
    ensures h.ran == old(h.ran) + [cmd]
    ensures r.Ok? ==> Execute(done + [cmd], h.outcome, n) == Trace(done + [cmd], Ok(()))
    ensures r.Err? ==> Execute(plan, h.outcome, n) == Trace(done + [cmd], r)
  {
    r := RunPass(h, cmd);
    ExecuteAppend(done, [cmd], h.outcome, n);
    var next := done + [cmd];
    ExecuteAppend(next, plan[|next|..], h.outcome, n);
    assert plan == next + plan[|next|..];
  }

  /** The path of the main document: `project_directory.join(MAIN_TEX_FILE)`. */
  function MainTexPath(projectDir: PathBuf): PathBuf {
    Join(projectDir, MAIN_TEX_FILE)
  }

  /**
   * Where the main document is read from: `project_directory.join(MAIN_TEX_FILE)`
   * resolved against the working directory the compilation started in, which
   * is the `main.tex` inside the project directory.
   */
  function MainTexLocation(cwd: Location, projectDir: PathBuf): (l: Location)
    ensures l == Resolve(cwd, projectDir) + [MAIN_TEX_FILE]
  {
    ResolveJoin(cwd, projectDir, MAIN_TEX_FILE);
    Resolve(cwd, MainTexPath(projectDir))
  }

  /**
   * Lines 34 and 52-53 as written: `project_directory.join(MAIN_TEX_FILE)` is
   * read after the working directory has been switched to
   * `project_directory`, so it is resolved against the new working directory.
   * It agrees with the intended location for an absolute project directory,
   * and whenever the switch fails.
   */
  function MainTexLocationAsWritten(fs: FileSystem, cwd: Location, projectDir: PathBuf): (l: Location)
    ensures projectDir.absolute ==> l == MainTexLocation(cwd, projectDir)
    ensures !(Exists(fs, cwd, projectDir) && IsDir(fs, Resolve(cwd, projectDir))) ==> l == MainTexLocation(cwd, projectDir)
  {
    var moved := Exists(fs, cwd, projectDir) && IsDir(fs, Resolve(cwd, projectDir));
    var after := if moved then Resolve(cwd, projectDir) else cwd;
    Resolve(after, MainTexPath(projectDir))
  }

  /**
   * As written, a relative project directory other than `.` is resolved
   * twice when the switch succeeds: the file read is
   * `<project>/<project>/main.tex`, not the project's main document.
   */
  lemma RelativeProjectResolvedTwice(fs: FileSystem, cwd: Location, projectDir: PathBuf)
    requires !projectDir.absolute && Strip(projectDir.comps) != []
    requires Exists(fs, cwd, projectDir) && IsDir(fs, Resolve(cwd, projectDir))
    ensures MainTexLocationAsWritten(fs, cwd, projectDir)
         == Resolve(cwd, projectDir) + Strip(projectDir.comps) + [MAIN_TEX_FILE]
    ensures MainTexLocationAsWritten(fs, cwd, projectDir) != MainTexLocation(cwd, projectDir)
  {
    var proj := Resolve(cwd, projectDir);
    ResolveJoin(proj, projectDir, MAIN_TEX_FILE);
  }

  /**
   * `compile myproj`, run where `myproj/main.tex` exists but
   * `myproj/myproj/main.tex` does not: as written the document cannot be
   * read (so compilation stops with a file-system error before any pass),
   * while the corrected read finds the existing main document.
   */
  lemma CompileRelativeProjectAsWritten(fs: FileSystem, cwd: Location)
    requires IsDir(fs, cwd) && IsDir(fs, cwd + ["myproj"]) && HasMain(fs, cwd + ["myproj"])
    requires cwd + ["myproj", "myproj", MAIN_TEX_FILE] !in fs
    ensures var p := PathBuf(false, ["myproj"]);
      && ReadText(PrepareOutput(fs, cwd + ["myproj", OUTPUT_DIRECTORY]), MainTexLocationAsWritten(fs, cwd, p)) == None
      && ReadPath(fs, cwd, MainTexPath(p)) == ReadText(fs, cwd + ["myproj", MAIN_TEX_FILE])
  {
    var p := PathBuf(false, ["myproj"]);
    assert Strip(p.comps) == ["myproj"] + Strip([]);
    assert p.comps[..0] == [] && Resolve(cwd, PathBuf(false, [])) == cwd;
    assert Resolve(cwd, p) == cwd + ["myproj"];
    assert Exists(fs, cwd, p);
    RelativeProjectResolvedTwice(fs, cwd, p);
    assert MainTexLocationAsWritten(fs, cwd, p) == cwd + ["myproj", "myproj", MAIN_TEX_FILE];
    WalkableJoin(fs, cwd, p, MAIN_TEX_FILE);
    ResolveJoin(cwd, p, MAIN_TEX_FILE);
    assert Resolve(cwd, MainTexPath(p)) == cwd + ["myproj", MAIN_TEX_FILE];
  }

  /** The file system once the output directory exists: created when it was missing. */
  function PrepareOutput(fs: FileSystem, out: Location): FileSystem {
    if out in fs then fs else fs[out := Dir]
  }

  /** Creating the output directory does not change what reading the main document yields. */
  lemma PrepareOutputKeepsMain(fs: FileSystem, cwd: Location, projectDir: PathBuf)
    ensures var out := Resolve(cwd, Join(projectDir, OUTPUT_DIRECTORY));
      ReadPath(PrepareOutput(fs, out), cwd, MainTexPath(projectDir)) == ReadPath(fs, cwd, MainTexPath(projectDir))
  {
    var out := Resolve(cwd, Join(projectDir, OUTPUT_DIRECTORY));
    var m := MainTexPath(projectDir);
    var fs1 := PrepareOutput(fs, out);
    ResolveJoin(cwd, projectDir, OUTPUT_DIRECTORY);
    ResolveJoin(cwd, projectDir, MAIN_TEX_FILE);
    assert Resolve(cwd, m) != out by {
      assert Resolve(cwd, m)[|out| - 1] != out[|out| - 1];
    }
    forall i | 0 <= i < |m.comps|
      ensures IsDir(fs1, Resolve(cwd, PathBuf(m.absolute, m.comps[..i]))) == IsDir(fs, Resolve(cwd, PathBuf(m.absolute, m.comps[..i])))
    {
      assert m.comps[..i] == projectDir.comps[..i];
      StripPrefixShorter(projectDir.comps, i);
    }
  }

  /** The state a compilation leaves behind, and its result. */
  datatype TexRun = TexRun(fs: FileSystem, cwd: Location, chdirFailed: bool, ran: seq<Command>, result: Result<(), Log>)

  /**
   * What `compile_tex_file` does, starting in working directory `cwd` with
   * `n` commands already run: create the output directory if missing (fatal
   * if impossible), switch into the project (only reported if impossible),
   * read and scan the main document (fatal if unreadable), run the passes.
   * The main document is read at the location the project directory names
   * from where the compilation started. Whatever it does, it never alters or
   * removes an entry, it runs `pdflatex` first, and it ends with `pdflatex`
   * when it succeeds.
   */
  function CompileTexSpec(fs: FileSystem, cwd: Location, readOnly: set<Location>,
                          outcome: (nat, Command) -> ProcessOutcome, n: nat, projectDir: PathBuf): (t: TexRun)
    ensures fs.Keys <= t.fs.Keys && forall l | l in fs :: t.fs[l] == fs[l]
    ensures t.ran == [] || t.ran[0] == PDFLATEX
    ensures t.result.Ok? ==> t.ran != [] && t.ran[|t.ran| - 1] == PDFLATEX
  {
    var outDir := Join(projectDir, OUTPUT_DIRECTORY);
    var out := Resolve(cwd, outDir);
    if !Exists(fs, cwd, outDir) && !CanCreateDir(fs, cwd, outDir, readOnly) then
      TexRun(fs, cwd, false, [], Err(FileSystemError(MSG_CREATE_OUTPUT)))
    else
      var fs1 := PrepareOutput(fs, out);
      var moved := Exists(fs1, cwd, projectDir) && IsDir(fs1, Resolve(cwd, projectDir));
      var cwd1 := if moved then Resolve(cwd, projectDir) else cwd;
      match ReadPath(fs1, cwd, MainTexPath(projectDir))
      case None => TexRun(fs1, cwd1, !moved, [], Err(FileSystemError(MSG_READ_MAIN)))
      case Some(text) =>
        var t := Execute(Plan(HasGlossary(text), HasBibliography(text)), outcome, n);
        TexRun(fs1, cwd1, !moved, t.ran, t.result)
  }

  /**
   * Running a plan runs a prefix of it; it stops short only on an error, and
   * that error is a shell-command error.
   */
  lemma ExecuteFollowsPlan(plan: seq<Command>, outcome: (nat, Command) -> ProcessOutcome, n: nat)
    ensures var t := Execute(plan, outcome, n);
      && |t.ran| <= |plan| && t.ran == plan[..|t.ran|]
      && (|t.ran| < |plan| ==> t.result.Err?)
      && (t.result.Err? ==> t.ran != [] && t.result.error.ShellCommandError?)
  {
    ExecuteStopsAtFirstFailure(plan, outcome, n);
  }

  /**
   * The error policy of `compile_tex_file`. An output directory that is
   * missing and cannot be created is a file-system error that changes
   * nothing; so is, once the output directory is in place, a main document
   * that cannot be read; and a file-system error means no pass ran. A failed
   * switch leaves the working directory as it was.
   */
  lemma CompileTexErrorPolicy(fs: FileSystem, cwd: Location, readOnly: set<Location>,
                              outcome: (nat, Command) -> ProcessOutcome, n: nat, projectDir: PathBuf)
    ensures var outDir := Join(projectDir, OUTPUT_DIRECTORY);
      var t := CompileTexSpec(fs, cwd, readOnly, outcome, n, projectDir);
      !Exists(fs, cwd, outDir) && !CanCreateDir(fs, cwd, outDir, readOnly) ==>
        t == TexRun(fs, cwd, false, [], Err(FileSystemError(MSG_CREATE_OUTPUT)))
    ensures var outDir := Join(projectDir, OUTPUT_DIRECTORY);
      var t := CompileTexSpec(fs, cwd, readOnly, outcome, n, projectDir);
      (Exists(fs, cwd, outDir) || CanCreateDir(fs, cwd, outDir, readOnly)) && ReadPath(fs, cwd, MainTexPath(projectDir)).None? ==>
        t.result == Err(FileSystemError(MSG_READ_MAIN)) && t.ran == []
    ensures var t := CompileTexSpec(fs, cwd, readOnly, outcome, n, projectDir);
      && (t.result.Err? && t.result.error.FileSystemError? ==> t.ran == [])
      && (t.chdirFailed ==> t.cwd == cwd)
  {
    PrepareOutputKeepsMain(fs, cwd, projectDir);
    var outDir := Join(projectDir, OUTPUT_DIRECTORY);
    var read := ReadPath(fs, cwd, MainTexPath(projectDir));
    if (Exists(fs, cwd, outDir) || CanCreateDir(fs, cwd, outDir, readOnly)) && read.Some? {
      ExecuteFollowsPlan(Plan(HasGlossary(read.value), HasBibliography(read.value)), outcome, n);
    }
  }

  /**
   * Any pass that ran had the output directory in place and the main
   * document read, and the passes follow the plan for that document up to
   * the first failure.
   */
  lemma CompileTexFollowsPlan(fs: FileSystem, cwd: Location, readOnly: set<Location>,
                              outcome: (nat, Command) -> ProcessOutcome, n: nat, projectDir: PathBuf)
    ensures var t := CompileTexSpec(fs, cwd, readOnly, outcome, n, projectDir);
      t.ran != [] ==>
        && Resolve(cwd, Join(projectDir, OUTPUT_DIRECTORY)) in t.fs
        && ReadPath(fs, cwd, MainTexPath(projectDir)).Some?
        && var text := ReadPath(fs, cwd, MainTexPath(projectDir)).value;
           var plan := Plan(HasGlossary(text), HasBibliography(text));
           && |t.ran| <= |plan| && t.ran == plan[..|t.ran|]
           && (t.result.Ok? ==> t.ran == plan)
           && (|t.ran| < |plan| ==> t.result.Err?)
  {
    PrepareOutputKeepsMain(fs, cwd, projectDir);
    var outDir := Join(projectDir, OUTPUT_DIRECTORY);
    var read := ReadPath(fs, cwd, MainTexPath(projectDir));
    if (Exists(fs, cwd, outDir) || CanCreateDir(fs, cwd, outDir, readOnly)) && read.Some? {
      ExecuteFollowsPlan(Plan(HasGlossary(read.value), HasBibliography(read.value)), outcome, n);
    }
  }

  /** Once the output directory can be had and the main document read, the first `pdflatex` runs. */
  lemma FirstPassAlwaysRuns(fs: FileSystem, cwd: Location, readOnly: set<Location>,
                            outcome: (nat, Command) -> ProcessOutcome, n: nat, projectDir: PathBuf)
    requires var outDir := Join(projectDir, OUTPUT_DIRECTORY);
      Exists(fs, cwd, outDir) || CanCreateDir(fs, cwd, outDir, readOnly)
    requires ReadPath(fs, cwd, MainTexPath(projectDir)).Some?
    ensures var t := CompileTexSpec(fs, cwd, readOnly, outcome, n, projectDir);
      t.ran != [] && t.ran[0] == PDFLATEX
  {
    PrepareOutputKeepsMain(fs, cwd, projectDir);
  }

  /** Create the output directory if it is missing (lines 12-21); `false` when it cannot be created. */
  method PrepareOutputDirectory(h: Host, projectDir: PathBuf) returns (ready: bool)
    modifies h`fs
    ensures var outDir := Join(projectDir, OUTPUT_DIRECTORY);
      && ready == (Exists(old(h.fs), h.cwd, outDir) || CanCreateDir(old(h.fs), h.cwd, outDir, h.readOnly))
      && h.fs == if ready then PrepareOutput(old(h.fs), Resolve(h.cwd, outDir)) else old(h.fs)
  {
    var outputDirectory := Join(projectDir, OUTPUT_DIRECTORY);
    ready := true;
    if !Exists(h.fs, h.cwd, outputDirectory) {
      ready := h.CreateDir(outputDirectory);
    }
  }

  /** Switch into the project directory (lines 30-41); a failure is only reported. */
  method EnterProject(h: Host, projectDir: PathBuf) returns (moved: bool)
    modifies h`cwd, h`notes
    ensures moved == (Exists(h.fs, old(h.cwd), projectDir) && IsDir(h.fs, Resolve(old(h.cwd), projectDir)))
    ensures h.cwd == if moved then Resolve(old(h.cwd), projectDir) else old(h.cwd)
    ensures h.notes == old(h.notes) + if moved then [] else [ChdirFailed(projectDir)]
  {
    moved := h.SetCurrentDir(projectDir);
    if !moved {
      h.Report(ChdirFailed(projectDir));
    }
  }

  /**
   * `compile_tex_file` (lines 9-129), with the main document read at the
   * location `project_directory.join(MAIN_TEX_FILE)` names before the working
   * directory is switched. Reading has no effect, so the read is issued before
   * the switch and its outcome is acted on where the source reads.
   */
  method CompileTexFile(h: Host, projectDir: PathBuf) returns (r: Result<(), Log>)
    modifies h`fs, h`cwd, h`ran, h`notes
    ensures var t := CompileTexSpec(old(h.fs), old(h.cwd), h.readOnly, h.outcome, |old(h.ran)|, projectDir);
      && h.fs == t.fs && h.cwd == t.cwd && h.ran == old(h.ran) + t.ran && r == t.result
      && h.notes == old(h.notes) + (if t.chdirFailed then [ChdirFailed(projectDir)] else [])
  {
    var ready := PrepareOutputDirectory(h, projectDir);
    if !ready {
      return Err(FileSystemError(MSG_CREATE_OUTPUT));
    }
    var content := h.ReadToString(MainTexPath(projectDir));
    var moved := EnterProject(h, projectDir);
    // Detect glossary and bibliography in the main document
    if content.None? {
      return Err(FileSystemError(MSG_READ_MAIN));
    }
    var hasGlossary := HasGlossary(content.value);
    var hasBibliography := HasBibliography(content.value);
    r := RunPasses(h, hasGlossary, hasBibliography);
  }
}
