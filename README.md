# latex-wizard `compile`, modelled in Dafny

`latex-wizard compile [PROJECT] [--clean]` builds a LaTeX project. The steps are:

1. **Find the project root.** This is the directory that directly holds `main.tex`.
   - With an argument, the argument is checked. It must be either the file `main.tex` or a directory holding `main.tex`.
   - Without an argument, the search starts at the working directory. It climbs one parent at a time until it finds `main.tex` or reaches the file-system root.
2. **Clean, when `--clean` is given.** Every entry of `<root>/out` except the regular file `main.pdf` is selected for removal, and each is handed to `fs::remove_file`. Removal fails on subdirectories and on every entry of a read-only directory: those entries stay, each failure is reported, and cleaning goes on. A failed clean is printed, and compilation goes on.
3. **Compile.**
   - Create `<root>/out` if it is missing.
   - Switch the working directory to the root. A failure here is only reported.
   - Read `main.tex` and detect whether it loads `glossaries` or a bibliography package (`biblatex`, `bibtex`, `natbib`).
   - Run `pdflatex`. Then run `makeglossaries` and `biber` when detected. When either ran, run `pdflatex` again.
   - Stop at the first command that fails.

Errors are values of `Log`. Each one is shown as a coloured `ERR` or `HLP` tag, a space, then its text.

## How the model is built

| file | what it holds |
|---|---|
| `wrappers.dfy` | `Option` and `Result` |
| `config.dfy` | the names `main.tex`, `main`, `main.pdf` and `out` |
| `paths.dfy` | an abstract file system and the parts of `Path`/`PathBuf` the command uses |
| `logs.dfy` | `Log`, its conversion from parser errors, and its display form |
| `host.dfy` | the class `Os.Host`: the operating system as the command sees it |
| `find_root_dir.dfy` | project-root resolution |
| `detection.dfy` | the two package-detection patterns |
| `compile_tex_file.dfy` | compilation of the main document |
| `compile.dfy` | the subcommand itself and the cleaning of the output directory |

**The file system.** It is a map from locations to nodes. A location is the sequence of names from the file-system root. A node is a file, whose text is absent when it is not UTF-8, a directory, or a special file.

**The host.** `Os.Host` has four mutable fields:
- the file system;
- the working directory;
- the commands run so far;
- the lines reported so far (`Note`).

It also has three fixed parameters:
- whether the working directory can be read;
- which directories are read-only;
- an oracle that says how the n-th command ends: not started, exited with a code, or killed by a signal.

**Imperative code.** The source's imperative functions become methods on a `Host`. Each method's postcondition gives the new state as a pure specification function of the old state:
- `CompileTexFile.CompileTexSpec`
- `Compile.CleanSpec`
- `CompileTexFile.Execute`
- `FindRootDir.ProjectRoot`

The lemmas about those functions state what the tool promises.

**The clean loop.** Removal visits the entries in an unspecified order, because that is the order `fs::read_dir` returns. The model picks any remaining entry on each step. The reported failures are then characterised up to order by `Compile.ReportsFailures`.

## Model

| member | source | states |
|---|---|---|
| `Logs.FromClapError` | src/logs.rs:17-31 | A help request becomes a help message carrying the whole text. Any other parser error becomes an invalid-argument error. Its text is the message without the leading `error: ` when present, otherwise the message unchanged. |
| `Logs.Display` | src/logs.rs:6-15 | The shown line starts with the `HLP` tag exactly for help messages and with the `ERR` tag exactly for the other kinds. A space follows the tag, then the log's text. |
| `Logs.DisplayReplacesErrorPrefix` | src/logs.rs:21-27 | A parser error `error: X` is shown as the `ERR` tag, a space, then `X`. |
| `Paths.Components` | src/subcommands/compile/find_root_dir.rs:23-37 | The components of a path drop every `.` except a leading one in a relative path, and name the same location as the path. |
| `Paths.FileName` | src/subcommands/compile/find_root_dir.rs:23-37 | A path has a file name exactly when its last component (after `.` is skipped) exists and is neither `.` nor `..`. The name is that last component. |
| `Paths.FileNameSkipsTrailingDot` | src/subcommands/compile/find_root_dir.rs:23-37 | `foo.txt/.` has the file name of `foo.txt`, as `Path::file_name` skips a trailing `.`. |
| `Paths.FileNameJoin` | src/subcommands/compile/find_root_dir.rs:52 | A path joined with a plain name has that name as its file name. |
| `Paths.Parent` | src/subcommands/compile/find_root_dir.rs:24-27 | A path has a parent exactly when it has components. The parent plus the last component gives back the path's components. |
| `Paths.ReadText` | src/subcommands/compile/compile_tex_file.rs:53 | Text is read exactly from a regular file whose contents are UTF-8. |
| `Paths.ReadPath` | src/subcommands/compile/compile_tex_file.rs:52-53 | A path yields text exactly when it exists (every component before the last is a directory) and its location holds a UTF-8 regular file. The text is that file's. |
| `Paths.DotAfterFileIsMissing` | src/subcommands/compile/find_root_dir.rs:15 | `.` after a regular file does not exist, as path resolution fails there. |
| `Os.Host.CreateDir` | src/subcommands/compile/compile_tex_file.rs:14 | Creating a directory succeeds exactly when the path is non-empty, every component before the last is a directory, the entry is absent, and its parent is a writable directory. Success adds exactly that directory; failure changes nothing. |
| `Os.Host.SetCurrentDir` | src/subcommands/compile/compile_tex_file.rs:34 | Switching succeeds exactly when the path exists and names a directory. The working directory then becomes that directory; otherwise it is unchanged. |
| `Os.Host.ReadToString` | src/subcommands/compile/compile_tex_file.rs:53 | Reading yields `ReadPath`: the text of the existing regular UTF-8 file the path names, and nothing otherwise. |
| `Os.Host.ReadDir` | src/subcommands/compile.rs:54-61 | Listing an existing directory yields exactly its direct entries. Listing anything else fails. |
| `Os.Host.RemoveFile` | src/subcommands/compile.rs:73 | Removal succeeds exactly for a non-directory entry in a writable directory, and removes only that entry. |
| `Os.Host.Spawn` | src/subcommands/compile/compile_tex_file.rs:132-135 | Running a command records it after every earlier command, and returns the oracle's outcome for its position. |
| `Os.Host.Report` | src/subcommands/compile.rs:28-30 | A reported line is appended after all earlier lines. |
| `FindRootDir.RootFromArgument` | src/subcommands/compile/find_root_dir.rs:12-72 | With an argument: a missing path is an invalid-argument error. Success happens exactly when the path is the regular file `main.tex` or a directory holding `main.tex`. For the file, the root is its parent (or `.`) and resolves to the location holding it; a directory is returned unchanged. Any returned root holds `main.tex` as a regular file and is never the empty path. A file without a name is the only file-system error; a file with another name, a directory without `main.tex` and a special file are each their own invalid-argument error. |
| `FindRootDir.MainInsideExists` | src/subcommands/compile/find_root_dir.rs:51-55 | For an existing directory, `main.tex` inside it exists as a regular file exactly when the directory holds `main.tex`. |
| `FindRootDir.DotAfterMainFileIsMissing` | src/subcommands/compile/find_root_dir.rs:15-20 | The argument `main.tex/.` is a missing path, an invalid-argument error, even when `main.tex` is a file. |
| `FindRootDir.BareMainFileIsCurrentDir` | src/subcommands/compile/find_root_dir.rs:29-33 | In a working directory holding `main.tex`, the argument `main.tex` yields `.`, which resolves to the working directory, instead of the empty parent path. |
| `FindRootDir.DeepestRoot` | src/subcommands/compile/find_root_dir.rs:88-103 | The search from a location yields, when anything, a prefix of it that holds `main.tex`. |
| `FindRootDir.ProjectRoot` | src/subcommands/compile/find_root_dir.rs:7-106 | A resolved root holds `main.tex` and is non-empty. Without an argument it is an absolute prefix of the working directory, and resolution succeeds exactly when the working directory is readable and some prefix of it holds `main.tex`. |
| `FindRootDir.DeepestRootIsDeepest` | src/subcommands/compile/find_root_dir.rs:89-103 | The upward search finds an ancestor of the start, or the start itself, that holds `main.tex`, with no deeper directory holding it. It finds none exactly when no directory up to the file-system root holds it. |
| `FindRootDir.FindRootUpward` | src/subcommands/compile/find_root_dir.rs:88-103 | The loop returns the deepest ancestor holding `main.tex` as an absolute path. When there is none, it returns the not-found error. |
| `FindRootDir.FindProjectRootDirectory` | src/subcommands/compile/find_root_dir.rs:7-106 | With an argument, the argument is checked. Without one: an unreadable working directory is a file-system error, otherwise the result is the upward search. Any returned root holds `main.tex`. Without an argument the root is an absolute prefix of the working directory. |
| `FindRootDir.UpwardSearchClimbs` | src/subcommands/compile/find_root_dir.rs:89-103 | When `main.tex` is `d` levels up and in no directory in between, the search climbs exactly `d` levels. |
| `Detection.HasGlossary` | src/subcommands/compile/compile_tex_file.rs:74-78 | A glossary is detected exactly when the text contains the directive for `glossaries`. |
| `Detection.HasBibliography` | src/subcommands/compile/compile_tex_file.rs:75-79 | A bibliography is detected exactly when the text contains the directive for `biblatex`, `bibtex` or `natbib`. |
| `Detection.CloseBracket` | src/subcommands/compile/compile_tex_file.rs:74-76 | The scanned option list ends at a `]`, with no bracket between its start and that `]`. |
| `Detection.MatchesIffMentions` | src/subcommands/compile/compile_tex_file.rs:74-79 | The scanner reports a match exactly when the text contains the directive for one of the names. A directive is `\usepackage`, optionally one bracket-free `[...]` option list, then `{name}`. |
| `Detection.NestedOptionHidesDirective` | src/subcommands/compile/compile_tex_file.rs:61-76 | An option list with a nested `[` before its `]` hides the directive at that position, whatever package follows. |
| `Detection.NoDirectiveNoFlags` | src/subcommands/compile/compile_tex_file.rs:74-79 | A text without `\usepackage` loads neither a glossary nor a bibliography. |
| `Detection.GlossaryDirectiveDetected` | src/subcommands/compile/compile_tex_file.rs:74-78 | `\usepackage{glossaries}` is detected wherever it appears. |
| `Detection.BibliographyDirectiveDetected` | src/subcommands/compile/compile_tex_file.rs:75-79 | `\usepackage[style=ieee]{biblatex}` is detected wherever it appears. |
| `CompileTexFile.RunShellCmdAsWritten` | src/subcommands/compile/compile_tex_file.rs:131-154 | As written: success exactly on exit code 0; an exit failure names the program with its code; a program that cannot be started is always reported as `pdflatex`. |
| `CompileTexFile.RunShellCmd` | src/subcommands/compile/compile_tex_file.rs:131-154 | Corrected version (see Findings). A command succeeds exactly when it exits with code 0. Otherwise the result is a shell-command error naming the program. That error carries the nonzero exit code, -1 when none was reported, or says the program could not be started. |
| `CompileTexFile.SpawnErrorNamesWrongProgram` | src/subcommands/compile/compile_tex_file.rs:136-141 | As written, the result agrees with the corrected one except when a program other than `pdflatex` cannot be started. The message then names `pdflatex`. |
| `CompileTexFile.FirstFailure` | src/subcommands/compile/compile_tex_file.rs:81-126 | Every pass before the returned position succeeds, and the pass at it fails unless it is the end of the plan. |
| `CompileTexFile.ExecuteStopsAtFirstFailure` | src/subcommands/compile/compile_tex_file.rs:81-126 | The passes run up to and including the first failing one and no further, and the result is that pass's error. When none fails, the whole plan runs and succeeds. |
| `CompileTexFile.ExecuteAppend` | src/subcommands/compile/compile_tex_file.rs:81-126 | Running `a` then `b` equals running `a` and, only if all of `a` succeeded, running `b` after it. |
| `CompileTexFile.Execute` | src/subcommands/compile/compile_tex_file.rs:81-126 | The passes that ran are no more than the plan, and all of it on success. |
| `CompileTexFile.ExecuteFollowsPlan` | src/subcommands/compile/compile_tex_file.rs:81-126 | The passes that ran are a prefix of the plan, and the whole plan on success. A run cut short failed. Every failure is a shell-command error from a pass that ran. |
| `CompileTexFile.PlanOrder` | src/subcommands/compile/compile_tex_file.rs:81-126 | This is the property of `Plan`. `pdflatex` always comes first and last; `makeglossaries` is planned exactly when a glossary was detected, `biber` exactly when a bibliography was, and the plan is `pdflatex` alone exactly when neither was. The plans for the four detection outcomes are `[pdflatex]`, `[pdflatex, makeglossaries, pdflatex]`, `[pdflatex, biber, pdflatex]` and `[pdflatex, makeglossaries, biber, pdflatex]`. |
| `CompileTexFile.RunPass` | src/subcommands/compile/compile_tex_file.rs:82-89 | One pass records its command and returns the shell-command result for its outcome. |
| `CompileTexFile.Step` | src/subcommands/compile/compile_tex_file.rs:91-126 | A conditional pass after successful ones either extends the successful prefix of the plan or ends the whole plan with its error. |
| `CompileTexFile.RunPasses` | src/subcommands/compile/compile_tex_file.rs:81-128 | The commands run and the result are those of `Execute` on the plan for what was detected. |
| `CompileTexFile.MainTexLocationAsWritten` | src/subcommands/compile/compile_tex_file.rs:34-53 | As written, `main.tex` is resolved after the switch. That agrees with the intended location for an absolute project directory and whenever the switch fails. |
| `CompileTexFile.MainTexLocation` | src/subcommands/compile/compile_tex_file.rs:52 | Corrected version (see Findings). The main document is `main.tex` inside the project directory, resolved against the working directory the compilation started in. |
| `CompileTexFile.RelativeProjectResolvedTwice` | src/subcommands/compile/compile_tex_file.rs:34-53 | As written, a relative project directory other than `.` is resolved twice once the switch into it succeeds. The file read is then `<project>/<project>/main.tex`, which differs from the project's main document. |
| `CompileTexFile.CompileRelativeProjectAsWritten` | src/subcommands/compile/compile_tex_file.rs:34-59 | Take `compile myproj` where `myproj/main.tex` exists and `myproj/myproj/main.tex` does not. As written, the read finds nothing, while the corrected location is the existing document. |
| `CompileTexFile.PrepareOutputKeepsMain` | src/subcommands/compile/compile_tex_file.rs:12-21 | Creating the output directory does not change what reading the main document yields. |
| `CompileTexFile.PrepareOutputDirectory` | src/subcommands/compile/compile_tex_file.rs:10-21 | The output directory is ready exactly when it already exists or can be created. It is created only when missing. |
| `CompileTexFile.EnterProject` | src/subcommands/compile/compile_tex_file.rs:30-41 | The switch into the project succeeds exactly when the project exists and names a directory. A failure leaves the working directory unchanged and reports one line. |
| `CompileTexFile.CompileTexSpec` | src/subcommands/compile/compile_tex_file.rs:9-129 | Corrected version (see Findings). A compilation never alters or removes an entry, runs `pdflatex` first, and ends with `pdflatex` when it succeeds. |
| `CompileTexFile.CompileTexErrorPolicy` | src/subcommands/compile/compile_tex_file.rs:9-59 | An output directory that is missing and cannot be created is a file-system error with nothing changed and no pass run. With the output directory in place, an unreadable main document is a file-system error with no pass run. Conversely, a file-system error means no pass ran. A failed switch leaves the working directory unchanged. |
| `CompileTexFile.CompileTexFollowsPlan` | src/subcommands/compile/compile_tex_file.rs:9-129 | If any pass ran, the output directory exists and the main document was read. The passes are then a prefix of that document's plan, and the whole plan on success. A run cut short is an error. |
| `CompileTexFile.FirstPassAlwaysRuns` | src/subcommands/compile/compile_tex_file.rs:30-89 | Once the output directory is in place and the main document can be read, the first `pdflatex` runs, whether or not the switch succeeded. |
| `CompileTexFile.CompileTexFile` | src/subcommands/compile/compile_tex_file.rs:9-129 | Corrected version (see Findings): the main document is read before the switch. The new file system, working directory, commands run and result are those of `CompileTexSpec` for the old state. The only line reported is the failed switch, when it failed. |
| `Compile.Selection` | src/subcommands/compile.rs:62-68 | An entry is selected for removal exactly when it is directly inside the output directory and is not a regular file named `main.pdf`. |
| `Compile.CleanSpec` | src/subcommands/compile.rs:37-84 | A clean only removes entries, never a directory, and alters none. Every entry it failed on is still there. A failed clean changes nothing and reports no entry. |
| `Compile.CleanErrors` | src/subcommands/compile.rs:37-61 | A clean fails exactly when the kept file has no name or the output path exists but is not a directory. A failure is a file-system error and changes nothing. A missing output directory is no error and changes nothing. Failed removals are among the selected entries. |
| `Compile.ReportsFailuresExactly` | src/subcommands/compile.rs:71-81 | The failure report has one line per entry that could not be removed. Every line names such an entry, and every such entry is named. |
| `Compile.TryRemove` | src/subcommands/compile.rs:72-80 | An entry is removed when it can be. Otherwise nothing changes except one reported line naming it. |
| `Compile.RemoveSelected` | src/subcommands/compile.rs:71-81 | After the loop, exactly the removable selected entries are gone. The lines added report exactly the selected entries that could not be removed. |
| `Compile.CleanOutputDirectory` | src/subcommands/compile.rs:37-84 | The file system and result are those of `CleanSpec`. Earlier lines are kept, and the new lines report exactly the failed removals. |
| `Compile.CleanLeavesOnlyPdf` | src/subcommands/compile.rs:64-81 | After cleaning a writable output directory, every entry left in it is a directory or the regular file `main.pdf`. |
| `Compile.CleanKeeps` | src/subcommands/compile.rs:64-81 | Cleaning only removes entries. It keeps everything outside the output directory, every directory, and the regular file `main.pdf`, and alters no entry. |
| `Compile.CleanIdempotent` | src/subcommands/compile.rs:64-81 | Cleaning a cleaned directory changes nothing. |
| `Compile.CleanReadOnly` | src/subcommands/compile.rs:71-81 | In a read-only output directory nothing is removed, and every selected entry is reported. |
| `Compile.OutputPdfNamed` | src/subcommands/compile.rs:23-25 | The kept file's path always has the name `main.pdf`, so the invalid-name error of the clean cannot arise from `compile`. |
| `Compile.CleanIfAsked` | src/subcommands/compile.rs:20-31 | Cleaning happens only when the flag is exactly `true`. A failed clean is printed as one displayed line and does not stop the command. |
| `Compile.Compile` | src/subcommands/compile.rs:12-35 | Corrected version (see Findings), through `CompileTexFile`. A root error ends the command with nothing changed. Otherwise the state and result are those of compiling the located root on the cleaned file system. The lines reported are the clean step's, then the failed switch's. |
| `Compile.CompileReadsLocatedMain` | src/subcommands/compile.rs:18-34 | With the corrected read location, what `compile` reads is what the path to the located root's `main.tex` read before cleaning, which is that `main.tex`. Neither cleaning nor creating the output directory touches it. |

## Left out

- **Logging.** `log_info`, `log_warning` and `log_error` are reduced to the reported lines (`Note`) that matter: the failed directory switch, each failed removal, and the printed clean error. The informational lines and the per-entry `Removing` warnings are not modelled.
- **Message wording.** Messages are fixed text. The paths they interpolate and the operating system's error texts are not modelled.
- **Shell-command errors.** `ShellCommandError` carries the program and how it failed, not a formatted string. The captured `stdout`/`stderr` appended to an exit failure, and their lossy UTF-8 decoding, are not modelled.
- **Parser errors.** Their rendered message is an opaque string. How clap renders them is not part of this model.
- **Path semantics.** `..` is treated as an ordinary name: no normalisation through parents. Symbolic links, OS path prefixes and non-UTF-8 file names are not modelled.
- **The upward search.** It checks `main.tex` by location, taking the working directory and its ancestors to be directories, as they are for any working directory the operating system accepts.
- **`fs::read_dir` entry errors.** Entries whose listing fails are silently dropped by `filter_map(Result::ok)`. The model lists every entry.
- **Operating-system failures.** Only permission-style failures are modelled: read-only directories, an unreadable working directory, and a non-directory or missing target. I/O errors, races with other processes and concurrency are not modelled.
- **External programs.** `pdflatex`, `makeglossaries` and `biber` are an oracle giving each run's outcome. The files they write (`out/main.pdf` and others) are not modelled.
- **Order of the clean's reports.** It follows `fs::read_dir` and is unspecified. The model states the reported set, not its order.
- **Exit-code rendering.** The decimal rendering of exit codes is written out, but no property of it is proved.
- **Outside this model.** `src/main.rs`, `src/cli.rs`, the `init` subcommand and `src/config.rs` are not part of this model. They parse the command line, set up new projects, and hold the constants.
- **Two gaps in the source revision.** `src/logs.rs` declares only the `HelpMessage` and `InvalidCommandLineArgument` variants, yet the compile code also builds `FileSystemError` and `ShellCommandError`. Likewise `src/config.rs` does not define the `MAIN_FILE_NAME` and `MAIN_PDF_FILE` the compile code imports. The model gives `Log` all four variants, each displayed with the `ERR` tag, and takes the names `main` and `main.pdf`.
- **`env::set_current_dir`.** It is modelled as changing the working directory that later relative paths resolve against. This is what exposes the first finding below.

## Findings

| source | as written | input that shows it | evidently intended | confidence | as-written member | corrected member |
|---|---|---|---|---|---|---|
| src/subcommands/compile/compile_tex_file.rs:34-53 | The working directory is switched to `project_directory` (line 34). Afterwards `project_directory.join(MAIN_TEX_FILE)` is read (lines 52-53), and a relative project directory is resolved again from inside itself. | `latex-wizard compile myproj` (or `compile myproj/main.tex`) where `myproj/main.tex` exists: the read targets `myproj/myproj/main.tex`, fails, and no pass runs | read the `main.tex` inside the project directory, i.e. resolve it before switching (or read `MAIN_TEX_FILE` relative to the new working directory) | not executed | `CompileTexFile.CompileRelativeProjectAsWritten` | `CompileTexFile.MainTexLocation` |
| src/subcommands/compile/compile_tex_file.rs:136-141 | the error for a command that cannot be started always names `pdflatex` | `makeglossaries` or `biber` missing from `PATH` while `pdflatex` is installed: the message says `pdflatex` could not be spawned | name the program that failed to start, as the exit-failure branch does (line 146) | not executed | `CompileTexFile.SpawnErrorNamesWrongProgram` | `CompileTexFile.RunShellCmd` |
