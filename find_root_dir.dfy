/**
 * Project-root resolution: from an optional path argument, find the directory
 * that directly contains the main document `main.tex`.
 */
module FindRootDir {
  import opened Wrappers
  import opened Config
  import opened Paths
  import opened Logs

  const MSG_MISSING: string := "File or directory doesn't exist."
  const MSG_NO_PARENT: string := "Failed to get the directory containing the main file."
  const MSG_NO_FILE_NAME: string := "Failed to retrieve the file name."
  const MSG_WRONG_FILE: string := "Invalid file name. Only the main `.tex` file (`main.tex`) can be compiled."
  const MSG_NO_MAIN_INSIDE: string := "Failed to find the main `.tex` file (`main.tex`) inside the directory."
  const MSG_NOT_FILE_OR_DIR: string :=
    "File should be either the root directory of the project or the main `.tex` file (`main.tex`)"
  const MSG_NO_CURRENT_DIR: string := "While looking for `main.tex` file: failed to get current directory."
  const MSG_NOT_FOUND: string :=
    "Can't find file `main.tex` neither in the current directory, nor in any parent directory."

  /**
   * The root named by an explicit argument `p`, with `cwd` the working
   * directory: `p` itself when it is a directory holding `main.tex`, the
   * directory holding `p` when `p` is the file `main.tex` (`.` when `p` has no
   * directory part). Whatever it returns names a directory that holds
   * `main.tex` as a regular file, and is never the empty path.
   */
  function RootFromArgument(fs: FileSystem, cwd: Location, p: PathBuf): (r: Result<PathBuf, Log>)
    ensures r.Ok? ==> HasMain(fs, Resolve(cwd, p)) || (IsFile(fs, Resolve(cwd, p)) && FileName(p) == Some(MAIN_TEX_FILE))
    ensures r.Ok? ==> HasMain(fs, Resolve(cwd, r.value)) && !IsEmpty(r.value)
    ensures !Exists(fs, cwd, p) ==> r == Err(InvalidCommandLineArgument(MSG_MISSING))
    ensures r.Ok? <==>
      && Exists(fs, cwd, p)
      && ((IsFile(fs, Resolve(cwd, p)) && FileName(p) == Some(MAIN_TEX_FILE)) ||
          (IsDir(fs, Resolve(cwd, p)) && HasMain(fs, Resolve(cwd, p))))
    ensures Exists(fs, cwd, p) && IsDir(fs, Resolve(cwd, p)) && HasMain(fs, Resolve(cwd, p)) ==> r == Ok(p)
    ensures r.Ok? && IsFile(fs, Resolve(cwd, p)) ==>
      && Resolve(cwd, r.value) + [MAIN_TEX_FILE] == Resolve(cwd, p)
      && (r.value == CURRENT_DIR || Parent(p) == Some(r.value))
    ensures Exists(fs, cwd, p) && IsFile(fs, Resolve(cwd, p)) && FileName(p).None? ==>
      r == Err(FileSystemError(MSG_NO_FILE_NAME))
    ensures Exists(fs, cwd, p) && IsFile(fs, Resolve(cwd, p)) && FileName(p).Some? && FileName(p) != Some(MAIN_TEX_FILE) ==>
      r == Err(InvalidCommandLineArgument(MSG_WRONG_FILE))
    ensures Exists(fs, cwd, p) && IsDir(fs, Resolve(cwd, p)) && !HasMain(fs, Resolve(cwd, p)) ==>
      r == Err(InvalidCommandLineArgument(MSG_NO_MAIN_INSIDE))
    ensures Exists(fs, cwd, p) && !IsFile(fs, Resolve(cwd, p)) && !IsDir(fs, Resolve(cwd, p)) ==>
      r == Err(InvalidCommandLineArgument(MSG_NOT_FILE_OR_DIR))
    ensures r.Err? && r.error.FileSystemError? ==> IsFile(fs, Resolve(cwd, p)) && FileName(p).None?
  {
    var l := Resolve(cwd, p);
    if !Exists(fs, cwd, p) then
      Err(InvalidCommandLineArgument(MSG_MISSING))
    else if fs[l].File? then
      if FileName(p) == Some(MAIN_TEX_FILE) then
        match Parent(p)
        case None => Err(FileSystemError(MSG_NO_PARENT))
        case Some(dir) =>
          ResolveParent(cwd, p, MAIN_TEX_FILE);
          if IsEmpty(dir) then
            assert Resolve(cwd, CURRENT_DIR) == cwd == Resolve(cwd, dir);
            Ok(CURRENT_DIR)
          else Ok(dir)
      else if FileName(p) == None then
        Err(FileSystemError(MSG_NO_FILE_NAME))
      else
        Err(InvalidCommandLineArgument(MSG_WRONG_FILE))
    else if fs[l].Dir? then
      if HasMain(fs, l) then Ok(p) else Err(InvalidCommandLineArgument(MSG_NO_MAIN_INSIDE))
    else
      Err(InvalidCommandLineArgument(MSG_NOT_FILE_OR_DIR))
  }

  /**
   * The deepest directory on the way from `dir` up to the file-system root
   * (`dir` itself included) that holds `main.tex`, if any.
   */
  function DeepestRoot(fs: FileSystem, dir: Location): (r: Option<Location>)
    ensures r.Some? ==> HasMain(fs, r.value) && |r.value| <= |dir| && dir[..|r.value|] == r.value
    decreases |dir|
  {
    if HasMain(fs, dir) then Some(dir)
    else if dir == [] then None
    else DeepestRoot(fs, dir[..|dir| - 1])
  }

  /**
   * `DeepestRoot` finds an ancestor of `dir` (or `dir` itself) holding
   * `main.tex` with none deeper holding it; and it finds none exactly when no
   * ancestor up to the file-system root holds it.
   */
  lemma {:induction false} DeepestRootIsDeepest(fs: FileSystem, dir: Location)
    ensures DeepestRoot(fs, dir).Some? ==>
      var a := DeepestRoot(fs, dir).value;
      && |a| <= |dir| && dir[..|a|] == a
      && HasMain(fs, a)
      && forall k :: |a| < k <= |dir| ==> !HasMain(fs, dir[..k])
    ensures DeepestRoot(fs, dir).None? <==> forall k :: 0 <= k <= |dir| ==> !HasMain(fs, dir[..k])
    decreases |dir|
  {
    if HasMain(fs, dir) {
      assert dir[..|dir|] == dir;
    } else if dir == [] {
      assert dir[..0] == dir;
    } else {
      var up := dir[..|dir| - 1];
      DeepestRootIsDeepest(fs, up);
      assert forall k :: 0 <= k <= |up| ==> up[..k] == dir[..k];
      assert dir[..|dir|] == dir;
    }
  }

  /**
   * The `None` branch: starting from the working directory, look for
   * `main.tex` and climb one directory at a time until it is found or the
   * file-system root has been searched.
   */
  method FindRootUpward(fs: FileSystem, start: Location) returns (r: Result<PathBuf, Log>)
    ensures DeepestRoot(fs, start).Some? ==> r == Ok(PathBuf(true, DeepestRoot(fs, start).value))
    ensures DeepestRoot(fs, start).None? ==> r == Err(InvalidCommandLineArgument(MSG_NOT_FOUND))
  {
    var current := start;
    while true
      invariant DeepestRoot(fs, current) == DeepestRoot(fs, start)
      decreases |current|
    {
      if HasMain(fs, current) {
        return Ok(PathBuf(true, current));
      }
      if current == [] {
        return Err(InvalidCommandLineArgument(MSG_NOT_FOUND));
      }
      current := current[..|current| - 1];
    }
  }

  /** The root `find_project_root_directory` settles on, as a function of the host's state and the argument. */
  function ProjectRoot(fs: FileSystem, cwd: Location, cwdReadable: bool, arg: Option<PathBuf>): (r: Result<PathBuf, Log>)
    ensures r.Ok? ==> HasMain(fs, Resolve(cwd, r.value)) && !IsEmpty(r.value)
    ensures arg.None? && r.Ok? ==> r.value.absolute && |r.value.comps| <= |cwd| && cwd[..|r.value.comps|] == r.value.comps
    ensures arg.None? ==> (r.Ok? <==> cwdReadable && exists k :: 0 <= k <= |cwd| && HasMain(fs, cwd[..k]))
  {
    match arg
    case Some(p) => RootFromArgument(fs, cwd, p)
    case None =>
      if !cwdReadable then Err(FileSystemError(MSG_NO_CURRENT_DIR))
      else
        DeepestRootIsDeepest(fs, cwd);
        match DeepestRoot(fs, cwd)
        case Some(a) =>
          StripLocation(a);
          assert cwd[..|a|] == a && HasMain(fs, cwd[..|a|]);
          assert Resolve(cwd, PathBuf(true, a)) == a;
          Ok(PathBuf(true, a))
        case None => Err(InvalidCommandLineArgument(MSG_NOT_FOUND))
  }

  /**
   * `find_project_root_directory`: the `Some` branch inspects the argument,
   * the `None` branch searches upward from the working directory. Whatever
   * root it returns holds `main.tex` as a regular file; with no argument that
   * root is the deepest such ancestor of the working directory.
   */
  method FindProjectRootDirectory(fs: FileSystem, cwd: Location, cwdReadable: bool, arg: Option<PathBuf>)
    returns (r: Result<PathBuf, Log>)
    ensures arg.Some? ==> r == RootFromArgument(fs, cwd, arg.value)
    ensures arg.None? && !cwdReadable ==> r == Err(FileSystemError(MSG_NO_CURRENT_DIR))
    ensures arg.None? && cwdReadable ==>
      if DeepestRoot(fs, cwd).Some? then r == Ok(PathBuf(true, DeepestRoot(fs, cwd).value))
      else r == Err(InvalidCommandLineArgument(MSG_NOT_FOUND))
    ensures r == ProjectRoot(fs, cwd, cwdReadable, arg)
    ensures r.Ok? ==> HasMain(fs, Resolve(cwd, r.value)) && !IsEmpty(r.value)
    ensures arg.None? && r.Ok? ==> r.value.absolute && |r.value.comps| <= |cwd| && cwd[..|r.value.comps|] == r.value.comps
  {
    match arg {
      case Some(p) =>
        r := RootFromArgument(fs, cwd, p);
      case None =>
        if !cwdReadable {
          return Err(FileSystemError(MSG_NO_CURRENT_DIR));
        }
        r := FindRootUpward(fs, cwd);
    }
  }

  /** `compile main.tex` in a directory holding `main.tex`: the root is `.`, that is, the working directory. */
  lemma BareMainFileIsCurrentDir(fs: FileSystem, cwd: Location)
    requires IsDir(fs, cwd) && IsFile(fs, cwd + [MAIN_TEX_FILE])
    ensures RootFromArgument(fs, cwd, PathBuf(false, [MAIN_TEX_FILE])) == Ok(CURRENT_DIR)
    ensures Resolve(cwd, CURRENT_DIR) == cwd
  {
    var p := PathBuf(false, [MAIN_TEX_FILE]);
    assert Strip(p.comps) == [MAIN_TEX_FILE] + Strip([]);
    assert Resolve(cwd, p) == cwd + [MAIN_TEX_FILE];
    assert Components(p) == [MAIN_TEX_FILE];
    assert FileName(p) == Some(MAIN_TEX_FILE);
    assert Parent(p) == Some(PathBuf(false, []));
    assert p.comps[..0] == [] && Resolve(cwd, PathBuf(false, [])) == cwd;
    assert Exists(fs, cwd, p);
  }

  /**
   * With no argument, when `main.tex` sits `d` levels above the working
   * directory and in no directory in between, the search climbs exactly `d`
   * levels.
   */
  lemma {:induction false} UpwardSearchClimbs(fs: FileSystem, cwd: Location, d: nat)
    requires d <= |cwd|
    requires HasMain(fs, cwd[..|cwd| - d])
    requires forall k :: |cwd| - d < k <= |cwd| ==> !HasMain(fs, cwd[..k])
    ensures DeepestRoot(fs, cwd) == Some(cwd[..|cwd| - d])
    decreases d
  {
    if d == 0 {
      assert cwd[..|cwd|] == cwd;
    } else {
      assert cwd[..|cwd|] == cwd;
      var up := cwd[..|cwd| - 1];
      assert forall k :: 0 <= k <= |up| ==> up[..k] == cwd[..k];
      UpwardSearchClimbs(fs, up, d - 1);
    }
  }

  /**
   * Inside an existing directory, `candidate_main_tex_file.exists() &&
   * candidate_main_tex_file.is_file()` holds exactly when the directory holds
   * `main.tex` as a regular file.
   */
  lemma MainInsideExists(fs: FileSystem, cwd: Location, p: PathBuf)
    requires Exists(fs, cwd, p) && IsDir(fs, Resolve(cwd, p))
    ensures var candidate := Join(p, MAIN_TEX_FILE);
      Exists(fs, cwd, candidate) && IsFile(fs, Resolve(cwd, candidate)) <==> HasMain(fs, Resolve(cwd, p))
  {
    WalkableJoin(fs, cwd, p, MAIN_TEX_FILE);
    ResolveJoin(cwd, p, MAIN_TEX_FILE);
  }

  /** `compile main.tex/.`: a `.` after the main file does not exist, so the argument is rejected as missing. */
  lemma DotAfterMainFileIsMissing(fs: FileSystem, cwd: Location)
    requires IsFile(fs, cwd + [MAIN_TEX_FILE])
    ensures RootFromArgument(fs, cwd, PathBuf(false, [MAIN_TEX_FILE, "."])) == Err(InvalidCommandLineArgument(MSG_MISSING))
  {
    var p := PathBuf(false, [MAIN_TEX_FILE]);
    assert Strip(p.comps) == [MAIN_TEX_FILE] + Strip([]);
    assert Resolve(cwd, p) == cwd + [MAIN_TEX_FILE];
    assert Join(p, ".") == PathBuf(false, [MAIN_TEX_FILE, "."]);
    DotAfterFileIsMissing(fs, cwd, p);
  }
}
