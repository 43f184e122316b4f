/**
 * An abstract file system and the parts of Rust's `Path`/`PathBuf` that the
 * compile subcommand relies on.
 *
 * A location in the file system is the sequence of names leading to it from
 * the file-system root (`[]` is the root itself). A `PathBuf` is the syntactic
 * path a program holds: absolute or relative, and its components. Relative
 * paths are resolved against the process's working directory.
 */
module Paths {
  import opened Wrappers
  import opened Config

  /**
   * A resolved location: the names leading to it from the file-system root.
   * A resolved location never holds a `.` component.
   */
  type Location = s: seq<string> | forall i :: 0 <= i < |s| ==> s[i] != "."

  /** What a location holds. */
  datatype Node =
    | File(text: Option<string>)  // None: the bytes are not valid UTF-8
    | Dir
    | Special                     // a fifo, socket or device: neither a file nor a directory

  type FileSystem = map<Location, Node>

  /** A path as the program holds it. */
  datatype PathBuf = PathBuf(absolute: bool, comps: seq<string>)

  /** The path `.`. */
  const CURRENT_DIR: PathBuf := PathBuf(false, ["."])

  /** The path with no components at all, which names nothing. */
  predicate IsEmpty(p: PathBuf) {
    !p.absolute && p.comps == []
  }

  /** `p.join(name)` for a single relative component. */
  function Join(p: PathBuf, name: string): PathBuf {
    PathBuf(p.absolute, p.comps + [name])
  }

  /**
   * `p.components()`: the components Rust yields for a path. Every `.` is
   * skipped, except a leading one in a relative path.
   */
  function Components(p: PathBuf): (c: seq<string>)
    ensures Strip(c) == Strip(p.comps)
    ensures forall i | 0 < i < |c| :: c[i] != "."
  {
    if !p.absolute && p.comps != [] && p.comps[0] == "." then
      StripLocation(Strip(p.comps[1..]));
      ["."] + Strip(p.comps[1..])
    else
      StripLocation(Strip(p.comps));
      Strip(p.comps)
  }

  /** `p.file_name()`: the last component, unless there is none or it is `.` or `..`; a trailing `.` is skipped. */
  function FileName(p: PathBuf): (r: Option<string>)
    ensures var c := Components(p);
      r.Some? ==> c != [] && r.value == c[|c| - 1] && r.value != "." && r.value != ".."
    ensures var c := Components(p);
      r.None? <==> c == [] || c[|c| - 1] in {".", ".."}
  {
    var c := Components(p);
    if c == [] then None
    else
      var last := c[|c| - 1];
      if last == "." || last == ".." then None else Some(last)
  }

  /** `p.parent()`: the path without its last component; none for `/` and for the empty path. */
  function Parent(p: PathBuf): (r: Option<PathBuf>)
    ensures var c := Components(p);
      r.None? <==> c == []
    ensures var c := Components(p);
      r.Some? ==> r.value.absolute == p.absolute && r.value.comps + [c[|c| - 1]] == c
  {
    var c := Components(p);
    if c == [] then None else Some(PathBuf(p.absolute, c[..|c| - 1]))
  }

  /** The components that name something: every `.` is dropped. */
  function Strip(comps: seq<string>): (r: seq<string>)
    ensures |r| <= |comps|
    ensures forall i :: 0 <= i < |r| ==> r[i] != "."
  {
    if comps == [] then []
    else if comps[0] == "." then Strip(comps[1..])
    else [comps[0]] + Strip(comps[1..])
  }

  /** Where `p` points when the working directory is `cwd`. */
  function Resolve(cwd: Location, p: PathBuf): Location {
    (if p.absolute then [] else cwd) + Strip(p.comps)
  }

  /**
   * Every component of `p` is looked up inside a directory: the directory the
   * path starts from, and each location reached before a later component
   * (a `.` after a regular file does not resolve).
   */
  predicate Walkable(fs: FileSystem, cwd: Location, p: PathBuf) {
    forall i | 0 <= i < |p.comps| :: IsDir(fs, Resolve(cwd, PathBuf(p.absolute, p.comps[..i])))
  }

  /** `p.exists()`: the empty path names nothing; any other path exists when it resolves, through directories, to an entry. */
  predicate Exists(fs: FileSystem, cwd: Location, p: PathBuf) {
    !IsEmpty(p) && Walkable(fs, cwd, p) && Resolve(cwd, p) in fs
  }

  predicate IsFile(fs: FileSystem, l: Location) {
    l in fs && fs[l].File?
  }

  predicate IsDir(fs: FileSystem, l: Location) {
    l in fs && fs[l].Dir?
  }

  /** `dir.join(MAIN_TEX_FILE)` exists and is a regular file. */
  predicate HasMain(fs: FileSystem, dir: Location) {
    IsFile(fs, dir + [MAIN_TEX_FILE])
  }

  /** `l` is an entry directly inside `dir`. */
  predicate IsChild(l: Location, dir: Location) {
    |l| == |dir| + 1 && l[..|dir|] == dir
  }

  /** The entries `fs::read_dir` lists for directory `dir`. */
  function Children(fs: FileSystem, dir: Location): (r: set<Location>)
    ensures forall l :: l in r <==> l in fs && IsChild(l, dir)
  {
    set l | l in fs && IsChild(l, dir)
  }

  /** The text of a regular file that holds valid UTF-8. */
  function ReadText(fs: FileSystem, l: Location): (r: Option<string>)
    ensures r.Some? <==> IsFile(fs, l) && fs[l].text.Some?
  {
    if IsFile(fs, l) then fs[l].text else None
  }

  /** `fs::read_to_string(p)`: the text of the regular UTF-8 file that `p` reaches, if any. */
  function ReadPath(fs: FileSystem, cwd: Location, p: PathBuf): (r: Option<string>)
    ensures r.Some? <==> Exists(fs, cwd, p) && ReadText(fs, Resolve(cwd, p)).Some?
    ensures r.Some? ==> r == ReadText(fs, Resolve(cwd, p))
  {
    if Exists(fs, cwd, p) then ReadText(fs, Resolve(cwd, p)) else None
  }

  /** Appending a name other than `.` commutes with dropping the `.` components. */
  lemma {:induction false} StripAppend(comps: seq<string>, name: string)
    requires name != "."
    ensures Strip(comps + [name]) == Strip(comps) + [name]
  {
    if comps == [] {
      assert Strip([name]) == [name] + Strip([]);
    } else {
      assert (comps + [name])[1..] == comps[1..] + [name];
      StripAppend(comps[1..], name);
    }
  }

  /** A resolved location has nothing left to drop. */
  lemma {:induction false} StripLocation(l: Location)
    ensures Strip(l) == l
  {
    if l != [] {
      StripLocation(l[1..]);
    }
  }

  /** A path and its parent: the path resolves to its parent's location plus its file name. */
  lemma ResolveParent(cwd: Location, p: PathBuf, name: string)
    requires FileName(p) == Some(name)
    ensures Parent(p).Some?
    ensures Resolve(cwd, p) == Resolve(cwd, Parent(p).value) + [name]
  {
    var c := Components(p);
    var d := Parent(p).value;
    assert c == d.comps + [name];
    StripAppend(d.comps, name);
  }

  /** Joining a name other than `.` extends the resolved location by that name. */
  lemma ResolveJoin(cwd: Location, p: PathBuf, name: string)
    requires name != "."
    ensures Resolve(cwd, Join(p, name)) == Resolve(cwd, p) + [name]
  {
    StripAppend(p.comps, name);
  }

  /** Dropping the `.` components of a prefix leaves no more than dropping them from the whole. */
  lemma {:induction false} StripPrefixShorter(c: seq<string>, i: nat)
    requires i <= |c|
    ensures |Strip(c[..i])| <= |Strip(c)|
  {
    if i > 0 {
      assert c[..i][1..] == c[1..][..i - 1];
      StripPrefixShorter(c[1..], i - 1);
    }
  }

  /** A path joined with a name is walkable exactly when the path is and reaches a directory. */
  lemma WalkableJoin(fs: FileSystem, cwd: Location, p: PathBuf, name: string)
    ensures Walkable(fs, cwd, Join(p, name)) <==> Walkable(fs, cwd, p) && IsDir(fs, Resolve(cwd, p))
  {
    var q := Join(p, name);
    assert q.comps[..|p.comps|] == p.comps;
    forall i | 0 <= i < |p.comps|
      ensures q.comps[..i] == p.comps[..i]
    {
    }
  }

  /** Joining a plain name makes that name the file name. */
  lemma FileNameJoin(p: PathBuf, name: string)
    requires name != "." && name != ".."
    ensures FileName(Join(p, name)) == Some(name)
  {
    var q := Join(p, name);
    StripAppend(p.comps, name);
    if !p.absolute && p.comps != [] && p.comps[0] == "." {
      assert q.comps[1..] == p.comps[1..] + [name];
      StripAppend(p.comps[1..], name);
    }
  }

  /** `Path::file_name` skips a trailing `.`: `foo.txt/.` is named `foo.txt`. */
  lemma {:induction false} FileNameSkipsTrailingDot(p: PathBuf)
    requires p.comps != []
    ensures FileName(Join(p, ".")) == FileName(p)
  {
    var q := Join(p, ".");
    StripDotAppend(p.comps);
    if !p.absolute && p.comps[0] == "." {
      assert q.comps[0] == "." && q.comps[1..] == p.comps[1..] + ["."];
      StripDotAppend(p.comps[1..]);
    }
  }

  /** Appending `.` does not change what is left once the `.` components are dropped. */
  lemma {:induction false} StripDotAppend(comps: seq<string>)
    ensures Strip(comps + ["."]) == Strip(comps)
  {
    if comps == [] {
      assert Strip(["."]) == Strip([]);
    } else {
      assert (comps + ["."])[1..] == comps[1..] + ["."];
      StripDotAppend(comps[1..]);
    }
  }

  /** `.` after a regular file does not exist, as on POSIX systems (`ENOTDIR`). */
  lemma DotAfterFileIsMissing(fs: FileSystem, cwd: Location, p: PathBuf)
    requires IsFile(fs, Resolve(cwd, p))
    ensures !Exists(fs, cwd, Join(p, "."))
  {
    WalkableJoin(fs, cwd, p, ".");
  }
}
