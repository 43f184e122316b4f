/**
 * The `compile` subcommand: locate the project root, optionally clean the
 * output directory (keeping the last `main.pdf`), then compile the project.
 */
module Compile {
  import opened Wrappers
  import opened Config
  import opened Paths
  import opened Logs
  import opened Os
  import opened FindRootDir
  import opened CompileTexFile

  const MSG_PDF_NAME: string := "Invalid file name"
  const MSG_LIST: string := "An error occurred while reading the content of directory"

  /**
   * The entries of `dir` that cleaning tries to remove: every entry except a
   * regular file named `pdf`. Directories and special files are selected too.
   */
  function Selection(fs: FileSystem, dir: Location, pdf: string): (sel: set<Location>)
    ensures forall l :: l in sel <==> l in fs && IsChild(l, dir) && !(fs[l].File? && l[|dir|] == pdf)
  {
    set l | l in Children(fs, dir) && !(fs[l].File? && l[|l| - 1] == pdf)
  }

  /** The entries among `ls` that `fs::remove_file` removes. */
  function Removable(fs: FileSystem, ls: set<Location>, readOnly: set<Location>): set<Location> {
    set l | l in ls && RemoveFileAllowed(fs, l, readOnly)
  }

  /** The entries among `ls` on which `fs::remove_file` fails. */
  function Unremovable(fs: FileSystem, ls: set<Location>, readOnly: set<Location>): set<Location> {
    set l | l in ls && !RemoveFileAllowed(fs, l, readOnly)
  }

  /** The file system after cleaning `dir`, keeping the regular file named `pdf`. */
  function Cleaned(fs: FileSystem, dir: Location, pdf: string, readOnly: set<Location>): FileSystem {
    fs - Removable(fs, Selection(fs, dir, pdf), readOnly)
  }

  /** What a clean leaves: the file system, the entries it failed to remove, its result. */
  datatype CleanRun = CleanRun(fs: FileSystem, failed: set<Location>, result: Result<(), Log>)

  /**
   * What `clean_output_directory` does: the kept file's name comes from
   * `outPdf` (no name is an error); a missing output directory is left alone;
   * one that cannot be listed is an error; otherwise every selected entry is
   * removed where possible, and the failures are reported but not fatal.
   * Cleaning only ever removes entries, never a directory, and never alters
   * one; every entry it failed on is still there; an error changes nothing.
   */
  function CleanSpec(fs: FileSystem, cwd: Location, readOnly: set<Location>, outDir: PathBuf, outPdf: PathBuf): (c: CleanRun)
    ensures c.fs.Keys <= fs.Keys && forall l | l in c.fs :: c.fs[l] == fs[l]
    ensures forall l | l in fs && fs[l].Dir? :: l in c.fs
    ensures c.failed <= c.fs.Keys
    ensures c.result.Err? ==> c.fs == fs && c.failed == {}
  {
    match FileName(outPdf)
    case None => CleanRun(fs, {}, Err(FileSystemError(MSG_PDF_NAME)))
    case Some(pdf) =>
      if !Exists(fs, cwd, outDir) then CleanRun(fs, {}, Ok(()))
      else
        var dir := Resolve(cwd, outDir);
        if !IsDir(fs, dir) then CleanRun(fs, {}, Err(FileSystemError(MSG_LIST)))
        else
          var sel := Selection(fs, dir, pdf);
          CleanRun(Cleaned(fs, dir, pdf, readOnly), Unremovable(fs, sel, readOnly), Ok(()))
  }

  /**
   * A clean fails exactly when the kept file has no name or the output path
   * exists but is not a directory; a failed clean is a file-system error and
   * changes nothing, and a missing output directory is no error at all.
   */
  lemma CleanErrors(fs: FileSystem, cwd: Location, readOnly: set<Location>, outDir: PathBuf, outPdf: PathBuf)
    ensures var c := CleanSpec(fs, cwd, readOnly, outDir, outPdf);
      c.result.Err? <==>
        FileName(outPdf).None? || (Exists(fs, cwd, outDir) && !IsDir(fs, Resolve(cwd, outDir)))
    ensures var c := CleanSpec(fs, cwd, readOnly, outDir, outPdf);
      c.result.Err? ==> c.result.error.FileSystemError? && c.fs == fs && c.failed == {}
    ensures FileName(outPdf).Some? && !Exists(fs, cwd, outDir) ==>
      CleanSpec(fs, cwd, readOnly, outDir, outPdf) == CleanRun(fs, {}, Ok(()))
    ensures var c := CleanSpec(fs, cwd, readOnly, outDir, outPdf);
      c.failed != {} ==> c.failed <= Selection(fs, Resolve(cwd, outDir), FileName(outPdf).value)
  {
  }

  /**
   * `added` reports exactly the entries of `failed`, one line each, in some
   * order: its last line names an entry of `failed`, and the lines before it
   * report the rest.
   */
  predicate ReportsFailures(added: seq<Note>, failed: set<Location>)
    decreases |added|
  {
    if added == [] then failed == {}
    else
      var last := added[|added| - 1];
      && last.RemovalFailed? && last.entry in failed
      && ReportsFailures(added[..|added| - 1], failed - {last.entry})
  }

  /** A report of the failures has one line per failed entry, and every line names one of them. */
  lemma {:induction false} ReportsFailuresExactly(added: seq<Note>, failed: set<Location>)
    requires ReportsFailures(added, failed)
    ensures |added| == |failed|
    ensures forall i | 0 <= i < |added| :: added[i].RemovalFailed? && added[i].entry in failed
    ensures forall l | l in failed :: RemovalFailed(l) in added
    decreases |added|
  {
    if added != [] {
      var init, last := added[..|added| - 1], added[|added| - 1];
      ReportsFailuresExactly(init, failed - {last.entry});
      assert added == init + [last];
      forall l | l in failed
        ensures RemovalFailed(l) in added
      {
        if l != last.entry {
          assert RemovalFailed(l) in init;
        }
      }
    }
  }

  /** Removing entries other than `l` does not change whether `l` can be removed. */
  lemma RemovalIndependent(fs: FileSystem, gone: set<Location>, l: Location, readOnly: set<Location>)
    requires l !in gone
    ensures RemoveFileAllowed(fs - gone, l, readOnly) == RemoveFileAllowed(fs, l, readOnly)
    ensures (fs - gone) - {l} == fs - (gone + {l})
  {
  }

  /** Visiting `l` adds it to the removed entries when it is removable, to the failed ones otherwise. */
  lemma ClassifyOne(done: set<Location>, can: set<Location>, l: Location)
    requires l !in done
    ensures l in can ==> (done + {l}) * can == done * can + {l} && (done + {l}) - can == done - can
    ensures l !in can ==> (done + {l}) * can == done * can && (done + {l}) - can == (done - can) + {l}
    ensures l !in done - can
  {
  }

  /** Moving `l` from the entries still to visit to the visited ones. */
  lemma MoveOne(todo: set<Location>, done: set<Location>, l: Location)
    requires l in todo && todo !! done
    ensures (todo - {l}) + (done + {l}) == todo + done && (todo - {l}) !! (done + {l})
  {
  }

  /** The selected entries split into the removable and the unremovable ones. */
  lemma RemovableSplit(fs: FileSystem, sel: set<Location>, readOnly: set<Location>)
    ensures Removable(fs, sel, readOnly) <= sel
    ensures Unremovable(fs, sel, readOnly) == sel - Removable(fs, sel, readOnly)
  {
  }

  /**
   * The removal loop of `clean_output_directory` (lines 71-81): try to remove
   * each selected entry, in an unspecified order (the order `fs::read_dir`
   * lists them in), reporting each failure and going on.
   */
  method RemoveSelected(h: Host, sel: set<Location>)
    modifies h`fs, h`notes
    ensures h.fs == old(h.fs) - Removable(old(h.fs), sel, h.readOnly)
    ensures |h.notes| >= |old(h.notes)| && h.notes[..|old(h.notes)|] == old(h.notes)
    ensures ReportsFailures(h.notes[|old(h.notes)|..], Unremovable(old(h.fs), sel, h.readOnly))
  {
    ghost var fs0, notes0 := h.fs, h.notes;
    ghost var can := Removable(fs0, sel, h.readOnly);
    var todo := sel;
    ghost var done, gone, failed: set<Location> := {}, {}, {};
    ghost var added: seq<Note> := [];
    assert h.notes == notes0 + added;
    while todo != {}
      invariant todo + done == sel && todo !! done
      invariant gone == done * can && failed == done - can
      invariant h.fs == fs0 - gone
      invariant h.notes == notes0 + added && ReportsFailures(added, failed)
      decreases |todo|
    {
      var l :| l in todo;
      RemovalIndependent(fs0, gone, l, h.readOnly);
      assert l in can <==> RemoveFileAllowed(fs0, l, h.readOnly);
      ClassifyOne(done, can, l);
      MoveOne(todo, done, l);
      var removed := TryRemove(h, l);
      if removed {
        gone := gone + {l};
      } else {
        AppendOne(notes0, added, RemovalFailed(l));
        ReportOneMore(added, failed, l);
        added, failed := added + [RemovalFailed(l)], failed + {l};
      }
      todo, done := todo - {l}, done + {l};
    }
    RemovableSplit(fs0, sel, h.readOnly);
    assert h.notes[|notes0|..] == added;
  }

  /** One step of the removal loop: remove `l`, or report that it could not be removed. */
  method TryRemove(h: Host, l: Location) returns (removed: bool)
    modifies h`fs, h`notes
    ensures removed == RemoveFileAllowed(old(h.fs), l, h.readOnly)
    ensures h.fs == if removed then old(h.fs) - {l} else old(h.fs)
    ensures removed ==> h.notes == old(h.notes)
    ensures !removed ==> h.notes == old(h.notes) + [RemovalFailed(l)]
  {
    removed := h.RemoveFile(l);
    if !removed {
      h.Report(RemovalFailed(l));
    }
  }

  /** Appending to a sequence split in two appends to its second part. */
  lemma AppendOne(a: seq<Note>, b: seq<Note>, x: Note)
    ensures (a + b) + [x] == a + (b + [x])
  {
  }

  /** Reporting one more failed entry keeps the report exact. */
  lemma ReportOneMore(added: seq<Note>, failed: set<Location>, l: Location)
    requires ReportsFailures(added, failed) && l !in failed
    ensures ReportsFailures(added + [RemovalFailed(l)], failed + {l})
  {
    assert (added + [RemovalFailed(l)])[..|added|] == added;
    assert (failed + {l}) - {l} == failed;
  }

  /** `clean_output_directory` (lines 37-84). */
  method CleanOutputDirectory(h: Host, outDir: PathBuf, outPdf: PathBuf) returns (r: Result<(), Log>)
    modifies h`fs, h`notes
    ensures var c := CleanSpec(old(h.fs), h.cwd, h.readOnly, outDir, outPdf);
      && h.fs == c.fs && r == c.result
      && |h.notes| >= |old(h.notes)| && h.notes[..|old(h.notes)|] == old(h.notes)
      && ReportsFailures(h.notes[|old(h.notes)|..], c.failed)
  {
    var pdf := FileName(outPdf);
    if pdf.None? {
      return Err(FileSystemError(MSG_PDF_NAME));
    }
    if !Exists(h.fs, h.cwd, outDir) {
      return Ok(());
    }
    var entries := h.ReadDir(outDir);
    if entries.None? {
      return Err(FileSystemError(MSG_LIST));
    }
    // Keep every entry except the regular file holding the output document
    var selected := set l | l in entries.value && !(h.fs[l].File? && l[|l| - 1] == pdf.value);
    assert selected == Selection(h.fs, Resolve(h.cwd, outDir), pdf.value);
    RemoveSelected(h, selected);
    return Ok(());
  }

  /**
   * After a clean of a writable `dir`, the only regular file left in it is
   * the one named `pdf`, and nothing but directories remains besides it.
   */
  lemma CleanLeavesOnlyPdf(fs: FileSystem, dir: Location, pdf: string, readOnly: set<Location>)
    requires dir !in readOnly
    ensures var c := Cleaned(fs, dir, pdf, readOnly);
      forall l | l in c && IsChild(l, dir) :: c[l].Dir? || (c[l].File? && l[|dir|] == pdf)
  {
    var c := Cleaned(fs, dir, pdf, readOnly);
    forall l | l in c && IsChild(l, dir)
      ensures c[l].Dir? || (c[l].File? && l[|dir|] == pdf)
    {
      assert ParentOf(l) == dir;
    }
  }

  /**
   * A clean touches nothing outside `dir`, keeps the regular file named `pdf`
   * and every directory, and never adds or alters an entry.
   */
  lemma CleanKeeps(fs: FileSystem, dir: Location, pdf: string, readOnly: set<Location>)
    ensures var c := Cleaned(fs, dir, pdf, readOnly);
      && c.Keys <= fs.Keys
      && (forall l | l in c :: c[l] == fs[l])
      && (forall l | l in fs && !IsChild(l, dir) :: l in c)
      && (forall l | l in fs && fs[l].Dir? :: l in c)
      && (dir + [pdf] in fs && fs[dir + [pdf]].File? ==> dir + [pdf] in c)
  {
  }

  /** Cleaning twice is cleaning once. */
  lemma CleanIdempotent(fs: FileSystem, dir: Location, pdf: string, readOnly: set<Location>)
    ensures var c := Cleaned(fs, dir, pdf, readOnly);
      Cleaned(c, dir, pdf, readOnly) == c
  {
    var c := Cleaned(fs, dir, pdf, readOnly);
    var again := Removable(c, Selection(c, dir, pdf), readOnly);
    var removed := Removable(fs, Selection(fs, dir, pdf), readOnly);
    forall l | l in Selection(c, dir, pdf)
      ensures l in Selection(fs, dir, pdf) && l !in removed && c[l] == fs[l]
    {
    }
    assert again == {};
  }

  /** Cleaning a read-only directory removes nothing and reports every selected entry. */
  lemma CleanReadOnly(fs: FileSystem, dir: Location, pdf: string, readOnly: set<Location>)
    requires dir in readOnly
    ensures Cleaned(fs, dir, pdf, readOnly) == fs
    ensures Unremovable(fs, Selection(fs, dir, pdf), readOnly) == Selection(fs, dir, pdf)
  {
    var sel := Selection(fs, dir, pdf);
    forall l | l in sel
      ensures !RemoveFileAllowed(fs, l, readOnly)
    {
      assert ParentOf(l) == dir;
    }
    assert Removable(fs, sel, readOnly) == {};
  }

  /** The output document's name is always available, so `compile` never meets that error. */
  lemma OutputPdfNamed(root: PathBuf)
    ensures FileName(Join(Join(root, OUTPUT_DIRECTORY), MAIN_PDF_FILE)) == Some(MAIN_PDF_FILE)
  {
    FileNameJoin(Join(root, OUTPUT_DIRECTORY), MAIN_PDF_FILE);
  }

  /** The file system after the clean step of `compile`, which cleans only when the flag is exactly `true`. */
  function CleanedBy(fs: FileSystem, cwd: Location, readOnly: set<Location>, root: PathBuf, clean: Option<bool>): FileSystem {
    if clean != Some(true) then fs
    else
      var outDir := Join(root, OUTPUT_DIRECTORY);
      CleanSpec(fs, cwd, readOnly, outDir, Join(outDir, MAIN_PDF_FILE)).fs
  }

  /**
   * The lines the clean step of `compile` reports: none when it does not
   * clean, the printed error when cleaning fails (the compilation goes on),
   * and otherwise one line per entry that could not be removed.
   */
  predicate CleanNotes(added: seq<Note>, fs: FileSystem, cwd: Location, readOnly: set<Location>, root: PathBuf,
                       clean: Option<bool>)
  {
    if clean != Some(true) then added == []
    else
      var outDir := Join(root, OUTPUT_DIRECTORY);
      var c := CleanSpec(fs, cwd, readOnly, outDir, Join(outDir, MAIN_PDF_FILE));
      match c.result
      case Err(e) => added == [Printed(Display(e))]
      case Ok(_) => ReportsFailures(added, c.failed)
  }

  /** The parts of a concatenation. */
  lemma ConcatParts(a: seq<Note>, b: seq<Note>, k: nat)
    requires k <= |a|
    ensures (a + b)[..k] == a[..k] && (a + b)[|a|..] == b && (a + b)[k..|a|] == a[k..]
  {
  }

  /** The clean step of `compile` (lines 20-31). */
  method CleanIfAsked(h: Host, root: PathBuf, clean: Option<bool>)
    modifies h`fs, h`notes
    ensures h.fs == CleanedBy(old(h.fs), h.cwd, h.readOnly, root, clean)
    ensures |old(h.notes)| <= |h.notes| && h.notes[..|old(h.notes)|] == old(h.notes)
    ensures CleanNotes(h.notes[|old(h.notes)|..], old(h.fs), h.cwd, h.readOnly, root, clean)
  {
    ghost var notes0 := h.notes;
    if clean == Some(true) {
      // Find the output directory and the output document
      var outDir := Join(root, OUTPUT_DIRECTORY);
      var outPdf := Join(outDir, MAIN_PDF_FILE);
      var result := CleanOutputDirectory(h, outDir, outPdf);
      if result.Err? {
        assert h.notes[|notes0|..] == [];
        assert h.notes == notes0;
        h.Report(Printed(Display(result.error)));
        ConcatParts(notes0, [Printed(Display(result.error))], |notes0|);
      }
    }
  }

  /**
   * `compile` (lines 12-35): find the root (its error ends the command with
   * nothing changed), clean if asked, then compile the project. The lines
   * reported are those of the clean step followed by those of the
   * compilation.
   */
  method Compile(h: Host, project: Option<PathBuf>, clean: Option<bool>) returns (r: Result<(), Log>)
    modifies h`fs, h`cwd, h`ran, h`notes
    ensures var root := ProjectRoot(old(h.fs), old(h.cwd), h.cwdReadable, project);
      root.Err? ==>
        r == Err(root.error) && h.fs == old(h.fs) && h.cwd == old(h.cwd) && h.ran == old(h.ran) && h.notes == old(h.notes)
    ensures var root := ProjectRoot(old(h.fs), old(h.cwd), h.cwdReadable, project);
      root.Ok? ==>
        var fs1 := CleanedBy(old(h.fs), old(h.cwd), h.readOnly, root.value, clean);
        var t := CompileTexSpec(fs1, old(h.cwd), h.readOnly, h.outcome, |old(h.ran)|, root.value);
        var tail := if t.chdirFailed then [ChdirFailed(root.value)] else [];
        && h.fs == t.fs && h.cwd == t.cwd && h.ran == old(h.ran) + t.ran && r == t.result
        && |old(h.notes)| + |tail| <= |h.notes|
        && h.notes[..|old(h.notes)|] == old(h.notes)
        && h.notes[|h.notes| - |tail|..] == tail
        && CleanNotes(h.notes[|old(h.notes)|..|h.notes| - |tail|], old(h.fs), old(h.cwd), h.readOnly, root.value, clean)
  {
    var projDir := FindProjectRootDirectory(h.fs, h.cwd, h.cwdReadable, project);
    if projDir.Err? {
      return Err(projDir.error);
    }
    ghost var notes0 := h.notes;
    CleanIfAsked(h, projDir.value, clean);
    ghost var mid, fs1 := h.notes, h.fs;
    r := CompileTexFile.CompileTexFile(h, projDir.value);
    ghost var t := CompileTexSpec(fs1, old(h.cwd), h.readOnly, h.outcome, |old(h.ran)|, projDir.value);
    ghost var tail := if t.chdirFailed then [ChdirFailed(projDir.value)] else [];
    ConcatParts(mid, tail, |notes0|);
  }

  /**
   * With the main document read from the location resolved before the switch
   * into the project, the document `compile` scans is the `main.tex` the
   * locator found: neither cleaning nor creating the output directory touches
   * it.
   */
  lemma CompileReadsLocatedMain(fs: FileSystem, cwd: Location, readOnly: set<Location>, root: PathBuf, clean: Option<bool>)
    ensures var out := Resolve(cwd, Join(root, OUTPUT_DIRECTORY));
      var fs1 := CleanedBy(fs, cwd, readOnly, root, clean);
      && ReadPath(PrepareOutput(fs1, out), cwd, MainTexPath(root)) == ReadPath(fs, cwd, MainTexPath(root))
      && (ReadPath(fs, cwd, MainTexPath(root)).Some? ==>
            ReadPath(fs, cwd, MainTexPath(root)) == ReadText(fs, Resolve(cwd, root) + [MAIN_TEX_FILE]))
  {
    var out := Resolve(cwd, Join(root, OUTPUT_DIRECTORY));
    var m := MainTexPath(root);
    var main := Resolve(cwd, m);
    var fs1 := CleanedBy(fs, cwd, readOnly, root, clean);
    PrepareOutputKeepsMain(fs1, cwd, root);
    ResolveJoin(cwd, root, OUTPUT_DIRECTORY);
    ResolveJoin(cwd, root, MAIN_TEX_FILE);
    assert main[|out| - 1] != out[|out| - 1];
    if clean == Some(true) {
      var outDir := Join(root, OUTPUT_DIRECTORY);
      if FileName(Join(outDir, MAIN_PDF_FILE)).Some? && Exists(fs, cwd, outDir) && IsDir(fs, out) {
        assert !IsChild(main, out);
        assert main in fs1 <==> main in fs;
      }
    }
    assert Walkable(fs1, cwd, m) == Walkable(fs, cwd, m);
  }
}
