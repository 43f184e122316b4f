/**
 * Detection of the glossary and bibliography packages in the text of the main
 * document. The tool matches two regular expressions,
 *   \\usepackage(?:\[[^\[\]]*\])?\{glossaries\}
 *   \\usepackage(?:\[[^\[\]]*\])?\{(?:biblatex|bibtex|natbib)\}
 * which are written out here as a scanner over the text (`Matches`) and given
 * a declarative meaning (`Mentions`); the two are proved to agree.
 */
module Detection {
  import opened Wrappers

  const USEPACKAGE: string := "\\usepackage"
  const GLOSSARY_PACKAGES: seq<string> := ["glossaries"]
  const BIBLIOGRAPHY_PACKAGES: seq<string> := ["biblatex", "bibtex", "natbib"]

  predicate BracketFree(s: string) {
    forall i :: 0 <= i < |s| ==> s[i] != '[' && s[i] != ']'
  }

  /** An option list the pattern accepts: none at all, or `[`, text without brackets, `]`. */
  predicate IsOptionList(opt: string) {
    opt == [] || (|opt| >= 2 && opt[0] == '[' && opt[|opt| - 1] == ']' && BracketFree(opt[1..|opt| - 1]))
  }

  /** The directive `\usepackage<opt>{name}`. */
  function Directive(opt: string, name: string): string {
    USEPACKAGE + opt + Braced(name)
  }

  /** A package name in braces. */
  function Braced(name: string): string {
    "{" + name + "}"
  }

  /** `text` is `before`, then the directive `\usepackage<opt>{name}`, then `after`. */
  predicate IsDirectiveSplit(text: string, before: string, opt: string, name: string, after: string) {
    text == before + Directive(opt, name) + after
  }

  /** What the pattern means: somewhere in the text a package of `names` is loaded directly. */
  ghost predicate Mentions(text: string, names: seq<string>) {
    exists before, opt, name, after ::
      name in names && IsOptionList(opt) && IsDirectiveSplit(text, before, opt, name, after)
  }

  predicate StartsAt(text: string, i: nat, w: string) {
    i + |w| <= |text| && text[i..i + |w|] == w
  }

  /** The position of the `]` that closes an option list whose contents start at `k`, unless a `[` or the end of the text comes first. */
  function CloseBracket(text: string, k: nat): (r: Option<nat>)
    ensures r.Some? ==> k <= r.value < |text| && text[r.value] == ']' && BracketFree(text[k..r.value])
    decreases |text| - k
  {
    if k >= |text| then None
    else if text[k] == ']' then Some(k)
    else if text[k] == '[' then None
    else
      var r := CloseBracket(text, k + 1);
      assert r.Some? ==> text[k..r.value] == [text[k]] + text[k + 1..r.value];
      r
  }

  /** `{name}` for one of `names` starts at position `k`. */
  predicate BracedNameAt(text: string, k: nat, names: seq<string>) {
    exists name | name in names :: StartsAt(text, k, Braced(name))
  }

  /** A directive loading one of `names` starts at position `i`. */
  predicate DirectiveAt(text: string, i: nat, names: seq<string>) {
    && StartsAt(text, i, USEPACKAGE)
    && var j := i + |USEPACKAGE|;
       if j < |text| && text[j] == '[' then
         match CloseBracket(text, j + 1)
         case None => false
         case Some(k) => BracedNameAt(text, k + 1, names)
       else BracedNameAt(text, j, names)
  }

  /** `Regex::is_match`: a directive loading one of `names` starts somewhere in the text. */
  predicate Matches(text: string, names: seq<string>) {
    exists i | 0 <= i <= |text| :: DirectiveAt(text, i, names)
  }

  /** `has_glossary`: the document loads `glossaries` directly. */
  predicate HasGlossary(text: string)
    ensures HasGlossary(text) <==> Mentions(text, GLOSSARY_PACKAGES)
  {
    MatchesIffMentions(text, GLOSSARY_PACKAGES);
    Matches(text, GLOSSARY_PACKAGES)
  }

  /** `has_bibliography`: the document loads `biblatex`, `bibtex` or `natbib` directly. */
  predicate HasBibliography(text: string)
    ensures HasBibliography(text) <==> Mentions(text, BIBLIOGRAPHY_PACKAGES)
  {
    MatchesIffMentions(text, BIBLIOGRAPHY_PACKAGES);
    Matches(text, BIBLIOGRAPHY_PACKAGES)
  }

  lemma StartsAtConcat(text: string, i: nat, a: string, b: string)
    requires StartsAt(text, i, a) && StartsAt(text, i + |a|, b)
    ensures StartsAt(text, i, a + b)
  {
    assert text[i..i + |a| + |b|] == text[i..i + |a|] + text[i + |a|..i + |a| + |b|];
  }

  lemma SplitAround(text: string, i: nat, w: string)
    requires StartsAt(text, i, w)
    ensures text == text[..i] + w + text[i + |w|..]
  {
    assert text == text[..i] + text[i..i + |w|] + text[i + |w|..];
  }

  lemma StartsAtSub(text: string, i: nat, w: string, a: nat, b: nat)
    requires StartsAt(text, i, w) && a <= b <= |w|
    ensures StartsAt(text, i + a, w[a..b])
  {
    forall t | 0 <= t < b - a
      ensures text[i + a..i + b][t] == w[a..b][t]
    {
      assert w[a + t] == text[i..i + |w|][a + t];
    }
  }

  lemma StartsAtPiece(before: string, w: string, after: string)
    ensures StartsAt(before + w + after, |before|, w)
  {
    assert (before + w + after)[|before|..|before| + |w|] == w;
  }

  /** The three parts of a directive. */
  lemma DirectiveParts(opt: string, name: string)
    ensures var w := Directive(opt, name);
      && w[..|USEPACKAGE|] == USEPACKAGE
      && w[|USEPACKAGE|..|USEPACKAGE| + |opt|] == opt
      && w[|USEPACKAGE| + |opt|..] == Braced(name)
  {
  }

  /** The scan finds the `]` closing any bracket-free run. */
  lemma {:induction false} CloseBracketFinds(text: string, k: nat, m: nat)
    requires k <= m < |text| && text[m] == ']' && BracketFree(text[k..m])
    ensures CloseBracket(text, k) == Some(m)
    decreases m - k
  {
    if k < m {
      assert text[k] == text[k..m][0];
      assert text[k + 1..m] == text[k..m][1..];
      CloseBracketFinds(text, k + 1, m);
    }
  }

  /** The option list the scanner skips is one the pattern accepts. */
  lemma ScannedOptionList(text: string, j: nat)
    requires j < |text| && text[j] == '[' && CloseBracket(text, j + 1).Some?
    ensures IsOptionList(text[j..CloseBracket(text, j + 1).value + 1])
  {
    var close := CloseBracket(text, j + 1).value;
    var opt := text[j..close + 1];
    assert opt[1..|opt| - 1] == text[j + 1..close];
  }

  /** The option list the scanner passes over at a directive starting at `i` (empty when there is none). */
  function ScannedOption(text: string, i: nat): string
  {
    var j := i + |USEPACKAGE|;
    if j < |text| && text[j] == '[' && CloseBracket(text, j + 1).Some? then
      text[j..CloseBracket(text, j + 1).value + 1]
    else []
  }

  /** At a directive the scanner finds, a `\usepackage` and an accepted option list are followed by `{name}`. */
  lemma DirectiveAtParts(text: string, i: nat, names: seq<string>)
    requires DirectiveAt(text, i, names)
    ensures var opt := ScannedOption(text, i);
      && IsOptionList(opt)
      && StartsAt(text, i, USEPACKAGE + opt)
      && BracedNameAt(text, i + |USEPACKAGE| + |opt|, names)
  {
    var j := i + |USEPACKAGE|;
    var opt := ScannedOption(text, i);
    if j < |text| && text[j] == '[' {
      ScannedOptionList(text, j);
    }
    assert StartsAt(text, j, opt);
    StartsAtConcat(text, i, USEPACKAGE, opt);
  }

  /** A directive the scanner finds at `i` is a directive in the sense of the pattern. */
  lemma DirectiveAtMentions(text: string, i: nat, names: seq<string>)
    requires DirectiveAt(text, i, names)
    ensures Mentions(text, names)
  {
    DirectiveAtParts(text, i, names);
    var opt := ScannedOption(text, i);
    var name :| name in names && StartsAt(text, i + |USEPACKAGE| + |opt|, Braced(name));
    StartsAtConcat(text, i, USEPACKAGE + opt, Braced(name));
    var w := Directive(opt, name);
    SplitAround(text, i, w);
    assert IsDirectiveSplit(text, text[..i], opt, name, text[i + |w|..]);
  }

  /** A directive in the sense of the pattern is found by the scanner where it starts. */
  lemma SplitIsDirectiveAt(text: string, before: string, opt: string, name: string, after: string, names: seq<string>)
    requires name in names && IsOptionList(opt) && IsDirectiveSplit(text, before, opt, name, after)
    ensures DirectiveAt(text, |before|, names)
  {
    var w := Directive(opt, name);
    var i, j := |before|, |before| + |USEPACKAGE|;
    StartsAtPiece(before, w, after);
    DirectiveParts(opt, name);
    StartsAtSub(text, i, w, 0, |USEPACKAGE|);
    StartsAtSub(text, i, w, |USEPACKAGE|, |USEPACKAGE| + |opt|);
    StartsAtSub(text, i, w, |USEPACKAGE| + |opt|, |w|);
    assert StartsAt(text, j + |opt|, Braced(name));
    if opt == [] {
      assert text[j] == w[|USEPACKAGE|] == '{';
      assert BracedNameAt(text, j, names);
    } else {
      assert text[j] == opt[0] == '[';
      assert text[j + 1..j + |opt| - 1] == opt[1..|opt| - 1];
      assert text[j + |opt| - 1] == ']';
      CloseBracketFinds(text, j + 1, j + |opt| - 1);
      assert BracedNameAt(text, j + |opt|, names);
    }
  }

  /** The scanner detects exactly what the pattern means. */
  lemma MatchesIffMentions(text: string, names: seq<string>)
    ensures Matches(text, names) <==> Mentions(text, names)
  {
    if Matches(text, names) {
      var i :| 0 <= i <= |text| && DirectiveAt(text, i, names);
      DirectiveAtMentions(text, i, names);
    }
    if Mentions(text, names) {
      var before, opt, name, after :|
        name in names && IsOptionList(opt) && IsDirectiveSplit(text, before, opt, name, after);
      SplitIsDirectiveAt(text, before, opt, name, after, names);
    }
  }

  /**
   * An option list with a nested `[` before its closing `]` hides the
   * directive: at that position nothing is detected, whatever package follows.
   */
  lemma NestedOptionHidesDirective(text: string, i: nat, m: nat, names: seq<string>)
    requires StartsAt(text, i, USEPACKAGE)
    requires i + |USEPACKAGE| < m < |text| && text[i + |USEPACKAGE|] == '['
    requires text[m] == '[' && BracketFree(text[i + |USEPACKAGE| + 1..m])
    ensures !DirectiveAt(text, i, names)
  {
  }

  /** A document that never writes `\usepackage` loads neither package. */
  lemma NoDirectiveNoFlags(text: string)
    requires forall i | 0 <= i <= |text| :: !StartsAt(text, i, USEPACKAGE)
    ensures !HasGlossary(text) && !HasBibliography(text)
  {
  }

  /** `\usepackage{glossaries}` is detected anywhere in a document. */
  lemma GlossaryDirectiveDetected(before: string, after: string)
    ensures HasGlossary(before + "\\usepackage{glossaries}" + after)
  {
    var g := before + "\\usepackage{glossaries}" + after;
    assert Directive([], "glossaries") == "\\usepackage{glossaries}";
    assert IsDirectiveSplit(g, before, [], "glossaries", after);
    assert IsOptionList([]);
    MatchesIffMentions(g, GLOSSARY_PACKAGES);
  }

  /** `\usepackage[style=ieee]{biblatex}` is detected anywhere in a document. */
  lemma BibliographyDirectiveDetected(before: string, after: string)
    ensures HasBibliography(before + "\\usepackage[style=ieee]{biblatex}" + after)
  {
    var b := before + "\\usepackage[style=ieee]{biblatex}" + after;
    assert Directive("[style=ieee]", "biblatex") == "\\usepackage[style=ieee]{biblatex}";
    assert IsDirectiveSplit(b, before, "[style=ieee]", "biblatex", after);
    assert "[style=ieee]"[1..11] == "style=ieee";
    assert IsOptionList("[style=ieee]");
    MatchesIffMentions(b, BIBLIOGRAPHY_PACKAGES);
  }
}
