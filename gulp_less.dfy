/**
 * The stylesheet pipeline of src/gulp/less/gulpfile.ts: every `.less` file
 * under `src/` moves up one directory level and takes its directory's name
 * (`ReduceName`), and the copy of its source rewrites each
 * `@import '….less'` so that it still resolves after the move
 * (`ReplaceImports`, the global replace with the pattern
 * `/@import +['"](.+)\.less['"]/g`).
 */
module LessGulpfile {
  import opened Wrappers
  import opened JsString

  /** The glob of stylesheet sources and the directory both tasks write to. */
  const Entries := "src/**/*.less"
  const OutputDir := "dist/styles/"

  // ---------------------------------------------------------------------
  // Renaming
  // ---------------------------------------------------------------------

  /** A path split the way the rename step hands it over: directory, name without extension, extension. */
  datatype ParsedPath = ParsedPath(dirname: string, basename: string, extname: string)

  /**
   * Drops one directory level: a file at the root (`dirname == "."`) keeps
   * its path; any other file goes to the root under its directory's name,
   * so `button/index.less` becomes `button.less`.
   */
  function ReduceName(path: ParsedPath): (r: ParsedPath)
    ensures r.dirname == "." || r.dirname == ""
    ensures r.extname == path.extname
    ensures r.dirname == "." <==> path.dirname == "."
    ensures path.dirname == "." ==> r == path
    ensures path.dirname != "." ==> r.basename == path.dirname
  {
    if path.dirname == "." then path
    else ParsedPath("", path.dirname, path.extname)
  }

  /** The old basename plays no part: two stylesheets of one directory land on the same path. */
  lemma ReduceNameDropsBasename(p: ParsedPath, q: ParsedPath)
    requires p.dirname == q.dirname != "."
    requires p.extname == q.extname
    ensures ReduceName(p) == ReduceName(q)
  {
  }

  /** Renaming twice is not renaming once: the second pass empties the basename. */
  lemma ReduceNameNotIdempotent(p: ParsedPath)
    requires p.dirname != "." && p.dirname != ""
    ensures ReduceName(ReduceName(p)) == ParsedPath("", "", p.extname)
    ensures ReduceName(ReduceName(p)) != ReduceName(p)
  {
  }

  // ---------------------------------------------------------------------
  // Rewriting one captured import path
  // ---------------------------------------------------------------------

  /** The slice length the source subtracts for a trailing index segment, `'/index'.length`. */
  const IndexSegment := "/index"

  /**
   * The replace callback on the captured path: a path that starts with `..`
   * loses its first character, then one that ends in `index` loses its last
   * `|IndexSegment|` characters with the clamping of `slice`.
   */
  function RewriteImportPath(captured: string): (r: string)
    ensures StartsWith(captured, "..") ==> r <= captured[1..]
    ensures !StartsWith(captured, "..") ==> r <= captured
  {
    var path := if StartsWith(captured, "..") then SliceFrom(captured, 1) else captured;
    assert StartsWith(captured, "..") ==> path == captured[1..];
    if EndsWith(path, "index") then Slice(path, 0, |path| - |IndexSegment|) else path
  }

  /** A leading `..` loses exactly one character: `../a` becomes `./a`. */
  lemma RewriteStripsOneDot(captured: string)
    requires StartsWith(captured, "..")
    requires !EndsWith(captured, "index")
    ensures RewriteImportPath(captured) == captured[1..]
  {
    var path := captured[1..];
    assert SliceFrom(captured, 1) == path;
    if |path| >= 5 {
      assert path[|path| - 5..] == captured[|captured| - 5..];
    }
  }

  /** A path that ends in `index` and has at least six characters loses exactly its last six. */
  lemma RewriteDropsIndexSegment(captured: string)
    requires !StartsWith(captured, "..")
    requires EndsWith(captured, "index") && |captured| >= |IndexSegment|
    ensures RewriteImportPath(captured) == captured[..|captured| - |IndexSegment|]
  {
  }

  /** A parent-relative path to an index file loses its first character and its last six. */
  lemma RewriteParentIndex(captured: string)
    requires StartsWith(captured, "..") && EndsWith(captured, "index")
    requires |captured| >= 1 + |IndexSegment|
    ensures RewriteImportPath(captured) == captured[1..|captured| - |IndexSegment|]
  {
    var path := captured[1..];
    assert SliceFrom(captured, 1) == path;
    assert path[|path| - 5..] == captured[|captured| - 5..];
  }

  /** A path neither starting with `..` nor ending in `index` passes through verbatim. */
  lemma RewriteKeepsOtherPaths(captured: string)
    requires !StartsWith(captured, "..") && !EndsWith(captured, "index")
    ensures RewriteImportPath(captured) == captured
  {
  }

  /** A bare `index` keeps four characters: a negative end counts back from the end, so `slice(0, -1)` drops only the last character. */
  lemma RewriteBareIndex()
    ensures RewriteImportPath("index") == "inde"
  {
    var c := "index";
    assert c[0] != '.' && EndsWith(c, "index");
    assert SliceIndex(-1, 5) == 4;
  }

  /** A name that merely ends in `index`, with no `/` before it, still loses six characters. */
  lemma RewriteNameEndingInIndex()
    ensures RewriteImportPath("myindex") == "m"
  {
    var c := "myindex";
    assert c[0] != '.';
    RewriteDropsIndexSegment(c);
  }

  /** What every replacement reads: single quotes, one space, the `.less` extension put back. */
  function ImportStatement(path: string): (r: string)
    ensures |r| == |path| + 15
    ensures r[..9] == "@import '" && r[|r| - 6..] == ".less'"
    ensures r[9..|r| - 6] == path
  {
    "@import '" + path + ".less'"
  }

  // ---------------------------------------------------------------------
  // The pattern /@import +['"](.+)\.less['"]/ at one position
  // ---------------------------------------------------------------------

  const ImportKeyword := "@import"
  const LessExtension := ".less"

  predicate IsQuote(c: char) {
    c == '\'' || c == '"'
  }

  function Spaces(n: nat): (r: string)
    ensures |r| == n && forall i :: 0 <= i < n ==> r[i] == ' '
  {
    seq(n, _ => ' ')
  }

  /**
   * One occurrence of the pattern: `@import`, `spaces` blanks, an opening
   * quote, the captured path, `.less` and a closing quote. The two quotes
   * need not be the same.
   */
  datatype ImportMatch = ImportMatch(spaces: nat, open: char, capture: string, close: char) {

    /** The text the occurrence covers. */
    function Text(): string {
      ImportKeyword + Spaces(spaces) + [open] + capture + LessExtension + [close]
    }

    /** Whether the text is in the language of the pattern: ` +` is one blank or more, `(.+)` one character or more, none of them a line terminator. */
    predicate InPattern() {
      spaces >= 1 && IsQuote(open) && IsQuote(close) && |capture| >= 1 && NoLineTerminator(capture)
    }
  }

  /** Where the run of blanks starting at `j` ends. */
  function SkipSpaces(s: string, j: nat): (r: nat)
    requires j <= |s|
    ensures j <= r <= |s|
    ensures forall i :: j <= i < r ==> s[i] == ' '
    ensures r < |s| ==> s[r] != ' '
    decreases |s| - j
  {
    if j < |s| && s[j] == ' ' then SkipSpaces(s, j + 1) else j
  }

  /** Where the line holding position `j` ends: the next line terminator, or the end of the text. */
  function LineEnd(s: string, j: nat): (r: nat)
    requires j <= |s|
    ensures j <= r <= |s|
    ensures forall i :: j <= i < r ==> !IsLineTerminator(s[i])
    ensures r < |s| ==> IsLineTerminator(s[r])
    decreases |s| - j
  {
    if j < |s| && !IsLineTerminator(s[j]) then LineEnd(s, j + 1) else j
  }

  /** Whether `.less` starts at position `q`. */
  predicate LessAt(s: string, q: nat) {
    q + |LessExtension| <= |s| && s[q..q + |LessExtension|] == LessExtension
  }

  /** Whether `.less` and a quote start at position `q`. */
  predicate CloserAt(s: string, q: nat) {
    q + |LessExtension| + 1 <= |s| && LessAt(s, q) && IsQuote(s[q + |LessExtension|])
  }

  /**
   * The greedy `(.+)` backing off: the last position in `(p, q]` where
   * `.less` and a quote start, if there is one.
   */
  function LastCloser(s: string, p: nat, q: nat): (r: Option<nat>)
    requires p <= q <= |s|
    ensures r.None? ==> forall k :: p < k <= q ==> !CloserAt(s, k)
    ensures r.Some? ==> p < r.value <= q && CloserAt(s, r.value)
    ensures r.Some? ==> forall k :: r.value < k <= q ==> !CloserAt(s, k)
    decreases q
  {
    if q <= p then None
    else if CloserAt(s, q) then Some(q)
    else LastCloser(s, p, q - 1)
  }

  /** Whether `s` starts with `@import` and a blank. */
  predicate KeywordStarts(s: string) {
    |s| > |ImportKeyword| && s[..|ImportKeyword|] == ImportKeyword && s[|ImportKeyword|] == ' '
  }

  /**
   * The pattern tried at the start of `s`, as a backtracking matcher tries
   * it: ` +` takes every blank, a quote must follow, and `(.+)` takes the
   * longest stretch of the line that `.less` and a quote can still follow.
   */
  function MatchImportAt(s: string): (r: Option<ImportMatch>)
    ensures r.Some? ==> r.value.InPattern() && r.value.Text() <= s
  {
    if !KeywordStarts(s) then None
    else
      var k := SkipSpaces(s, |ImportKeyword|);
      if k == |s| || !IsQuote(s[k]) then None
      else match LastCloser(s, k + 1, LineEnd(s, k + 1))
        case None => None
        case Some(q) => Some(Assemble(s, k, q))
  }

  /** The occurrence the matcher reports once it has found the opening quote at `k` and `.less` at `q`. */
  function Assemble(s: string, k: nat, q: nat): (m: ImportMatch)
    requires |ImportKeyword| < k && k + 1 < q && CloserAt(s, q)
    requires s[..|ImportKeyword|] == ImportKeyword && IsQuote(s[k])
    requires forall i :: |ImportKeyword| <= i < k ==> s[i] == ' '
    requires forall i :: k + 1 <= i < q ==> !IsLineTerminator(s[i])
    ensures m.InPattern() && m.Text() <= s
    ensures m.spaces == k - |ImportKeyword| && m.open == s[k] && m.capture == s[k + 1..q]
  {
    var m := ImportMatch(k - |ImportKeyword|, s[k], s[k + 1..q], s[q + |LessExtension|]);
    forall i | 0 <= i < |m.capture| ensures !IsLineTerminator(m.capture[i]) {
      assert m.capture[i] == s[k + 1 + i];
    }
    AssembledText(s, k, q);
    m
  }

  /** The text from the start of `s` to the closing quote, cut into the parts of an occurrence. */
  lemma AssembledText(s: string, k: nat, q: nat)
    requires |ImportKeyword| < k && k + 1 < q && CloserAt(s, q)
    requires s[..|ImportKeyword|] == ImportKeyword
    requires forall i :: |ImportKeyword| <= i < k ==> s[i] == ' '
    ensures var e := q + |LessExtension|;
      e < |s| && s[..e + 1] == ImportKeyword + Spaces(k - |ImportKeyword|) + [s[k]] + s[k + 1..q] + LessExtension + [s[e]]
  {
    var w, e := |ImportKeyword|, q + |LessExtension|;
    var t0 := ImportKeyword + Spaces(k - w);
    assert s[..k] == t0 by {
      assert s[w..k] == Spaces(k - w);
      SliceSplit(s, w, k);
    }
    var t1 := t0 + [s[k]];
    assert s[..k + 1] == t1 by {
      SliceSplit(s, k, k + 1);
    }
    var t2 := t1 + s[k + 1..q];
    assert s[..q] == t2 by {
      SliceSplit(s, k + 1, q);
    }
    var t3 := t2 + LessExtension;
    assert s[..e] == t3 by {
      SliceSplit(s, q, e);
    }
    SliceSplit(s, e, e + 1);
  }

  lemma SliceSplit(s: string, i: nat, j: nat)
    requires i <= j <= |s|
    ensures s[..j] == s[..i] + s[i..j]
  {
  }

  /** Where each part of an occurrence sits in its text. */
  lemma TextLayout(m: ImportMatch)
    ensures var t, n, c := m.Text(), m.spaces, |m.capture|;
      && |t| == 14 + n + c
      && t[..7] == ImportKeyword
      && (forall i :: 7 <= i < 7 + n ==> t[i] == ' ')
      && t[7 + n] == m.open
      && t[8 + n..8 + n + c] == m.capture
      && t[8 + n + c..13 + n + c] == LessExtension
      && t[13 + n + c] == m.close
  {
    var n, c := m.spaces, |m.capture|;
    var t := m.Text();
    assert t == ImportKeyword + Spaces(n) + [m.open] + m.capture + LessExtension + [m.close];
    assert t[7..7 + n] == Spaces(n);
  }

  /** The text of an occurrence lies on one line. */
  lemma TextOnOneLine(m: ImportMatch)
    requires m.InPattern()
    ensures NoLineTerminator(m.Text())
  {
    TextLayout(m);
    var t, n, c := m.Text(), m.spaces, |m.capture|;
    forall i | 0 <= i < |t| ensures !IsLineTerminator(t[i]) {
      if i < 7 {
        assert t[i] == ImportKeyword[i];
      } else if 8 + n <= i < 8 + n + c {
        assert t[i] == m.capture[i - 8 - n];
      } else if 8 + n + c <= i < 13 + n + c {
        assert t[i] == LessExtension[i - 8 - n - c];
      }
    }
  }

  /** What a text that begins with an occurrence holds, position by position. */
  lemma OccurrenceAtStart(s: string, m: ImportMatch)
    requires m.InPattern() && m.Text() <= s
    ensures var n, c := m.spaces, |m.capture|;
      && |s| >= 14 + n + c
      && s[..7] == ImportKeyword
      && (forall i :: 7 <= i < 7 + n ==> s[i] == ' ')
      && s[7 + n] == m.open
      && s[8 + n..8 + n + c] == m.capture
      && CloserAt(s, 8 + n + c)
      && s[13 + n + c] == m.close
  {
    TextLayout(m);
    var t, n, c := m.Text(), m.spaces, |m.capture|;
    assert s[..|t|] == t;
    assert forall i :: 0 <= i < |t| ==> s[i] == t[i];
    assert s[..7] == t[..7];
    assert s[8 + n..8 + n + c] == t[8 + n..8 + n + c];
    assert s[8 + n + c..13 + n + c] == t[8 + n + c..13 + n + c];
  }

  /**
   * The matcher finds every occurrence that starts the text, and backs off
   * no further than it must: whatever occurrence of the pattern `s` begins
   * with, the match has its blanks and opening quote and a capture that
   * extends it.
   */
  lemma MatchImportAtComplete(s: string, m: ImportMatch)
    requires m.InPattern() && m.Text() <= s
    ensures MatchImportAt(s).Some?
    ensures var r := MatchImportAt(s).value;
      r.spaces == m.spaces && r.open == m.open && m.capture <= r.capture
  {
    OccurrenceBlanks(s, m);
    OccurrenceCapture(s, m);
    MatchImportAtLaidOut(s, m);
  }

  /** What the matcher reads of a text that begins with an occurrence. */
  predicate LaidOut(s: string, m: ImportMatch) {
    var p, c := 8 + m.spaces, |m.capture|;
    && m.InPattern() && KeywordStarts(s) && p + c <= |s|
    && SkipSpaces(s, |ImportKeyword|) == 7 + m.spaces && s[7 + m.spaces] == m.open
    && p + c <= LineEnd(s, p) && CloserAt(s, p + c) && s[p..p + c] == m.capture
  }

  lemma MatchImportAtLaidOut(s: string, m: ImportMatch)
    requires LaidOut(s, m)
    ensures MatchImportAt(s).Some?
    ensures var r := MatchImportAt(s).value;
      r.spaces == m.spaces && r.open == m.open && m.capture <= r.capture
  {
    var n, c := m.spaces, |m.capture|;
    var p := 8 + n;
    var last := LastCloser(s, p, LineEnd(s, p));
    assert last.Some? && p + c <= last.value;
    var q := last.value;
    MatchImportAtFound(s, 7 + n, q);
    SlicePrefix(s, p, p + c, q);
  }

  /** In a text that begins with an occurrence, the blanks after the keyword end at its opening quote. */
  lemma OccurrenceBlanks(s: string, m: ImportMatch)
    requires m.InPattern() && m.Text() <= s
    ensures KeywordStarts(s)
    ensures SkipSpaces(s, |ImportKeyword|) == 7 + m.spaces && s[7 + m.spaces] == m.open
  {
    OccurrenceAtStart(s, m);
  }

  /** In a text that begins with an occurrence, its capture and closer lie on the line after the opening quote. */
  lemma OccurrenceCapture(s: string, m: ImportMatch)
    requires m.InPattern() && m.Text() <= s
    ensures var p, c := 8 + m.spaces, |m.capture|;
      && p + c <= |s| && p + c <= LineEnd(s, p) && CloserAt(s, p + c) && s[p..p + c] == m.capture
  {
    OccurrenceAtStart(s, m);
    var p, c := 8 + m.spaces, |m.capture|;
    assert forall i :: p <= i < p + c ==> s[i] == m.capture[i - p];
  }

  /** The matcher's result once the blanks end at a quote `k` and the last closer on the line is `q`. */
  lemma MatchImportAtFound(s: string, k: nat, q: nat)
    requires KeywordStarts(s)
    requires k == SkipSpaces(s, |ImportKeyword|) && k < |s| && IsQuote(s[k])
    requires LastCloser(s, k + 1, LineEnd(s, k + 1)) == Some(q)
    ensures MatchImportAt(s) == Some(Assemble(s, k, q))
  {
  }

  lemma SlicePrefix(s: string, i: nat, j: nat, k: nat)
    requires i <= j <= k <= |s|
    ensures s[i..j] <= s[i..k]
  {
  }

  /** Two occurrences at the start of one text with the same blanks, quote and capture length are the same occurrence. */
  lemma SameShapeSameMatch(s: string, m1: ImportMatch, m2: ImportMatch)
    requires m1.Text() <= s && m2.Text() <= s
    requires m1.spaces == m2.spaces && m1.open == m2.open && m1.capture <= m2.capture && |m1.capture| == |m2.capture|
    ensures m1 == m2
  {
    TextLayout(m1);
    TextLayout(m2);
    var i := 13 + m1.spaces + |m1.capture|;
    assert m1.close == s[i] == m2.close;
  }

  /** No occurrence reaches past a line terminator: what follows one never changes the match before it. */
  lemma MatchImportAtStopsAtLineEnd(s: string, t: char, u: string)
    requires IsLineTerminator(t)
    ensures MatchImportAt(s + [t] + u) == MatchImportAt(s)
  {
    var S := s + [t] + u;
    if MatchImportAt(s).Some? {
      var m := MatchImportAt(s).value;
      assert m.Text() <= S;
      MatchImportAtComplete(S, m);
    }
    if MatchImportAt(S).Some? {
      var r := MatchImportAt(S).value;
      InsideLine(s, t, u, r);
      MatchImportAtComplete(s, r);
      var m := MatchImportAt(s).value;
      MatchImportAtComplete(S, m);
      SameShapeSameMatch(s, r, m);
    }
  }

  /** An occurrence at the start of `s + [t] + u` with `t` a line terminator lies within `s`. */
  lemma InsideLine(s: string, t: char, u: string, r: ImportMatch)
    requires IsLineTerminator(t)
    requires r.InPattern() && r.Text() <= s + [t] + u
    ensures r.Text() <= s
  {
    TextOnOneLine(r);
    var S := s + [t] + u;
    assert forall j :: 0 <= j < |r.Text()| ==> r.Text()[j] == S[j];
    assert S[|s|] == t;
    assert s[..|r.Text()|] == S[..|r.Text()|];
  }

  // ---------------------------------------------------------------------
  // The global replace
  // ---------------------------------------------------------------------

  /**
   * `content.replace(/@import +['"](.+)\.less['"]/g, …)`: the leftmost
   * occurrence is replaced by the import statement of its rewritten path,
   * and the search resumes after it; text outside occurrences is kept.
   */
  function ReplaceImports(content: string): (r: string)
    ensures '@' !in content ==> r == content
    decreases |content|
  {
    if content == [] then ""
    else
      NoMatchWithoutAt(content);
      match MatchImportAt(content)
      case Some(m) =>
        ImportStatement(RewriteImportPath(m.capture)) + ReplaceImports(content[|m.Text()|..])
      case None =>
        assert '@' !in content ==> '@' !in content[1..];
        [content[0]] + ReplaceImports(content[1..])
  }

  lemma Regroup(w: string, x: string, y: string, z: string)
    ensures w + (x + y + z) == (w + x) + y + z
  {
  }

  lemma DropFront(a: string, t: char, b: string, len: nat)
    requires len <= |a|
    ensures (a + [t] + b)[len..] == a[len..] + [t] + b
  {
  }

  /** A match begins with `@`. */
  lemma NoMatchWithoutAt(s: string)
    ensures s == [] || s[0] != '@' ==> MatchImportAt(s) == None
  {
    if |s| > |ImportKeyword| {
      assert s[..|ImportKeyword|][0] == s[0];
    }
  }

  /** Replacing line by line is replacing the whole text: no occurrence spans a line break. */
  lemma {:induction false} ReplaceImportsSplitsAtLineEnd(a: string, t: char, b: string)
    requires IsLineTerminator(t)
    ensures ReplaceImports(a + [t] + b) == ReplaceImports(a) + [t] + ReplaceImports(b)
    decreases |a|
  {
    var s := a + [t] + b;
    if a == [] {
      assert s == [t] + b;
      NoMatchWithoutAt(s);
      ReplaceImportsSkips(s);
      assert s[1..] == b;
    } else {
      MatchImportAtStopsAtLineEnd(a, t, b);
      match MatchImportAt(a)
      case Some(m) =>
        var len := |m.Text()|;
        ReplaceImportsAtMatch(a, m);
        ReplaceImportsAtMatch(s, m);
        DropFront(a, t, b, len);
        ReplaceImportsSplitsAtLineEnd(a[len..], t, b);
        Regroup(ImportStatement(RewriteImportPath(m.capture)), ReplaceImports(a[len..]), [t], ReplaceImports(b));
      case None =>
        ReplaceImportsSkips(a);
        ReplaceImportsSkips(s);
        DropFront(a, t, b, 1);
        ReplaceImportsSplitsAtLineEnd(a[1..], t, b);
        Regroup([a[0]], ReplaceImports(a[1..]), [t], ReplaceImports(b));
    }
  }

  /** One step of the scan where an occurrence starts. */
  lemma ReplaceImportsAtMatch(content: string, m: ImportMatch)
    requires MatchImportAt(content) == Some(m)
    ensures |m.Text()| <= |content|
    ensures ReplaceImports(content) == ImportStatement(RewriteImportPath(m.capture)) + ReplaceImports(content[|m.Text()|..])
  {
  }

  /** One step of the scan where no occurrence starts. */
  lemma ReplaceImportsSkips(content: string)
    requires content != [] && MatchImportAt(content) == None
    ensures ReplaceImports(content) == [content[0]] + ReplaceImports(content[1..])
  {
  }

  /**
   * A line holding one occurrence, followed by text with no `@` and no `.`
   * (a trailing `;`, say), becomes the normalised statement of the
   * rewritten path followed by that text unchanged.
   */
  lemma ReplaceOneImport(m: ImportMatch, tail: string)
    requires m.InPattern()
    requires '@' !in tail && '.' !in tail
    ensures ReplaceImports(m.Text() + tail) == ImportStatement(RewriteImportPath(m.capture)) + tail
  {
    var s := m.Text() + tail;
    OneImportMatches(m, tail);
    ReplaceImportsAtMatch(s, m);
    assert s[|m.Text()|..] == tail;
  }

  /** The matcher reports an occurrence followed by text without `.` as it is: the capture cannot reach into that text. */
  lemma OneImportMatches(m: ImportMatch, tail: string)
    requires m.InPattern() && '.' !in tail
    ensures MatchImportAt(m.Text() + tail) == Some(m)
  {
    var s := m.Text() + tail;
    OccurrenceAtStart(s, m);
    MatchImportAtComplete(s, m);
    var r := MatchImportAt(s).value;
    OccurrenceAtStart(s, r);
    NoDotAfterCapture(m, tail);
    assert |r.capture| == |m.capture| by {
      assert s[8 + r.spaces + |r.capture|] == '.';
    }
    SameShapeSameMatch(s, m, r);
  }

  /** After the capture of an occurrence come `less`, a quote and then text without a `.`. */
  lemma NoDotAfterCapture(m: ImportMatch, tail: string)
    requires m.InPattern() && '.' !in tail
    ensures var s, start := m.Text() + tail, 8 + m.spaces + |m.capture|;
      forall q :: start < q < |s| ==> s[q] != '.'
  {
    TextLayout(m);
    var s, start := m.Text() + tail, 8 + m.spaces + |m.capture|;
    var t := m.Text();
    forall q | start < q < |s| ensures s[q] != '.' {
      if q < |t| {
        assert s[q] == t[q];
        if q < start + 5 {
          assert t[q] == LessExtension[q - start];
        }
      } else {
        assert s[q] == tail[q - |t|];
      }
    }
  }

  /** Every occurrence holds `.less`. */
  lemma MatchNeedsLess(s: string)
    ensures MatchImportAt(s).Some? ==> exists q :: LessAt(s, q)
  {
    if MatchImportAt(s).Some? {
      var r := MatchImportAt(s).value;
      OccurrenceAtStart(s, r);
      assert LessAt(s, 8 + r.spaces + |r.capture|);
    }
  }

  /** `.less` in the text after its first character is `.less` one position further in the text. */
  lemma LessAtShifts(s: string, q: nat)
    requires s != []
    ensures LessAt(s[1..], q) ==> LessAt(s, q + 1)
  {
    if q + |LessExtension| <= |s[1..]| {
      assert s[1..][q..q + |LessExtension|] == s[q + 1..q + 1 + |LessExtension|];
    }
  }

  /** Text in which `.less` never occurs holds no occurrence, so an `@import` of another extension is kept as it is. */
  lemma {:induction false} ReplaceImportsWithoutLess(content: string)
    requires forall q :: !LessAt(content, q)
    ensures ReplaceImports(content) == content
  {
    if content != [] {
      MatchNeedsLess(content);
      ReplaceImportsSkips(content);
      var rest := content[1..];
      forall q: nat ensures !LessAt(rest, q) {
        LessAtShifts(content, q);
      }
      ReplaceImportsWithoutLess(rest);
    }
  }

  /** The capture `../dir/index`: it stays on one line and rewrites to `./dir`. */
  lemma ParentIndexCapture(dir: string)
    requires NoLineTerminator(dir)
    ensures var c := "../" + dir + "/index";
      NoLineTerminator(c) && RewriteImportPath(c) == "./" + dir
  {
    var c := "../" + dir + "/index";
    assert c[..2] == "..";
    assert c[|c| - 5..] == "index";
    RewriteParentIndex(c);
    assert c[1..|c| - 6] == "./" + dir;
    ParentIndexOnOneLine(dir);
  }

  /** `../dir/index` has a line terminator only where `dir` has one. */
  lemma ParentIndexOnOneLine(dir: string)
    requires NoLineTerminator(dir)
    ensures NoLineTerminator("../" + dir + "/index")
  {
    var c := "../" + dir + "/index";
    forall i | 0 <= i < |c| ensures !IsLineTerminator(c[i]) {
      if i < 3 {
        assert c[i] == "../"[i];
      } else if i < 3 + |dir| {
        assert c[i] == dir[i - 3];
      } else {
        assert c[i] == "/index"[i - 3 - |dir|];
      }
    }
  }

  /** A parent-relative import of an index file keeps one `.` of its `..` and loses `/index`. */
  lemma ReplaceImportsParentIndex(dir: string, tail: string)
    requires NoLineTerminator(dir)
    requires '@' !in tail && '.' !in tail
    ensures ReplaceImports(ImportMatch(1, '\'', "../" + dir + "/index", '\'').Text() + tail)
      == ImportStatement("./" + dir) + tail
  {
    ParentIndexCapture(dir);
    ReplaceOneImport(ImportMatch(1, '\'', "../" + dir + "/index", '\''), tail);
  }

  /** Double quotes and extra blanks are normalised to one blank and single quotes. */
  lemma ReplaceImportsNormalisesQuotes(tail: string)
    requires '@' !in tail && '.' !in tail
    ensures ReplaceImports(ImportMatch(2, '"', "local", '"').Text() + tail) == ImportStatement("local") + tail
  {
    var c := "local";
    assert c[0] != '.' && c[4] != 'x';
    RewriteKeepsOtherPaths(c);
    ReplaceOneImport(ImportMatch(2, '"', c, '"'), tail);
  }

  /** Quotes that do not pair up still form an occurrence. */
  lemma ReplaceImportsMixedQuotes(tail: string)
    requires '@' !in tail && '.' !in tail
    ensures ReplaceImports(ImportMatch(1, '"', "b", '\'').Text() + tail) == ImportStatement("b") + tail
  {
    assert "b"[0] != '.' && |"b"| < 5;
    RewriteKeepsOtherPaths("b");
    ReplaceOneImport(ImportMatch(1, '"', "b", '\''), tail);
  }

  /** A bare `index.less` import becomes `inde.less`: `slice(0, -1)` drops only the last character. */
  lemma ReplaceImportsBareIndex(tail: string)
    requires '@' !in tail && '.' !in tail
    ensures ReplaceImports(ImportMatch(1, '\'', "index", '\'').Text() + tail) == ImportStatement("inde") + tail
  {
    var m := ImportMatch(1, '\'', "index", '\'');
    assert NoLineTerminator(m.capture) by {
      assert forall i :: 0 <= i < 5 ==> m.capture[i] in "index";
    }
    ReplaceOneImport(m, tail);
    RewriteBareIndex();
  }

  /** The capture of two imports on one line: it starts with `..`, does not end in `index` and stays on one line. */
  lemma GreedyCapture(a: string, b: string)
    requires NoLineTerminator(a) && NoLineTerminator(b)
    requires b == "" || b[|b| - 1] != 'x'
    ensures var c := "../" + a + ".less'; @import '../" + b;
      StartsWith(c, "..") && !EndsWith(c, "index") && NoLineTerminator(c)
  {
    var mid := ".less'; @import '../";
    var c := "../" + a + mid + b;
    assert c[..2] == "..";
    assert c[|c| - 1] == (if b == "" then '/' else b[|b| - 1]);
    forall i | 0 <= i < |c| ensures !IsLineTerminator(c[i]) {
      if 3 <= i < 3 + |a| {
        assert c[i] == a[i - 3];
      } else if 3 + |a| <= i < 3 + |a| + |mid| {
        assert c[i] == mid[i - 3 - |a|];
      } else if i >= 3 + |a| + |mid| {
        assert c[i] == b[i - 3 - |a| - |mid|];
      }
    }
  }

  /**
   * Two imports on one line form a single occurrence: the greedy capture
   * runs to the last `.less` of the line, so only the first path is
   * rewritten and the second keeps its `..`.
   */
  lemma ReplaceImportsGreedyOnOneLine(a: string, b: string, tail: string)
    requires NoLineTerminator(a) && NoLineTerminator(b)
    requires b == "" || b[|b| - 1] != 'x'
    requires '@' !in tail && '.' !in tail
    ensures var c := "../" + a + ".less'; @import '../" + b;
      ReplaceImports(ImportMatch(1, '\'', c, '\'').Text() + tail) == ImportStatement(c[1..]) + tail
  {
    var c := "../" + a + ".less'; @import '../" + b;
    GreedyCapture(a, b);
    RewriteStripsOneDot(c);
    ReplaceOneImport(ImportMatch(1, '\'', c, '\''), tail);
  }

  /** An `@import` of a `.css` file is not an occurrence. */
  lemma ReplaceImportsKeepsCss()
    ensures ReplaceImports("@import 'a.css';") == "@import 'a.css';"
  {
    var s := "@import 'a.css';";
    forall q: nat ensures !LessAt(s, q) {
      if q + |LessExtension| <= |s| {
        assert s[q..q + |LessExtension|][1] != 'l';
      }
    }
    ReplaceImportsWithoutLess(s);
  }

  // ---------------------------------------------------------------------
  // The two tasks
  // ---------------------------------------------------------------------

  /** A stylesheet found under `Entries`: its path relative to `src/` and its text. */
  datatype LessFile = LessFile(path: ParsedPath, contents: string)

  /** What a task writes: the output directory, the renamed path under it, the text. */
  datatype Written = Written(dir: string, path: ParsedPath, contents: string)

  /** `copyLess`: rename, rewrite the imports, write under `OutputDir`. */
  function CopyLess(file: LessFile): (w: Written)
    ensures w.dir == OutputDir && w.path == ReduceName(file.path)
    ensures w.path.dirname == "." || w.path.dirname == ""
    ensures w.contents == ReplaceImports(file.contents)
  {
    Written(OutputDir, ReduceName(file.path), ReplaceImports(file.contents))
  }

  /** The extension the less compiler gives the file it emits. */
  const CssExtension := ".css"

  /**
   * `buildLess`: compile (less, autoprefixer and clean-css, given here as
   * `compile`), rename, write under `OutputDir`; the imports are not
   * rewritten. The less compiler changes the extension to `.css` before
   * the rename sees the path.
   */
  function BuildLess(file: LessFile, compile: string -> string): (w: Written)
    ensures w.dir == OutputDir && w.path.extname == CssExtension
    ensures w.path == ReduceName(file.path.(extname := CssExtension))
    ensures w.contents == compile(file.contents)
  {
    Written(OutputDir, ReduceName(file.path.(extname := CssExtension)), compile(file.contents))
  }

  /**
   * The two tasks, run side by side, write a stylesheet to the same
   * directory under the same name: the copy keeps the source's extension
   * and the build has `.css`, so for a `.less` source neither overwrites
   * the other.
   */
  lemma CopyAndBuildSideBySide(file: LessFile, compile: string -> string)
    ensures var copy, build := CopyLess(file), BuildLess(file, compile);
      && copy.dir == build.dir
      && copy.path.dirname == build.path.dirname && copy.path.basename == build.path.basename
      && copy.path.extname == file.path.extname && build.path.extname == CssExtension
    ensures file.path.extname == LessExtension ==> CopyLess(file).path != BuildLess(file, compile).path
  {
    assert LessExtension[1] != CssExtension[1];
  }

  /** `button/index.less` gives `dist/styles/button.less` from the copy and `dist/styles/button.css` from the build. */
  lemma TaskOutputsExample(contents: string, compile: string -> string)
    ensures var file := LessFile(ParsedPath("button", "index", ".less"), contents);
      && CopyLess(file).path == ParsedPath("", "button", ".less")
      && BuildLess(file, compile).path == ParsedPath("", "button", ".css")
  {
  }

  /** The renaming a nested stylesheet gets: one level is removed, so deeper paths are kept whole in the new name. */
  lemma ReduceNameExamples()
    ensures ReduceName(ParsedPath("button", "index", ".less")) == ParsedPath("", "button", ".less")
    ensures ReduceName(ParsedPath(".", "app", ".less")) == ParsedPath(".", "app", ".less")
    ensures ReduceName(ParsedPath("component/button", "index", ".less")) == ParsedPath("", "component/button", ".less")
  {
  }
}
