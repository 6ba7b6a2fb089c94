/**
 * `getLibraryName` from the shared utilities: the global name a UMD bundle
 * is published under, derived from the scoped package name in
 * `package.json`. Reading the manifest is I/O and stays outside the model:
 * the name it holds is the input.
 */
module Utils {
  import opened Wrappers
  import opened JsString

  /** The two ways the derivation throws. */
  datatype NameError =
    | NameNotScoped    // the name does not match /^@.+\/.+$/
    | EmptyNamePiece   // a piece between `-`s is empty, so `item[0]` is undefined

  /** Prefix of every library name. */
  const LibraryPrefix := 'T'

  /**
   * `/^@.+\/.+$/.test(name)` (no `m` flag, so `$` is the end of the
   * string): an `@`, at least one character, a `/`, at least one
   * character, and no line terminator anywhere, since `.` refuses them.
   */
  predicate MatchesScopedPattern(name: string)
    ensures MatchesScopedPattern(name) ==> '/' in name && 2 <= IndexOf(name, '/') + 1 < |name|
  {
    |name| >= 4 && name[0] == '@' && NoLineTerminator(name)
    && exists i :: 2 <= i <= |name| - 2 && name[i] == '/'
  }

  /** `name` is `@`, a scope, `/` at `i` and a rest, both non-empty and free of line terminators. */
  predicate SplitsAsScoped(name: string, i: int) {
    2 <= i <= |name| - 2 && name == "@" + name[1..i] + "/" + name[i + 1..]
    && NoLineTerminator(name[1..i]) && NoLineTerminator(name[i + 1..])
  }

  /** The pattern as the language it denotes: the names that split as `@scope/rest`. */
  lemma ScopedPatternShape(name: string)
    ensures MatchesScopedPattern(name) <==> exists i :: SplitsAsScoped(name, i)
  {
    if MatchesScopedPattern(name) {
      var i :| 2 <= i <= |name| - 2 && name[i] == '/';
      ScopedPatternSplits(name, i);
    }
    if exists i :: SplitsAsScoped(name, i) {
      var i :| SplitsAsScoped(name, i);
      ScopedPatternWithRest(name[1..i], name[i + 1..], "");
      assert name == "@" + name[1..i] + "/" + name[i + 1..] + "";
    }
  }

  lemma ScopedPatternSplits(name: string, i: int)
    requires MatchesScopedPattern(name) && 2 <= i <= |name| - 2 && name[i] == '/'
    ensures SplitsAsScoped(name, i)
  {
    assert name == "@" + name[1..i] + "/" + name[i + 1..];
    assert forall j :: 1 <= j < i ==> name[1..i][j - 1] == name[j];
    assert forall j :: i + 1 <= j < |name| ==> name[i + 1..][j - i - 1] == name[j];
  }

  /** `name.split('/')[1]`: the text between the first and the second `/`. */
  function PackageSegment(name: string): (seg: string)
    requires '/' in name
    ensures '/' !in seg
    ensures name[..IndexOf(name, '/') + 1] + seg <= name
    ensures var i := IndexOf(name, '/');
      name[..i + 1] + seg == name || name[..i + 1] + seg + ['/'] <= name
  {
    var i := IndexOf(name, '/');
    FirstPieceOfRest(name, i);
    Split(name[i + 1..], '/')[0]
  }

  /** The first piece of what follows position `i` runs to the next `/` or to the end. */
  lemma FirstPieceOfRest(name: string, i: nat)
    requires i < |name|
    ensures var seg := Split(name[i + 1..], '/')[0];
      && '/' !in seg && name[..i + 1] + seg <= name
      && (name[..i + 1] + seg == name || name[..i + 1] + seg + ['/'] <= name)
  {
    var rest := Split(name[i + 1..], '/');
    assert Join(rest, '/') == name[i + 1..];
    FirstPieceEnds(rest, '/');
    assert name == name[..i + 1] + name[i + 1..];
  }

  /** The first piece of a join is all of it, or is followed by the separator. */
  lemma FirstPieceEnds(pieces: seq<string>, sep: char)
    requires |pieces| >= 1
    ensures Join(pieces, sep) == pieces[0] || pieces[0] + [sep] <= Join(pieces, sep)
  {
    if |pieces| > 1 {
      assert Join(pieces, sep) == pieces[0] + [sep] + Join(pieces[1..], sep);
    }
  }

  /** `item[0].toUpperCase() + item.slice(1)` on a non-empty piece. */
  function Capitalize(item: string): (r: string)
    requires item != ""
    ensures |r| == |item| && r[1..] == item[1..] && r[0] == ToUpperAscii(item[0])
  {
    [ToUpperAscii(item[0])] + item[1..]
  }

  predicate NoEmptyPiece(pieces: seq<string>) {
    forall i :: 0 <= i < |pieces| ==> pieces[i] != ""
  }

  /** `.map(capitalize).join('')` over pieces that are all non-empty. */
  function CapitalizeAll(pieces: seq<string>): (r: string)
    requires NoEmptyPiece(pieces)
    ensures |r| == |Concat(pieces)|
    ensures pieces != [] ==> r[0] == ToUpperAscii(pieces[0][0])
  {
    if pieces == [] then "" else Capitalize(pieces[0]) + CapitalizeAll(pieces[1..])
  }

  /**
   * The library name, character by character: every `-` is dropped and the
   * character after it, like the first one, is upper-cased.
   */
  function PascalCase(s: string, upper: bool): (r: string)
    ensures |r| == |s| - Count(s, '-')
    ensures '-' !in r
    ensures '/' in r ==> '/' in s
  {
    if s == [] then ""
    else if s[0] == '-' then PascalCase(s[1..], true)
    else
      var c := if upper then ToUpperAscii(s[0]) else s[0];
      var rest := PascalCase(s[1..], false);
      assert forall k :: 1 <= k < |[c] + rest| ==> ([c] + rest)[k] == rest[k - 1];
      [c] + rest
  }

  /**
   * Where the split on `-` has no empty piece: the segment is not empty,
   * neither starts nor ends with `-` and holds no two `-` in a row.
   */
  predicate WellDashed(seg: string) {
    seg != "" && seg[0] != '-' && seg[|seg| - 1] != '-'
    && forall j :: 0 <= j < |seg| - 1 ==> !(seg[j] == '-' && seg[j + 1] == '-')
  }

  /** `getLibraryName` on the package name it reads. */
  function GetLibraryName(name: string): (r: Result<string, NameError>)
    ensures r == Failure(NameNotScoped) <==> !MatchesScopedPattern(name)
    ensures r == Failure(EmptyNamePiece) <==> MatchesScopedPattern(name) && !WellDashed(PackageSegment(name))
    ensures r.Success? ==> r.value == [LibraryPrefix] + PascalCase(PackageSegment(name), true)
  {
    if !MatchesScopedPattern(name) then Failure(NameNotScoped)
    else
      var seg := PackageSegment(name);
      var pieces := Split(seg, '-');
      EmptyPieceIffBadDashes(pieces, seg);
      if !NoEmptyPiece(pieces) then Failure(EmptyNamePiece)
      else
        CapitalizeAllIsPascalCase(pieces);
        Success([LibraryPrefix] + CapitalizeAll(pieces))
  }

  // ---------------------------------------------------------------------
  // Lemmas
  // ---------------------------------------------------------------------

  /** A derived name starts with `T`, holds no `-` and no `/`, and is one longer than its segment without dashes. */
  lemma LibraryNameShape(name: string)
    requires GetLibraryName(name).Success?
    ensures var r, seg := GetLibraryName(name).value, PackageSegment(name);
      r[0] == LibraryPrefix && '-' !in r && '/' !in r
      && |r| == 1 + |seg| - Count(seg, '-')
  {
  }

  /** Leading text without `-` is kept as it is when no upper-casing is pending. */
  lemma {:induction false} PascalCaseKeeps(p: string, t: string)
    requires '-' !in p
    ensures PascalCase(p + t, false) == p + PascalCase(t, false)
  {
    if p != [] {
      assert (p + t)[0] == p[0] && (p + t)[1..] == p[1..] + t;
      PascalCaseKeeps(p[1..], t);
      assert p == [p[0]] + p[1..];
    } else {
      assert p + t == t;
    }
  }

  /** A non-empty piece followed by a `-` and more text. */
  lemma PascalCasePiece(p: string, t: string)
    requires p != "" && '-' !in p
    ensures PascalCase(p + t, true) == Capitalize(p) + PascalCase(t, false)
  {
    assert (p + t)[0] == p[0] && (p + t)[1..] == p[1..] + t;
    assert p[0] in p;
    PascalCaseKeeps(p[1..], t);
  }

  /** Joining capitalised pieces is the character-wise definition on their `-`-join. */
  lemma {:induction false} CapitalizeAllIsPascalCase(pieces: seq<string>)
    requires |pieces| >= 1 && NoEmptyPiece(pieces)
    requires forall i :: 0 <= i < |pieces| ==> '-' !in pieces[i]
    ensures CapitalizeAll(pieces) == PascalCase(Join(pieces, '-'), true)
  {
    var p := pieces[0];
    if |pieces| == 1 {
      PascalCasePiece(p, "");
      assert p + "" == p;
      assert CapitalizeAll(pieces[1..]) == "";
    } else {
      var r := Join(pieces[1..], '-');
      CapitalizeAllIsPascalCase(pieces[1..]);
      PascalCasePiece(p, ['-'] + r);
      assert (['-'] + r)[1..] == r;
      assert p + ['-'] + r == p + (['-'] + r);
    }
  }

  /** A split on `-` has an empty piece exactly where the segment is not well dashed. */
  lemma {:induction false} EmptyPieceIffBadDashes(pieces: seq<string>, seg: string)
    requires |pieces| >= 1 && seg == Join(pieces, '-')
    requires forall i :: 0 <= i < |pieces| ==> '-' !in pieces[i]
    ensures NoEmptyPiece(pieces) <==> WellDashed(seg)
    decreases |pieces|
  {
    var p := pieces[0];
    if |pieces| == 1 {
      if p != "" {
        assert p[0] in p && p[|p| - 1] in p;
        assert forall j :: 0 <= j < |p| ==> p[j] != '-';
      }
    } else {
      var rest := pieces[1..];
      var r := Join(rest, '-');
      EmptyPieceIffBadDashes(rest, r);
      assert seg == p + ['-'] + r;
      assert NoEmptyPiece(pieces) <==> p != "" && NoEmptyPiece(rest) by {
        assert forall i :: 1 <= i < |pieces| ==> pieces[i] == rest[i - 1];
      }
      assert seg[|p|] == '-';
      assert forall j :: 0 <= j < |p| ==> seg[j] == p[j] && seg[j] != '-';
      assert forall j :: 0 <= j < |r| ==> seg[|p| + 1 + j] == r[j];
      if p != "" && WellDashed(r) {
        forall j | 0 <= j < |seg| - 1 ensures !(seg[j] == '-' && seg[j + 1] == '-') {
          if j > |p| {
            assert seg[j] == r[j - |p| - 1] && seg[j + 1] == r[j - |p|];
          }
        }
      }
      if WellDashed(seg) {
        if r != "" {
          forall j | 0 <= j < |r| - 1 ensures !(r[j] == '-' && r[j + 1] == '-') {
            assert seg[|p| + 1 + j] == r[j] && seg[|p| + 2 + j] == r[j + 1];
          }
          assert !(seg[|p|] == '-' && seg[|p| + 1] == '-');
        }
      }
    }
  }

  /** A scope and a segment without `/` form a name that matches, and the segment is what `split('/')[1]` takes. */
  lemma ScopedName(scope: string, seg: string)
    requires scope != "" && seg != "" && '/' !in scope && '/' !in seg
    requires NoLineTerminator(scope) && NoLineTerminator(seg)
    ensures var name := "@" + scope + "/" + seg;
      MatchesScopedPattern(name) && PackageSegment(name) == seg
  {
    ScopedNameWithRest(scope, seg, "");
    assert "@" + scope + "/" + seg + "" == "@" + scope + "/" + seg;
  }

  /** Whatever follows a second `/` plays no part in the segment. */
  lemma ScopedNameWithRest(scope: string, seg: string, rest: string)
    requires scope != "" && seg != "" && '/' !in scope && '/' !in seg
    requires rest == "" || rest[0] == '/'
    requires NoLineTerminator(scope) && NoLineTerminator(seg) && NoLineTerminator(rest)
    ensures var name := "@" + scope + "/" + seg + rest;
      MatchesScopedPattern(name) && PackageSegment(name) == seg
  {
    var name := "@" + scope + "/" + seg + rest;
    ScopedPatternWithRest(scope, seg, rest);
    var head := "@" + scope;
    var tail := seg + rest;
    assert name == head + ['/'] + tail;
    assert '/' !in head by {
      assert forall j :: 1 <= j < |head| ==> head[j] == scope[j - 1];
    }
    FirstSeparator(head, tail, '/');
    FirstPiece(seg, rest);
  }

  /** A segment without `/`, followed by nothing or by `/` and more, is the first piece of the split. */
  lemma FirstPiece(seg: string, rest: string)
    requires '/' !in seg
    requires rest == "" || rest[0] == '/'
    ensures Split(seg + rest, '/')[0] == seg
  {
    if rest == "" {
      assert seg + rest == seg;
      SplitJoin([seg], '/');
    } else {
      FirstSeparator(seg, rest[1..], '/');
      assert seg + rest == seg + ['/'] + rest[1..];
    }
  }

  /** `@scope/seg` followed by nothing or by more segments is in the language of the scoped pattern. */
  lemma ScopedPatternWithRest(scope: string, seg: string, rest: string)
    requires scope != "" && seg != ""
    requires NoLineTerminator(scope) && NoLineTerminator(seg) && NoLineTerminator(rest)
    ensures MatchesScopedPattern("@" + scope + "/" + seg + rest)
  {
    var name := "@" + scope + "/" + seg + rest;
    assert name[|scope| + 1] == '/';
    forall j | 0 <= j < |name| ensures !IsLineTerminator(name[j]) {
      if 1 <= j <= |scope| {
        assert name[j] == scope[j - 1];
      } else if |scope| + 1 < j < |scope| + 2 + |seg| {
        assert name[j] == seg[j - |scope| - 2];
      } else if j >= |scope| + 2 + |seg| {
        assert name[j] == rest[j - |scope| - 2 - |seg|];
      }
    }
  }

  /** Two names the scoped pattern treats alike, with the same package segment, get the same library name. */
  lemma SameSegmentSameName(n1: string, n2: string)
    requires MatchesScopedPattern(n1) && MatchesScopedPattern(n2)
    requires PackageSegment(n1) == PackageSegment(n2)
    ensures GetLibraryName(n1) == GetLibraryName(n2)
  {
  }

  lemma LibraryNameIgnoresLaterSegments(scope: string, seg: string, more: string)
    requires scope != "" && seg != "" && '/' !in scope && '/' !in seg
    requires NoLineTerminator(scope) && NoLineTerminator(seg) && NoLineTerminator(more)
    ensures GetLibraryName("@" + scope + "/" + seg + "/" + more) == GetLibraryName("@" + scope + "/" + seg)
  {
    var rest := "/" + more;
    assert NoLineTerminator(rest) by {
      assert forall j :: 1 <= j < |rest| ==> rest[j] == more[j - 1];
    }
    var long, short := "@" + scope + "/" + seg + "/" + more, "@" + scope + "/" + seg;
    ScopedNameWithRest(scope, seg, rest);
    assert long == "@" + scope + "/" + seg + rest;
    ScopedName(scope, seg);
    SameSegmentSameName(long, short);
  }


  /**
   * A package `@scope/a-b-c` whose pieces are non-empty is published as
   * `T` followed by its capitalised pieces.
   */
  lemma LibraryNameOfPieces(scope: string, pieces: seq<string>)
    requires scope != "" && '/' !in scope && NoLineTerminator(scope)
    requires |pieces| >= 1 && NoEmptyPiece(pieces)
    requires forall i :: 0 <= i < |pieces| ==> '-' !in pieces[i] && '/' !in pieces[i] && NoLineTerminator(pieces[i])
    ensures GetLibraryName("@" + scope + "/" + Join(pieces, '-')) == Success([LibraryPrefix] + CapitalizeAll(pieces))
  {
    var seg := Join(pieces, '-');
    JoinKeepsCharacters(pieces);
    assert seg != "" by {
      assert pieces[0] <= seg by { FirstPieceEnds(pieces, '-'); }
    }
    ScopedName(scope, seg);
    SplitJoin(pieces, '-');
  }

  /** Every character of a `-`-join is a `-` or a character of one of the pieces. */
  lemma {:induction false} JoinKeepsCharacters(pieces: seq<string>)
    requires |pieces| >= 1
    requires forall i :: 0 <= i < |pieces| ==> '/' !in pieces[i] && NoLineTerminator(pieces[i])
    ensures '/' !in Join(pieces, '-') && NoLineTerminator(Join(pieces, '-'))
  {
    if |pieces| > 1 {
      JoinKeepsCharacters(pieces[1..]);
      var p, r := pieces[0], Join(pieces[1..], '-');
      var s := p + ['-'] + r;
      forall j | 0 <= j < |s| ensures s[j] != '/' && !IsLineTerminator(s[j]) {
        if j < |p| {
          assert s[j] == p[j];
        } else if j > |p| {
          assert s[j] == r[j - |p| - 1];
        }
      }
    }
  }

  /** The pieces of `my-widget` and what they become. */
  lemma MyWidgetPieces()
    ensures var pieces := ["my", "widget"];
      |pieces| >= 1 && NoEmptyPiece(pieces)
      && (forall i :: 0 <= i < |pieces| ==> '-' !in pieces[i] && '/' !in pieces[i] && NoLineTerminator(pieces[i]))
      && Join(pieces, '-') == "my-widget"
      && [LibraryPrefix] + CapitalizeAll(pieces) == "TMyWidget"
  {
    var pieces := ["my", "widget"];
    assert pieces[1..] == ["widget"] && pieces[1..][1..] == [];
    assert Capitalize("my") == "My" && Capitalize("widget") == "Widget";
  }

  /** A package named `@<scope>/my-widget` is published as `TMyWidget`, whatever its scope. */
  lemma LibraryNameExample(scope: string)
    requires scope != "" && '/' !in scope && NoLineTerminator(scope)
    ensures GetLibraryName("@" + scope + "/" + "my-widget") == Success("TMyWidget")
  {
    MyWidgetPieces();
    LibraryNameOfPieces(scope, ["my", "widget"]);
  }

  /** An unscoped name is rejected. */
  lemma LibraryNameRejectsUnscoped()
    ensures GetLibraryName("widget") == Failure(NameNotScoped)
  {
    assert "widget"[0] != '@';
  }

  /** A scope without a package is rejected. */
  lemma LibraryNameRejectsBareScope(scope: string)
    requires scope != "" && '/' !in scope
    ensures GetLibraryName("@" + scope + "/") == Failure(NameNotScoped)
  {
    var name := "@" + scope + "/";
    assert forall i :: 1 <= i < |name| - 1 ==> name[i] == scope[i - 1];
  }

  /** Two dashes in a row leave an empty piece, and `item[0]` fails on it. */
  lemma LibraryNameRejectsDoubleDash(scope: string, a: string, b: string)
    requires scope != "" && '/' !in scope && NoLineTerminator(scope)
    requires '/' !in a && '/' !in b && NoLineTerminator(a) && NoLineTerminator(b)
    ensures GetLibraryName("@" + scope + "/" + a + "--" + b) == Failure(EmptyNamePiece)
  {
    var seg := a + "--" + b;
    assert seg[|a|] == '-' && seg[|a| + 1] == '-';
    assert '/' !in seg && NoLineTerminator(seg) by {
      forall j | 0 <= j < |seg| ensures seg[j] != '/' && !IsLineTerminator(seg[j]) {
        if j < |a| {
          assert seg[j] == a[j];
        } else if j >= |a| + 2 {
          assert seg[j] == b[j - |a| - 2];
        }
      }
    }
    ScopedName(scope, seg);
    assert "@" + scope + "/" + a + "--" + b == "@" + scope + "/" + seg;
  }
}
