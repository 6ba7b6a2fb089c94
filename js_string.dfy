/**
 * The JavaScript string built-ins that the build scripts call, on strings
 * modelled as sequences of characters: `slice`, `startsWith`, `endsWith`,
 * `split` with a one-character separator, `join('')`, `toUpperCase` on one
 * character, and the line terminators a regular expression's `.` refuses.
 */
module JsString {

  /** ECMAScript LineTerminator: the characters that `.` in a regular expression never matches. */
  predicate IsLineTerminator(c: char) {
    c == '\n' || c == '\r' || c == '\U{2028}' || c == '\U{2029}'
  }

  predicate NoLineTerminator(s: string) {
    forall i :: 0 <= i < |s| ==> !IsLineTerminator(s[i])
  }

  /** `s.startsWith(prefix)` */
  predicate StartsWith(s: string, prefix: string)
    ensures StartsWith(s, prefix) <==> |prefix| <= |s| && prefix + s[|prefix|..] == s
  {
    prefix <= s
  }

  /** `s.endsWith(suffix)` */
  predicate EndsWith(s: string, suffix: string)
    ensures EndsWith(s, suffix) <==> |suffix| <= |s| && s[..|s| - |suffix|] + suffix == s
  {
    |suffix| <= |s| && s[|s| - |suffix|..] == suffix
  }

  /** How `slice` resolves one index: a negative one counts back from the end; both are clamped to the string. */
  function SliceIndex(k: int, len: nat): (r: nat)
    ensures r <= len
  {
    if k < 0 then (if len + k < 0 then 0 else len + k)
    else if k > len then len
    else k
  }

  /** `s.slice(start, end)`: empty when the resolved end does not lie after the resolved start. */
  function Slice(s: string, start: int, end: int): (r: string)
    ensures |r| <= |s|
    ensures 0 <= start <= end <= |s| ==> r == s[start..end]
    ensures 0 <= start <= |s| + end < |s| ==> r == s[start..|s| + end]
    ensures 0 <= start <= |s| ==> r <= s[start..]
  {
    var a := SliceIndex(start, |s|);
    var b := SliceIndex(end, |s|);
    if a < b then s[a..b] else ""
  }

  /** `s.slice(start)` */
  function SliceFrom(s: string, start: int): (r: string)
    ensures 0 <= start <= |s| ==> r == s[start..]
    ensures start > |s| ==> r == []
    ensures start < 0 ==> |r| == if -start <= |s| then -start else |s|
    ensures EndsWith(s, r)
  {
    Slice(s, start, |s|)
  }

  /** Position of the first occurrence of `c` in `s`. */
  function IndexOf(s: string, c: char): (r: nat)
    requires c in s
    ensures r < |s| && s[r] == c && c !in s[..r]
  {
    if s[0] == c then 0
    else
      assert s == [s[0]] + s[1..];
      var k := IndexOf(s[1..], c);
      assert s[..k + 1] == [s[0]] + s[1..][..k];
      k + 1
  }

  /** `pieces.join(sep)` for a one-character separator. */
  function Join(pieces: seq<string>, sep: char): string
    requires |pieces| >= 1
  {
    if |pieces| == 1 then pieces[0] else pieces[0] + [sep] + Join(pieces[1..], sep)
  }

  /** `pieces.join('')` */
  function Concat(pieces: seq<string>): string {
    if pieces == [] then "" else pieces[0] + Concat(pieces[1..])
  }

  /** Number of occurrences of `c` in `s`. */
  function Count(s: string, c: char): nat {
    if s == [] then 0 else (if s[0] == c then 1 else 0) + Count(s[1..], c)
  }

  lemma {:induction false} CountAppend(s: string, t: string, c: char)
    ensures Count(s + t, c) == Count(s, c) + Count(t, c)
  {
    if s != [] {
      assert (s + t)[1..] == s[1..] + t;
      CountAppend(s[1..], t, c);
    } else {
      assert s + t == t;
    }
  }

  lemma {:induction false} CountAbsent(s: string, c: char)
    requires c !in s
    ensures Count(s, c) == 0
  {
    if s != [] {
      assert s[0] != c;
      CountAbsent(s[1..], c);
    }
  }

  /**
   * `s.split(sep)` for a one-character separator: the pieces between the
   * separators, an empty piece where two separators touch or one stands at
   * either end, and `[""]` for the empty string.
   */
  function Split(s: string, sep: char): (r: seq<string>)
    ensures |r| >= 1
    ensures forall i :: 0 <= i < |r| ==> sep !in r[i]
    ensures Join(r, sep) == s
    ensures |r| == Count(s, sep) + 1
    decreases |s|
  {
    if sep !in s then
      CountAbsent(s, sep);
      [s]
    else
      var i := IndexOf(s, sep);
      var rest := Split(s[i + 1..], sep);
      assert s == s[..i] + [sep] + s[i + 1..];
      CountAppend(s[..i] + [sep], s[i + 1..], sep);
      CountAppend(s[..i], [sep], sep);
      CountAbsent(s[..i], sep);
      assert Count([sep], sep) == 1;
      assert ([s[..i]] + rest)[1..] == rest;
      [s[..i]] + rest
  }

  /** Splitting a join of separator-free pieces gives the pieces back. */
  lemma {:induction false} SplitJoin(pieces: seq<string>, sep: char)
    requires |pieces| >= 1
    requires forall i :: 0 <= i < |pieces| ==> sep !in pieces[i]
    ensures Split(Join(pieces, sep), sep) == pieces
  {
    if |pieces| == 1 {
      assert sep !in Join(pieces, sep);
    } else {
      var head, tail := pieces[0], Join(pieces[1..], sep);
      var s := head + [sep] + tail;
      assert Join(pieces, sep) == s;
      FirstSeparator(head, tail, sep);
      assert Split(s, sep) == [head] + Split(tail, sep);
      SplitJoin(pieces[1..], sep);
      assert pieces == [head] + pieces[1..];
    }
  }

  /** The first separator in `head + [sep] + tail` sits right after a separator-free `head`. */
  lemma FirstSeparator(head: string, tail: string, sep: char)
    requires sep !in head
    ensures var s := head + [sep] + tail;
      sep in s && IndexOf(s, sep) == |head| && s[..|head|] == head && s[|head| + 1..] == tail
  {
    var s := head + [sep] + tail;
    assert s[|head|] == sep;
    var i := IndexOf(s, sep);
    assert forall j :: 0 <= j < |head| ==> s[j] == head[j];
    assert s[..|head|] == head;
    assert s[|head| + 1..] == tail;
  }

  /** `c.toUpperCase()` for one character; only the ASCII letters a-z change. */
  function ToUpperAscii(c: char): (r: char)
    ensures r != c <==> 'a' <= c <= 'z'
    ensures 'a' <= c <= 'z' ==> 'A' <= r <= 'Z' && r as int - 'A' as int == c as int - 'a' as int
    ensures r != '-' && r != '/' <== c != '-' && c != '/'
  {
    if 'a' <= c <= 'z' then (c as int - 32) as char else c
  }

  /** Upper-casing twice is upper-casing once. */
  lemma ToUpperAsciiIdempotent(c: char)
    ensures ToUpperAscii(ToUpperAscii(c)) == ToUpperAscii(c)
  {
  }
}
