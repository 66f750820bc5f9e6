/**
 Strings as Go's `strings` and `regexp` packages treat them.  A string is a
 sequence of code points; byte order on UTF-8 and code-point order coincide, so
 `Less` is the order of `sort.Strings`.
 */
module Text {

  datatype Option<+T> = None | Some(value: T) {
    function GetOr(default: T): T {
      if None? then default else value
    }
  }

  /** The class `\s` of Go regular expressions. */
  predicate IsBlank(c: char) {
    c == '\t' || c == '\n' || c == '\U{0C}' || c == '\r' || c == ' '
  }

  /** Characters `from` to `to` of `s` are all matched by `\s`. */
  predicate Blank(s: string, from: nat, to: nat)
    requires to <= |s|
  {
    forall i | from <= i < to :: IsBlank(s[i])
  }

  /** Characters `from` to `to` of `s` are all matched by `\S`. */
  predicate Solid(s: string, from: nat, to: nat)
    requires to <= |s|
  {
    forall i | from <= i < to :: !IsBlank(s[i])
  }

  /** Where the longest match of `\s*` that starts at `from` ends. */
  function BlankEnd(s: string, from: nat): (e: nat)
    requires from <= |s|
    ensures from <= e <= |s| && Blank(s, from, e)
    ensures e < |s| ==> !IsBlank(s[e])
    decreases |s| - from
  {
    if from == |s| || !IsBlank(s[from]) then from else BlankEnd(s, from + 1)
  }

  /** Where the longest match of `\S*` that starts at `from` ends. */
  function SolidEnd(s: string, from: nat): (e: nat)
    requires from <= |s|
    ensures from <= e <= |s| && Solid(s, from, e)
    ensures e < |s| ==> IsBlank(s[e])
    decreases |s| - from
  {
    if from == |s| || IsBlank(s[from]) then from else SolidEnd(s, from + 1)
  }

  lemma {:induction false} BlanksEndAt(s: string, from: nat, e: nat)
    requires from <= e <= |s| && Blank(s, from, e) && (e < |s| ==> !IsBlank(s[e]))
    ensures BlankEnd(s, from) == e
    decreases e - from
  {
    if from < e { BlanksEndAt(s, from + 1, e); }
  }

  lemma {:induction false} WordEndsAt(s: string, from: nat, e: nat)
    requires from <= e <= |s| && Solid(s, from, e) && (e < |s| ==> IsBlank(s[e]))
    ensures SolidEnd(s, from) == e
    decreases e - from
  {
    if from < e { WordEndsAt(s, from + 1, e); }
  }

  /** `unicode.IsSpace`, the characters `strings.TrimSpace` removes. */
  predicate IsSpace(c: char) {
    || '\t' <= c <= '\r' || c == ' ' || c == '\U{85}' || c == '\U{A0}'
    || c == '\U{1680}' || '\U{2000}' <= c <= '\U{200A}' || c == '\U{2028}'
    || c == '\U{2029}' || c == '\U{202F}' || c == '\U{205F}' || c == '\U{3000}'
  }

  /** `strings.TrimLeft`, the cut set given as a predicate. */
  function TrimLeft(s: string, cut: char -> bool): (r: string)
    ensures |r| <= |s| && r == s[|s| - |r|..]
    ensures forall i | 0 <= i < |s| - |r| :: cut(s[i])
    ensures r != [] ==> !cut(r[0])
  {
    if s == [] || !cut(s[0]) then s else TrimLeft(s[1..], cut)
  }

  function TrimRight(s: string, cut: char -> bool): (r: string)
    ensures |r| <= |s| && r == s[..|r|]
    ensures forall i | |r| <= i < |s| :: cut(s[i])
    ensures r != [] ==> !cut(r[|r| - 1])
  {
    if s == [] || !cut(s[|s| - 1]) then s else TrimRight(s[..|s| - 1], cut)
  }

  lemma {:induction false} TrimLeftStops(padding: string, rest: string, cut: char -> bool)
    requires forall c | c in padding :: cut(c)
    requires rest != [] ==> !cut(rest[0])
    ensures TrimLeft(padding + rest, cut) == rest
  {
    if padding == [] {
      assert padding + rest == rest;
    } else {
      assert padding[0] in padding && (padding + rest)[1..] == padding[1..] + rest;
      TrimLeftStops(padding[1..], rest, cut);
    }
  }

  lemma {:induction false} TrimRightStops(rest: string, padding: string, cut: char -> bool)
    requires forall c | c in padding :: cut(c)
    requires rest != [] ==> !cut(rest[|rest| - 1])
    ensures TrimRight(rest + padding, cut) == rest
  {
    if padding == [] {
      assert rest + padding == rest;
    } else {
      var n := |padding| - 1;
      assert padding[n] in padding && (rest + padding)[..|rest + padding| - 1] == rest + padding[..n];
      TrimRightStops(rest, padding[..n], cut);
    }
  }

  /** `strings.TrimSpace`. */
  function TrimSpace(s: string): (r: string)
    ensures r != [] ==> !IsSpace(r[0]) && !IsSpace(r[|r| - 1])
    ensures forall c | c in r :: c in s
  {
    TrimRight(TrimLeft(s, IsSpace), IsSpace)
  }

  /** The order of `sort.Strings`. */
  predicate Less(a: string, b: string) {
    b != [] && (a == [] || a[0] < b[0] || (a[0] == b[0] && Less(a[1..], b[1..])))
  }

  lemma {:induction false} LessTransitive(a: string, b: string, c: string)
    requires Less(a, b) && Less(b, c)
    ensures Less(a, c)
  {
    if a != [] && a[0] == b[0] == c[0] {
      LessTransitive(a[1..], b[1..], c[1..]);
    }
  }

  lemma {:induction false} LessIrreflexive(a: string)
    ensures !Less(a, a)
  {
    if a != [] {
      LessIrreflexive(a[1..]);
    }
  }

  lemma {:induction false} LessTotal(a: string, b: string)
    ensures a == b || Less(a, b) || Less(b, a)
    ensures !(Less(a, b) && Less(b, a))
  {
    if a == [] && b == [] {
      LessIrreflexive(a);
    }
    if a != [] && b != [] && a[0] == b[0] {
      LessTotal(a[1..], b[1..]);
      assert a == [a[0]] + a[1..] && b == [b[0]] + b[1..];
    }
  }

  /** The strings agree up to `i`, where the first ends or has the smaller
      character. */
  ghost predicate FirstDifference(a: string, b: string, i: int) {
    0 <= i <= |a| && i < |b| && a[..i] == b[..i] && (i == |a| || a[i] < b[i])
  }

  /** What the order means: the first difference decides. */
  lemma {:induction false} LessAtFirstDifference(a: string, b: string)
    ensures Less(a, b) <==> exists i :: FirstDifference(a, b, i)
  {
    if a == [] || b == [] || a[0] != b[0] {
      assert Less(a, b) ==> FirstDifference(a, b, 0);
    } else {
      LessAtFirstDifference(a[1..], b[1..]);
      forall i ensures FirstDifference(a[1..], b[1..], i) ==> FirstDifference(a, b, i + 1) {
        LaterDifference(a, b, i);
      }
      forall i ensures FirstDifference(a, b, i) ==> FirstDifference(a[1..], b[1..], i - 1) {
        LaterDifference(a, b, i - 1);
      }
    }
  }

  lemma LaterDifference(a: string, b: string, i: int)
    requires a != [] && b != [] && a[0] == b[0]
    ensures FirstDifference(a[1..], b[1..], i) <==> i + 1 > 0 && FirstDifference(a, b, i + 1)
  {
    if 0 <= i < |a| && i + 1 < |b| {
      assert a[..i + 1] == [a[0]] + a[1..][..i] && b[..i + 1] == [b[0]] + b[1..][..i];
      assert a[1..][..i] == a[..i + 1][1..] && b[1..][..i] == b[..i + 1][1..];
    }
  }

  predicate OccursAt(s: string, sep: string, i: int) {
    0 <= i <= |s| - |sep| && s[i..i + |sep|] == sep
  }

  /** `strings.Index`: the first occurrence of `sep` at or after `from`. */
  function IndexFrom(s: string, sep: string, from: nat): (r: Option<nat>)
    ensures r.Some? ==> from <= r.value && OccursAt(s, sep, r.value)
    ensures r.Some? ==> forall i | from <= i < r.value :: !OccursAt(s, sep, i)
    ensures r.None? ==> forall i | from <= i :: !OccursAt(s, sep, i)
    decreases |s| - from
  {
    if from > |s| - |sep| then None
    else if s[from..from + |sep|] == sep then Some(from)
    else IndexFrom(s, sep, from + 1)
  }

  /** `strings.Split`: cut before and after each leftmost occurrence; an empty
      separator cuts between all characters. */
  function Split(s: string, sep: string): (parts: seq<string>)
    ensures sep != [] ==> parts != []
    decreases |s|
  {
    if sep == [] then seq(|s|, i requires 0 <= i < |s| => [s[i]])
    else
      match IndexFrom(s, sep, 0)
      case None => [s]
      case Some(i) => [s[..i]] + Split(s[i + |sep|..], sep)
  }

  /** The part of `s` from `from` up to the next occurrence of `sep`. */
  function UpToNext(s: string, sep: string, from: nat): string
    requires from <= |s|
  {
    match IndexFrom(s, sep, from)
    case None => s[from..]
    case Some(i) => s[from..i]
  }

  lemma {:induction false} IndexShift(s: string, sep: string, n: nat, k: nat)
    requires n + k <= |s|
    ensures IndexFrom(s, sep, n + k).None? <==> IndexFrom(s[n..], sep, k).None?
    ensures IndexFrom(s, sep, n + k).Some? ==> IndexFrom(s, sep, n + k).value == n + IndexFrom(s[n..], sep, k).value
    decreases |s| - k
  {
    if n + k <= |s| - |sep| {
      assert s[n..][k..k + |sep|] == s[n + k..n + k + |sep|];
      if s[n + k..n + k + |sep|] != sep && n + k < |s| {
        IndexShift(s, sep, n, k + 1);
      }
    }
  }

  lemma FirstPart(s: string, sep: string)
    requires sep != ""
    ensures Split(s, sep) != [] && Split(s, sep)[0] == UpToNext(s, sep, 0)
  {
    assert IndexFrom(s, sep, 0).None? ==> s[0..] == s;
  }

  lemma SplitOff(s: string, sep: string)
    requires sep != "" && sep <= s
    ensures Split(s, sep) == [""] + Split(s[|sep|..], sep)
  {
    assert s[0..|sep|] == sep;
    assert IndexFrom(s, sep, 0) == Some(0) && s[..0] == "";
  }

  lemma UpToNextShift(s: string, sep: string, n: nat)
    requires n <= |s|
    ensures UpToNext(s[n..], sep, 0) == UpToNext(s, sep, n)
  {
    IndexShift(s, sep, n, 0);
    match IndexFrom(s, sep, n)
    case None =>
    case Some(i) => assert s[n..][..i - n] == s[n..i];
  }

  /** Splitting a string at a separator it begins with. */
  lemma SplitAtPrefix(s: string, sep: string)
    requires sep != "" && sep <= s
    ensures |Split(s, sep)| > 1 && Split(s, sep)[0] == "" && Split(s, sep)[1] == UpToNext(s, sep, |sep|)
  {
    var parts, rest := Split(s, sep), Split(s[|sep|..], sep);
    SplitOff(s, sep);
    assert rest != [] && rest[0] == UpToNext(s[|sep|..], sep, 0) by { FirstPart(s[|sep|..], sep); }
    UpToNextShift(s, sep, |sep|);
  }
}
