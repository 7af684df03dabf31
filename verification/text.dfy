/**
 * Character classes and the string operations the pipeline builds on:
 * the JavaScript `\s`, `trim()`, `slice`, `split`/`join`, and the
 * "collapse every run of a character class into one character" replace
 * that several modules use (`/\s+/g`, `/[^a-z0-9]+/g`, `/-+/g`).
 * Letters, digits and case mapping are ASCII only.
 */
module Text {

  /** The characters JavaScript's `\s` matches and `String.prototype.trim` removes. */
  predicate IsSpace(c: char) {
    c == ' ' || c == '\t' || c == '\n' || c == '\r' || c == '\U{000B}' || c == '\U{000C}'
    || c == '\U{00A0}' || c == '\U{1680}' || ('\U{2000}' <= c <= '\U{200A}')
    || c == '\U{2028}' || c == '\U{2029}' || c == '\U{202F}' || c == '\U{205F}'
    || c == '\U{3000}' || c == '\U{FEFF}'
  }

  predicate IsNewline(c: char) { c == '\r' || c == '\n' }
  predicate IsSlash(c: char) { c == '/' }
  predicate IsDash(c: char) { c == '-' }
  predicate IsDigit(c: char) { '0' <= c <= '9' }
  predicate IsUpperLetter(c: char) { 'A' <= c <= 'Z' }
  predicate IsLowerLetter(c: char) { 'a' <= c <= 'z' }
  predicate IsLetter(c: char) { IsUpperLetter(c) || IsLowerLetter(c) }
  predicate IsAlnum(c: char) { IsLetter(c) || IsDigit(c) }
  predicate IsLowerAlnum(c: char) { IsLowerLetter(c) || IsDigit(c) }
  predicate NotLowerAlnum(c: char) { !IsLowerAlnum(c) }
  /** JavaScript's `\w`. */
  predicate IsWordChar(c: char) { IsAlnum(c) || c == '_' }
  /** `[\w-]`. */
  predicate IsNameChar(c: char) { IsWordChar(c) || c == '-' }
  predicate IsHexDigit(c: char) { IsDigit(c) || 'a' <= c <= 'f' || 'A' <= c <= 'F' }

  function Lower(c: char): char {
    if IsUpperLetter(c) then (c as int + 32) as char else c
  }

  function Upper(c: char): char {
    if IsLowerLetter(c) then (c as int - 32) as char else c
  }

  function LowerStr(s: string): (r: string)
    ensures |r| == |s|
    ensures forall i :: 0 <= i < |s| ==> r[i] == Lower(s[i])
  {
    seq(|s|, i requires 0 <= i < |s| => Lower(s[i]))
  }

  /** Every `c` replaced by `rep`, as `s.replace(/c/g, rep)` does. */
  function ReplaceChar(s: string, c: char, rep: char): (r: string)
    ensures |r| == |s|
  {
    seq(|s|, i requires 0 <= i < |s| => if s[i] == c then rep else s[i])
  }

  function Min(a: int, b: int): int { if a <= b then a else b }
  function Max(a: int, b: int): int { if a >= b then a else b }

  /** `s.slice(0, n)`: the first `n` elements, or all of them. */
  function Prefix<T>(s: seq<T>, n: nat): (r: seq<T>)
    ensures |r| == Min(n, |s|)
    ensures r == s[..|r|]
  {
    if n <= |s| then s[..n] else s
  }

  predicate StartsWith(s: string, p: string) {
    |p| <= |s| && s[..|p|] == p
  }

  predicate EndsWith(s: string, p: string) {
    |p| <= |s| && s[|s| - |p|..] == p
  }

  /** `pat` occurs in `s` at index `k`. */
  predicate Occurs(s: string, pat: string, k: nat) {
    k + |pat| <= |s| && s[k..k + |pat|] == pat
  }

  predicate Contains(s: string, pat: string) {
    exists k: nat | k <= |s| :: Occurs(s, pat, k)
  }

  predicate All(s: string, p: char -> bool) {
    forall i :: 0 <= i < |s| ==> p(s[i])
  }

  /** A class that covers a stretch of text covers every stretch inside it. */
  lemma AllWithin(s: string, p: char -> bool, lo: nat, hi: nat, lo2: nat, hi2: nat)
    requires lo <= lo2 <= hi2 <= hi <= |s| && All(s[lo..hi], p)
    ensures All(s[lo2..hi2], p)
  {
    forall i | 0 <= i < hi2 - lo2 ensures p(s[lo2..hi2][i]) {
      assert s[lo2..hi2][i] == s[lo..hi][lo2 - lo + i];
    }
  }

  predicate NoDup<T(==)>(s: seq<T>) {
    forall i, j :: 0 <= i < j < |s| ==> s[i] != s[j]
  }

  /** `[...new Set(xs)]`: each element once, at its first occurrence. */
  function Distinct(xs: seq<string>): (r: seq<string>)
    ensures NoDup(r) && |r| <= |xs|
    ensures forall x :: x in r <==> x in xs
    decreases |xs|
  {
    if xs == [] then []
    else
      var rest := Distinct(xs[..|xs| - 1]);
      if xs[|xs| - 1] in rest then rest else rest + [xs[|xs| - 1]]
  }

  /** The length of the longest run of class `p` starting at `i`. */
  function RunLen(s: string, i: nat, p: char -> bool): (n: nat)
    requires i <= |s|
    ensures i + n <= |s|
    ensures forall k :: i <= k < i + n ==> p(s[k])
    ensures i + n == |s| || !p(s[i + n])
    decreases |s| - i
  {
    if i < |s| && p(s[i]) then 1 + RunLen(s, i + 1, p) else 0
  }

  /** A run of the class that ends at the text's end or at a character outside it is the whole run. */
  lemma {:induction false} RunLenExact(s: string, i: nat, p: char -> bool, m: nat)
    requires i + m <= |s| && forall k :: i <= k < i + m ==> p(s[k])
    requires i + m == |s| || !p(s[i + m])
    ensures RunLen(s, i, p) == m
    decreases m
  {
    if m > 0 {
      RunLenExact(s, i + 1, p, m - 1);
    }
  }

  /** The characters of `s` outside the class `p`, in order. */
  function Outside(s: string, p: char -> bool): string {
    if s == [] then [] else (if p(s[0]) then [] else [s[0]]) + Outside(s[1..], p)
  }

  lemma {:induction false} OutsideAppend(a: string, b: string, p: char -> bool)
    ensures Outside(a + b, p) == Outside(a, p) + Outside(b, p)
  {
    if a != [] {
      assert (a + b)[1..] == a[1..] + b;
      OutsideAppend(a[1..], b, p);
    } else {
      assert a + b == b;
    }
  }

  lemma {:induction false} OutsideOfClass(s: string, p: char -> bool)
    requires All(s, p)
    ensures Outside(s, p) == []
  {
    if s != [] {
      OutsideOfClass(s[1..], p);
    }
  }

  // ---------------------------------------------------------------------
  // Stripping a character class from the ends (`/^[c]+|[c]+$/g`, `trim()`)
  // ---------------------------------------------------------------------

  function DropLeft(s: string, p: char -> bool): (r: string)
    ensures |r| <= |s| && r == s[|s| - |r|..]
    ensures forall i :: 0 <= i < |s| - |r| ==> p(s[i])
    ensures r == [] || !p(r[0])
    decreases |s|
  {
    if s != [] && p(s[0]) then DropLeft(s[1..], p) else s
  }

  function DropRight(s: string, p: char -> bool): (r: string)
    ensures |r| <= |s| && r == s[..|r|]
    ensures forall i :: |r| <= i < |s| ==> p(s[i])
    ensures r == [] || !p(r[|r| - 1])
    decreases |s|
  {
    if s != [] && p(s[|s| - 1]) then DropRight(s[..|s| - 1], p) else s
  }

  /** Where the text kept by `Strip` starts: after the leading run of class `p`. */
  function StripStart(s: string, p: char -> bool): (lo: nat)
    ensures lo <= |s| && All(s[..lo], p) && (lo == |s| || !p(s[lo]))
  {
    var lo := RunLen(s, 0, p);
    assert All(s[..lo], p) by {
      forall i | 0 <= i < lo ensures p(s[..lo][i]) {
        assert s[..lo][i] == s[i];
      }
    }
    lo
  }

  /**
   * `s.replace(/^[c]+|[c]+$/g, '')`: the leading run and the trailing run of
   * class `p` removed. The result is the slice of `s` starting at
   * `StripStart(s, p)`, and everything cut away belongs to the class.
   */
  function Strip(s: string, p: char -> bool): (r: string)
    ensures r == [] || (!p(r[0]) && !p(r[|r| - 1]))
    ensures StripStart(s, p) + |r| <= |s| && r == s[StripStart(s, p)..StripStart(s, p) + |r|]
  {
    var lo := StripStart(s, p);
    var r := DropRight(s[lo..], p);
    assert r == s[lo..lo + |r|] by {
      assert r == s[lo..][..|r|];
    }
    r
  }

  /** Everything `Strip` cuts away belongs to the class. */
  lemma StripCut(s: string, p: char -> bool)
    ensures var lo := StripStart(s, p);
      All(s[..lo], p) && All(s[lo + |Strip(s, p)|..], p)
  {
    var lo := StripStart(s, p);
    var l := s[lo..];
    var r := Strip(s, p);
    assert r == DropRight(l, p);
    var tail := s[lo + |r|..];
    assert All(tail, p) by {
      forall i | 0 <= i < |tail| ensures p(tail[i]) {
        assert tail[i] == l[|r| + i];
      }
    }
  }

  /** `s.trim()`. */
  function Trim(s: string): (r: string)
    ensures r == [] || (!IsSpace(r[0]) && !IsSpace(r[|r| - 1]))
  {
    Strip(s, IsSpace)
  }

  /** Stripping removes only characters of the class. */
  lemma StripOutside(s: string, p: char -> bool)
    ensures Outside(Strip(s, p), p) == Outside(s, p)
  {
    var r := Strip(s, p);
    var lo := StripStart(s, p);
    var head := s[..lo];
    var tail := s[lo + |r|..];
    StripCut(s, p);
    assert s == (head + r) + tail;
    OutsideAppend(head + r, tail, p);
    OutsideAppend(head, r, p);
    OutsideOfClass(head, p);
    OutsideOfClass(tail, p);
  }

  /** Stripping keeps a string's runs isolated. */
  lemma StripIsolated(s: string, p: char -> bool, rep: char)
    requires Isolated(s, p, rep)
    ensures Isolated(Strip(s, p), p, rep)
  {
    var r := Strip(s, p);
    var lo := StripStart(s, p);
    IsolatedSlice(s, p, rep, lo, lo + |r|);
  }

  lemma StripNoop(s: string, p: char -> bool)
    requires s == [] || (!p(s[0]) && !p(s[|s| - 1]))
    ensures Strip(s, p) == s
  {
    assert StripStart(s, p) == 0;
    assert s[0..] == s;
  }

  // ---------------------------------------------------------------------
  // Collapsing runs (`s.replace(/[c]+/g, rep)`)
  // ---------------------------------------------------------------------

  /** Every character of class `p` in `s` is `rep`, and no two of them are adjacent. */
  predicate Isolated(s: string, p: char -> bool, rep: char) {
    forall i :: 0 <= i < |s| && p(s[i]) ==> s[i] == rep && (i + 1 < |s| ==> !p(s[i + 1]))
  }

  /**
   * Every maximal run of characters of class `p` becomes the single
   * character `rep`; the characters outside the class are kept in order
   * (`ReplaceRunsIsolated`, `ReplaceRunsOutside`).
   */
  function ReplaceRuns(s: string, p: char -> bool, rep: char): (r: string)
    requires p(rep)
    ensures r == [] <==> s == []
    ensures s != [] ==> (p(r[0]) <==> p(s[0]))
    decreases |s|
  {
    if s == [] then []
    else if p(s[0]) then [rep] + ReplaceRuns(DropLeft(s, p), p, rep)
    else [s[0]] + ReplaceRuns(s[1..], p, rep)
  }

  lemma {:induction false} ReplaceRunsIsolated(s: string, p: char -> bool, rep: char)
    requires p(rep)
    ensures Isolated(ReplaceRuns(s, p, rep), p, rep)
    decreases |s|
  {
    if s != [] {
      var t := if p(s[0]) then DropLeft(s, p) else s[1..];
      var rest := ReplaceRuns(t, p, rep);
      ReplaceRunsIsolated(t, p, rep);
      var r := ReplaceRuns(s, p, rep);
      assert r == [r[0]] + rest;
      forall i | 0 <= i < |r| && p(r[i])
        ensures r[i] == rep && (i + 1 < |r| ==> !p(r[i + 1]))
      {
        if i > 0 {
          assert r[i] == rest[i - 1];
          if i + 1 < |r| {
            assert r[i + 1] == rest[i];
          }
        } else if 1 < |r| {
          assert r[1] == rest[0];
        }
      }
    }
  }

  lemma {:induction false} ReplaceRunsOutside(s: string, p: char -> bool, rep: char)
    requires p(rep)
    ensures Outside(ReplaceRuns(s, p, rep), p) == Outside(s, p)
    decreases |s|
  {
    if s != [] {
      var r := ReplaceRuns(s, p, rep);
      var k := if p(s[0]) then |s| - |DropLeft(s, p)| else 1;
      var t := s[k..];
      var rest := ReplaceRuns(t, p, rep);
      assert r == [r[0]] + rest;
      ReplaceRunsOutside(t, p, rep);
      OutsideAppend([r[0]], rest, p);
      OutsideSplitAt(s, k, p);
      if p(s[0]) {
        assert All(s[..k], p);
        OutsideOfClass(s[..k], p);
        assert Outside([r[0]], p) == [];
      } else {
        assert s[..k] == [r[0]];
      }
    }
  }

  /** `Outside` of a string is `Outside` of its two halves at any cut, joined. */
  lemma {:induction false} OutsideSplitAt(s: string, k: nat, p: char -> bool)
    requires k <= |s|
    ensures Outside(s, p) == Outside(s[..k], p) + Outside(s[k..], p)
    decreases k
  {
    if k == 0 {
      assert s[..0] == [] && s[0..] == s;
    } else {
      OutsideSplitAt(s[1..], k - 1, p);
      assert s[..k][1..] == s[1..][..k - 1];
      assert s[1..][k - 1..] == s[k..];
    }
  }

  lemma {:induction false} ReplaceRunsNoop(s: string, p: char -> bool, rep: char)
    requires p(rep)
    requires Isolated(s, p, rep)
    ensures ReplaceRuns(s, p, rep) == s
    decreases |s|
  {
    if s != [] {
      var t := s[1..];
      assert Isolated(t, p, rep) by {
        forall i | 0 <= i < |t| && p(t[i])
          ensures t[i] == rep && (i + 1 < |t| ==> !p(t[i + 1]))
        {
          assert t[i] == s[i + 1];
        }
      }
      ReplaceRunsNoop(t, p, rep);
      var r := ReplaceRuns(s, p, rep);
      if p(s[0]) {
        assert s[0] == rep;
        assert DropLeft(s, p) == t;
        assert r == [rep] + ReplaceRuns(t, p, rep);
      } else {
        assert r == [s[0]] + ReplaceRuns(t, p, rep);
      }
      assert [s[0]] + t == s;
    }
  }

  lemma IsolatedSlice(s: string, p: char -> bool, rep: char, lo: nat, hi: nat)
    requires lo <= hi <= |s|
    requires Isolated(s, p, rep)
    ensures Isolated(s[lo..hi], p, rep)
  {
    forall i | 0 <= i < hi - lo && p(s[lo..hi][i])
      ensures s[lo..hi][i] == rep && (i + 1 < hi - lo ==> !p(s[lo..hi][i + 1]))
    {
      assert s[lo..hi][i] == s[lo + i];
    }
  }

  // ---------------------------------------------------------------------
  // split / join
  // ---------------------------------------------------------------------

  function IndexOf(s: string, c: char): (i: nat)
    requires c in s
    ensures i < |s| && s[i] == c && c !in s[..i]
  {
    if s[0] == c then 0 else 1 + IndexOf(s[1..], c)
  }

  /** `parts.join(sep)`. */
  function Join(parts: seq<string>, sep: string): string {
    if |parts| == 0 then []
    else if |parts| == 1 then parts[0]
    else parts[0] + sep + Join(parts[1..], sep)
  }

  /**
   * `s.split(d)` for a one-character separator: the pieces between the
   * separators, none of which holds `d`.
   */
  function Split(s: string, d: char): (r: seq<string>)
    ensures |r| >= 1
    ensures forall i :: 0 <= i < |r| ==> d !in r[i]
    decreases |s|
  {
    if d !in s then [s]
    else
      var i := IndexOf(s, d);
      [s[..i]] + Split(s[i + 1..], d)
  }

  /** Joining the pieces back with the separator gives the string again. */
  lemma {:induction false} SplitJoin(s: string, d: char)
    ensures Join(Split(s, d), [d]) == s
    decreases |s|
  {
    if d in s {
      var i := IndexOf(s, d);
      var t := s[i + 1..];
      var rest := Split(t, d);
      SplitJoin(t, d);
      var parts := Split(s, d);
      assert parts == [s[..i]] + rest;
      assert parts[1..] == rest;
      assert s == s[..i] + [d] + t;
    }
  }

  /** `s.split(d).pop()`: the text after the last `d`, or all of `s`. */
  function AfterLast(s: string, d: char): (r: string)
    ensures d !in r
    ensures EndsWith(s, r)
    ensures |r| < |s| ==> s[|s| - |r| - 1] == d
    decreases |s|
  {
    if s == [] || s[|s| - 1] == d then []
    else
      var init := s[..|s| - 1];
      var r := AfterLast(init, d) + [s[|s| - 1]];
      assert s == init + [s[|s| - 1]];
      r
  }

  /** `r` ends `s`, holds no `d`, and is the whole of `s` or follows a `d`. */
  predicate IsLastPiece(s: string, d: char, r: string) {
    EndsWith(s, r) && d !in r && (|r| < |s| ==> s[|s| - |r| - 1] == d)
  }

  /** No position of a separator-free ending of `s` holds the separator. */
  lemma TailFree(s: string, d: char, r: string)
    requires EndsWith(s, r) && d !in r
    ensures forall j :: |s| - |r| <= j < |s| ==> s[j] != d
  {
    forall j | |s| - |r| <= j < |s| ensures s[j] != d {
      assert s[j] == r[j - (|s| - |r|)];
    }
  }

  /** At most one ending of `s` is its last piece. */
  lemma LastPieceUnique(s: string, d: char, r1: string, r2: string)
    requires IsLastPiece(s, d, r1) && IsLastPiece(s, d, r2)
    ensures r1 == r2
  {
    TailFree(s, d, r1);
    TailFree(s, d, r2);
    assert |r1| == |r2|;
  }

  /** With no separator in it, the whole string is the last piece. */
  lemma AfterLastWhole(s: string, d: char)
    requires d !in s
    ensures AfterLast(s, d) == s
  {
    assert s[|s| - |s|..] == s;
    LastPieceUnique(s, d, AfterLast(s, d), s);
  }

  /** The last piece of the text after a separator is the last piece of the whole. */
  lemma LastPieceAfter(s: string, d: char, i: nat, r: string)
    requires i < |s| && s[i] == d && IsLastPiece(s[i + 1..], d, r)
    ensures IsLastPiece(s, d, r)
  {
    var t := s[i + 1..];
    assert s[|s| - |r|..] == t[|t| - |r|..];
    if |r| < |t| {
      assert s[|s| - |r| - 1] == t[|t| - |r| - 1];
    }
  }

  /** Whatever precedes a separator does not matter to the last piece. */
  lemma AfterLastPastSeparator(s: string, d: char, i: nat)
    requires i < |s| && s[i] == d
    ensures AfterLast(s, d) == AfterLast(s[i + 1..], d)
  {
    LastPieceAfter(s, d, i, AfterLast(s[i + 1..], d));
    LastPieceUnique(s, d, AfterLast(s, d), AfterLast(s[i + 1..], d));
  }

  /** The last piece of the split is the text after the last separator. */
  lemma {:induction false} SplitLastPiece(s: string, d: char)
    ensures var parts := Split(s, d); IsLastPiece(s, d, parts[|parts| - 1])
    decreases |s|
  {
    var parts := Split(s, d);
    if d !in s {
      assert parts == [s];
      assert s[|s| - |s|..] == s;
    } else {
      var i := IndexOf(s, d);
      var rest := Split(s[i + 1..], d);
      assert parts == [s[..i]] + rest;
      assert parts[|parts| - 1] == rest[|rest| - 1];
      SplitLastPiece(s[i + 1..], d);
      LastPieceAfter(s, d, i, rest[|rest| - 1]);
    }
  }

  /** `AfterLast` is the last piece of the split. */
  lemma AfterLastIsLastPiece(s: string, d: char)
    ensures var parts := Split(s, d); AfterLast(s, d) == parts[|parts| - 1]
  {
    var parts := Split(s, d);
    SplitLastPiece(s, d);
    LastPieceUnique(s, d, AfterLast(s, d), parts[|parts| - 1]);
  }

  /** `parts.filter(Boolean)` on strings: the non-empty ones, in order. */
  function NonEmpty(parts: seq<string>): (r: seq<string>)
    ensures |r| <= |parts|
    ensures forall i :: 0 <= i < |r| ==> r[i] != [] && r[i] in parts
  {
    if parts == [] then []
    else (if parts[0] == [] then [] else [parts[0]]) + NonEmpty(parts[1..])
  }

  // ---------------------------------------------------------------------
  // Slugs (`.toLowerCase().replace(/[^a-z0-9]+/g, '-').replace(/^-|-$/g, '')`)
  // ---------------------------------------------------------------------

  /** Lower-case letters, digits and single dashes, with no dash at either end. */
  predicate IsSlug(s: string) {
    && (forall i :: 0 <= i < |s| ==> IsLowerAlnum(s[i]) || s[i] == '-')
    && (|s| > 0 ==> s[0] != '-' && s[|s| - 1] != '-')
    && (forall i :: 0 <= i < |s| - 1 ==> !(s[i] == '-' && s[i + 1] == '-'))
  }

  /** `.replace(/^-|-$/g, '')`: one dash removed from each end. */
  function StripOneDash(s: string): string {
    var t := if |s| > 0 && s[0] == '-' then s[1..] else s;
    if |t| > 0 && t[|t| - 1] == '-' then t[..|t| - 1] else t
  }

  /**
   * The slug of a name: it is a slug, and it keeps exactly the lower-cased
   * letters and digits of the name, in order.
   */
  function Slug(s: string): (r: string)
    ensures IsSlug(r)
    ensures Outside(r, NotLowerAlnum) == Outside(LowerStr(s), NotLowerAlnum)
  {
    var runs := ReplaceRuns(LowerStr(s), NotLowerAlnum, '-');
    ReplaceRunsIsolated(LowerStr(s), NotLowerAlnum, '-');
    ReplaceRunsOutside(LowerStr(s), NotLowerAlnum, '-');
    StripOneDashSlug(runs);
    StripOneDash(runs)
  }

  lemma StripOneDashSlug(runs: string)
    requires Isolated(runs, NotLowerAlnum, '-')
    ensures IsSlug(StripOneDash(runs))
    ensures Outside(StripOneDash(runs), NotLowerAlnum) == Outside(runs, NotLowerAlnum)
  {
    var r := StripOneDash(runs);
    var lo := StripOneDashSlice(runs);
    IsolatedSlice(runs, NotLowerAlnum, '-', lo, lo + |r|);
    StripOneDashEnds(runs);
    IsolatedSlug(r);
    OutsideStripOneDash(runs);
  }

  /** What `StripOneDash` keeps is a slice of its input. */
  lemma StripOneDashSlice(runs: string) returns (lo: nat)
    ensures lo + |StripOneDash(runs)| <= |runs|
    ensures StripOneDash(runs) == runs[lo..lo + |StripOneDash(runs)|]
  {
    lo := if |runs| > 0 && runs[0] == '-' then 1 else 0;
    var t := runs[lo..];
    var r := StripOneDash(runs);
    assert r == t[..|r|];
  }

  /** After an isolated dash is cut from each end, no dash is left at either end. */
  lemma StripOneDashEnds(runs: string)
    requires Isolated(runs, NotLowerAlnum, '-')
    ensures var r := StripOneDash(runs); r == [] || (r[0] != '-' && r[|r| - 1] != '-')
  {
    var lead := |runs| > 0 && runs[0] == '-';
    var t := if lead then runs[1..] else runs;
    var r := StripOneDash(runs);
    if |r| > 0 {
      if lead {
        assert NotLowerAlnum(runs[0]);
        assert r[0] == runs[1];
      } else {
        assert r[0] == runs[0];
      }
      if |t| > 0 && t[|t| - 1] == '-' {
        var k := |runs| - 1;
        assert runs[k] == '-' && NotLowerAlnum(runs[k]);
        assert r[|r| - 1] == runs[k - 1];
      } else {
        assert r[|r| - 1] == t[|t| - 1];
      }
    }
  }

  /** Isolated dashes with none at either end make a slug. */
  lemma IsolatedSlug(r: string)
    requires Isolated(r, NotLowerAlnum, '-')
    requires r == [] || (r[0] != '-' && r[|r| - 1] != '-')
    ensures IsSlug(r)
  {
    forall i | 0 <= i < |r| ensures IsLowerAlnum(r[i]) || r[i] == '-' {
      if NotLowerAlnum(r[i]) {
        assert r[i] == '-';
      }
    }
  }

  lemma OutsideStripOneDash(runs: string)
    ensures Outside(StripOneDash(runs), NotLowerAlnum) == Outside(runs, NotLowerAlnum)
  {
    var t := if |runs| > 0 && runs[0] == '-' then runs[1..] else runs;
    var r := StripOneDash(runs);
    if |runs| > 0 && runs[0] == '-' {
      assert runs == [runs[0]] + t;
      OutsideAppend([runs[0]], t, NotLowerAlnum);
    }
    if |t| > 0 && t[|t| - 1] == '-' {
      assert t == r + [t[|t| - 1]];
      OutsideAppend(r, [t[|t| - 1]], NotLowerAlnum);
    }
  }

  lemma SlugOfSlug(s: string)
    requires IsSlug(s)
    ensures Slug(s) == s
  {
    assert LowerStr(s) == s;
    assert Isolated(s, NotLowerAlnum, '-');
    ReplaceRunsNoop(s, NotLowerAlnum, '-');
  }

  /** The slug operation is idempotent. */
  lemma SlugIdempotent(s: string)
    ensures Slug(Slug(s)) == Slug(s)
  {
    SlugOfSlug(Slug(s));
  }

  // ---------------------------------------------------------------------
  // Decimal numerals (`String(n)` for integers)
  // ---------------------------------------------------------------------

  function DigitChar(d: nat): char
    requires d < 10
  {
    ('0' as int + d) as char
  }

  function NatToString(n: nat): (r: string)
    ensures |r| >= 1 && All(r, IsDigit)
  {
    if n < 10 then [DigitChar(n)] else NatToString(n / 10) + [DigitChar(n % 10)]
  }

  function IntToString(i: int): string {
    if i < 0 then "-" + NatToString(-i) else NatToString(i)
  }

  /** The value of a string of decimal digits. */
  function DigitsValue(s: string): nat
    requires All(s, IsDigit)
  {
    if s == [] then 0 else DigitsValue(s[..|s| - 1]) * 10 + (s[|s| - 1] as int - '0' as int)
  }

  /** Reading the numeral back gives the number. */
  lemma {:induction false} NatToStringRoundTrip(n: nat)
    ensures DigitsValue(NatToString(n)) == n
  {
    if n >= 10 {
      NatToStringRoundTrip(n / 10);
      var s := NatToString(n);
      assert s[..|s| - 1] == NatToString(n / 10);
    }
  }
}
