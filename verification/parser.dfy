/**
 * The model-output parser (`parseFiles`, src/lib/claude.ts): a tagged-block
 * pass over `<file name="…">…</file>` and, when that yields nothing, a
 * fallback over fenced code blocks whose preceding text ends in a file name.
 *
 * Each regular expression is modelled by the match its backtracking engine
 * returns: a scan that tries every start position from left to right and,
 * at each position, the alternatives in the engine's priority order.
 */
module OutputParser {
  import opened Wrappers
  import opened Text

  /** One named artifact of generated text. */
  datatype GenFile = GenFile(name: string, content: string)

  const OpenTag: string := "<file name=\""
  const CloseTag: string := "</file>"
  const Fence: string := "```"
  /** How far back from a fence the fallback looks for a file name. */
  const LookBehind: nat := 120

  /** The first index at or after `from` where `pat` occurs. */
  function FindFrom(s: string, pat: string, from: nat): (r: Option<nat>)
    requires |pat| > 0
    ensures r.Some? ==> from <= r.value && Occurs(s, pat, r.value)
    ensures r.Some? ==> forall k :: from <= k < r.value ==> !Occurs(s, pat, k)
    ensures r.None? ==> forall k :: from <= k ==> !Occurs(s, pat, k)
    decreases |s| - from
  {
    if from + |pat| > |s| then None
    else if Occurs(s, pat, from) then Some(from)
    else FindFrom(s, pat, from + 1)
  }

  /** If `pat` occurs at `q`, nowhere in `[from, q)`, the search finds `q`. */
  lemma FindFromIs(s: string, pat: string, from: nat, q: nat)
    requires |pat| > 0 && from <= q && Occurs(s, pat, q)
    requires forall k :: from <= k < q ==> !Occurs(s, pat, k)
    ensures FindFrom(s, pat, from) == Some(q)
  {
  }

  // ---------------------------------------------------------------------
  // Tagged pass: /<file name="([^"]+)">([\s\S]*?)<\/file>/g
  // ---------------------------------------------------------------------

  /** One match of the tag grammar: where it starts, its two captures, and where it ends. */
  datatype TagMatch = TagMatch(start: nat, name: string, body: string, end: nat)

  /** A window of `s` that equals `u` agrees with `u` on every sub-window. */
  lemma SliceWithin(s: string, i: nat, u: string, x: nat, y: nat)
    requires i + |u| <= |s| && s[i..i + |u|] == u && x <= y <= |u|
    ensures s[i + x..i + y] == u[x..y]
  {
    forall j | 0 <= j < y - x ensures s[i + x..i + y][j] == u[x..y][j] {
      assert s[i + x + j] == s[i..i + |u|][x + j];
    }
  }

  /** A pattern occurs in a window exactly where it occurs at the same place in the text. */
  lemma OccursWithin(s: string, i: nat, u: string, pat: string, o: nat)
    requires i + |u| <= |s| && s[i..i + |u|] == u && o + |pat| <= |u|
    ensures Occurs(u, pat, o) <==> Occurs(s, pat, i + o)
  {
    SliceWithin(s, i, u, o, o + |pat|);
  }

  /** Where no quote starts, the text holds no quote. */
  lemma NoQuoteBetween(text: string, a: nat, q: nat)
    requires a <= q <= |text|
    requires forall k :: a <= k < q ==> !Occurs(text, "\"", k)
    ensures '"' !in text[a..q]
  {
    var name := text[a..q];
    forall j | 0 <= j < |name| ensures name[j] != '"' {
      assert !Occurs(text, "\"", a + j);
      assert text[a + j..a + j + 1] == [name[j]];
    }
  }

  /** Where no `</file>` starts, the text between holds none. */
  lemma NoCloseBetween(text: string, a: nat, k: nat)
    requires a <= k <= |text|
    requires forall p :: a <= p < k ==> !Occurs(text, CloseTag, p)
    ensures !Contains(text[a..k], CloseTag)
  {
    var body := text[a..k];
    forall p: nat | p <= |body| ensures !Occurs(body, CloseTag, p) {
      if p + |CloseTag| <= |body| {
        OccursWithin(text, a, body, CloseTag, p);
      }
    }
  }

  /**
   * The match of the tag grammar starting exactly at `i`. `[^"]+` stops at
   * the first quote, which must be followed by `>`; the lazy body stops at
   * the first `</file>` after it.
   */
  function TagAt(text: string, i: nat): (r: Option<TagMatch>)
    ensures r.Some? ==> r.value.start == i && i < r.value.end <= |text|
    ensures r.Some? ==> r.value.name != [] && '"' !in r.value.name
    ensures r.Some? ==> !Contains(r.value.body, CloseTag)
  {
    if !Occurs(text, OpenTag, i) then None
    else match FindFrom(text, "\"", i + |OpenTag|)
      case None => None
      case Some(q) =>
        if q == i + |OpenTag| || !Occurs(text, "\">", q) then None
        else match FindFrom(text, CloseTag, q + 2)
          case None => None
          case Some(k) =>
            var name := text[i + |OpenTag|..q];
            var body := text[q + 2..k];
            NoQuoteBetween(text, i + |OpenTag|, q);
            NoCloseBetween(text, q + 2, k);
            Some(TagMatch(i, name, body, k + |CloseTag|))
  }

  /** Matches do not overlap and come in the order of the text. */
  predicate InTextOrder(ms: seq<TagMatch>) {
    forall j :: 0 <= j < |ms| - 1 ==> ms[j].end <= ms[j + 1].start
  }

  /**
   * The global `exec` loop from `i`: every match of the tag grammar, leftmost
   * first, resuming after the end of the previous match.
   */
  function Scan(text: string, i: nat): (r: seq<TagMatch>)
    ensures forall j :: 0 <= j < |r| ==> i <= r[j].start
    ensures InTextOrder(r)
    decreases |text| - i
  {
    if i >= |text| then []
    else
      var t := TagAt(text, i);
      if t.Some? then
        var m := t.value;
        var rest := Scan(text, m.end);
        var r := [m] + rest;
        assert r[0] == m;
        assert forall j :: 1 <= j < |r| ==> r[j] == rest[j - 1];
        r
      else Scan(text, i + 1)
  }

  /** Every element the scan returns is the match of the tag grammar at its own start. */
  lemma {:induction false} ScanGenuine(text: string, i: nat)
    ensures forall m | m in Scan(text, i) :: TagAt(text, m.start) == Some(m)
    decreases |text| - i
  {
    if i < |text| {
      var t := TagAt(text, i);
      if t.Some? {
        ScanGenuine(text, t.value.end);
      } else {
        ScanGenuine(text, i + 1);
      }
    }
  }

  /** `.replace(/^[\r\n]+|[\r\n]+$/g, '')`. */
  function StripNewlines(s: string): string {
    Strip(s, IsNewline)
  }

  /** What the tagged pass keeps of one match: a trimmed name and a non-empty content. */
  predicate TaggedShape(f: GenFile) {
    && (f.name == [] || (!IsSpace(f.name[0]) && !IsSpace(f.name[|f.name| - 1])))
    && '"' !in f.name
    && f.content != []
    && !IsNewline(f.content[0]) && !IsNewline(f.content[|f.content| - 1])
  }

  /** What one match contributes: nothing when its content strips to empty. */
  function TaggedFile(m: TagMatch): Option<GenFile> {
    var content := StripNewlines(m.body);
    if content != [] then Some(GenFile(Trim(m.name), content)) else None
  }

  /** Matches whose content is empty once stripped are dropped; the others become artifacts, in order. */
  function TaggedFiles(ms: seq<TagMatch>): (r: seq<GenFile>)
    ensures |r| <= |ms|
  {
    if ms == [] then []
    else
      var head := match TaggedFile(ms[0]) case Some(f) => [f] case None => [];
      head + TaggedFiles(ms[1..])
  }

  /** Trimming keeps out whatever character the untrimmed text lacked. */
  lemma TrimKeepsAbsent(s: string, c: char)
    requires c !in s
    ensures c !in Trim(s)
  {
    var t := Trim(s);
    var lo := StripStart(s, IsSpace);
    forall j | 0 <= j < |t| ensures t[j] != c {
      assert t[j] == s[lo + j];
    }
  }

  /** Every artifact of the tagged pass has a trimmed, quote-free name and a non-empty content without newlines at its ends. */
  lemma {:induction false} TaggedFilesShape(ms: seq<TagMatch>)
    requires forall m | m in ms :: '"' !in m.name
    ensures forall f | f in TaggedFiles(ms) :: TaggedShape(f)
  {
    if ms != [] {
      var rest := TaggedFiles(ms[1..]);
      TaggedFilesShape(ms[1..]);
      match TaggedFile(ms[0])
      case None =>
        assert TaggedFiles(ms) == rest;
      case Some(g) =>
        TrimKeepsAbsent(ms[0].name, '"');
        assert TaggedShape(g);
        assert TaggedFiles(ms) == [g] + rest;
    }
  }

  function TaggedPass(text: string): seq<GenFile> {
    TaggedFiles(Scan(text, 0))
  }

  lemma TaggedPassShape(text: string)
    ensures forall f | f in TaggedPass(text) :: TaggedShape(f)
  {
    ScanGenuine(text, 0);
    TaggedFilesShape(Scan(text, 0));
  }

  // ---------------------------------------------------------------------
  // Fallback pass: /```[\w-]*\n([\s\S]*?)```/g, then a file name before it
  // ---------------------------------------------------------------------

  datatype FenceMatch = FenceMatch(start: nat, body: string, end: nat)

  predicate IsWordOrDash(c: char) { IsWordChar(c) || c == '-' }

  /** The end of the run of characters of class `p` that starts at `j`. */
  function RunEnd(s: string, j: nat, p: char -> bool): (e: nat)
    requires j <= |s|
    ensures j <= e <= |s| && All(s[j..e], p) && (e == |s| || !p(s[e]))
    decreases |s| - j
  {
    if j < |s| && p(s[j]) then
      var e := RunEnd(s, j + 1, p);
      assert s[j..e] == [s[j]] + s[j + 1..e];
      e
    else j
  }

  /** The fence match starting at `i`: an info string of `[\w-]`, a newline, a lazy body, a closing fence. */
  function FenceAt(text: string, i: nat): (r: Option<FenceMatch>)
    ensures r.Some? ==> r.value.start == i && i < r.value.end <= |text|
  {
    if !Occurs(text, Fence, i) then None
    else
      var q := RunEnd(text, i + |Fence|, IsWordOrDash);
      if q >= |text| || text[q] != '\n' then None
      else match FindFrom(text, Fence, q + 1)
        case None => None
        case Some(k) => Some(FenceMatch(i, text[q + 1..k], k + |Fence|))
  }

  function FenceScan(text: string, i: nat): (r: seq<FenceMatch>)
    ensures forall j :: 0 <= j < |r| ==> i <= r[j].start < r[j].end <= |text|
    ensures forall j :: 0 <= j < |r| - 1 ==> r[j].end <= r[j + 1].start
    decreases |text| - i
  {
    if i >= |text| then []
    else match FenceAt(text, i)
      case Some(m) => [m] + FenceScan(text, m.end)
      case None => FenceScan(text, i + 1)
  }

  /** `[a-z0-9._/-]` under the `i` flag. */
  predicate IsNameChar(c: char) { IsAlnum(c) || c == '.' || c == '_' || c == '/' || c == '-' }
  /** `[`*_]`. */
  predicate IsWrap(c: char) { c == '`' || c == '*' || c == '_' }
  /** `[:–-]`. */
  predicate IsSep(c: char) { c == ':' || c == '\U{2013}' || c == '-' }

  /** `t` is matched in full by `\s*[:–-]?\s*`. */
  predicate SepTail(t: string)
    decreases |t|
  {
    || t == []
    || (IsSpace(t[0]) && SepTail(t[1..]))
    || (IsSep(t[0]) && Spaces(t[1..]))
  }

  /** `t` is matched in full by `\s*`. */
  predicate Spaces(t: string) {
    forall i | 0 <= i < |t| :: IsSpace(t[i])
  }

  /** `t` is matched in full by `[`*_]?\s*[:–-]?\s*` (the text after the name up to `$`). */
  predicate NameTail(t: string) {
    SepTail(t) || (|t| > 0 && IsWrap(t[0]) && SepTail(t[1..]))
  }

  /** Where a file name was found: its first character, its dot, and its end. */
  datatype Span = Span(start: nat, dot: nat, end: nat)

  /**
   * `b[start..end]` is a `name.ext` token: name characters, a dot, then two
   * to five letters; and the rest of `b` after it is an allowed tail.
   */
  predicate IsNameSpan(b: string, sp: Span) {
    && sp.start < sp.dot < sp.end <= |b|
    && 3 <= sp.end - sp.dot <= 6
    && All(b[sp.start..sp.dot], IsNameChar)
    && b[sp.dot] == '.'
    && All(b[sp.dot + 1..sp.end], IsLetter)
    && NameTail(b[sp.end..])
  }

  /** `[a-z]{2,5}` after the dot at `x`, greedy: `k` letters first, then fewer. */
  function TryExt(b: string, c: nat, x: nat, k: nat): (r: Option<Span>)
    requires c < x < |b| && b[x] == '.' && All(b[c..x], IsNameChar)
    requires k <= 5 && x + 1 + k <= |b| && All(b[x + 1..x + 1 + k], IsLetter)
    ensures r.Some? ==> IsNameSpan(b, r.value) && r.value.start == c && r.value.dot == x
    decreases k
  {
    if k < 2 then None
    else if NameTail(b[x + 1 + k..]) then Some(Span(c, x, x + 1 + k))
    else
      AllWithin(b, IsLetter, x + 1, x + 1 + k, x + 1, x + k);
      TryExt(b, c, x, k - 1)
  }

  /** `[a-z0-9._/-]+` from `c`, backtracking: the dot is tried at `x`, then further left. */
  function TryDot(b: string, c: nat, x: nat): (r: Option<Span>)
    requires c <= x <= |b| && All(b[c..x], IsNameChar)
    ensures r.Some? ==> IsNameSpan(b, r.value) && r.value.start == c
    decreases x
  {
    if x <= c then None
    else
      var found :=
        if x < |b| && b[x] == '.' then
          var e := RunEnd(b, x + 1, IsLetter);
          var k := Min(5, e - (x + 1));
          AllWithin(b, IsLetter, x + 1, e, x + 1, x + 1 + k);
          TryExt(b, c, x, k)
        else None;
      if found.Some? then found
      else
        AllWithin(b, IsNameChar, c, x, c, x - 1);
        TryDot(b, c, x - 1)
  }

  /** The name capture when it starts at `c`. */
  function NameFrom(b: string, c: nat): (r: Option<Span>)
    ensures r.Some? ==> IsNameSpan(b, r.value) && r.value.start == c
  {
    if c >= |b| then None else TryDot(b, c, RunEnd(b, c, IsNameChar))
  }

  /** The match starting at `s`: with the optional wrapper character consumed first, then without. */
  function NameAt(b: string, s: nat): (r: Option<Span>)
    requires s < |b|
    ensures r.Some? ==> IsNameSpan(b, r.value)
    ensures r.Some? ==> r.value.start == s || (r.value.start == s + 1 && IsWrap(b[s]))
  {
    if IsWrap(b[s]) && NameFrom(b, s + 1).Some? then NameFrom(b, s + 1) else NameFrom(b, s)
  }

  /** The leftmost match at or after `s`. */
  function NameSearch(b: string, s: nat): (r: Option<Span>)
    ensures r.Some? ==> IsNameSpan(b, r.value) && s <= r.value.start
    decreases |b| - s
  {
    if s >= |b| then None
    else match NameAt(b, s)
      case Some(sp) => Some(sp)
      case None => NameSearch(b, s + 1)
  }

  /**
   * `before.match(/[`*_]?([a-z0-9._/-]+\.[a-z]{2,5})[`*_]?\s*[:–-]?\s*$/i)`:
   * the captured file name, if any.
   */
  function NameBefore(b: string): Option<string> {
    match NameSearch(b, 0)
    case Some(sp) => Some(b[sp.start..sp.end])
    case None => None
  }

  /** A run of class `p` from `j` reaches at least as far as any stretch of `p` from `j`. */
  lemma {:induction false} RunEndCovers(s: string, j: nat, m: nat, p: char -> bool)
    requires j <= m <= |s| && All(s[j..m], p)
    ensures RunEnd(s, j, p) >= m
    decreases |s| - j
  {
    if j < m {
      assert s[j] == s[j..m][0];
      assert s[j + 1..m] == s[j..m][1..];
      RunEndCovers(s, j + 1, m, p);
    }
  }

  /** The greedy extension search finds an extension of length `j` that has an allowed tail. */
  lemma {:induction false} TryExtComplete(b: string, c: nat, x: nat, k: nat, j: nat)
    requires c < x < |b| && b[x] == '.' && All(b[c..x], IsNameChar)
    requires k <= 5 && x + 1 + k <= |b| && All(b[x + 1..x + 1 + k], IsLetter)
    requires 2 <= j <= k && NameTail(b[x + 1 + j..])
    ensures TryExt(b, c, x, k).Some?
    decreases k
  {
    if !NameTail(b[x + 1 + k..]) {
      AllWithin(b, IsLetter, x + 1, x + 1 + k, x + 1, x + k);
      TryExtComplete(b, c, x, k - 1, j);
    }
  }

  /** The backtracking dot search finds a dot at `d` followed by `j` letters and an allowed tail. */
  lemma {:induction false} TryDotComplete(b: string, c: nat, x: nat, d: nat, j: nat)
    requires c <= x <= |b| && All(b[c..x], IsNameChar)
    requires c < d <= x && d < |b| && b[d] == '.'
    requires 2 <= j <= 5 && d + 1 + j <= |b| && All(b[d + 1..d + 1 + j], IsLetter)
    requires NameTail(b[d + 1 + j..])
    ensures TryDot(b, c, x).Some?
    decreases x
  {
    if d == x {
      TryDotHere(b, c, x, j);
    } else {
      AllWithin(b, IsNameChar, c, x, c, x - 1);
      TryDotComplete(b, c, x - 1, d, j);
      TryDotBack(b, c, x);
    }
  }

  /** A dot at the current end with `j` letters and an allowed tail is taken. */
  lemma TryDotHere(b: string, c: nat, x: nat, j: nat)
    requires c < x < |b| && All(b[c..x], IsNameChar) && b[x] == '.'
    requires 2 <= j <= 5 && x + 1 + j <= |b| && All(b[x + 1..x + 1 + j], IsLetter)
    requires NameTail(b[x + 1 + j..])
    ensures TryDot(b, c, x).Some?
  {
    var e := RunEnd(b, x + 1, IsLetter);
    RunEndCovers(b, x + 1, x + 1 + j, IsLetter);
    var k := Min(5, e - (x + 1));
    AllWithin(b, IsLetter, x + 1, e, x + 1, x + 1 + k);
    TryExtComplete(b, c, x, k, j);
  }

  /** When backtracking one character succeeds, the search succeeds. */
  lemma TryDotBack(b: string, c: nat, x: nat)
    requires c < x <= |b| && All(b[c..x], IsNameChar) && All(b[c..x - 1], IsNameChar)
    requires TryDot(b, c, x - 1).Some?
    ensures TryDot(b, c, x).Some?
  {
  }

  lemma NameFromComplete(b: string, sp: Span)
    requires IsNameSpan(b, sp)
    ensures NameFrom(b, sp.start).Some?
  {
    var c := sp.start;
    var w := b[c..sp.dot + 1];
    assert All(w, IsNameChar) by {
      forall i | 0 <= i < |w| ensures IsNameChar(w[i]) {
        if i < sp.dot - c {
          assert w[i] == b[c..sp.dot][i];
        }
      }
    }
    var m := RunEnd(b, c, IsNameChar);
    RunEndCovers(b, c, sp.dot + 1, IsNameChar);
    TryDotComplete(b, c, m, sp.dot, sp.end - sp.dot - 1);
  }

  lemma {:induction false} NameSearchComplete(b: string, s: nat, sp: Span)
    requires IsNameSpan(b, sp) && s <= sp.start
    ensures NameSearch(b, s).Some?
    decreases |b| - s
  {
    if NameAt(b, s).None? {
      if s == sp.start {
        NameFromComplete(b, sp);
      }
      NameSearchComplete(b, s + 1, sp);
    }
  }

  /**
   * The file-name pattern finds a name in `b` exactly when some `name.ext`
   * token in `b` is followed only by an allowed tail.
   */
  lemma NameBeforeFinds(b: string)
    ensures NameBefore(b).Some? <==> exists sp :: IsNameSpan(b, sp)
  {
    if sp :| IsNameSpan(b, sp) {
      NameSearchComplete(b, 0, sp);
    }
  }

  /** A tail whose next-to-last character is a backtick is not `\s*[:–-]?\s*`. */
  lemma {:induction false} SepTailRejectsBacktick(u: string)
    requires |u| >= 2 && u[|u| - 2] == '`'
    ensures !SepTail(u)
    decreases |u|
  {
    if |u| >= 3 {
      assert u[1..][|u| - 3] == '`';
      SepTailRejectsBacktick(u[1..]);
    }
  }

  /** No name span ends where the text ends in a colon inside backticks. */
  lemma NoSpanBeforeColonBacktick(b: string, sp: Span)
    requires EndsWith(b, ":`\n")
    ensures !IsNameSpan(b, sp)
  {
    if IsNameSpan(b, sp) {
      var t := b[sp.end..];
      assert b[sp.end - 1] == b[sp.dot + 1..sp.end][sp.end - sp.dot - 2];
      assert IsLetter(b[sp.end - 1]);
      assert b[|b| - 3..] == ":`\n";
      assert b[|b| - 3] == ':' && b[|b| - 2] == '`' && b[|b| - 1] == '\n';
      assert |t| >= 3;
      assert t[|t| - 2] == '`';
      SepTailRejectsBacktick(t);
      assert t[1..][|t| - 3] == '`';
      SepTailRejectsBacktick(t[1..]);
    }
  }

  /**
   * A file name whose separator colon sits inside the backticks is not
   * recognised: the closing backtick cannot follow the separator.
   */
  lemma ColonInsideBackticks(b: string)
    requires EndsWith(b, ":`\n")
    ensures NameBefore(b) == None
  {
    forall sp ensures !IsNameSpan(b, sp) {
      NoSpanBeforeColonBacktick(b, sp);
    }
    NameBeforeFinds(b);
  }

  /** A `name.ext` token: name characters, a dot, and two to five letters. */
  predicate IsFileName(n: string) {
    exists d :: 0 < d < |n| && n[d] == '.' && 3 <= |n| - d <= 6
      && All(n[..d], IsNameChar) && All(n[d + 1..], IsLetter)
  }

  /** What a name span captures is a file-name token. */
  lemma SpanIsFileName(b: string, sp: Span)
    requires IsNameSpan(b, sp)
    ensures IsFileName(b[sp.start..sp.end])
  {
    var n := b[sp.start..sp.end];
    var d := sp.dot - sp.start;
    assert n[..d] == b[sp.start..sp.dot];
    assert n[d + 1..] == b[sp.dot + 1..sp.end];
    assert n[d] == '.';
  }

  /** The fallback artifacts of the given fences, in order. */
  function FallbackFiles(text: string, fences: seq<FenceMatch>): (r: seq<GenFile>)
    requires forall j :: 0 <= j < |fences| ==> fences[j].start <= |text|
    ensures |r| <= |fences|
  {
    if fences == [] then []
    else
      var f := fences[0];
      var before := text[Max(0, f.start - LookBehind)..f.start];
      (match NameBefore(before)
       case Some(n) => [GenFile(n, Trim(f.body))]
       case None => []) + FallbackFiles(text, fences[1..])
  }

  /** Every fallback artifact is named by a file-name token and has trimmed content. */
  lemma {:induction false} FallbackFilesShape(text: string, fences: seq<FenceMatch>)
    requires forall j :: 0 <= j < |fences| ==> fences[j].start <= |text|
    ensures forall g | g in FallbackFiles(text, fences) ::
      IsFileName(g.name) && (g.content == [] || (!IsSpace(g.content[0]) && !IsSpace(g.content[|g.content| - 1])))
  {
    if fences != [] {
      var f := fences[0];
      var before := text[Max(0, f.start - LookBehind)..f.start];
      var rest := FallbackFiles(text, fences[1..]);
      FallbackFilesShape(text, fences[1..]);
      match NameSearch(before, 0)
      case None =>
        assert FallbackFiles(text, fences) == rest;
      case Some(sp) =>
        SpanIsFileName(before, sp);
        assert FallbackFiles(text, fences) == [GenFile(before[sp.start..sp.end], Trim(f.body))] + rest;
    }
  }

  function FallbackPass(text: string): seq<GenFile> {
    FallbackFiles(text, FenceScan(text, 0))
  }

  /** The tagged pass keeps nothing exactly when every match's content is blank once its newlines are stripped. */
  lemma {:induction false} TaggedFilesEmpty(ms: seq<TagMatch>)
    ensures TaggedFiles(ms) == [] <==> forall m | m in ms :: StripNewlines(m.body) == []
  {
    if ms != [] {
      TaggedFilesEmpty(ms[1..]);
      assert forall m | m in ms :: m == ms[0] || m in ms[1..];
    }
  }

  /**
   * `parseFiles`: when some tag match has content that is not blank once
   * its newlines are stripped, the artifacts of the tag matches, in order,
   * each with a trimmed name and non-empty content; when every tag match is
   * blank (or there is none), what the fenced-block pass finds.
   */
  function ParseFiles(text: string): (r: seq<GenFile>)
    ensures (exists m | m in Scan(text, 0) :: StripNewlines(m.body) != []) ==>
      && r != [] && r == TaggedFiles(Scan(text, 0))
      && forall f | f in r :: TaggedShape(f)
    ensures (forall m | m in Scan(text, 0) :: StripNewlines(m.body) == []) ==> r == FallbackPass(text)
  {
    var tagged := TaggedPass(text);
    TaggedFilesEmpty(Scan(text, 0));
    TaggedPassShape(text);
    if |tagged| > 0 then tagged else FallbackPass(text)
  }

  // ---------------------------------------------------------------------
  // The requested reply format, and its round trip through the parser
  // ---------------------------------------------------------------------

  /** An artifact that the tagged format can carry unchanged. */
  predicate Renderable(f: GenFile) {
    && f.name != [] && '"' !in f.name
    && !IsSpace(f.name[0]) && !IsSpace(f.name[|f.name| - 1])
    && f.content != []
    && !IsNewline(f.content[0]) && !IsNewline(f.content[|f.content| - 1])
    && !Contains(f.content, CloseTag)
  }

  /** One artifact written in the tagged format the prompts ask for. */
  function Block(f: GenFile): string {
    OpenTag + f.name + "\">" + "\n" + f.content + "\n" + CloseTag
  }

  function Render(fs: seq<GenFile>): string {
    if fs == [] then [] else Block(fs[0]) + Render(fs[1..])
  }

  /** Stripping newlines undoes the line breaks the format puts around a content. */
  lemma StripFraming(c: string)
    requires c != [] && !IsNewline(c[0]) && !IsNewline(c[|c| - 1])
    ensures StripNewlines("\n" + c + "\n") == c
  {
    var s := "\n" + c + "\n";
    assert RunLen(s, 1, IsNewline) == 0;
    assert StripStart(s, IsNewline) == 1;
    assert s[1..] == c + "\n";
    assert (c + "\n")[..|c|] == c;
  }

  /** A quote-free name followed by `">` ends the `[^"]+` capture. */
  lemma NameEnds(text: string, a: nat, n: string)
    requires a + |n| + 2 <= |text| && text[a..a + |n|] == n && '"' !in n
    requires text[a + |n|..a + |n| + 2] == "\">"
    ensures FindFrom(text, "\"", a) == Some(a + |n|)
    ensures Occurs(text, "\">", a + |n|)
  {
    forall j | a <= j < a + |n| ensures !Occurs(text, "\"", j) {
      assert text[j] == n[j - a];
      assert text[j..j + 1] == [text[j]];
    }
    assert text[a + |n|..a + |n| + 1] == text[a + |n|..a + |n| + 2][..1];
    FindFromIs(text, "\"", a, a + |n|);
  }

  /** In a framed content, `</file>` first starts after the closing line break. */
  lemma FramedCloses(c: string)
    requires !Contains(c, CloseTag)
    ensures var w := "\n" + c + "\n" + CloseTag;
      (forall o :: 0 <= o < |c| + 2 ==> !Occurs(w, CloseTag, o)) && Occurs(w, CloseTag, |c| + 2)
  {
    var w := "\n" + c + "\n" + CloseTag;
    forall o | 0 <= o < |c| + 2 ensures !Occurs(w, CloseTag, o) {
      if o + |CloseTag| <= |w| {
        if o == 0 || o == |c| + 1 {
          assert w[o..o + |CloseTag|][0] == w[o] == '\n';
        } else if o - 1 + |CloseTag| <= |c| {
          assert !Occurs(c, CloseTag, o - 1);
          assert w[o..o + |CloseTag|] == c[o - 1..o - 1 + |CloseTag|];
        } else {
          assert w[o..o + |CloseTag|][|c| + 1 - o] == w[|c| + 1] == '\n';
        }
      }
    }
    assert w[|c| + 2..] == CloseTag;
  }

  /** A content free of `</file>`, framed by line breaks, is closed by the `</file>` after it. */
  lemma BodyEnds(text: string, a: nat, c: string)
    requires a + |c| + 2 + |CloseTag| <= |text|
    requires text[a..a + |c| + 2 + |CloseTag|] == "\n" + c + "\n" + CloseTag
    requires !Contains(c, CloseTag)
    ensures FindFrom(text, CloseTag, a) == Some(a + |c| + 2)
  {
    var w := "\n" + c + "\n" + CloseTag;
    FramedCloses(c);
    forall p | a <= p < a + |c| + 2 ensures !Occurs(text, CloseTag, p) {
      OccursWithin(text, a, w, CloseTag, p - a);
    }
    OccursWithin(text, a, w, CloseTag, |c| + 2);
    FindFromIs(text, CloseTag, a, a + |c| + 2);
  }

  /** The parts of a block, by position. */
  lemma BlockParts(f: GenFile)
    ensures var b := Block(f);
      && |b| == |OpenTag| + |f.name| + 2 + |f.content| + 2 + |CloseTag|
      && b[..|OpenTag|] == OpenTag
      && b[|OpenTag|..|OpenTag| + |f.name|] == f.name
      && b[|OpenTag| + |f.name|..|OpenTag| + |f.name| + 2] == "\">"
      && b[|OpenTag| + |f.name| + 2..] == "\n" + f.content + "\n" + CloseTag
  {
  }

  /** Where the parts of a block lie when the block is written at `i`. */
  lemma BlockLayout(text: string, i: nat, f: GenFile)
    requires i + |Block(f)| <= |text| && text[i..i + |Block(f)|] == Block(f)
    ensures var a := i + |OpenTag|;
      var q := a + |f.name|;
      var e := q + 2 + |f.content| + 2 + |CloseTag|;
      && e == i + |Block(f)|
      && text[i..a] == OpenTag
      && text[a..q] == f.name
      && text[q..q + 2] == "\">"
      && text[q + 2..e] == "\n" + f.content + "\n" + CloseTag
  {
    var blk := Block(f);
    var n := f.name;
    BlockParts(f);
    var a := i + |OpenTag|;
    var q := a + |n|;
    SliceWithin(text, i, blk, 0, |OpenTag|);
    SliceWithin(text, i, blk, |OpenTag|, |OpenTag| + |n|);
    SliceWithin(text, i, blk, |OpenTag| + |n|, |OpenTag| + |n| + 2);
    SliceWithin(text, i, blk, |OpenTag| + |n| + 2, |blk|);
  }

  /** The tag grammar matches a name and a framed content laid out at `i`, `a`, `q` and `k`. */
  lemma TagAtLayout(text: string, i: nat, n: string, c: string, a: nat, q: nat, k: nat)
    requires a == i + |OpenTag| && q == a + |n| && k == q + 2 + |c| + 2
    requires n != [] && '"' !in n && !Contains(c, CloseTag)
    requires k + |CloseTag| <= |text|
    requires text[i..a] == OpenTag
    requires text[a..q] == n
    requires text[q..q + 2] == "\">"
    requires text[q + 2..k + |CloseTag|] == "\n" + c + "\n" + CloseTag
    ensures TagAt(text, i) == Some(TagMatch(i, n, "\n" + c + "\n", k + |CloseTag|))
  {
    NameEnds(text, a, n);
    BodyEnds(text, q + 2, c);
    FramedPrefix(text, q + 2, c);
    TagAtIs(text, i, q, k);
  }

  /** A framed content written at `a` is followed by its closing tag. */
  lemma FramedPrefix(text: string, a: nat, c: string)
    requires a + |c| + 2 + |CloseTag| <= |text|
    requires text[a..a + |c| + 2 + |CloseTag|] == "\n" + c + "\n" + CloseTag
    ensures text[a..a + |c| + 2] == "\n" + c + "\n"
  {
    var w := "\n" + c + "\n" + CloseTag;
    SliceWithin(text, a, w, 0, |c| + 2);
    assert w[..|c| + 2] == "\n" + c + "\n";
  }

  /** The tag grammar at `i`, once its opening, closing quote and closing tag are located. */
  lemma TagAtIs(text: string, i: nat, q: nat, k: nat)
    requires Occurs(text, OpenTag, i)
    requires FindFrom(text, "\"", i + |OpenTag|) == Some(q) && q != i + |OpenTag| && Occurs(text, "\">", q)
    requires FindFrom(text, CloseTag, q + 2) == Some(k)
    ensures TagAt(text, i) == Some(TagMatch(i, text[i + |OpenTag|..q], text[q + 2..k], k + |CloseTag|))
  {
  }

  /** A block written at `i` is matched in full, with its name and its framed content. */
  lemma TagAtBlock(text: string, i: nat, f: GenFile)
    requires Renderable(f)
    requires i + |Block(f)| <= |text| && text[i..i + |Block(f)|] == Block(f)
    ensures TagAt(text, i) == Some(TagMatch(i, f.name, "\n" + f.content + "\n", i + |Block(f)|))
  {
    BlockLayout(text, i, f);
    var a := i + |OpenTag|;
    var q := a + |f.name|;
    TagAtLayout(text, i, f.name, f.content, a, q, q + 2 + |f.content| + 2);
  }

  /** A match at the scan position is taken, and the scan resumes at its end. */
  lemma ScanStep(text: string, i: nat, m: TagMatch)
    requires i < |text| && TagAt(text, i) == Some(m)
    ensures Scan(text, i) == [m] + Scan(text, m.end)
  {
  }

  /** A match whose artifact is `f` puts `f` in front of the rest's artifacts. */
  lemma TaggedFilesCons(m: TagMatch, rest: seq<TagMatch>, f: GenFile)
    requires TaggedFile(m) == Some(f)
    ensures TaggedFiles([m] + rest) == [f] + TaggedFiles(rest)
  {
    assert ([m] + rest)[1..] == rest;
  }

  /** The artifact of a rendered block is the artifact it was rendered from. */
  lemma TaggedFileOfBlock(f: GenFile, start: nat, end: nat)
    requires Renderable(f)
    ensures TaggedFile(TagMatch(start, f.name, "\n" + f.content + "\n", end)) == Some(f)
  {
    StripFraming(f.content);
    StripNoop(f.name, IsSpace);
  }

  /** Rendered text starts with the first block, followed by the rest rendered. */
  lemma RenderFirst(text: string, i: nat, fs: seq<GenFile>)
    requires fs != [] && i <= |text| && text[i..] == Render(fs)
    ensures i + |Block(fs[0])| <= |text|
    ensures text[i..i + |Block(fs[0])|] == Block(fs[0])
    ensures text[i + |Block(fs[0])|..] == Render(fs[1..])
  {
    var blk := Block(fs[0]);
    assert text[i..] == blk + Render(fs[1..]);
    assert text[i..i + |blk|] == text[i..][..|blk|];
    assert text[i + |blk|..] == text[i..][|blk|..];
  }

  /** The first rendered block is the scan's first match, and the rest is rendered after it. */
  lemma ScanFirstBlock(text: string, i: nat, fs: seq<GenFile>) returns (m: TagMatch, j: nat)
    requires fs != [] && Renderable(fs[0])
    requires i <= |text| && text[i..] == Render(fs)
    ensures i < j <= |text| && text[j..] == Render(fs[1..])
    ensures Scan(text, i) == [m] + Scan(text, j)
    ensures TaggedFile(m) == Some(fs[0])
  {
    var f := fs[0];
    j := i + |Block(f)|;
    RenderFirst(text, i, fs);
    TagAtBlock(text, i, f);
    m := TagMatch(i, f.name, "\n" + f.content + "\n", j);
    ScanStep(text, i, m);
    TaggedFileOfBlock(f, i, j);
  }

  /** The scan over rendered blocks yields exactly the rendered artifacts. */
  lemma {:induction false} ScanRender(text: string, i: nat, fs: seq<GenFile>)
    requires forall f | f in fs :: Renderable(f)
    requires i <= |text| && text[i..] == Render(fs)
    ensures TaggedFiles(Scan(text, i)) == fs
    decreases |fs|
  {
    if fs != [] {
      var m, j := ScanFirstBlock(text, i, fs);
      ScanRender(text, j, fs[1..]);
      TaggedFilesCons(m, Scan(text, j), fs[0]);
      assert [fs[0]] + fs[1..] == fs;
    } else {
      assert |text[i..]| == 0;
      assert Scan(text, i) == [];
    }
  }

  /**
   * A reply written in the requested format parses back to exactly the
   * artifacts it was written from.
   */
  lemma ParseRender(fs: seq<GenFile>)
    requires forall f | f in fs :: Renderable(f)
    ensures ParseFiles(Render(fs)) == fs
  {
    ScanRender(Render(fs), 0, fs);
    if fs == [] {
      assert FenceScan([], 0) == [];
    }
  }
}
