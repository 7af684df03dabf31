/**
 * The string utilities of src/lib/scraper.ts and the field extraction of
 * `extractPageData` / `extractGlobalData`.
 *
 * The HTML parser is not modelled: a fetched page is a `Doc`, the results of
 * the selector queries the extractor makes, in document order. URL parsing
 * and resolution (`new URL`) are an oracle (`UrlOracle`).
 */
module Scraper {
  import opened Wrappers
  import opened Text
  import opened Types

  // ---------------------------------------------------------------------
  // cleanText
  // ---------------------------------------------------------------------

  /**
   * `t.replace(/\s+/g, ' ').trim()`: no whitespace at either end, every
   * remaining whitespace character a single space between two
   * non-whitespace ones, and the non-whitespace characters of `t` in order.
   */
  function CleanText(t: string): string {
    Trim(ReplaceRuns(t, IsSpace, ' '))
  }

  lemma CleanTextSpec(t: string)
    ensures var r := CleanText(t);
      && (r == [] || (!IsSpace(r[0]) && !IsSpace(r[|r| - 1])))
      && Isolated(r, IsSpace, ' ')
      && Outside(r, IsSpace) == Outside(t, IsSpace)
  {
    var runs := ReplaceRuns(t, IsSpace, ' ');
    ReplaceRunsIsolated(t, IsSpace, ' ');
    ReplaceRunsOutside(t, IsSpace, ' ');
    StripIsolated(runs, IsSpace, ' ');
    StripOutside(runs, IsSpace);
  }

  /** Cleaning clean text changes nothing. */
  lemma CleanTextIdempotent(t: string)
    ensures CleanText(CleanText(t)) == CleanText(t)
  {
    var c := CleanText(t);
    CleanTextSpec(t);
    ReplaceRunsNoop(c, IsSpace, ' ');
    StripNoop(c, IsSpace);
  }

  // ---------------------------------------------------------------------
  // dedupeInsert
  // ---------------------------------------------------------------------

  /**
   * `dedupeInsert(arr, item, max)`: appends `item` when it is absent and the
   * list is shorter than `max`; the existing elements never change, and a
   * duplicate-free list within the bound stays so.
   */
  function DedupeInsert(arr: seq<string>, item: string, max: nat): (r: seq<string>)
    ensures |arr| <= |r| <= |arr| + 1 && r[..|arr|] == arr
    ensures item in r <==> item in arr || |arr| < max
    ensures forall x :: x in r ==> x in arr || x == item
    ensures NoDup(arr) ==> NoDup(r)
    ensures |arr| <= max ==> |r| <= max
  {
    if item !in arr && |arr| < max then arr + [item] else arr
  }

  /** `items.forEach(x => dedupeInsert(arr, x, max))`. */
  function DedupeAll(arr: seq<string>, items: seq<string>, max: nat): seq<string>
    decreases |items|
  {
    if items == [] then arr else DedupeAll(DedupeInsert(arr, items[0], max), items[1..], max)
  }

  /**
   * Inserting a sequence keeps the list duplicate-free and within the
   * bound, keeps what was there, adds only items, and drops an item only
   * when it is already present or the list is full.
   */
  lemma {:induction false} DedupeAllSpec(arr: seq<string>, items: seq<string>, max: nat)
    requires NoDup(arr) && |arr| <= max
    ensures var r := DedupeAll(arr, items, max);
      && NoDup(r) && |r| <= max
      && |arr| <= |r| && r[..|arr|] == arr
      && (forall x :: x in r ==> x in arr || x in items)
      && (forall x :: x in items ==> x in r || |r| == max)
    decreases |items|
  {
    if items != [] {
      var a1 := DedupeInsert(arr, items[0], max);
      DedupeAllSpec(a1, items[1..], max);
      var r := DedupeAll(arr, items, max);
      assert r == DedupeAll(a1, items[1..], max);
      assert r[..|arr|] == r[..|a1|][..|arr|];
      forall x | x in items ensures x in r || |r| == max {
        if x == items[0] {
          if x in a1 {
            var i :| 0 <= i < |a1| && a1[i] == x;
            assert r[i] == x;
          } else {
            assert |a1| == max;
          }
        } else {
          assert x in items[1..];
        }
      }
      forall x | x in r ensures x in arr || x in items {
        if x !in items[1..] {
          assert x in a1;
        }
      }
    }
  }

  // ---------------------------------------------------------------------
  // pathToFilename
  // ---------------------------------------------------------------------

  /** A letter or digit, which the path-to-filename mapping keeps. */
  predicate NotAlnum(c: char) { !IsAlnum(c) }

  /** The filename character of a path character: letters, digits and `-` kept, anything else `-`. */
  function FileChar(c: char): char {
    if IsAlnum(c) || c == '-' then c else '-'
  }

  function FileChars(s: string): (r: string)
    ensures |r| == |s| && forall i :: 0 <= i < |s| ==> r[i] == FileChar(s[i])
  {
    seq(|s|, i requires 0 <= i < |s| => FileChar(s[i]))
  }

  /** Letters, digits and single dashes, not empty. */
  predicate IsStem(s: string) {
    && s != []
    && (forall i :: 0 <= i < |s| ==> IsAlnum(s[i]) || s[i] == '-')
    && (forall i :: 0 <= i < |s| - 1 ==> !(s[i] == '-' && s[i + 1] == '-'))
  }

  /**
   * `pathToFilename`: slashes trimmed from both ends, every other character
   * that is not a letter, digit or dash turned into a dash, dash runs
   * collapsed, and `.html` appended; `index.html` when nothing is left.
   */
  function PathToFilename(path: string): string {
    var core := Strip(path, IsSlash);
    var clean := ReplaceRuns(FileChars(core), IsDash, '-');
    if clean != [] then clean + ".html" else "index.html"
  }

  lemma FileCharsOutside(s: string)
    ensures Outside(FileChars(s), IsDash) == Outside(s, NotAlnum)
    decreases |s|
  {
    if s != [] {
      FileCharsOutside(s[1..]);
      assert FileChars(s) == [FileChar(s[0])] + FileChars(s[1..]);
      OutsideAppend([FileChar(s[0])], FileChars(s[1..]), IsDash);
      OutsideAppend([s[0]], s[1..], NotAlnum);
      assert s == [s[0]] + s[1..];
    }
  }

  /**
   * A path with no segment gives `index.html`; any other path gives a stem
   * of letters, digits and single dashes that keeps the letters and digits
   * of the path in order, followed by `.html`.
   */
  lemma PathToFilenameSpec(path: string)
    ensures Strip(path, IsSlash) == [] ==> PathToFilename(path) == "index.html"
    ensures Strip(path, IsSlash) != [] ==>
      var r := PathToFilename(path);
      var stem := r[..|r| - 5];
      && |r| > 5 && r[|r| - 5..] == ".html"
      && IsStem(stem)
      && Outside(stem, IsDash) == Outside(Strip(path, IsSlash), NotAlnum)
  {
    var core := Strip(path, IsSlash);
    var chars := FileChars(core);
    var clean := ReplaceRuns(chars, IsDash, '-');
    ReplaceRunsIsolated(chars, IsDash, '-');
    ReplaceRunsOutside(chars, IsDash, '-');
    FileCharsOutside(core);
    if core != [] {
      var r := PathToFilename(path);
      assert r == clean + ".html";
      assert r[..|r| - 5] == clean;
      ReplaceRunsChars(chars);
    }
  }

  /** Letters, digits and dashes only. */
  predicate FileAlphabet(s: string) {
    forall i :: 0 <= i < |s| ==> IsAlnum(s[i]) || s[i] == '-'
  }

  lemma FileAlphabetSuffix(s: string, k: nat)
    requires FileAlphabet(s) && k <= |s|
    ensures FileAlphabet(s[k..])
  {
    forall i | 0 <= i < |s| - k ensures IsAlnum(s[k..][i]) || s[k..][i] == '-' {
      assert s[k..][i] == s[k + i];
    }
  }

  lemma FileAlphabetCons(c: char, t: string)
    requires IsAlnum(c) || c == '-'
    requires FileAlphabet(t)
    ensures FileAlphabet([c] + t)
  {
    forall i | 0 <= i < |t| + 1 ensures IsAlnum(([c] + t)[i]) || ([c] + t)[i] == '-' {
      if i > 0 {
        assert ([c] + t)[i] == t[i - 1];
      }
    }
  }

  /** Collapsing dash runs keeps a string within letters, digits and dashes. */
  lemma {:induction false} ReplaceRunsChars(s: string)
    requires FileAlphabet(s)
    ensures FileAlphabet(ReplaceRuns(s, IsDash, '-'))
    decreases |s|
  {
    if s != [] {
      var k := if s[0] == '-' then |s| - |DropLeft(s, IsDash)| else 1;
      var t := s[k..];
      assert t == if s[0] == '-' then DropLeft(s, IsDash) else s[1..];
      FileAlphabetSuffix(s, k);
      ReplaceRunsChars(t);
      FileAlphabetCons(if s[0] == '-' then '-' else s[0], ReplaceRuns(t, IsDash, '-'));
    }
  }

  /** Letters, digits and single dashes pass through the mapping unchanged. */
  lemma StemUnchanged(s: string)
    requires forall i :: 0 <= i < |s| ==> IsAlnum(s[i]) || s[i] == '-'
    requires forall i :: 0 <= i < |s| - 1 ==> !(s[i] == '-' && s[i + 1] == '-')
    ensures FileChars(s) == s && ReplaceRuns(s, IsDash, '-') == s
  {
    assert FileChars(s) == s;
    assert Isolated(s, IsDash, '-');
    ReplaceRunsNoop(s, IsDash, '-');
  }

  lemma FileCharsAppend(a: string, b: string)
    ensures FileChars(a + b) == FileChars(a) + FileChars(b)
  {
  }

  lemma PathToFilenameOf(path: string, core: string, stem: string)
    requires Strip(path, IsSlash) == core
    requires ReplaceRuns(FileChars(core), IsDash, '-') == stem && stem != []
    ensures PathToFilename(path) == stem + ".html"
  {
  }

  /** A stem that starts and ends with a letter or digit. */
  predicate IsSegment(s: string) {
    IsStem(s) && IsAlnum(s[0]) && IsAlnum(s[|s| - 1])
  }

  /** A two-segment path `/a/b` gives `a-b.html`. */
  lemma TwoSegmentFilename(a: string, b: string)
    requires IsSegment(a) && IsSegment(b)
    ensures PathToFilename("/" + a + "/" + b) == a + "-" + b + ".html"
  {
    var core := a + "/" + b;
    assert "/" + a + "/" + b == "/" + core;
    LeadingSlash(core);
    var stem := a + "-" + b;
    JoinedChars(a, b);
    StemUnchanged(stem);
    PathToFilenameOf("/" + core, core, stem);
  }

  lemma LeadingSlash(core: string)
    requires core != [] && !IsSlash(core[0]) && !IsSlash(core[|core| - 1])
    ensures Strip("/" + core, IsSlash) == core
  {
    var p := "/" + core;
    assert p[1..] == core;
    assert DropLeft(p, IsSlash) == DropLeft(core, IsSlash) == core;
  }

  lemma JoinedChars(a: string, b: string)
    requires IsSegment(a) && IsSegment(b)
    ensures FileChars(a + "/" + b) == a + "-" + b
    ensures IsStem(a + "-" + b)
  {
    var stem := a + "-" + b;
    assert FileChars(a + "/" + b) == stem;
    forall i | 0 <= i < |stem| - 1 ensures !(stem[i] == '-' && stem[i + 1] == '-') {
      if i < |a| - 1 {
        assert stem[i] == a[i] && stem[i + 1] == a[i + 1];
      } else if i > |a| {
        assert stem[i] == b[i - |a| - 1] && stem[i + 1] == b[i - |a|];
      }
    }
  }

  /** `/services/web-design` becomes `services-web-design.html`. */
  lemma PathToFilenameExample(p: string)
    requires p == "/services/web-design"
    ensures PathToFilename(p) == "services-web-design.html"
  {
    var a, b := ServicesWebDesign(p);
    TwoSegmentFilename(a, b);
  }

  lemma ServicesWebDesign(p: string) returns (a: string, b: string)
    requires p == "/services/web-design"
    ensures IsSegment(a) && IsSegment(b)
    ensures p == "/" + a + "/" + b && a + "-" + b + ".html" == "services-web-design.html"
  {
    a, b := "services", "web-design";
  }

  /** The site root, with or without its slash, becomes `index.html`. */
  lemma RootFilename()
    ensures PathToFilename("/") == "index.html"
    ensures PathToFilename("") == "index.html"
  {
  }

  /** A one-segment path `/s` gives `s.html`. */
  lemma OneSegmentFilename(s: string)
    requires IsSegment(s)
    ensures PathToFilename("/" + s) == s + ".html"
  {
    LeadingSlash(s);
    StemUnchanged(s);
    PathToFilenameOf("/" + s, s, s);
  }

  /** Distinct paths can share a filename: `/a/b` and `/a-b` both give `a-b.html`. */
  lemma FilenamesCollide(p: string, q: string)
    requires p == "/a/b" && q == "/a-b"
    ensures p != q && PathToFilename(p) == PathToFilename(q) == "a-b.html"
  {
    var a, b := CollidingParts(p, q);
    TwoSegmentFilename(a, b);
    JoinedChars(a, b);
    OneSegmentFilename(a + "-" + b);
  }

  lemma CollidingParts(p: string, q: string) returns (a: string, b: string)
    requires p == "/a/b" && q == "/a-b"
    ensures IsSegment(a) && IsSegment(b)
    ensures p == "/" + a + "/" + b && q == "/" + (a + "-" + b) && a + "-" + b + ".html" == "a-b.html"
    ensures p != q
  {
    a, b := "a", "b";
    assert p[2] != q[2];
  }

  // ---------------------------------------------------------------------
  // pathToLabel
  // ---------------------------------------------------------------------

  /** The last non-empty segment of a path. */
  function LastSegment(path: string): (r: Option<string>)
    ensures r.Some? ==> r.value != [] && '/' !in r.value
  {
    var segs := NonEmpty(Split(path, '/'));
    if segs == [] then None else Some(segs[|segs| - 1])
  }

  function SpaceOut(s: string): (r: string)
    ensures |r| == |s|
  {
    seq(|s|, i requires 0 <= i < |s| => if s[i] == '-' || s[i] == '_' then ' ' else s[i])
  }

  /** The first character of every word (`\b\w`) upper-cased. */
  predicate WordStart(s: string, i: nat)
    requires i < |s|
  {
    IsWordChar(s[i]) && (i == 0 || !IsWordChar(s[i - 1]))
  }

  function TitleCase(s: string): (r: string)
    ensures |r| == |s|
  {
    seq(|s|, i requires 0 <= i < |s| => if WordStart(s, i) then Upper(s[i]) else s[i])
  }

  /** `pathToLabel`. */
  function PathToLabel(path: string): string {
    TitleCase(SpaceOut(LastSegment(path).GetOr("Home")))
  }

  /**
   * The label of a path is `Home` when it has no segment; otherwise it is
   * the last segment with `-` and `_` turned into spaces and each word's
   * first letter upper-cased: the same text up to case, no dash,
   * underscore or slash, and no word starting with a lower-case letter.
   */
  lemma PathToLabelSpec(path: string)
    ensures LastSegment(path).None? ==> PathToLabel(path) == "Home"
    ensures LastSegment(path).Some? ==>
      var seg := LastSegment(path).value;
      var r := PathToLabel(path);
      && |r| == |seg|
      && LowerStr(r) == LowerStr(SpaceOut(seg))
      && (forall i :: 0 <= i < |r| ==> r[i] != '-' && r[i] != '_' && r[i] != '/')
      && (forall i :: 0 <= i < |r| && WordStart(r, i) ==> !IsLowerLetter(r[i]))
  {
    if LastSegment(path).None? {
      assert TitleCase(SpaceOut("Home")) == "Home";
    } else {
      var seg := LastSegment(path).value;
      var s := SpaceOut(seg);
      var r := PathToLabel(path);
      assert r == TitleCase(s);
      forall i | 0 <= i < |r| ensures LowerStr(r)[i] == LowerStr(s)[i] {
        assert Lower(Upper(s[i])) == Lower(s[i]);
      }
      forall i | 0 <= i < |r| ensures r[i] != '-' && r[i] != '_' && r[i] != '/' {
        assert seg[i] != '/';
      }
      forall i | 0 <= i < |r| && WordStart(r, i) ensures !IsLowerLetter(r[i]) {
        assert IsWordChar(s[i]) <==> IsWordChar(r[i]);
        if i > 0 {
          assert IsWordChar(s[i - 1]) <==> IsWordChar(r[i - 1]);
        }
      }
    }
  }

  /** A path of one segment `/s` has `s` as its last segment. */
  lemma OneSegment(s: string)
    requires s != [] && '/' !in s
    ensures LastSegment("/" + s) == Some(s)
  {
    var p := "/" + s;
    assert p[0] == '/' && p[1..] == s;
    assert Split(p, '/') == [[]] + Split(s, '/');
    assert NonEmpty(Split(p, '/')) == [s];
  }

  /** `/about-us` is labelled `About Us`. */
  lemma PathToLabelExample(p: string)
    requires p == "/about-us"
    ensures PathToLabel(p) == "About Us"
  {
    var seg := "about-us";
    assert p == "/" + seg;
    OneSegment(seg);
    var spaced := SpaceOut(seg);
    assert spaced == "about us";
    assert TitleCase(spaced) == "About Us";
  }

  /** The root is labelled `Home`. */
  lemma RootLabel(p: string)
    requires p == "/"
    ensures PathToLabel(p) == "Home"
  {
    assert Split(p, '/') == ["", ""];
    assert NonEmpty(["", ""]) == [];
    PathToLabelSpec(p);
  }

  // ---------------------------------------------------------------------
  // resolveHref
  // ---------------------------------------------------------------------

  /** A parsed URL: `origin`, `pathname`, `search` (with its `?`) and `hash` (with its `#`). */
  datatype Url = Url(origin: string, pathname: string, search: string, hash: string)

  /** `url.href`. */
  function Href(u: Url): string {
    u.origin + u.pathname + u.search + u.hash
  }

  /**
   * The URL parser: `parse(s)` is `new URL(s)` and `resolve(href, base)` is
   * `new URL(href, base)`, each `None` where the constructor throws.
   */
  datatype UrlOracle = UrlOracle(parse: string -> Option<Url>, resolve: (string, string) -> Option<Url>)

  /** The extensions whose targets are not crawled. */
  const NonHtmlExtensions: seq<string> :=
    ["pdf", "jpg", "jpeg", "png", "gif", "svg", "webp", "mp4", "zip", "doc", "docx", "xml", "rss", "json"]

  /** `/\.(pdf|jpg|...)$/i`: the path ends with a dot and one of the extensions, in any case. */
  predicate NonHtmlPath(path: string) {
    exists e :: e in NonHtmlExtensions && EndsWith(LowerStr(path), "." + e)
  }

  /** Hrefs that are never followed: empty, in-page, script and mail or phone links. */
  predicate SkippedHref(href: string) {
    || href == []
    || StartsWith(href, "#")
    || StartsWith(href, "javascript:")
    || StartsWith(href, "mailto:")
    || StartsWith(href, "tel:")
  }

  /** `resolveHref(href, origin, base)`. */
  function ResolveHref(urls: UrlOracle, href: string, origin: string, base: string): Option<string> {
    if SkippedHref(href) then None
    else match urls.resolve(href, base)
      case None => None
      case Some(u) =>
        if u.origin != origin || NonHtmlPath(u.pathname) then None
        else Some(Href(u.(search := "", hash := "")))
  }

  /**
   * An href is kept exactly when it is not skipped, resolves, stays on the
   * crawl origin and does not name a non-HTML file; what is kept is the
   * origin followed by the path, with no query and no fragment.
   */
  lemma ResolveHrefSpec(urls: UrlOracle, href: string, origin: string, base: string)
    ensures var r := ResolveHref(urls, href, origin, base);
      var u := urls.resolve(href, base);
      && (r.Some? <==> !SkippedHref(href) && u.Some? && u.value.origin == origin && !NonHtmlPath(u.value.pathname))
      && (r.Some? ==> r.value == origin + u.value.pathname && StartsWith(r.value, origin))
  {
    var r := ResolveHref(urls, href, origin, base);
    if r.Some? {
      var u := urls.resolve(href, base).value;
      assert r.value == origin + u.pathname;
      assert r.value[..|origin|] == origin;
    }
  }

  /**
   * Two links whose targets differ only in query or fragment resolve to
   * the same key, so the crawler treats them as one page.
   */
  lemma SameKeyUpToQueryAndFragment(urls: UrlOracle, h1: string, h2: string, origin: string, base: string)
    requires !SkippedHref(h1) && !SkippedHref(h2)
    requires urls.resolve(h1, base).Some? && urls.resolve(h2, base).Some?
    requires urls.resolve(h1, base).value.origin == urls.resolve(h2, base).value.origin
    requires urls.resolve(h1, base).value.pathname == urls.resolve(h2, base).value.pathname
    ensures ResolveHref(urls, h1, origin, base) == ResolveHref(urls, h2, origin, base)
  {
  }

  /** A link to a PDF, in whatever case, is never followed. */
  lemma PdfNotFollowed(urls: UrlOracle, href: string, origin: string, base: string)
    requires urls.resolve(href, base).Some?
    requires EndsWith(LowerStr(urls.resolve(href, base).value.pathname), ".pdf")
    ensures ResolveHref(urls, href, origin, base) == None
  {
    assert "pdf" in NonHtmlExtensions;
  }

  // ---------------------------------------------------------------------
  // Colour tokens in style text
  // ---------------------------------------------------------------------

  /** `#` followed by three to eight hex digits. */
  predicate IsColorToken(t: string) {
    && 4 <= |t| <= 9 && t[0] == '#'
    && forall k :: 1 <= k < |t| ==> IsHexDigit(t[k])
  }

  /** A colour token with no upper-case letter. */
  predicate IsLowerColor(t: string) {
    IsColorToken(t) && forall k :: 0 <= k < |t| ==> !IsUpperLetter(t[k])
  }

  /**
   * `/#[0-9a-fA-F]{3,8}\b/` tried at index `i`: the length of the match.
   * The digits after `#` must form a whole run of three to eight that no
   * letter, digit or `_` follows; a shorter match would end before another
   * digit, where there is no word boundary.
   */
  function HexTokenAt(s: string, i: nat): (n: Option<nat>)
    requires i <= |s|
    ensures n.Some? ==> i + n.value <= |s| && IsColorToken(s[i..i + n.value])
    ensures n.Some? ==> i + n.value == |s| || !IsWordChar(s[i + n.value])
  {
    if i < |s| && s[i] == '#' then
      var l := RunLen(s, i + 1, IsHexDigit);
      if 3 <= l <= 8 && (i + 1 + l == |s| || !IsWordChar(s[i + 1 + l])) then Some(1 + l) else None
    else None
  }

  /** The matches of `/#[0-9a-fA-F]{3,8}\b/g` from index `i` on, left to right. */
  function HexTokens(s: string, i: nat): seq<string>
    requires i <= |s|
    decreases |s| - i
  {
    if i == |s| then []
    else match HexTokenAt(s, i)
      case Some(n) => [s[i..i + n]] + HexTokens(s, i + n)
      case None => HexTokens(s, i + 1)
  }

  lemma {:induction false} HexTokensAreColors(s: string, i: nat)
    requires i <= |s|
    ensures forall t :: t in HexTokens(s, i) ==> IsColorToken(t)
    decreases |s| - i
  {
    if i < |s| {
      match HexTokenAt(s, i)
      case Some(n) => HexTokensAreColors(s, i + n);
      case None => HexTokensAreColors(s, i + 1);
    }
  }

  /** A colour token standing alone at the start of a text is its first match. */
  lemma HexTokenFirst(t: string, rest: string)
    requires IsColorToken(t)
    requires rest == [] || !IsWordChar(rest[0])
    ensures HexTokens(t + rest, 0) == [t] + HexTokens(t + rest, |t|)
  {
    var s := t + rest;
    assert s[..|t|] == t;
  }

  /** Nine hex digits after `#` are no colour: the match needs a word boundary after at most eight. */
  lemma NineDigitsNoColor(s: string, i: nat)
    requires i + 10 <= |s| && s[i] == '#'
    requires forall k :: i + 1 <= k < i + 10 ==> IsHexDigit(s[k])
    ensures HexTokenAt(s, i) == None
  {
  }

  /** Where a custom-property colour match starts its captured `#...` and where it ends. */
  datatype VarMatch = VarMatch(hash: nat, end: nat)

  /**
   * `/--[\w-]+:\s*(#[0-9a-fA-F]{3,8})/` tried at index `i`. The name run
   * and the space run cannot give characters back (neither `:` nor `#`
   * belongs to them), so the match is decided by the maximal runs; the
   * digits are the first eight of their run.
   */
  function VarTokenAt(s: string, i: nat): (m: Option<VarMatch>)
    requires i <= |s|
    ensures m.Some? ==> i < m.value.hash < m.value.end <= |s| && IsColorToken(s[m.value.hash..m.value.end])
  {
    if i + 2 <= |s| && s[i] == '-' && s[i + 1] == '-' then
      var name := RunLen(s, i + 2, IsNameChar);
      var colon := i + 2 + name;
      if name >= 1 && colon < |s| && s[colon] == ':' then
        var h := colon + 1 + RunLen(s, colon + 1, IsSpace);
        if h < |s| && s[h] == '#' then
          var l := RunLen(s, h + 1, IsHexDigit);
          if l >= 3 then Some(VarMatch(h, h + 1 + Min(l, 8))) else None
        else None
      else None
    else None
  }

  /**
   * The colours captured by `/--[\w-]+:\s*(#[0-9a-fA-F]{3,8})/g` from
   * index `i` on; the first `#...` of each whole match is its capture.
   */
  function VarTokens(s: string, i: nat): seq<string>
    requires i <= |s|
    decreases |s| - i
  {
    if i == |s| then []
    else match VarTokenAt(s, i)
      case Some(m) => [s[m.hash..m.end]] + VarTokens(s, m.end)
      case None => VarTokens(s, i + 1)
  }

  lemma {:induction false} VarTokensAreColors(s: string, i: nat)
    requires i <= |s|
    ensures forall t :: t in VarTokens(s, i) ==> IsColorToken(t)
    decreases |s| - i
  {
    if i < |s| {
      match VarTokenAt(s, i)
      case Some(m) => VarTokensAreColors(s, m.end);
      case None => VarTokensAreColors(s, i + 1);
    }
  }

  /** The hex matches of every `<style>` element, in document order. */
  function StyleHexTokens(styles: seq<string>): seq<string> {
    if styles == [] then [] else HexTokens(styles[0], 0) + StyleHexTokens(styles[1..])
  }

  lemma {:induction false} StyleHexTokensAreColors(styles: seq<string>)
    ensures forall t :: t in StyleHexTokens(styles) ==> IsColorToken(t)
  {
    if styles != [] {
      HexTokensAreColors(styles[0], 0);
      StyleHexTokensAreColors(styles[1..]);
    }
  }

  function LowerAll(ts: seq<string>): (r: seq<string>)
    ensures |r| == |ts| && forall k :: 0 <= k < |ts| ==> r[k] == LowerStr(ts[k])
  {
    seq(|ts|, k requires 0 <= k < |ts| => LowerStr(ts[k]))
  }

  lemma LowerColor(t: string)
    requires IsColorToken(t)
    ensures IsLowerColor(LowerStr(t))
  {
  }

  // ---------------------------------------------------------------------
  // Fonts
  // ---------------------------------------------------------------------

  /** One entry of a Google Fonts `family=` list: the part before `:`, `+` read as a space, trimmed. */
  function GoogleFontName(entry: string): string {
    Trim(ReplaceChar(Split(entry, ':')[0], '+', ' '))
  }

  /** The non-empty names of `|`-separated entries. */
  function EntryNames(entries: seq<string>): (r: seq<string>)
    ensures forall x :: x in r ==> x != []
  {
    if entries == [] then []
    else
      var name := GoogleFontName(entries[0]);
      (if name != [] then [name] else []) + EntryNames(entries[1..])
  }

  /** The font names of the `family=` values of the Google Fonts links, in order. */
  function GoogleFontNames(families: seq<string>): (r: seq<string>)
    ensures forall x :: x in r ==> x != []
  {
    if families == [] then [] else EntryNames(Split(families[0], '|')) + GoogleFontNames(families[1..])
  }

  /**
   * The names of the `font-family` declarations: the captured value with
   * surrounding space trimmed, kept when non-empty and shorter than 40.
   */
  function StyleFontNames(captures: seq<string>): (r: seq<string>)
    ensures forall x :: x in r ==> x != [] && |x| < 40
  {
    if captures == [] then []
    else
      var name := Trim(captures[0]);
      (if name != [] && |name| < 40 then [name] else []) + StyleFontNames(captures[1..])
  }

  // ---------------------------------------------------------------------
  // The parsed document
  // ---------------------------------------------------------------------

  /** An element with its upper-case tag name and its text. */
  datatype Element = Element(tag: string, text: string)

  /** An `<h2>` with the element siblings that follow it. */
  datatype Heading2 = Heading2(text: string, following: seq<Element>)

  datatype Anchor = Anchor(text: string, href: Option<string>)

  /**
   * What the extractor reads from a parsed page, one field per selector
   * query, in document order:
   * - `title`: text of the first `title`;
   * - `metaDescription`, `metaOgDescription`: the `content` of the first
   *   `meta[name="description"]` / `meta[property="og:description"]`, `""`
   *   when the element has no `content`, `None` when there is no element;
   * - `headingTexts`: texts of `h1, h2, h3`; `h2s`: every `h2`;
   * - `mainText`: text of the first `main, article, [role="main"], body`;
   *   `rootText`: the text of the whole document;
   * - `hrefs`: the `href` of every `a[href]`;
   * - `lang`: the `lang` attribute of the first `html`;
   * - `nav`: the anchors of the first `nav, header, [role="navigation"]`;
   * - `styleTexts`: the text of every `style`;
   * - `footer`: the anchor texts of the first `footer`;
   * - `html`: the page source;
   * - `googleFamilies`: for each match of the Google Fonts link pattern in
   *   the source, its first `family=` value;
   * - `fontCaptures`: the captured value of each `font-family` declaration
   *   in the `style` elements.
   */
  datatype Doc = Doc(
    title: Option<string>,
    metaDescription: Option<string>,
    metaOgDescription: Option<string>,
    headingTexts: seq<string>,
    h2s: seq<Heading2>,
    mainText: Option<string>,
    rootText: string,
    hrefs: seq<string>,
    lang: Option<string>,
    nav: Option<seq<Anchor>>,
    styleTexts: seq<string>,
    footer: Option<seq<string>>,
    html: string,
    googleFamilies: seq<string>,
    fontCaptures: seq<string>)

  // ---------------------------------------------------------------------
  // extractPageData
  // ---------------------------------------------------------------------

  /** Cleaned heading texts of 3 to 119 characters. */
  function HeadingCandidates(texts: seq<string>): (r: seq<string>)
    ensures forall x :: x in r ==> 3 <= |x| < 120
  {
    if texts == [] then []
    else
      var t := CleanText(texts[0]);
      (if 2 < |t| < 120 then [t] else []) + HeadingCandidates(texts[1..])
  }

  /** The text of the first `<p>` among the siblings whose cleaned text is not empty, cut to 300. */
  function FirstBody(siblings: seq<Element>): (r: string)
    ensures |r| <= 300
  {
    if siblings == [] then []
    else
      var body := if siblings[0].tag == "P" then Prefix(CleanText(siblings[0].text), 300) else [];
      if body != [] then body else FirstBody(siblings[1..])
  }

  /** A section per `<h2>` whose cleaned text has at least three characters. */
  function Sections(h2s: seq<Heading2>): (r: seq<Section>)
    ensures |r| <= |h2s|
    ensures forall x :: x in r ==> |x.heading| >= 3 && |x.body| <= 300
  {
    if h2s == [] then []
    else
      var heading := CleanText(h2s[0].text);
      (if |heading| < 3 then [] else [Section(heading, FirstBody(h2s[0].following))]) + Sections(h2s[1..])
  }

  /** The crawlable links of a page, resolved against its URL. */
  function Links(urls: UrlOracle, hrefs: seq<string>, origin: string, base: string): seq<string> {
    if hrefs == [] then []
    else
      var r := ResolveHref(urls, hrefs[0], origin, base);
      (if r.Some? then [r.value] else []) + Links(urls, hrefs[1..], origin, base)
  }

  lemma {:induction false} LinksOnOrigin(urls: UrlOracle, hrefs: seq<string>, origin: string, base: string)
    ensures forall l :: l in Links(urls, hrefs, origin, base) ==> StartsWith(l, origin)
  {
    if hrefs != [] {
      ResolveHrefSpec(urls, hrefs[0], origin, base);
      LinksOnOrigin(urls, hrefs[1..], origin, base);
    }
  }

  /** A page's data and the links the crawler follows from it. */
  datatype Extracted = Extracted(page: PageData, links: seq<string>)

  /** `extractPageData(html, url, origin)`; `None` where `new URL(url)` throws. */
  function ExtractPage(urls: UrlOracle, doc: Doc, url: string, origin: string): (r: Option<Extracted>)
    ensures r.None? <==> urls.parse(url).None?
    ensures r.Some? ==> r.value.page == PageOf(doc, url, urls.parse(url).value.pathname)
    ensures r.Some? ==> r.value.links == Links(urls, doc.hrefs, origin, url)
  {
    match urls.parse(url)
    case None => None
    case Some(u) => Some(Extracted(PageOf(doc, url, u.pathname), Links(urls, doc.hrefs, origin, url)))
  }

  /** The page data of a parsed document at `url` whose path is `path`. */
  function PageOf(doc: Doc, url: string, path: string): (p: PageData)
    ensures p.url == url && p.path == path
    ensures p.filename == PathToFilename(path) && p.navLabel == PathToLabel(path)
    ensures |p.headings| <= 20 && NoDup(p.headings) && (forall h :: h in p.headings ==> 3 <= |h| < 120)
    ensures |p.sections| <= 12 && (forall x :: x in p.sections ==> |x.heading| >= 3 && |x.body| <= 300)
    ensures |p.bodyPreview| <= 2000
    ensures doc.metaDescription.Some? ==> p.description == CleanText(doc.metaDescription.value)
  {
    PageHeadings(doc);
    PageSections(doc);
    PageData(
      url, path, PathToFilename(path), PathToLabel(path),
      CleanText(doc.title.GetOr("")),
      Description(doc),
      DedupeAll([], HeadingCandidates(doc.headingTexts), 20),
      Sections(Prefix(doc.h2s, 12)),
      Preview(doc))
  }

  /** The `name` description, else the Open Graph one, cleaned. */
  function Description(doc: Doc): (r: string)
    ensures doc.metaDescription.Some? ==> r == CleanText(doc.metaDescription.value)
  {
    var descEl := if doc.metaDescription.Some? then doc.metaDescription else doc.metaOgDescription;
    CleanText(descEl.GetOr(""))
  }

  /** The first 2000 characters of the cleaned main text, or of the whole root's. */
  function Preview(doc: Doc): (r: string)
    ensures |r| <= 2000
  {
    Prefix(CleanText(doc.mainText.GetOr(doc.rootText)), 2000)
  }

  /**
   * The bounds on a page's data: at most 20 distinct headings of 3 to 119
   * characters, at most 12 sections with a heading of at least three
   * characters and a body of at most 300, a preview of at most 2000
   * characters, the filename and label of its path, the description of
   * the `name` tag when there is one, and links on the crawl origin.
   */
  lemma ExtractPageBounds(urls: UrlOracle, doc: Doc, url: string, origin: string)
    ensures ExtractPage(urls, doc, url, origin).None? <==> urls.parse(url).None?
    ensures ExtractPage(urls, doc, url, origin).Some? ==>
      var e := ExtractPage(urls, doc, url, origin).value;
      var p := e.page;
      && p.url == url && p.path == urls.parse(url).value.pathname
      && p.filename == PathToFilename(p.path) && p.navLabel == PathToLabel(p.path)
      && |p.headings| <= 20 && NoDup(p.headings)
      && (forall h :: h in p.headings ==> 3 <= |h| < 120)
      && |p.sections| <= 12
      && (forall x :: x in p.sections ==> |x.heading| >= 3 && |x.body| <= 300)
      && |p.bodyPreview| <= 2000
      && (doc.metaDescription.Some? ==> p.description == CleanText(doc.metaDescription.value))
      && (forall l :: l in e.links ==> StartsWith(l, origin))
  {
    if urls.parse(url).Some? {
      LinksOnOrigin(urls, doc.hrefs, origin, url);
    }
  }

  lemma PageHeadings(doc: Doc)
    ensures var hs := DedupeAll([], HeadingCandidates(doc.headingTexts), 20);
      |hs| <= 20 && NoDup(hs) && forall h :: h in hs ==> 3 <= |h| < 120
  {
    DedupeFresh(HeadingCandidates(doc.headingTexts), 20);
  }

  lemma PageSections(doc: Doc)
    ensures var ss := Sections(Prefix(doc.h2s, 12));
      |ss| <= 12 && forall x :: x in ss ==> |x.heading| >= 3 && |x.body| <= 300
  {
  }

  // ---------------------------------------------------------------------
  // extractGlobalData
  // ---------------------------------------------------------------------

  /** The site-wide data read from the root page. */
  datatype Global = Global(
    siteTitle: string,
    siteDescription: string,
    navLinks: seq<NavLink>,
    colors: seq<string>,
    fonts: seq<string>,
    footerLinks: seq<string>,
    lang: string)

  predicate GoodNavLink(l: NavLink) {
    l.text != [] && |l.text| < 50 && l.href != []
  }

  /** The link an anchor of the navigation gives. */
  function NavLinkOf(a: Anchor): NavLink {
    NavLink(CleanText(a.text), a.href.GetOr(""))
  }

  /** One turn of the navigation loop: a good link is kept while there are fewer than 20. */
  function NavStep(acc: seq<NavLink>, link: NavLink): (r: seq<NavLink>)
    ensures |acc| <= |r| <= |acc| + 1 && r[..|acc|] == acc
    ensures |acc| <= 20 ==> |r| <= 20
    ensures forall l :: l in r ==> l in acc || GoodNavLink(l)
  {
    if GoodNavLink(link) && |acc| < 20 then acc + [link] else acc
  }

  /** The navigation loop: a link with non-empty text under 50 characters and an href, while fewer than 20. */
  function NavFold(acc: seq<NavLink>, anchors: seq<Anchor>): (r: seq<NavLink>)
    decreases |anchors|
  {
    if anchors == [] then acc else NavFold(NavStep(acc, NavLinkOf(anchors[0])), anchors[1..])
  }

  lemma {:induction false} NavFoldSpec(acc: seq<NavLink>, anchors: seq<Anchor>)
    requires |acc| <= 20 && forall l :: l in acc ==> GoodNavLink(l)
    ensures var r := NavFold(acc, anchors);
      && |acc| <= |r| <= 20 && r[..|acc|] == acc
      && (forall l :: l in r ==> GoodNavLink(l))
    decreases |anchors|
  {
    if anchors != [] {
      var next := NavStep(acc, NavLinkOf(anchors[0]));
      NavFoldSpec(next, anchors[1..]);
      var r := NavFold(acc, anchors);
      assert r[..|acc|] == r[..|next|][..|acc|];
    }
  }

  /** Footer anchor texts, cleaned, non-empty and shorter than 60. */
  function FooterCandidates(texts: seq<string>): (r: seq<string>)
    ensures forall x :: x in r ==> x != [] && |x| < 60
  {
    if texts == [] then []
    else
      var t := CleanText(texts[0]);
      (if t != [] && |t| < 60 then [t] else []) + FooterCandidates(texts[1..])
  }

  /** The colour tokens of the `style` elements, then the custom-property colours of the source, lower-cased. */
  function ColorCandidates(doc: Doc): seq<string> {
    LowerAll(StyleHexTokens(doc.styleTexts) + VarTokens(doc.html, 0))
  }

  lemma ColorCandidatesLower(doc: Doc)
    ensures forall t :: t in ColorCandidates(doc) ==> IsLowerColor(t)
  {
    var raw := StyleHexTokens(doc.styleTexts) + VarTokens(doc.html, 0);
    StyleHexTokensAreColors(doc.styleTexts);
    VarTokensAreColors(doc.html, 0);
    forall t | t in ColorCandidates(doc) ensures IsLowerColor(t) {
      var k :| 0 <= k < |raw| && t == LowerStr(raw[k]);
      assert raw[k] in raw;
      LowerColor(raw[k]);
    }
  }

  /** `extractGlobalData(html, origin)`. */
  function ExtractGlobal(doc: Doc): Global {
    Global(
      CleanText(doc.title.GetOr("")),
      CleanText(doc.metaDescription.GetOr("")),
      NavFold([], doc.nav.GetOr([])),
      DedupeAll([], ColorCandidates(doc), 30),
      DedupeAll([], GoogleFontNames(doc.googleFamilies) + StyleFontNames(doc.fontCaptures), 8),
      DedupeAll([], FooterCandidates(doc.footer.GetOr([])), 30),
      doc.lang.GetOr("en"))
  }

  /**
   * The bounds on the site-wide data: at most 20 navigation links, each
   * with text under 50 characters and an href; at most 30 distinct
   * lower-case colour tokens; at most 8 distinct non-empty font names; at
   * most 30 distinct footer texts under 60 characters; and `en` when the
   * page declares no language.
   */
  lemma ExtractGlobalBounds(doc: Doc)
    ensures var g := ExtractGlobal(doc);
      && |g.navLinks| <= 20 && (forall l :: l in g.navLinks ==> GoodNavLink(l))
      && |g.colors| <= 30 && NoDup(g.colors) && (forall c :: c in g.colors ==> IsLowerColor(c))
      && |g.fonts| <= 8 && NoDup(g.fonts) && (forall f :: f in g.fonts ==> f != [])
      && |g.footerLinks| <= 30 && NoDup(g.footerLinks) && (forall f :: f in g.footerLinks ==> f != [] && |f| < 60)
      && (doc.lang.None? ==> g.lang == "en")
  {
    NavFoldSpec([], doc.nav.GetOr([]));
    GlobalColors(doc);
    GlobalFonts(doc);
    GlobalFooter(doc);
  }

  /** Deduplicating into an empty list keeps within the bound and takes only given items. */
  lemma DedupeFresh(items: seq<string>, max: nat)
    ensures var r := DedupeAll([], items, max);
      NoDup(r) && |r| <= max && forall x :: x in r ==> x in items
  {
    DedupeAllSpec([], items, max);
  }

  lemma GlobalColors(doc: Doc)
    ensures var cs := DedupeAll([], ColorCandidates(doc), 30);
      |cs| <= 30 && NoDup(cs) && forall c :: c in cs ==> IsLowerColor(c)
  {
    DedupeFresh(ColorCandidates(doc), 30);
    ColorCandidatesLower(doc);
  }

  lemma GlobalFonts(doc: Doc)
    ensures var fs := DedupeAll([], GoogleFontNames(doc.googleFamilies) + StyleFontNames(doc.fontCaptures), 8);
      |fs| <= 8 && NoDup(fs) && forall f :: f in fs ==> f != []
  {
    var names := GoogleFontNames(doc.googleFamilies) + StyleFontNames(doc.fontCaptures);
    DedupeFresh(names, 8);
    assert forall f :: f in names ==> f != [];
  }

  lemma GlobalFooter(doc: Doc)
    ensures var fs := DedupeAll([], FooterCandidates(doc.footer.GetOr([])), 30);
      |fs| <= 30 && NoDup(fs) && forall f :: f in fs ==> f != [] && |f| < 60
  {
    DedupeFresh(FooterCandidates(doc.footer.GetOr([])), 30);
  }
}
