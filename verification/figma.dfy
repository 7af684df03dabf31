/**
 * Reading a design file (src/lib/figma.ts): colour hex codes, colour names,
 * the file key of a design URL, the walk over the node tree that collects
 * colours and text styles, and what `fetchFigmaData` makes of the API's
 * answer. The HTTP request is an oracle from the file key to a response.
 */
module Figma {
  import opened Wrappers
  import opened Text
  import opened Types

  // ---------------------------------------------------------------------
  // rgbToHex
  // ---------------------------------------------------------------------

  /** `0`-`9` and `a`-`f`. */
  predicate IsLowerHex(c: char) {
    IsDigit(c) || 'a' <= c <= 'f'
  }

  function HexDigitChar(d: nat): (c: char)
    requires d < 16
    ensures IsLowerHex(c)
  {
    if d < 10 then ('0' as int + d) as char else ('a' as int + d - 10) as char
  }

  /** `v.toString(16)`: base-16 digits, lower case, no leading zero. */
  function ToHex(v: nat): (r: string)
    ensures |r| >= 1
    decreases v
  {
    if v < 16 then [HexDigitChar(v)] else ToHex(v / 16) + [HexDigitChar(v % 16)]
  }

  /** `s.padStart(2, '0')`. */
  function PadStart2(s: string): string {
    if |s| >= 2 then s else seq(2 - |s|, _ => '0') + s
  }

  /** One channel: `v.toString(16).padStart(2, '0')`. */
  function Channel2(v: Channel): string {
    PadStart2(ToHex(v))
  }

  /**
   * `rgbToHex(r, g, b)` on channels already scaled and rounded to 0..255:
   * `#` and two lower-case hex digits per channel.
   */
  function RgbToHex(r: Channel, g: Channel, b: Channel): string {
    "#" + Channel2(r) + Channel2(g) + Channel2(b)
  }

  /** The value of a lower-case hex digit. */
  function HexValue(c: char): (v: nat)
    requires IsLowerHex(c)
    ensures v < 16 && HexDigitChar(v) == c
  {
    if '0' <= c <= '9' then c as int - '0' as int else c as int - 'a' as int + 10
  }

  /** Every channel gives exactly two digits: the high and the low half of the byte. */
  lemma Channel2Digits(v: Channel)
    ensures Channel2(v) == [HexDigitChar(v / 16), HexDigitChar(v % 16)]
  {
    if v >= 16 {
      assert ToHex(v / 16) == [HexDigitChar(v / 16)];
    }
  }

  /**
   * The hex code is `#` and six lower-case hex digits, and it reads back as
   * the three channels, so distinct colours get distinct codes.
   */
  lemma RgbToHexSpec(r: Channel, g: Channel, b: Channel)
    ensures var h := RgbToHex(r, g, b);
      && |h| == 7 && h[0] == '#'
      && (forall k :: 1 <= k < 7 ==> IsLowerHex(h[k]))
      && 16 * HexValue(h[1]) + HexValue(h[2]) == r
      && 16 * HexValue(h[3]) + HexValue(h[4]) == g
      && 16 * HexValue(h[5]) + HexValue(h[6]) == b
  {
    Channel2Digits(r);
    Channel2Digits(g);
    Channel2Digits(b);
    var h := RgbToHex(r, g, b);
    assert h == ['#', HexDigitChar(r / 16), HexDigitChar(r % 16), HexDigitChar(g / 16), HexDigitChar(g % 16),
                 HexDigitChar(b / 16), HexDigitChar(b % 16)];
    DigitRoundTrip(r / 16);
    DigitRoundTrip(r % 16);
    DigitRoundTrip(g / 16);
    DigitRoundTrip(g % 16);
    DigitRoundTrip(b / 16);
    DigitRoundTrip(b % 16);
  }

  lemma DigitRoundTrip(d: nat)
    requires d < 16
    ensures HexValue(HexDigitChar(d)) == d
  {
  }

  lemma RgbToHexInjective(r1: Channel, g1: Channel, b1: Channel, r2: Channel, g2: Channel, b2: Channel)
    requires RgbToHex(r1, g1, b1) == RgbToHex(r2, g2, b2)
    ensures r1 == r2 && g1 == g2 && b1 == b2
  {
    RgbToHexSpec(r1, g1, b1);
    RgbToHexSpec(r2, g2, b2);
  }

  // ---------------------------------------------------------------------
  // normalizeName
  // ---------------------------------------------------------------------

  const DefaultColorName: string := "color"

  /** `normalizeName(raw)`: the slug of the name, or `color` when that is empty. */
  function NormalizeName(raw: string): (r: string)
    ensures r != [] && IsSlug(r)
    ensures Slug(raw) != [] ==> r == Slug(raw) && Outside(r, NotLowerAlnum) == Outside(LowerStr(raw), NotLowerAlnum)
    ensures Slug(raw) == [] ==> r == DefaultColorName
  {
    var s := Slug(raw);
    if s != [] then s
    else
      assert forall i :: 0 <= i < |DefaultColorName| ==> IsLowerAlnum(DefaultColorName[i]);
      DefaultColorName
  }

  // ---------------------------------------------------------------------
  // extractFigmaFileKey
  // ---------------------------------------------------------------------

  /** The URL kinds that carry a file key. */
  const KeyKinds: seq<string> := ["design", "file", "proto", "board", "slides"]

  /** The kind that starts at `j`; the kinds begin with different letters, so at most one does. */
  function KindAt(url: string, j: nat): (r: Option<string>)
    ensures r.Some? ==> r.value in KeyKinds && Occurs(url, r.value, j)
  {
    if Occurs(url, "design", j) then Some("design")
    else if Occurs(url, "file", j) then Some("file")
    else if Occurs(url, "proto", j) then Some("proto")
    else if Occurs(url, "board", j) then Some("board")
    else if Occurs(url, "slides", j) then Some("slides")
    else None
  }

  const MinKey: nat := 5
  const MaxKey: nat := 60

  /**
   * `/figma\.com\/(?:design|file|proto|board|slides)\/([a-zA-Z0-9_-]{5,60})/`
   * tried at index `i`: the captured key, the first 60 characters of the
   * run of key characters after the kind and its slash.
   */
  function KeyAt(url: string, i: nat): (r: Option<string>)
    requires i <= |url|
    ensures r.Some? ==> MinKey <= |r.value| <= MaxKey && forall k :: 0 <= k < |r.value| ==> IsNameChar(r.value[k])
  {
    if !Occurs(url, "figma.com/", i) then None
    else match KindAt(url, i + 10)
      case None => None
      case Some(kind) => KeyAfter(url, i + 10 + |kind|)
  }

  /** The capture after the kind: a slash, then 5 or more key characters, of which the first 60. */
  function KeyAfter(url: string, slash: nat): (r: Option<string>)
    ensures r.Some? ==> MinKey <= |r.value| <= MaxKey && forall k :: 0 <= k < |r.value| ==> IsNameChar(r.value[k])
  {
    if slash < |url| && url[slash] == '/' then
      var n := RunLen(url, slash + 1, IsNameChar);
      if n >= MinKey then Some(url[slash + 1..slash + 1 + Min(n, MaxKey)]) else None
    else None
  }

  /** The leftmost match from index `i` on. */
  function FirstKey(url: string, i: nat): (r: Option<string>)
    requires i <= |url|
    decreases |url| - i
  {
    if KeyAt(url, i).Some? then KeyAt(url, i)
    else if i == |url| then None
    else FirstKey(url, i + 1)
  }

  /** `extractFigmaFileKey(url)`. */
  function ExtractFigmaFileKey(url: string): Option<string> {
    FirstKey(url, 0)
  }

  /** A key is found whenever the pattern occurs from index `i` on. */
  lemma {:induction false} FirstKeyFound(url: string, i: nat, j: nat)
    requires i <= j <= |url| && KeyAt(url, j).Some?
    ensures FirstKey(url, i).Some?
    decreases j - i
  {
    if i < j && KeyAt(url, i).None? {
      FirstKeyFound(url, i + 1, j);
    }
  }

  /**
   * A key that is found is the capture of the leftmost occurrence of the
   * pattern: 5 to 60 letters, digits, `_` or `-`.
   */
  lemma {:induction false} FirstKeyLeftmost(url: string, i: nat) returns (j: nat)
    requires i <= |url| && FirstKey(url, i).Some?
    ensures i <= j <= |url| && FirstKey(url, i) == KeyAt(url, j)
    ensures forall k :: i <= k < j ==> KeyAt(url, k).None?
    decreases |url| - i
  {
    if KeyAt(url, i).Some? {
      j := i;
    } else {
      var none := KeyAt(url, i).None?;
      j := FirstKeyLeftmost(url, i + 1);
      forall k | i <= k < j ensures KeyAt(url, k).None? {
        if k == i {
          assert none;
        }
      }
    }
  }

  /**
   * A design link whose host part has no `f` before `figma.com/` gives the
   * key that follows the kind, when nothing but a non-key character ends it.
   */
  lemma DesignLinkKey(pre: string, kind: string, key: string, rest: string)
    requires 'f' !in pre
    requires kind in KeyKinds
    requires MinKey <= |key| <= MaxKey && forall k :: 0 <= k < |key| ==> IsNameChar(key[k])
    requires rest == [] || !IsNameChar(rest[0])
    ensures ExtractFigmaFileKey(pre + "figma.com/" + kind + "/" + key + rest) == Some(key)
  {
    var url := pre + "figma.com/" + kind + "/" + key + rest;
    LinkLayout(pre, kind, key, rest);
    NoMatchBeforeF(url, pre);
    KeyAtLink(url, |pre|, kind, key);
    FirstKeySkip(url, 0, |pre|);
  }

  /** Where each part of a design link sits in it. */
  lemma LinkLayout(pre: string, kind: string, key: string, rest: string)
    ensures var url := pre + "figma.com/" + kind + "/" + key + rest;
      var i := |pre|;
      var k := i + 11 + |kind|;
      && |url| == k + |key| + |rest|
      && url[..i] == pre
      && url[i..i + 10] == "figma.com/"
      && url[i + 10..i + 10 + |kind|] == kind
      && url[i + 10 + |kind|] == '/'
      && url[k..k + |key|] == key
      && (rest != [] ==> url[k + |key|] == rest[0])
  {
    var url := pre + "figma.com/" + kind + "/" + key + rest;
    var i := |pre|;
    var k := i + 11 + |kind|;
    assert forall j :: 0 <= j < 10 ==> url[i + j] == "figma.com/"[j];
    assert forall j :: 0 <= j < |kind| ==> url[i + 10 + j] == kind[j];
    assert forall j :: 0 <= j < |key| ==> url[k + j] == key[j];
  }

  /** The pattern begins with `f`, so no match starts inside a prefix without one. */
  lemma NoMatchBeforeF(url: string, pre: string)
    requires 'f' !in pre && |pre| <= |url| && url[..|pre|] == pre
    ensures forall k :: 0 <= k < |pre| ==> KeyAt(url, k).None?
  {
    forall k | 0 <= k < |pre| ensures KeyAt(url, k).None? {
      assert url[k] == pre[k];
    }
  }

  /** A key of the right length after `figma.com/`, a kind and a slash is the match at that place. */
  lemma KeyAtLink(url: string, i: nat, kind: string, key: string)
    requires i + 11 + |kind| + |key| <= |url|
    requires url[i..i + 10] == "figma.com/"
    requires kind in KeyKinds && url[i + 10..i + 10 + |kind|] == kind
    requires url[i + 10 + |kind|] == '/'
    requires url[i + 11 + |kind|..i + 11 + |kind| + |key|] == key
    requires MinKey <= |key| <= MaxKey && forall k :: 0 <= k < |key| ==> IsNameChar(key[k])
    requires i + 11 + |kind| + |key| == |url| || !IsNameChar(url[i + 11 + |kind| + |key|])
    ensures KeyAt(url, i) == Some(key)
  {
    KindAtOf(url, i + 10, kind);
    var slash := i + 10 + |kind|;
    assert forall j :: slash + 1 <= j < slash + 1 + |key| ==> url[j] == key[j - slash - 1];
    RunLenExact(url, slash + 1, IsNameChar, |key|);
    assert Occurs(url, "figma.com/", i);
    KeyAtOf(url, i, kind);
    KeyAfterOf(url, slash, |key|);
    var capture := url[slash + 1..slash + 1 + |key|];
    assert capture == key;
    assert KeyAt(url, i) == KeyAfter(url, slash) == Some(capture);
  }

  /** Once `figma.com/` and a kind are found at `i`, the match is what follows the kind. */
  lemma KeyAtOf(url: string, i: nat, kind: string)
    requires Occurs(url, "figma.com/", i) && KindAt(url, i + 10) == Some(kind)
    ensures KeyAt(url, i) == KeyAfter(url, i + 10 + |kind|)
  {
  }

  /** After a slash, a run of `n` key characters, 5 to 60 of them, is the capture. */
  lemma KeyAfterOf(url: string, slash: nat, n: nat)
    requires slash < |url| && url[slash] == '/'
    requires RunLen(url, slash + 1, IsNameChar) == n && MinKey <= n <= MaxKey
    ensures KeyAfter(url, slash) == Some(url[slash + 1..slash + 1 + n])
  {
  }

  /** The kind that occurs is the one found: the kinds begin with different letters. */
  lemma KindAtOf(url: string, j: nat, kind: string)
    requires kind in KeyKinds && Occurs(url, kind, j)
    ensures KindAt(url, j) == Some(kind)
  {
    assert url[j] == kind[0];
  }

  lemma {:induction false} FirstKeySkip(url: string, j: nat, i: nat)
    requires j <= i <= |url| && KeyAt(url, i).Some?
    requires forall k :: j <= k < i ==> KeyAt(url, k).None?
    ensures FirstKey(url, j) == KeyAt(url, i)
    decreases i - j
  {
    if j < i {
      FirstKeySkip(url, j + 1, i);
    }
  }

  // ---------------------------------------------------------------------
  // extractFromNode
  // ---------------------------------------------------------------------

  /** A fill colour: channels already scaled to 0..255, and its alpha if it has one. */
  datatype Rgba = Rgba(r: Channel, g: Channel, b: Channel, a: Option<real>)

  /** A paint of a node; `opacity` is `None` when the paint has none. */
  datatype Fill = Fill(kind: string, color: Option<Rgba>, opacity: Option<real>)

  /** A node's text style; a missing or zero number is `None`-like for the defaults. */
  datatype Style = Style(fontFamily: string, fontSize: Option<real>, fontWeight: Option<real>)

  /**
   * A node of the design tree. `name` is `""` when the node has none; a
   * node without fills or children has empty `fills` or `children`.
   */
  datatype Node = Node(name: string, kind: string, fills: seq<Fill>, style: Option<Style>, children: seq<Node>)

  /** The walk does not go below this depth. */
  const MaxDepth: nat := 6

  /** A `SOLID` fill with a colour whose opacity is not 0. */
  predicate Paints(f: Fill) {
    f.kind == "SOLID" && f.color.Some? && f.opacity != Some(0.0)
  }

  function HexOf(c: Rgba): string {
    RgbToHex(c.r, c.g, c.b)
  }

  /** The colours collected so far, keyed by hex in first-seen order. */
  predicate KeysDistinct(colors: seq<FigmaColor>) {
    forall i, j :: 0 <= i < j < |colors| ==> colors[i].hex != colors[j].hex
  }

  predicate HasHex(colors: seq<FigmaColor>, hex: string) {
    exists i :: 0 <= i < |colors| && colors[i].hex == hex
  }

  /** `colors.has(hex) || colors.set(hex, ...)`. */
  function PutColor(colors: seq<FigmaColor>, c: FigmaColor): (r: seq<FigmaColor>)
    ensures KeysDistinct(colors) ==> KeysDistinct(r)
    ensures HasHex(r, c.hex)
    ensures r == colors || r == colors + [c]
  {
    if HasHex(colors, c.hex) then colors
    else
      var r := colors + [c];
      assert r[|colors|].hex == c.hex;
      r
  }

  /** The colour fact of a painting fill of a node named `name`. */
  function ColorFact(name: string, c: Rgba): FigmaColor {
    FigmaColor(NormalizeName(if name == [] then DefaultColorName else name), HexOf(c), c.r, c.g, c.b, c.a.GetOr(1.0))
  }

  function AddFills(colors: seq<FigmaColor>, name: string, fills: seq<Fill>): (r: seq<FigmaColor>)
    decreases |fills|
  {
    if fills == [] then colors
    else
      var next := if Paints(fills[0]) then PutColor(colors, ColorFact(name, fills[0].color.value)) else colors;
      AddFills(next, name, fills[1..])
  }

  /** The text-style key `${ff}-${fs}-${fw}`, as its three parts. */
  function StyleKey(t: FigmaTextStyle): (string, real, real) {
    (t.fontFamily, t.fontSize, t.fontWeight)
  }

  predicate StyleKeysDistinct(styles: seq<FigmaTextStyle>) {
    forall i, j :: 0 <= i < j < |styles| ==> StyleKey(styles[i]) != StyleKey(styles[j])
  }

  predicate HasStyleKey(styles: seq<FigmaTextStyle>, key: (string, real, real)) {
    exists i :: 0 <= i < |styles| && StyleKey(styles[i]) == key
  }

  function PutStyle(styles: seq<FigmaTextStyle>, t: FigmaTextStyle): (r: seq<FigmaTextStyle>)
    ensures StyleKeysDistinct(styles) ==> StyleKeysDistinct(r)
    ensures HasStyleKey(r, StyleKey(t))
    ensures r == styles || r == styles + [t]
  {
    if HasStyleKey(styles, StyleKey(t)) then styles
    else
      var r := styles + [t];
      assert StyleKey(r[|styles|]) == StyleKey(t);
      r
  }

  const DefaultFontFamily: string := "Inter"
  const DefaultFontSize: real := 16.0
  const DefaultFontWeight: real := 400.0

  /** `x || d` on an optional number: a missing or zero value gives the default. */
  function OrDefault(x: Option<real>, d: real): real {
    if x.None? || x.value == 0.0 then d else x.value
  }

  /** The text fact of a `TEXT` node with a style. */
  function TextFact(name: string, s: Style): FigmaTextStyle {
    FigmaTextStyle(
      if name == [] then "text" else name,
      if s.fontFamily == [] then DefaultFontFamily else s.fontFamily,
      OrDefault(s.fontSize, DefaultFontSize),
      OrDefault(s.fontWeight, DefaultFontWeight))
  }

  /** The facts collected by a walk. */
  datatype Facts = Facts(colors: seq<FigmaColor>, styles: seq<FigmaTextStyle>)

  /** What a node itself contributes, before its children. */
  function Visit(acc: Facts, n: Node): Facts {
    var colors := AddFills(acc.colors, n.name, n.fills);
    var styles := if n.kind == "TEXT" && n.style.Some? then PutStyle(acc.styles, TextFact(n.name, n.style.value)) else acc.styles;
    Facts(colors, styles)
  }

  /** `extractFromNode(node, colors, textStyles, depth)`. */
  function Walk(acc: Facts, n: Node, depth: nat): Facts
    decreases n, 1
  {
    if depth > MaxDepth then acc else WalkAll(Visit(acc, n), n.children, depth + 1)
  }

  function WalkAll(acc: Facts, ns: seq<Node>, depth: nat): Facts
    decreases ns, 0
  {
    if ns == [] then acc else WalkAll(Walk(acc, ns[0], depth), ns[1..], depth)
  }

  // ---------------------------------------------------------------------
  // What the walk collects
  // ---------------------------------------------------------------------

  /** `PutColor` over a sequence of facts, in order. */
  function PutColors(colors: seq<FigmaColor>, cs: seq<FigmaColor>): seq<FigmaColor>
    decreases |cs|
  {
    if cs == [] then colors else PutColors(PutColor(colors, cs[0]), cs[1..])
  }

  lemma {:induction false} PutColorsAppend(colors: seq<FigmaColor>, xs: seq<FigmaColor>, ys: seq<FigmaColor>)
    ensures PutColors(colors, xs + ys) == PutColors(PutColors(colors, xs), ys)
    decreases |xs|
  {
    if xs != [] {
      assert (xs + ys)[0] == xs[0] && (xs + ys)[1..] == xs[1..] + ys;
      PutColorsAppend(PutColor(colors, xs[0]), xs[1..], ys);
    } else {
      assert xs + ys == ys;
    }
  }

  /**
   * Putting facts keeps what was there, keeps the hex codes distinct, adds
   * only given facts, and leaves no given hex code out.
   */
  lemma {:induction false} PutColorsSpec(colors: seq<FigmaColor>, cs: seq<FigmaColor>)
    requires KeysDistinct(colors)
    ensures var r := PutColors(colors, cs);
      && KeysDistinct(r)
      && |colors| <= |r| && r[..|colors|] == colors
      && (forall x :: x in r ==> x in colors || x in cs)
      && (forall k :: 0 <= k < |cs| ==> HasHex(r, cs[k].hex))
    decreases |cs|
  {
    if cs != [] {
      var next := PutColor(colors, cs[0]);
      PutColorsSpec(next, cs[1..]);
      var r := PutColors(colors, cs);
      assert r == PutColors(next, cs[1..]);
      assert r[..|colors|] == r[..|next|][..|colors|];
      assert HasHex(r, cs[0].hex) by {
        var i :| 0 <= i < |next| && next[i].hex == cs[0].hex;
        assert r[i] == next[i];
      }
      forall k | 0 <= k < |cs| ensures HasHex(r, cs[k].hex) {
        if k > 0 {
          assert cs[k] == cs[1..][k - 1];
        }
      }
      forall x | x in r ensures x in colors || x in cs {
        if x !in cs[1..] {
          assert x in next;
        }
      }
    }
  }

  /** The colour facts of a node's own painting fills, in order. */
  function PaintedColors(name: string, fills: seq<Fill>): seq<FigmaColor> {
    if fills == [] then []
    else (if Paints(fills[0]) then [ColorFact(name, fills[0].color.value)] else []) + PaintedColors(name, fills[1..])
  }

  lemma {:induction false} AddFillsIsPut(colors: seq<FigmaColor>, name: string, fills: seq<Fill>)
    ensures AddFills(colors, name, fills) == PutColors(colors, PaintedColors(name, fills))
    decreases |fills|
  {
    if fills != [] {
      var next := if Paints(fills[0]) then PutColor(colors, ColorFact(name, fills[0].color.value)) else colors;
      AddFillsIsPut(next, name, fills[1..]);
      var own := if Paints(fills[0]) then [ColorFact(name, fills[0].color.value)] else [];
      PutColorsAppend(colors, own, PaintedColors(name, fills[1..]));
      assert PutColors(colors, own) == next;
    }
  }

  /** The colour facts of a tree in the order the walk meets them, down to the depth limit. */
  function TreeColors(n: Node, depth: nat): seq<FigmaColor>
    decreases n, 1
  {
    if depth > MaxDepth then [] else PaintedColors(n.name, n.fills) + ForestColors(n.children, depth + 1)
  }

  function ForestColors(ns: seq<Node>, depth: nat): seq<FigmaColor>
    decreases ns, 0
  {
    if ns == [] then [] else TreeColors(ns[0], depth) + ForestColors(ns[1..], depth)
  }

  /** The colours of a walk are the colour facts of the tree put in order into what was there. */
  lemma {:induction false} WalkColors(acc: Facts, n: Node, depth: nat)
    ensures Walk(acc, n, depth).colors == PutColors(acc.colors, TreeColors(n, depth))
    decreases n, 1
  {
    if depth <= MaxDepth {
      var v := Visit(acc, n);
      AddFillsIsPut(acc.colors, n.name, n.fills);
      WalkAllColors(v, n.children, depth + 1);
      PutColorsAppend(acc.colors, PaintedColors(n.name, n.fills), ForestColors(n.children, depth + 1));
    }
  }

  lemma {:induction false} WalkAllColors(acc: Facts, ns: seq<Node>, depth: nat)
    ensures WalkAll(acc, ns, depth).colors == PutColors(acc.colors, ForestColors(ns, depth))
    decreases ns, 0
  {
    if ns != [] {
      var a1 := Walk(acc, ns[0], depth);
      WalkColors(acc, ns[0], depth);
      WalkAllColors(a1, ns[1..], depth);
      PutColorsAppend(acc.colors, TreeColors(ns[0], depth), ForestColors(ns[1..], depth));
    }
  }

  /** Below the depth limit a node contributes nothing. */
  lemma TooDeep(acc: Facts, n: Node, depth: nat)
    requires depth > MaxDepth
    ensures Walk(acc, n, depth) == acc && TreeColors(n, depth) == []
  {
  }

  /**
   * A walk only adds: the colours and text styles found before are kept
   * as they were (first seen wins), and keys stay distinct.
   */
  lemma {:induction false} WalkGrows(acc: Facts, n: Node, depth: nat)
    requires KeysDistinct(acc.colors) && StyleKeysDistinct(acc.styles)
    ensures var r := Walk(acc, n, depth);
      && KeysDistinct(r.colors) && StyleKeysDistinct(r.styles)
      && |acc.colors| <= |r.colors| && r.colors[..|acc.colors|] == acc.colors
      && |acc.styles| <= |r.styles| && r.styles[..|acc.styles|] == acc.styles
    decreases n, 1
  {
    if depth <= MaxDepth {
      var v := Visit(acc, n);
      AddFillsIsPut(acc.colors, n.name, n.fills);
      PutColorsSpec(acc.colors, PaintedColors(n.name, n.fills));
      WalkAllGrows(v, n.children, depth + 1);
      var r := Walk(acc, n, depth);
      assert r.colors[..|acc.colors|] == r.colors[..|v.colors|][..|acc.colors|];
      assert r.styles[..|acc.styles|] == r.styles[..|v.styles|][..|acc.styles|];
    }
  }

  lemma {:induction false} WalkAllGrows(acc: Facts, ns: seq<Node>, depth: nat)
    requires KeysDistinct(acc.colors) && StyleKeysDistinct(acc.styles)
    ensures var r := WalkAll(acc, ns, depth);
      && KeysDistinct(r.colors) && StyleKeysDistinct(r.styles)
      && |acc.colors| <= |r.colors| && r.colors[..|acc.colors|] == acc.colors
      && |acc.styles| <= |r.styles| && r.styles[..|acc.styles|] == acc.styles
    decreases ns, 0
  {
    if ns != [] {
      var a1 := Walk(acc, ns[0], depth);
      WalkGrows(acc, ns[0], depth);
      WalkAllGrows(a1, ns[1..], depth);
      var r := WalkAll(acc, ns, depth);
      assert r.colors[..|acc.colors|] == r.colors[..|a1.colors|][..|acc.colors|];
      assert r.styles[..|acc.styles|] == r.styles[..|a1.styles|][..|acc.styles|];
    }
  }

  /**
   * A colour with and without an explicit alpha of 1 is one fact: the key
   * is the hex code of the channels, and the first fill's fact is kept.
   */
  lemma AlphaDoesNotSplit(colors: seq<FigmaColor>, name: string, r: Channel, g: Channel, b: Channel)
    requires !HasHex(colors, RgbToHex(r, g, b))
    ensures var plain := Fill("SOLID", Some(Rgba(r, g, b, None)), None);
      var withAlpha := Fill("SOLID", Some(Rgba(r, g, b, Some(1.0))), None);
      AddFills(colors, name, [plain, withAlpha]) == colors + [ColorFact(name, Rgba(r, g, b, None))]
  {
    var plain := Fill("SOLID", Some(Rgba(r, g, b, None)), None);
    var withAlpha := Fill("SOLID", Some(Rgba(r, g, b, Some(1.0))), None);
    var once := colors + [ColorFact(name, Rgba(r, g, b, None))];
    assert AddFills(colors, name, [plain, withAlpha]) == AddFills(once, name, [withAlpha]);
    assert once[|colors|].hex == RgbToHex(r, g, b);
    assert AddFills(once, name, [withAlpha]) == AddFills(once, name, []);
  }

  /** A fill that is not solid, has no colour or has opacity 0 adds nothing. */
  lemma NonPaintingFill(colors: seq<FigmaColor>, name: string, f: Fill)
    requires !Paints(f)
    ensures AddFills(colors, name, [f]) == colors
  {
    assert AddFills(colors, name, [f]) == AddFills(colors, name, []);
  }

  /** A style without family, size or weight is keyed `Inter`, 16, 400; a zero size counts as missing. */
  lemma TextDefaults(name: string, w: Option<real>)
    ensures var t := TextFact(name, Style("", None, w));
      && StyleKey(t) == (DefaultFontFamily, DefaultFontSize, OrDefault(w, DefaultFontWeight))
      && (name == [] ==> t.name == "text")
    ensures TextFact(name, Style("", Some(0.0), w)) == TextFact(name, Style("", None, w))
  {
  }

  // ---------------------------------------------------------------------
  // Text styles sorted by size
  // ---------------------------------------------------------------------

  predicate SortedBySize(s: seq<FigmaTextStyle>) {
    forall i, j :: 0 <= i < j < |s| ==> s[i].fontSize >= s[j].fontSize
  }

  /** Inserts `x` after every element at least as large: the stable place for a later element. */
  function InsertBySize(s: seq<FigmaTextStyle>, x: FigmaTextStyle): (r: seq<FigmaTextStyle>)
    ensures multiset(r) == multiset(s) + multiset{x}
    decreases |s|
  {
    if s == [] then [x]
    else if s[0].fontSize >= x.fontSize then
      assert s == [s[0]] + s[1..];
      [s[0]] + InsertBySize(s[1..], x)
    else [x] + s
  }

  predicate AtMost(s: seq<FigmaTextStyle>, b: real) {
    forall i :: 0 <= i < |s| ==> s[i].fontSize <= b
  }

  lemma {:induction false} InsertAtMost(s: seq<FigmaTextStyle>, x: FigmaTextStyle, b: real)
    requires AtMost(s, b) && x.fontSize <= b
    ensures AtMost(InsertBySize(s, x), b)
    decreases |s|
  {
    if s != [] && s[0].fontSize >= x.fontSize {
      InsertAtMost(s[1..], x, b);
    }
  }

  lemma {:induction false} InsertSorted(s: seq<FigmaTextStyle>, x: FigmaTextStyle)
    requires SortedBySize(s)
    ensures SortedBySize(InsertBySize(s, x))
    decreases |s|
  {
    if s != [] && s[0].fontSize >= x.fontSize {
      InsertSorted(s[1..], x);
      InsertAtMost(s[1..], x, s[0].fontSize);
    }
  }

  /** `.sort((a, b) => b.fontSize - a.fontSize)`, which is stable: insertion of each style in turn. */
  function SortBySize(s: seq<FigmaTextStyle>): (r: seq<FigmaTextStyle>)
    ensures multiset(r) == multiset(s)
    decreases |s|
  {
    if s == [] then []
    else
      assert s == s[..|s| - 1] + [s[|s| - 1]];
      InsertBySize(SortBySize(s[..|s| - 1]), s[|s| - 1])
  }

  /** The sort is a permutation that orders by size, largest first. */
  lemma {:induction false} SortBySizeSpec(s: seq<FigmaTextStyle>)
    ensures multiset(SortBySize(s)) == multiset(s) && SortedBySize(SortBySize(s))
    decreases |s|
  {
    if s != [] {
      SortBySizeSpec(s[..|s| - 1]);
      InsertSorted(SortBySize(s[..|s| - 1]), s[|s| - 1]);
    }
  }

  // ---------------------------------------------------------------------
  // fetchFigmaData
  // ---------------------------------------------------------------------

  /** The parts of a `GET /v1/files/:key` body the processing reads; an absent component map is `[]`. */
  datatype FileBody = FileBody(name: string, document: Option<Node>, components: seq<FigmaComponent>)

  /** What the request gives back: a thrown error (a timeout included) or an HTTP response. */
  datatype Reply = Thrown(message: string) | Answered(status: int, statusText: string, body: FileBody)

  /** The Figma API as seen from here: file key and token to a reply. */
  type FigmaApi = (string, string) -> Reply

  const InvalidFigmaUrl: string := "Invalid Figma URL. Use a link like: https://www.figma.com/design/FILEID/Project-Name"
  const TimeoutMessage: string := "Figma API timed out. Check your connection and try again."

  /** `res.ok`. */
  predicate IsOk(status: int) {
    200 <= status <= 299
  }

  /** The message for a thrown request; one that mentions a timeout passes through unchanged. */
  function ThrownMessage(msg: string): string {
    if Contains(msg, "timed out") then msg else "Could not reach Figma API: " + msg
  }

  /** The error for a response that is not to be processed. */
  function StatusError(status: int, statusText: string, key: string): Option<string> {
    if status == 400 then
      Some("Figma API rejected the request. The file key \"" + key + "\" may be invalid — copy the URL directly from your browser while the file is open.")
    else if status == 401 then
      Some("Figma token invalid. Generate a new one at figma.com → Account Settings → Personal access tokens.")
    else if status == 403 then
      Some("No access to this Figma file. Make sure you have at least \"can view\" permission.")
    else if status == 404 then
      Some("Figma file not found. Check the URL is correct and the file exists.")
    else if status == 405 then
      Some("Figma API returned 405 for key \"" + key + "\". Try opening the file in Figma and copying the full URL from the browser address bar.")
    else if !IsOk(status) then
      Some("Figma API error " + IntToString(status) + " — " + (if statusText == [] then "unknown error" else statusText) + ". Try again or check your token.")
    else None
  }

  const SectionKinds: seq<string> := ["FRAME", "COMPONENT", "COMPONENT_SET", "GROUP"]
  const MaxPages: nat := 8
  const MaxFrames: nat := 20
  const MaxSections: nat := 12
  const MaxComponents: nat := 40
  const MaxColors: nat := 40
  const MaxTextStyles: nat := 20
  const DefaultFileName: string := "Figma Design"

  /** The names of the frames that count as sections, in order. */
  function SectionNames(frames: seq<Node>): (r: seq<string>)
    ensures |r| <= |frames|
    ensures forall s :: s in r <==> exists k :: 0 <= k < |frames| && frames[k].kind in SectionKinds && frames[k].name == s
  {
    if frames == [] then []
    else
      var rest := SectionNames(frames[1..]);
      assert forall k :: 0 < k < |frames| ==> frames[k] == frames[1..][k - 1];
      (if frames[0].kind in SectionKinds then [frames[0].name] else []) + rest
  }

  /** `{ name, sections: sections.slice(0, 12) }` for one page. */
  function PageOf(page: Node): FigmaPage {
    FigmaPage(page.name, Prefix(SectionNames(Prefix(page.children, MaxFrames)), MaxSections))
  }

  function PagesOf(pages: seq<Node>): (r: seq<FigmaPage>)
    ensures |r| == |pages| && forall k :: 0 <= k < |pages| ==> r[k] == PageOf(pages[k])
  {
    if pages == [] then [] else [PageOf(pages[0])] + PagesOf(pages[1..])
  }

  /** The walk over the first frames of every page, from depth 0, in page order. */
  function WalkPages(acc: Facts, pages: seq<Node>): Facts
    decreases |pages|
  {
    if pages == [] then acc else WalkPages(WalkAll(acc, Prefix(pages[0].children, MaxFrames), 0), pages[1..])
  }

  /** The colour facts of the walked frames of every page, in walk order. */
  function PagesColors(pages: seq<Node>): seq<FigmaColor> {
    if pages == [] then [] else ForestColors(Prefix(pages[0].children, MaxFrames), 0) + PagesColors(pages[1..])
  }

  /** `Object.values(components).slice(0, 40)` without the nameless ones. */
  function NamedComponents(cs: seq<FigmaComponent>): (r: seq<FigmaComponent>)
    ensures |r| <= |cs|
    ensures forall c :: c in r <==> c in cs && c.name != []
  {
    if cs == [] then []
    else (if cs[0].name != [] then [cs[0]] else []) + NamedComponents(cs[1..])
  }

  /** The pages a body's document offers to the processing. */
  function PagesOfBody(body: FileBody): seq<Node> {
    if body.document.Some? then Prefix(body.document.value.children, MaxPages) else []
  }

  /** The design data of a file body. */
  function Process(body: FileBody): FigmaDesignData {
    var pages := PagesOfBody(body);
    var facts := WalkPages(Facts([], []), pages);
    FigmaDesignData(
      if body.name == [] then DefaultFileName else body.name,
      Prefix(facts.colors, MaxColors),
      Prefix(SortBySize(facts.styles), MaxTextStyles),
      PagesOf(pages),
      NamedComponents(Prefix(body.components, MaxComponents)))
  }

  /** `fetchFigmaData(fileUrl, token)`. */
  function FetchFigmaData(api: FigmaApi, fileUrl: string, token: string): Result<FigmaDesignData> {
    match ExtractFigmaFileKey(fileUrl)
    case None => Err(InvalidFigmaUrl)
    case Some(key) =>
      match api(key, token)
      case Thrown(msg) => Err(ThrownMessage(msg))
      case Answered(status, statusText, body) =>
        match StatusError(status, statusText, key)
        case Some(msg) => Err(msg)
        case None => Ok(Process(body))
  }

  /**
   * Data comes back exactly when the link holds a file key and the API
   * answers with a 2xx status; an unusable link fails before any request.
   */
  lemma FetchFigmaDataSpec(api: FigmaApi, fileUrl: string, token: string)
    ensures FetchFigmaData(api, fileUrl, token).Ok? <==>
      (ExtractFigmaFileKey(fileUrl).Some?
       && api(ExtractFigmaFileKey(fileUrl).value, token).Answered?
       && IsOk(api(ExtractFigmaFileKey(fileUrl).value, token).status))
    ensures ExtractFigmaFileKey(fileUrl).None? ==> FetchFigmaData(api, fileUrl, token) == Err(InvalidFigmaUrl)
    ensures ExtractFigmaFileKey(fileUrl).Some? && api(ExtractFigmaFileKey(fileUrl).value, token).Thrown? ==>
      FetchFigmaData(api, fileUrl, token) == Err(ThrownMessage(api(ExtractFigmaFileKey(fileUrl).value, token).message))
  {
    match ExtractFigmaFileKey(fileUrl)
    case None =>
    case Some(key) =>
      var answer := api(key, token);
      if answer.Answered? {
        StatusErrorSpec(answer.status, answer.statusText, key);
      }
  }

  /** A status outside 2xx is always an error, and a 2xx status never is. */
  lemma StatusErrorSpec(status: int, statusText: string, key: string)
    ensures StatusError(status, statusText, key).None? <==> IsOk(status)
  {
    if IsOk(status) {
      assert status != 400 && status != 401 && status != 403 && status != 404 && status != 405;
    }
  }

  /** The timeout error reaches the caller word for word; any other thrown error is prefixed. */
  lemma ThrownMessageSpec(msg: string)
    ensures Contains(msg, "timed out") ==> ThrownMessage(msg) == msg
    ensures !Contains(msg, "timed out") ==> StartsWith(ThrownMessage(msg), "Could not reach Figma API: ") && EndsWith(ThrownMessage(msg), msg)
  {
  }

  lemma {:induction false} WalkPagesColors(acc: Facts, pages: seq<Node>)
    ensures WalkPages(acc, pages).colors == PutColors(acc.colors, PagesColors(pages))
    decreases |pages|
  {
    if pages != [] {
      var frames := Prefix(pages[0].children, MaxFrames);
      var a1 := WalkAll(acc, frames, 0);
      WalkAllColors(acc, frames, 0);
      WalkPagesColors(a1, pages[1..]);
      PutColorsAppend(acc.colors, ForestColors(frames, 0), PagesColors(pages[1..]));
    }
  }

  lemma {:induction false} WalkPagesDistinct(acc: Facts, pages: seq<Node>)
    requires KeysDistinct(acc.colors) && StyleKeysDistinct(acc.styles)
    ensures KeysDistinct(WalkPages(acc, pages).colors) && StyleKeysDistinct(WalkPages(acc, pages).styles)
    decreases |pages|
  {
    if pages != [] {
      var a1 := WalkAll(acc, Prefix(pages[0].children, MaxFrames), 0);
      WalkAllGrows(acc, Prefix(pages[0].children, MaxFrames), 0);
      WalkPagesDistinct(a1, pages[1..]);
    }
  }

  /**
   * The file's name, `Figma Design` when it has none; at most 8 pages, each
   * of at most 12 sections named after frames of a section kind among the
   * page's first 20; at most 40 named components of the file.
   */
  lemma ProcessShape(body: FileBody)
    ensures var d := Process(body);
      && (body.name == [] ==> d.fileName == DefaultFileName)
      && (body.name != [] ==> d.fileName == body.name)
      && |d.pages| <= MaxPages
      && (forall k :: 0 <= k < |d.pages| ==> |d.pages[k].sections| <= MaxSections && d.pages[k].name == PagesOfBody(body)[k].name)
      && (forall k, s :: 0 <= k < |d.pages| && s in d.pages[k].sections ==>
            exists f :: f in Prefix(PagesOfBody(body)[k].children, MaxFrames) && f.kind in SectionKinds && f.name == s)
      && |d.components| <= MaxComponents
      && (forall c :: c in d.components ==> c.name != [] && c in body.components)
  {
    var d := Process(body);
    assert forall c :: c in d.components ==> c in Prefix(body.components, MaxComponents);
    forall k, s | 0 <= k < |d.pages| && s in d.pages[k].sections
      ensures exists f :: f in Prefix(PagesOfBody(body)[k].children, MaxFrames) && f.kind in SectionKinds && f.name == s
    {
      var frames := Prefix(PagesOfBody(body)[k].children, MaxFrames);
      assert d.pages[k] == PageOf(PagesOfBody(body)[k]);
      assert s in SectionNames(frames);
      var j :| 0 <= j < |frames| && frames[j].kind in SectionKinds && frames[j].name == s;
      assert frames[j] in frames;
    }
  }

  /**
   * At most 40 colours with distinct hex codes, exactly the first 40
   * distinct colour facts of the walked frames; at most 20 text styles,
   * largest first, all found by the walk.
   */
  lemma ProcessFacts(body: FileBody)
    ensures var d := Process(body);
      && d.colors == Prefix(PutColors([], PagesColors(PagesOfBody(body))), MaxColors)
      && |d.colors| <= MaxColors && KeysDistinct(d.colors)
      && |d.textStyles| <= MaxTextStyles && SortedBySize(d.textStyles)
      && (forall t :: t in d.textStyles ==> t in WalkPages(Facts([], []), PagesOfBody(body)).styles)
  {
    ProcessColors(body);
    ProcessStyles(body);
  }

  lemma ProcessColors(body: FileBody)
    ensures var d := Process(body);
      && d.colors == Prefix(PutColors([], PagesColors(PagesOfBody(body))), MaxColors)
      && KeysDistinct(d.colors)
  {
    var facts := WalkPages(Facts([], []), PagesOfBody(body));
    WalkPagesColors(Facts([], []), PagesOfBody(body));
    WalkPagesDistinct(Facts([], []), PagesOfBody(body));
    assert Process(body).colors == Prefix(facts.colors, MaxColors);
  }

  lemma ProcessStyles(body: FileBody)
    ensures var d := Process(body);
      && |d.textStyles| <= MaxTextStyles && SortedBySize(d.textStyles)
      && (forall t :: t in d.textStyles ==> t in WalkPages(Facts([], []), PagesOfBody(body)).styles)
  {
    var facts := WalkPages(Facts([], []), PagesOfBody(body));
    var sorted := SortBySize(facts.styles);
    SortBySizeSpec(facts.styles);
    var styles := Process(body).textStyles;
    assert styles == Prefix(sorted, MaxTextStyles);
    forall t | t in styles ensures t in facts.styles {
      assert t in multiset(sorted);
    }
  }
}
