/**
 * The two generators of src/lib/claude.ts: `generateFigmaTheme` (five
 * requests in a fixed order) and `generateUrlSite` (one request per batch of
 * six pages, then one for the shared assets), with the progress reports they
 * make, the prompt summaries they compute and the theme slug.
 *
 * Every request goes through `ask` (module Retry) and reads the API oracle
 * at consecutive positions. Prompt texts are not modelled: a request is
 * identified by what it asks for (`Call`) and, for page batches, by the
 * pages and their summaries.
 */
module Generation {
  import opened Wrappers
  import opened Text
  import opened Retry
  import opened OutputParser
  import opened Types

  /** One `onProgress(message, pct)` call. */
  datatype Report = Report(message: string, pct: int)

  /** What one page of a batch request asks for. */
  datatype PageRequest = PageRequest(filename: string, navLabel: string, summary: string)

  /** The requests the generators make. */
  datatype Call =
    | DesignSystem        // tokens.css + style.css
    | LayoutTemplates     // functions.php, header.php, footer.php
    | PageTemplates       // page.php, single.php, archive.php, index.php
    | UtilityTemplates    // search.php, 404.php, card-post.php
    | ThemeConfig         // ACF field groups and JavaScript
    | HtmlPages(pages: seq<PageRequest>)
    | SiteAssets          // tokens.css, style.css, main.js of a site rebuild

  /** A step of a generator: reports, one `ask`, the files parsed from the answer, reports. */
  datatype Stage = Stage(before: seq<Report>, call: Call, after: seq<Report>)

  /**
   * What a generator run does: the reports it made, the requests it asked
   * for, the answers it got, the error it throws (if any), and how many
   * oracle positions its requests used.
   */
  datatype Run = Run(reports: seq<Report>, calls: seq<Call>, answers: seq<string>, failure: Option<ApiError>, requests: nat)

  /** The files parsed from each answer, in order. */
  function ParsedFiles(answers: seq<string>): seq<GenFile>
    decreases |answers|
  {
    if answers == [] then [] else ParseFiles(answers[0]) + ParsedFiles(answers[1..])
  }

  /** What the generator returns: every answer's files, unless it threw. */
  function Files(r: Run): seq<GenFile> {
    if r.failure.Some? then [] else ParsedFiles(r.answers)
  }

  // ---------------------------------------------------------------------
  // Running a fixed sequence of stages
  // ---------------------------------------------------------------------

  /**
   * Runs the stages in order. An `ask` that throws ends the run: the
   * reports made so far stay made, and the generator returns no files.
   */
  function RunStages(api: nat -> Outcome, next: nat, stages: seq<Stage>): (r: Run)
    ensures |r.calls| <= |stages|
    decreases |stages|
  {
    if stages == [] then Run([], [], [], None, 0)
    else
      var s := stages[0];
      var a := Ask(api, next);
      match a.answer
      case Raised(e) => Run(s.before, [s.call], [], Some(e), a.calls)
      case Answered(t) =>
        var rest := RunStages(api, next + a.calls, stages[1..]);
        Run(s.before + s.after + rest.reports, [s.call] + rest.calls, [t] + rest.answers,
            rest.failure, a.calls + rest.requests)
  }

  /** Every report of the stages, in order: what a run that never fails reports. */
  function AllReports(stages: seq<Stage>): seq<Report>
    decreases |stages|
  {
    if stages == [] then [] else stages[0].before + stages[0].after + AllReports(stages[1..])
  }

  /** Every request of the stages, in order. */
  function CallsOf(stages: seq<Stage>): (r: seq<Call>)
    ensures |r| == |stages|
    decreases |stages|
  {
    if stages == [] then [] else [stages[0].call] + CallsOf(stages[1..])
  }

  lemma {:induction false} CallsOfIndex(stages: seq<Stage>, i: nat)
    requires i < |stages|
    ensures CallsOf(stages)[i] == stages[i].call
    decreases i
  {
    if i > 0 {
      CallsOfIndex(stages[1..], i - 1);
    }
  }

  predicate IsPrefix<T(==)>(a: seq<T>, b: seq<T>) {
    |a| <= |b| && b[..|a|] == a
  }

  /**
   * A run makes a prefix of the stages' requests and of their reports; it
   * either makes them all and has an answer for each, or stops at the
   * request that threw, with an answer for each request before it and no
   * files; the requests use between one and five oracle positions each.
   */
  lemma {:induction false} RunStagesSpec(api: nat -> Outcome, next: nat, stages: seq<Stage>)
    ensures var r := RunStages(api, next, stages);
      && IsPrefix(r.calls, CallsOf(stages))
      && IsPrefix(r.reports, AllReports(stages))
      && (r.failure.None? ==> r.calls == CallsOf(stages) && r.reports == AllReports(stages) && |r.answers| == |stages|)
      && (r.failure.Some? ==> |r.calls| >= 1 && |r.answers| == |r.calls| - 1)
      && |r.calls| <= r.requests <= 5 * |r.calls|
    decreases |stages|
  {
    if stages != [] {
      var s := stages[0];
      var a := Ask(api, next);
      AtMostFiveRequests(api, next);
      var r := RunStages(api, next, stages);
      assert AllReports(stages) == (s.before + s.after) + AllReports(stages[1..]);
      assert CallsOf(stages) == [s.call] + CallsOf(stages[1..]);
      match a.answer
      case Answered(t) =>
        RunStagesSpec(api, next + a.calls, stages[1..]);
        var rest := RunStages(api, next + a.calls, stages[1..]);
        assert r == Run((s.before + s.after) + rest.reports, [s.call] + rest.calls, [t] + rest.answers,
                        rest.failure, a.calls + rest.requests);
        PrefixCons(s.before + s.after, rest.reports, AllReports(stages[1..]));
        PrefixCons([s.call], rest.calls, CallsOf(stages[1..]));
      case Raised(e) =>
        assert r == Run(s.before, [s.call], [], Some(e), a.calls);
        assert AllReports(stages) == s.before + (s.after + AllReports(stages[1..]));
    }
  }

  lemma PrefixCons<T>(x: seq<T>, a: seq<T>, b: seq<T>)
    requires IsPrefix(a, b)
    ensures IsPrefix(x + a, x + b)
  {
    assert (x + b)[..|x + a|] == x + b[..|a|];
  }

  /**
   * When every request is answered with a non-empty reply, the run makes
   * every request and reports everything.
   */
  lemma {:induction false} RunStagesAllAnswered(api: nat -> Outcome, next: nat, stages: seq<Stage>)
    requires forall k :: next <= k ==> api(k).Reply? && |api(k).content| > 0
    ensures RunStages(api, next, stages).failure.None?
    ensures RunStages(api, next, stages).requests == |stages|
    decreases |stages|
  {
    if stages != [] {
      assert api(next).Reply?;
      RunStagesAllAnswered(api, next + 1, stages[1..]);
    }
  }

  /** Progress values never go down. */
  predicate NonDecreasing(reports: seq<Report>) {
    forall i, j :: 0 <= i < j < |reports| ==> reports[i].pct <= reports[j].pct
  }

  function Pcts(reports: seq<Report>): (r: seq<int>)
    ensures |r| == |reports| && forall i :: 0 <= i < |r| ==> r[i] == reports[i].pct
  {
    seq(|reports|, i requires 0 <= i < |reports| => reports[i].pct)
  }

  lemma PrefixNonDecreasing(a: seq<Report>, b: seq<Report>)
    requires IsPrefix(a, b) && NonDecreasing(b)
    ensures NonDecreasing(a)
  {
    forall i, j | 0 <= i < j < |a| ensures a[i].pct <= a[j].pct {
      assert a[i] == b[i] && a[j] == b[j];
    }
  }

  // ---------------------------------------------------------------------
  // generateFigmaTheme
  // ---------------------------------------------------------------------

  function DesignStages(): seq<Stage> {
    [ Stage([Report("Generating design system from Figma colours & typography\U{2026}", 28)], DesignSystem,
            [Report("Design system complete \U{2713}", 45)]),
      Stage([Report("Generating functions.php, header.php, footer.php\U{2026}", 48)], LayoutTemplates,
            [Report("Layout templates done \U{2713}", 55)]),
      Stage([Report("Generating page.php, single.php, archive.php, index.php\U{2026}", 57)], PageTemplates,
            [Report("Page templates done \U{2713}", 63)]),
      Stage([Report("Generating search.php, 404.php, card-post.php\U{2026}", 65)], UtilityTemplates,
            [Report("Utility templates done \U{2713}", 70)]),
      Stage([Report("Generating ACF field groups and JavaScript\U{2026}", 73)], ThemeConfig,
            [Report("All files generated \U{2713}", 95)]) ]
  }

  /** `generateFigmaTheme`, with its first request at oracle position `next`. */
  function GenerateFigmaTheme(api: nat -> Outcome, next: nat): Run {
    RunStages(api, next, DesignStages())
  }

  lemma DesignReports()
    ensures Pcts(AllReports(DesignStages())) == [28, 45, 48, 55, 57, 63, 65, 70, 73, 95]
  {
    var st := DesignStages();
    assert st[1..][1..][1..][1..][1..] == [];
  }

  lemma DesignReportsSorted()
    ensures NonDecreasing(AllReports(DesignStages()))
    ensures |AllReports(DesignStages())| == 10 && AllReports(DesignStages())[0].pct == 28
  {
    DesignReports();
    var all := AllReports(DesignStages());
    var p := Pcts(all);
    forall i, j | 0 <= i < j < |all| ensures all[i].pct <= all[j].pct {
      assert p[i] <= p[j];
    }
    assert p[0] == 28;
  }

  lemma DesignCalls()
    ensures CallsOf(DesignStages()) == [DesignSystem, LayoutTemplates, PageTemplates, UtilityTemplates, ThemeConfig]
  {
    var st := DesignStages();
    assert st[1..][1..][1..][1..][1..] == [];
  }

  /**
   * The design path asks for the design system, the layout, page and
   * utility templates and the theme configuration, in that order, and
   * nothing else; when it succeeds it made exactly these five requests and
   * reported 28, 45, 48, 55, 57, 63, 65, 70, 73, 95. Its progress never goes
   * down, succeed or fail.
   */
  lemma FigmaThemeSequence(api: nat -> Outcome, next: nat)
    ensures var r := GenerateFigmaTheme(api, next);
      && 1 <= |r.calls| <= 5
      && IsPrefix(r.calls, [DesignSystem, LayoutTemplates, PageTemplates, UtilityTemplates, ThemeConfig])
      && NonDecreasing(r.reports)
      && r.reports[0].pct == 28
      && (r.failure.None? ==> |r.calls| == 5 && Pcts(r.reports) == [28, 45, 48, 55, 57, 63, 65, 70, 73, 95])
  {
    var r := GenerateFigmaTheme(api, next);
    RunStagesSpec(api, next, DesignStages());
    DesignReports();
    DesignReportsSorted();
    DesignCalls();
    var all := AllReports(DesignStages());
    PrefixNonDecreasing(r.reports, all);
    assert r.reports[0] == all[0];
  }

  // ---------------------------------------------------------------------
  // Batches of pages
  // ---------------------------------------------------------------------

  const BatchSize: nat := 6

  /** The pages split into consecutive slices of six; the last may be shorter. */
  function Batches<T>(xs: seq<T>): (r: seq<seq<T>>)
    ensures |r| == (|xs| + 5) / 6
    decreases |xs|
  {
    if |xs| == 0 then []
    else if |xs| <= BatchSize then [xs]
    else [xs[..BatchSize]] + Batches(xs[BatchSize..])
  }

  function Flatten<T>(xss: seq<seq<T>>): seq<T>
    decreases |xss|
  {
    if xss == [] then [] else xss[0] + Flatten(xss[1..])
  }

  /**
   * There are ceil(n/6) batches; batch `i` is the slice starting at 6i, of
   * six pages except possibly the last, which has one to six.
   */
  lemma {:induction false} BatchesShape<T>(xs: seq<T>)
    ensures var bs := Batches(xs);
      && |bs| == (|xs| + 5) / 6
      && (forall i :: 0 <= i < |bs| ==> 6 * i < |xs| && bs[i] == xs[6 * i..Min(6 * i + 6, |xs|)])
      && (forall i :: 0 <= i < |bs| ==> 1 <= |bs[i]| <= 6)
      && (forall i :: 0 <= i < |bs| - 1 ==> |bs[i]| == 6)
    decreases |xs|
  {
    if |xs| > BatchSize {
      var rest := xs[BatchSize..];
      BatchesShape(rest);
      var bs := Batches(xs);
      forall i | 0 <= i < |bs| ensures 6 * i < |xs| && bs[i] == xs[6 * i..Min(6 * i + 6, |xs|)] {
        if i > 0 {
          assert bs[i] == Batches(rest)[i - 1];
          var lo := 6 * (i - 1);
          var hi := Min(lo + 6, |rest|);
          assert hi + 6 == Min(6 * i + 6, |xs|);
          assert rest[lo..hi] == xs[lo + 6..hi + 6];
        }
      }
    }
  }

  /** Putting the batches back together gives the pages, in order. */
  lemma {:induction false} BatchesConcat<T>(xs: seq<T>)
    ensures Flatten(Batches(xs)) == xs
    decreases |xs|
  {
    if |xs| > BatchSize {
      BatchesConcat(xs[BatchSize..]);
      assert xs == xs[..BatchSize] + xs[BatchSize..];
    } else if |xs| > 0 {
      assert Flatten(Batches(xs)) == xs + Flatten<T>([]);
    }
  }

  /** The batching loop of `generateUrlSite` (`for (i = 0; i < n; i += 6)`). */
  method BatchLoop<T>(xs: seq<T>) returns (batches: seq<seq<T>>)
    ensures batches == Batches(xs)
  {
    var i := 0;
    batches := [];
    while i < |xs|
      invariant 0 <= i <= |xs| + BatchSize
      invariant batches + Batches(xs[Min(i, |xs|)..]) == Batches(xs)
      decreases |xs| - i
    {
      var rest := xs[i..];
      var b := Prefix(rest, BatchSize);
      assert Batches(rest) == [b] + Batches(xs[Min(i + BatchSize, |xs|)..]) by {
        if |rest| > BatchSize {
          assert rest[BatchSize..] == xs[i + BatchSize..];
          assert b == rest[..BatchSize];
        } else {
          assert xs[Min(i + BatchSize, |xs|)..] == [];
          assert b == rest;
        }
      }
      batches := batches + [b];
      i := i + BatchSize;
    }
  }

  /**
   * The progress of batch `bi` of `nb`: `Math.round(25 + (bi / nb) * 50)`,
   * that is, the integer nearest to 25 + 50·bi/nb, halves rounded up.
   */
  function BatchPct(bi: nat, nb: nat): (r: int)
    requires bi < nb
    ensures 25 <= r <= 75
    ensures 2 * nb * r <= 50 * nb + 100 * bi + nb < 2 * nb * (r + 1)
  {
    var a := 100 * bi + nb;
    var d := 2 * nb;
    var q := a / d;
    DivBounds(a, d);
    assert a < d * 51;
    CancelLeft(d, q, 51);
    assert d * (25 + q) == 50 * nb + d * q;
    assert d * (25 + q + 1) == 50 * nb + d * q + d;
    25 + q
  }

  lemma DivBounds(a: nat, d: nat)
    requires d > 0
    ensures 0 <= a / d && d * (a / d) <= a < d * (a / d) + d
  {
  }

  lemma CancelLeft(d: int, x: int, y: int)
    requires d > 0 && d * x < d * y
    ensures x < y
  {
  }

  /** Later batches never report less. */
  lemma BatchPctMonotone(bi: nat, bj: nat, nb: nat)
    requires bi <= bj < nb
    ensures BatchPct(bi, nb) <= BatchPct(bj, nb)
  {
    var ri := BatchPct(bi, nb);
    var rj := BatchPct(bj, nb);
    var d := 2 * nb;
    // d * ri <= 50nb + 100bi + nb <= 50nb + 100bj + nb < d * (rj + 1)
    CancelLeft(d, ri, rj + 1);
  }

  // ---------------------------------------------------------------------
  // Page summaries (`summarisePage`)
  // ---------------------------------------------------------------------

  const EmDashSep: string := " \U{2014} "

  function SectionLine(s: Section): string {
    "\"" + s.heading + "\": " + Prefix(s.body, 120)
  }

  function SectionLines(secs: seq<Section>): (r: seq<string>)
    ensures |r| == |secs| && forall i :: 0 <= i < |secs| ==> r[i] == SectionLine(secs[i])
  {
    seq(|secs|, i requires 0 <= i < |secs| => SectionLine(secs[i]))
  }

  /**
   * One line describing a page for the batch prompt: its filename, title,
   * first six headings (or `(none)`), and first four sections with the first
   * 120 characters of each body (or, without sections, the first 200
   * characters of the body preview).
   */
  function SummarisePage(p: PageData): string {
    var headings := Join(Prefix(p.headings, 6), " | ");
    var sections := Join(SectionLines(Prefix(p.sections, 4)), " \U{00B7} ");
    p.filename + EmDashSep + "\"" + p.title + "\"" + EmDashSep + "headings: " + (if headings == [] then "(none)" else headings)
      + EmDashSep + "sections: " + (if sections == [] then Prefix(p.bodyPreview, 200) else sections)
  }

  /** The parts of a page a summary can see. */
  predicate SameSummaryInput(p: PageData, q: PageData) {
    && p.filename == q.filename && p.title == q.title
    && Prefix(p.headings, 6) == Prefix(q.headings, 6)
    && |Prefix(p.sections, 4)| == |Prefix(q.sections, 4)|
    && (forall i :: 0 <= i < |Prefix(p.sections, 4)| ==>
          p.sections[i].heading == q.sections[i].heading && Prefix(p.sections[i].body, 120) == Prefix(q.sections[i].body, 120))
    && Prefix(p.bodyPreview, 200) == Prefix(q.bodyPreview, 200)
  }

  /**
   * A summary starts with the filename and quoted title, says `(none)` when
   * the page has no headings, and depends on nothing past the caps: pages
   * that agree on the first six headings, the first four sections (first 120
   * characters of each body) and the first 200 characters of the preview
   * have the same summary.
   */
  lemma SummarisePageSpec(p: PageData, q: PageData)
    ensures StartsWith(SummarisePage(p), p.filename + EmDashSep + "\"" + p.title + "\"" + EmDashSep + "headings: ")
    ensures p.headings == [] ==> StartsWith(SummarisePage(p), p.filename + EmDashSep + "\"" + p.title + "\"" + EmDashSep + "headings: (none)")
    ensures SameSummaryInput(p, q) ==> SummarisePage(p) == SummarisePage(q)
  {
    var head := p.filename + EmDashSep + "\"" + p.title + "\"" + EmDashSep + "headings: ";
    var s := SummarisePage(p);
    assert s[..|head|] == head;
    if p.headings == [] {
      assert s[..|head + "(none)"|] == head + "(none)";
    }
    if SameSummaryInput(p, q) {
      var ps := Prefix(p.sections, 4);
      var qs := Prefix(q.sections, 4);
      forall i | 0 <= i < |ps| ensures SectionLine(ps[i]) == SectionLine(qs[i]) {
        assert ps[i] == p.sections[i] && qs[i] == q.sections[i];
      }
      assert SectionLines(ps) == SectionLines(qs);
    }
  }

  // ---------------------------------------------------------------------
  // generateUrlSite
  // ---------------------------------------------------------------------

  function Request(p: PageData): PageRequest {
    PageRequest(p.filename, p.navLabel, SummarisePage(p))
  }

  function Requests(batch: seq<PageData>): (r: seq<PageRequest>)
    ensures |r| == |batch| && forall i :: 0 <= i < |batch| ==> r[i] == Request(batch[i])
  {
    seq(|batch|, i requires 0 <= i < |batch| => Request(batch[i]))
  }

  /** `Generating HTML pages a–b of n…` for batch `bi`. */
  function BatchMessage(bi: nat, total: nat): string {
    "Generating HTML pages " + NatToString(bi * BatchSize + 1) + "\U{2013}"
      + NatToString(Min((bi + 1) * BatchSize, total)) + " of " + NatToString(total) + "\U{2026}"
  }

  function BatchStages(bs: seq<seq<PageData>>, total: nat): (r: seq<Stage>)
    ensures |r| == |bs|
    ensures forall bi :: 0 <= bi < |bs| ==>
      r[bi] == Stage([Report(BatchMessage(bi, total), BatchPct(bi, |bs|))], HtmlPages(Requests(bs[bi])), [])
  {
    seq(|bs|, bi requires 0 <= bi < |bs| =>
      Stage([Report(BatchMessage(bi, total), BatchPct(bi, |bs|))], HtmlPages(Requests(bs[bi])), []))
  }

  const AssetsStage: Stage :=
    Stage([Report("All HTML pages generated \U{2713}", 77), Report("Generating design system and JavaScript\U{2026}", 80)],
          SiteAssets, [Report("All files generated \U{2713}", 95)])

  function UrlStages(pages: seq<PageData>): seq<Stage> {
    BatchStages(Batches(pages), |pages|) + [AssetsStage]
  }

  /**
   * `generateUrlSite` for a site with the given pages, whose root URL has
   * the host name `rootHost` (`None` when `new URL(rootUrl)` throws), with
   * its first request at oracle position `next`. The shared prompt context
   * takes the contact address from that host name before the first report,
   * so a root URL that does not parse throws before anything is reported or
   * asked.
   */
  function GenerateUrlSite(api: nat -> Outcome, next: nat, rootHost: Option<string>, pages: seq<PageData>): Run {
    if rootHost.None? then Run([], [], [], Some(ApiError(NotApi, InvalidUrl)), 0)
    else RunStages(api, next, UrlStages(pages))
  }

  lemma {:induction false} AllReportsAppend(a: seq<Stage>, b: seq<Stage>)
    ensures AllReports(a + b) == AllReports(a) + AllReports(b)
    decreases |a|
  {
    if a != [] {
      AllReportsAppend(a[1..], b);
      assert (a + b)[1..] == a[1..] + b;
    } else {
      assert a + b == b;
    }
  }

  /** Batch stages report once each, in batch order. */
  lemma {:induction false} AllReportsOfSingles(st: seq<Stage>)
    requires forall i :: 0 <= i < |st| ==> |st[i].before| == 1 && st[i].after == []
    ensures |AllReports(st)| == |st|
    ensures forall i :: 0 <= i < |st| ==> AllReports(st)[i] == st[i].before[0]
    decreases |st|
  {
    if st != [] {
      AllReportsOfSingles(st[1..]);
      assert AllReports(st) == st[0].before + AllReports(st[1..]);
    }
  }

  lemma UrlReportsLayout(pages: seq<PageData>)
    ensures var all := AllReports(UrlStages(pages));
      var nb := (|pages| + 5) / 6;
      && |all| == nb + 3
      && (forall i :: 0 <= i < nb ==> all[i].pct == BatchPct(i, nb))
      && all[nb].pct == 77 && all[nb + 1].pct == 80 && all[nb + 2].pct == 95
  {
    var bs := Batches(pages);
    var nb := |bs|;
    var st := BatchStages(bs, |pages|);
    AllReportsAppend(st, [AssetsStage]);
    AllReportsOfSingles(st);
    var all := AllReports(UrlStages(pages));
    assert AllReports([AssetsStage]) == AssetsStage.before + AssetsStage.after;
    assert all == AllReports(st) + (AssetsStage.before + AssetsStage.after);
  }

  /** Batch progress values followed by 77, 80, 95 never go down and stay within 25..95. */
  lemma BatchThenAssetsSorted(all: seq<Report>, nb: nat)
    requires |all| == nb + 3
    requires forall i :: 0 <= i < nb ==> all[i].pct == BatchPct(i, nb)
    requires all[nb].pct == 77 && all[nb + 1].pct == 80 && all[nb + 2].pct == 95
    ensures forall i :: 0 <= i < |all| ==> 25 <= all[i].pct <= 95
    ensures NonDecreasing(all)
  {
    forall i, j | 0 <= i < j < |all| ensures all[i].pct <= all[j].pct {
      if j < nb {
        BatchPctMonotone(i, j, nb);
      }
    }
  }

  lemma UrlReports(pages: seq<PageData>)
    ensures var all := AllReports(UrlStages(pages));
      var nb := (|pages| + 5) / 6;
      && |all| == nb + 3
      && (forall i :: 0 <= i < |all| ==> 25 <= all[i].pct <= 95)
      && all[|all| - 1].pct == 95
      && NonDecreasing(all)
  {
    UrlReportsLayout(pages);
    BatchThenAssetsSorted(AllReports(UrlStages(pages)), (|pages| + 5) / 6);
  }

  lemma UrlCalls(pages: seq<PageData>)
    ensures var calls := CallsOf(UrlStages(pages));
      var nb := (|pages| + 5) / 6;
      && |calls| == nb + 1
      && (forall i :: 0 <= i < nb ==> calls[i] == HtmlPages(Requests(Batches(pages)[i])))
      && calls[nb] == SiteAssets
  {
    var st := UrlStages(pages);
    var nb := (|pages| + 5) / 6;
    forall i | 0 <= i < nb ensures CallsOf(st)[i] == HtmlPages(Requests(Batches(pages)[i])) {
      CallsOfIndex(st, i);
    }
    CallsOfIndex(st, nb);
  }

  /**
   * A root URL that does not parse throws `Invalid URL` with nothing
   * reported or asked. Otherwise the URL path asks for each batch of six
   * pages in page order, then for the shared assets: ceil(n/6) + 1 requests
   * when it succeeds. Its progress never goes down and stays between 25 and
   * 95; a successful run ends at 95.
   */
  lemma UrlSiteSequence(api: nat -> Outcome, next: nat, rootHost: Option<string>, pages: seq<PageData>)
    ensures var r := GenerateUrlSite(api, next, rootHost, pages);
      rootHost.None? ==> r.reports == [] && r.calls == [] && r.failure == Some(ApiError(NotApi, InvalidUrl))
    ensures var r := GenerateUrlSite(api, next, rootHost, pages);
      var nb := (|pages| + 5) / 6;
      && (rootHost.Some? ==> 1 <= |r.calls|)
      && |r.calls| <= nb + 1
      && (forall i :: 0 <= i < |r.calls| && i < nb ==> r.calls[i] == HtmlPages(Requests(Batches(pages)[i])))
      && NonDecreasing(r.reports)
      && (forall i :: 0 <= i < |r.reports| ==> 25 <= r.reports[i].pct <= 95)
      && (r.failure.None? ==>
            && |r.calls| == nb + 1
            && r.calls[nb] == SiteAssets
            && r.reports[|r.reports| - 1].pct == 95)
  {
    var r := GenerateUrlSite(api, next, rootHost, pages);
    RunStagesSpec(api, next, UrlStages(pages));
    UrlReports(pages);
    UrlCalls(pages);
    var all := AllReports(UrlStages(pages));
    var calls := CallsOf(UrlStages(pages));
    PrefixNonDecreasing(r.reports, all);
    assert forall i :: 0 <= i < |r.calls| ==> r.calls[i] == calls[i];
    assert forall i :: 0 <= i < |r.reports| ==> r.reports[i] == all[i];
  }

  // ---------------------------------------------------------------------
  // Prompt summaries
  // ---------------------------------------------------------------------

  const DefaultPrimaryHex: string := "#1a3cff"
  const DefaultSecondaryHex: string := "#ff6b2b"
  const DefaultFont: string := "Inter"
  const HeadingSize: real := 28.0

  /** What the design prompts are built from. */
  datatype DesignSummary = DesignSummary(
    colors: seq<FigmaColor>,
    primaryHex: string,
    secondaryHex: string,
    primaryFont: string,
    headingFont: string,
    fonts: seq<string>,
    pageNames: seq<string>,
    sections: seq<string>,
    components: seq<string>,
    textStyles: seq<FigmaTextStyle>)

  /** The first text style at least 28px, which `find` returns. */
  function FirstLarge(styles: seq<FigmaTextStyle>): (r: Option<nat>)
    ensures r.Some? ==> r.value < |styles| && styles[r.value].fontSize >= HeadingSize
    ensures r.Some? ==> forall j :: 0 <= j < r.value ==> styles[j].fontSize < HeadingSize
    ensures r.None? ==> forall j :: 0 <= j < |styles| ==> styles[j].fontSize < HeadingSize
    decreases |styles|
  {
    if styles == [] then None
    else if styles[0].fontSize >= HeadingSize then Some(0)
    else match FirstLarge(styles[1..])
      case None => None
      case Some(i) => Some(i + 1)
  }

  /** Every section name of every page, page by page, in order. */
  function FlattenSections(pages: seq<FigmaPage>): (r: seq<string>)
    ensures forall x :: x in r ==> exists i :: 0 <= i < |pages| && x in pages[i].sections
    decreases |pages|
  {
    if pages == [] then []
    else
      var rest := FlattenSections(pages[1..]);
      assert forall x :: x in rest ==> exists i :: 0 <= i < |pages| && x in pages[i].sections by {
        forall x | x in rest ensures exists i :: 0 <= i < |pages| && x in pages[i].sections {
          var i :| 0 <= i < |pages[1..]| && x in pages[1..][i].sections;
          assert pages[i + 1] == pages[1..][i];
        }
      }
      pages[0].sections + rest
  }

  /** Flattening one more page appends its section names after those of the pages before it. */
  lemma {:induction false} FlattenSectionsAppend(pages: seq<FigmaPage>, q: FigmaPage)
    ensures FlattenSections(pages + [q]) == FlattenSections(pages) + q.sections
    decreases |pages|
  {
    if pages == [] {
      assert FlattenSections([q]) == q.sections + FlattenSections([]);
    } else {
      FlattenSectionsAppend(pages[1..], q);
      assert (pages + [q])[1..] == pages[1..] + [q];
    }
  }

  /** Every section name of every page is flattened. */
  lemma {:induction false} FlattenSectionsHas(pages: seq<FigmaPage>, i: nat, x: string)
    requires i < |pages| && x in pages[i].sections
    ensures x in FlattenSections(pages)
    decreases i
  {
    if i > 0 {
      FlattenSectionsHas(pages[1..], i - 1, x);
      assert FlattenSections(pages) == pages[0].sections + FlattenSections(pages[1..]);
    }
  }

  /**
   * The design summary: at most 20 colours, 20 section names, 20 component
   * names and 10 text styles, each the first ones of the design; the first
   * two colours' hex codes, defaulting to `#1a3cff` and `#ff6b2b`; the first
   * style's family, defaulting to `Inter`; the family of the first style of
   * at least 28px for headings, defaulting to the body font; and every
   * family once.
   */
  function SummariseDesign(d: FigmaDesignData): (s: DesignSummary)
    ensures |s.colors| == Min(20, |d.colors|) && s.colors == d.colors[..|s.colors|]
    ensures s.primaryHex == (if |d.colors| >= 1 then d.colors[0].hex else DefaultPrimaryHex)
    ensures s.secondaryHex == (if |d.colors| >= 2 then d.colors[1].hex else DefaultSecondaryHex)
    ensures s.primaryFont == (if |d.textStyles| >= 1 then d.textStyles[0].fontFamily else DefaultFont)
    ensures (exists i :: 0 <= i < |d.textStyles| && d.textStyles[i].fontSize >= HeadingSize)
            ==> (exists i :: 0 <= i < |d.textStyles| && d.textStyles[i].fontSize >= HeadingSize
                    && s.headingFont == d.textStyles[i].fontFamily
                    && forall j :: 0 <= j < i ==> d.textStyles[j].fontSize < HeadingSize)
    ensures (forall i :: 0 <= i < |d.textStyles| ==> d.textStyles[i].fontSize < HeadingSize)
            ==> s.headingFont == s.primaryFont
    ensures NoDup(s.fonts) && forall f :: f in s.fonts <==> exists i :: 0 <= i < |d.textStyles| && d.textStyles[i].fontFamily == f
    ensures |s.pageNames| == |d.pages| && forall i :: 0 <= i < |d.pages| ==> s.pageNames[i] == d.pages[i].name
    ensures s.sections == Prefix(FlattenSections(d.pages), 20)
    ensures |s.sections| <= 20 && forall x :: x in s.sections ==> exists i :: 0 <= i < |d.pages| && x in d.pages[i].sections
    ensures |s.components| == Min(20, |d.components|)
            && forall i :: 0 <= i < |s.components| ==> s.components[i] == d.components[i].name
    ensures |s.textStyles| == Min(10, |d.textStyles|) && s.textStyles == d.textStyles[..|s.textStyles|]
  {
    var styles := d.textStyles;
    var primaryFont := if |styles| >= 1 then styles[0].fontFamily else DefaultFont;
    var comps := Prefix(d.components, 20);
    var sections := FlattenSections(d.pages);
    PrefixIn(sections, 20);
    DesignSummary(
      Prefix(d.colors, 20),
      if |d.colors| >= 1 then d.colors[0].hex else DefaultPrimaryHex,
      if |d.colors| >= 2 then d.colors[1].hex else DefaultSecondaryHex,
      primaryFont,
      HeadingFont(styles, primaryFont),
      Families(styles),
      seq(|d.pages|, i requires 0 <= i < |d.pages| => d.pages[i].name),
      Prefix(sections, 20),
      seq(|comps|, i requires 0 <= i < |comps| => comps[i].name),
      Prefix(styles, 10))
  }

  /** The family of the first style of at least 28px, or `fallback` when there is none. */
  function HeadingFont(styles: seq<FigmaTextStyle>, fallback: string): (r: string)
    ensures (exists i :: 0 <= i < |styles| && styles[i].fontSize >= HeadingSize)
            ==> (exists i :: 0 <= i < |styles| && styles[i].fontSize >= HeadingSize
                    && r == styles[i].fontFamily
                    && forall j :: 0 <= j < i ==> styles[j].fontSize < HeadingSize)
    ensures (forall i :: 0 <= i < |styles| ==> styles[i].fontSize < HeadingSize) ==> r == fallback
  {
    match FirstLarge(styles)
    case Some(i) => styles[i].fontFamily
    case None => fallback
  }

  /** Every font family of the styles once, in first-seen order. */
  function Families(styles: seq<FigmaTextStyle>): (fonts: seq<string>)
    ensures NoDup(fonts) && forall f :: f in fonts <==> exists i :: 0 <= i < |styles| && styles[i].fontFamily == f
  {
    var families := seq(|styles|, i requires 0 <= i < |styles| => styles[i].fontFamily);
    var fonts := Distinct(families);
    assert forall f :: f in fonts <==> exists i :: 0 <= i < |styles| && styles[i].fontFamily == f by {
      forall f ensures f in fonts <==> exists i :: 0 <= i < |styles| && styles[i].fontFamily == f {
        if f in families {
          var i :| 0 <= i < |families| && families[i] == f;
          assert styles[i].fontFamily == f;
        }
        if exists i :: 0 <= i < |styles| && styles[i].fontFamily == f {
          var i :| 0 <= i < |styles| && styles[i].fontFamily == f;
          assert families[i] == f;
        }
      }
    }
    fonts
  }

  lemma PrefixIn(s: seq<string>, n: nat)
    ensures forall x :: x in Prefix(s, n) ==> x in s
  {
    forall x | x in Prefix(s, n) ensures x in s {
      var i :| 0 <= i < |Prefix(s, n)| && Prefix(s, n)[i] == x;
      assert s[i] == x;
    }
  }

  /** What the site-assets prompt is built from. */
  datatype SiteSummary = SiteSummary(colors: seq<string>, fonts: seq<string>, keyHeadings: seq<string>)

  function FirstTwoHeadings(pages: seq<PageData>): (r: seq<string>)
    ensures forall x :: x in r ==> exists i :: 0 <= i < |pages| && x in pages[i].headings
    decreases |pages|
  {
    if pages == [] then []
    else
      var rest := FirstTwoHeadings(pages[1..]);
      assert forall x :: x in rest ==> exists i :: 0 <= i < |pages| && x in pages[i].headings by {
        forall x | x in rest ensures exists i :: 0 <= i < |pages| && x in pages[i].headings {
          var i :| 0 <= i < |pages[1..]| && x in pages[1..][i].headings;
          assert pages[i + 1] == pages[1..][i];
        }
      }
      Prefix(pages[0].headings, 2) + rest
  }

  /**
   * The site summary: the first 15 detected colours, the first 4 fonts, and
   * at most 10 key headings, each one of a page's headings.
   */
  function SummariseSite(site: SiteData): (s: SiteSummary)
    ensures |s.colors| == Min(15, |site.colors|) && s.colors == site.colors[..|s.colors|]
    ensures |s.fonts| == Min(4, |site.fonts|) && s.fonts == site.fonts[..|s.fonts|]
    ensures |s.keyHeadings| <= 10
    ensures forall x :: x in s.keyHeadings ==> exists i :: 0 <= i < |site.pages| && x in site.pages[i].headings
  {
    PrefixIn(FirstTwoHeadings(site.pages), 10);
    SiteSummary(Prefix(site.colors, 15), Prefix(site.fonts, 4), Prefix(FirstTwoHeadings(site.pages), 10))
  }

  // ---------------------------------------------------------------------
  // Theme slug and function prefix
  // ---------------------------------------------------------------------

  /**
   * `themeSlug`: lower-case letters, digits and single inner dashes, keeping
   * every lower-cased letter and digit of the project name in order.
   */
  function ThemeSlug(projectName: string): (r: string)
    ensures IsSlug(r)
    ensures Outside(r, NotLowerAlnum) == Outside(LowerStr(projectName), NotLowerAlnum)
  {
    Slug(projectName)
  }

  /** `fnPrefix`: the slug with every `-` replaced by `_`. */
  function FnPrefix(slug: string): string {
    seq(|slug|, i requires 0 <= i < |slug| => if slug[i] == '-' then '_' else slug[i])
  }

  function UnderscoresToDashes(s: string): string {
    seq(|s|, i requires 0 <= i < |s| => if s[i] == '_' then '-' else s[i])
  }

  /**
   * The function prefix of a theme slug is a valid PHP identifier tail:
   * lower-case letters, digits and single inner underscores, no dash; and
   * turning the underscores back into dashes gives the slug.
   */
  lemma FnPrefixSpec(projectName: string)
    ensures var slug := ThemeSlug(projectName);
      var p := FnPrefix(slug);
      && |p| == |slug|
      && (forall i :: 0 <= i < |p| ==> IsLowerAlnum(p[i]) || p[i] == '_')
      && (|p| > 0 ==> p[0] != '_' && p[|p| - 1] != '_')
      && (forall i :: 0 <= i < |p| - 1 ==> !(p[i] == '_' && p[i + 1] == '_'))
      && UnderscoresToDashes(p) == slug
  {
  }
}
