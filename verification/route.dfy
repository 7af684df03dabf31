/**
 * The generate endpoint (`POST` in src/app/api/generate/route.ts): the
 * server-sent events one request produces, from the guards through the
 * Figma fetch or the site crawl (with its fallback when the crawl fails)
 * and the generator run, to the packaged file list.
 *
 * Everything the endpoint waits on is an input: whether the API key is
 * configured, what `fetchFigmaData` gave for a link and token (module
 * Figma computes it from the Figma API), what `crawlSite` gave for a
 * source (module Crawler), the model API the generators ask, and what
 * `new URL` makes of a string.
 */
module GenerateRoute {
  import opened Wrappers
  import opened Text
  import opened Types
  import opened Retry
  import opened OutputParser
  import opened Generation
  import opened Figma
  import opened Scraper
  import opened Crawler

  /** One `data:` line of the stream. */
  datatype Event = Status(message: string, progress: int) | Complete(files: seq<OutputFile>) | Error(message: string)

  /** The request body; `figmaToken` is `None` when absent. */
  datatype Request = Request(mode: ProjectMode, source: string, figmaToken: Option<string>, projectName: string)

  /** What `crawlSite(source, 30, onProgress)` gave: its result (an `Err` is a throw) and its progress messages. */
  datatype Crawl = Crawl(result: Result<SiteData>, messages: seq<string>)

  /** The parts of a parsed `URL` the endpoint reads. */
  datatype Host = Host(hostname: string, origin: string)

  /**
   * The world as the endpoint sees it: `fetchFigma(link, token)` is the
   * outcome of `fetchFigmaData`, `crawl(source)` that of `crawlSite(source, 30)`.
   */
  datatype Env = Env(
    hasApiKey: bool,
    fetchFigma: (string, string) -> Result<FigmaDesignData>,
    claude: nat -> Outcome,
    crawl: string -> Crawl,
    hosts: string -> Option<Host>)

  const ApiKeyMissing: string := "ANTHROPIC_API_KEY is not set in .env.local. Add your key and restart the dev server."
  const Starting: string := "Starting generation\U{2026}"
  const TokenRequired: string := "A Figma API token is required. Generate one at figma.com \U{2192} Account Settings \U{2192} Personal access tokens."
  const Connecting: string := "Connecting to Figma API\U{2026}"
  const UrlRequired: string := "A target URL is required."
  const NoFiles: string := "Claude did not return any parseable files. Try again."
  const Packaging: string := "Packaging files\U{2026}"
  const Dash: string := " \U{2014} "

  predicate IsTerminal(e: Event) {
    e.Complete? || e.Error?
  }

  /** Status events followed by exactly one terminal event. */
  predicate WellFormed(events: seq<Event>) {
    |events| >= 1 && IsTerminal(events[|events| - 1])
    && forall i :: 0 <= i < |events| - 1 ==> events[i].Status?
  }

  predicate AllStatus(events: seq<Event>) {
    forall i :: 0 <= i < |events| ==> events[i].Status?
  }

  lemma AllStatusAppend(a: seq<Event>, b: seq<Event>)
    requires AllStatus(a) && AllStatus(b)
    ensures AllStatus(a + b)
  {
    assert forall i :: |a| <= i < |a + b| ==> (a + b)[i] == b[i - |a|];
  }

  /** `!s?.trim()`. */
  predicate Blank(s: Option<string>) {
    s.None? || Trim(s.value) == []
  }

  // ---------------------------------------------------------------------
  // toOutputFiles
  // ---------------------------------------------------------------------

  /** `name.split('.').pop().toLowerCase()`: the lower-cased text after the last dot, or the whole name. */
  function Extension(name: string): (ext: string)
    ensures |ext| <= |name| && '.' !in ext
    ensures '.' !in name ==> ext == LowerStr(name)
    ensures '.' in name ==> |ext| < |name| && name[|name| - |ext| - 1] == '.' && ext == LowerStr(name[|name| - |ext|..])
  {
    var tail := AfterLast(name, '.');
    assert forall i :: 0 <= i < |tail| ==> LowerStr(tail)[i] == Lower(tail[i]) && tail[i] != '.';
    LowerStr(tail)
  }

  /** `EXT_TYPE[ext] ?? 'html'`. */
  function TypeOf(ext: string): FileType {
    if ext == "css" then Css
    else if ext == "php" then Php
    else if ext == "json" then Json
    else if ext == "js" then Js
    else if ext == "md" then Md
    else Html
  }

  const TypedExtensions: seq<string> := ["css", "php", "json", "js", "md"]
  const IconExtensions: seq<string> := ["css", "php", "json", "js", "zip"]

  const PageIcon: string := "\U{1F4C4}"
  const ZipIcon: string := "\U{1F4E6}"

  /** `ICON[ext] ?? '📄'`. */
  function IconOf(ext: string): string {
    if ext == "css" then "\U{1F3A8}"
    else if ext == "php" then "\U{2699}\U{FE0F}"
    else if ext == "json" then "\U{1F4CB}"
    else if ext == "js" then "\U{1F4DC}"
    else if ext == "zip" then ZipIcon
    else PageIcon
  }

  /** Bytes of a character in UTF-8. */
  function Utf8Width(c: char): nat {
    if c as int < 0x80 then 1 else if c as int < 0x800 then 2 else if c as int < 0x10000 then 3 else 4
  }

  /** `new TextEncoder().encode(s).length`. */
  function Utf8Length(s: string): nat {
    if s == [] then 0 else Utf8Width(s[0]) + Utf8Length(s[1..])
  }

  /** `s.length`: UTF-16 code units. */
  function Utf16Length(s: string): nat {
    if s == [] then 0 else (if s[0] as int < 0x10000 then 1 else 2) + Utf16Length(s[1..])
  }

  /** `num / den` to the nearest tenth, a tie going up: what `toFixed(1)` gives for an exact value. */
  function Tenths(num: nat, den: nat): (n: nat)
    requires den > 0
    ensures den * (2 * n - 1) <= 2 * num < den * (2 * n + 1)
  {
    var n := (2 * num + den) / (2 * den);
    assert 2 * den * n <= 2 * num + den < 2 * den * (n + 1);
    n
  }

  /** Tenths written with one decimal. */
  function Fixed1(tenths: nat): string {
    NatToString(tenths / 10) + "." + [DigitChar(tenths % 10)]
  }

  /** The size label of a file of `bytes` bytes. */
  function SizeLabel(bytes: nat): string {
    if bytes < 1024 then NatToString(bytes) + " B" else Fixed1(Tenths(10 * bytes, 1024)) + " KB"
  }

  function OutputOf(f: GenFile): (o: OutputFile)
    ensures o.name == f.name && o.content == f.content
  {
    var ext := Extension(f.name);
    OutputFile(f.name, IconOf(ext), TypeOf(ext), SizeLabel(Utf8Length(f.content)), f.content)
  }

  /** `toOutputFiles`. */
  function ToOutputFiles(fs: seq<GenFile>): (r: seq<OutputFile>)
    ensures |r| == |fs| && forall i :: 0 <= i < |fs| ==> r[i] == OutputOf(fs[i])
  {
    seq(|fs|, i requires 0 <= i < |fs| => OutputOf(fs[i]))
  }

  /**
   * The files keep their order, names and contents; the type follows the
   * extension (`html` when it is not a known one) and an unknown
   * extension shows the page icon.
   */
  lemma ToOutputFilesSpec(fs: seq<GenFile>)
    ensures var r := ToOutputFiles(fs);
      && |r| == |fs|
      && (forall i :: 0 <= i < |fs| ==> r[i].name == fs[i].name && r[i].content == fs[i].content)
      && (forall i :: 0 <= i < |fs| ==>
            && (Extension(fs[i].name) !in TypedExtensions <==> r[i].fileType == Html)
            && (Extension(fs[i].name) !in IconExtensions ==> r[i].icon == PageIcon))
  {
    forall i | 0 <= i < |fs|
      ensures Extension(fs[i].name) !in TypedExtensions <==> ToOutputFiles(fs)[i].fileType == Html
      ensures Extension(fs[i].name) !in IconExtensions ==> ToOutputFiles(fs)[i].icon == PageIcon
    {
      TypeOfSpec(Extension(fs[i].name));
    }
  }

  /** Only the extensions of the table have a type of their own; the rest are `html`. */
  lemma TypeOfSpec(ext: string)
    ensures ext !in TypedExtensions <==> TypeOf(ext) == Html
    ensures ext !in IconExtensions ==> IconOf(ext) == PageIcon
  {
  }

  /** A small file is labelled in bytes, a large one in kilobytes to the nearest tenth. */
  lemma SizeLabelSpec(bytes: nat)
    ensures bytes < 1024 ==> SizeLabel(bytes) == NatToString(bytes) + " B"
    ensures bytes >= 1024 ==>
      var n := Tenths(10 * bytes, 1024);
      && SizeLabel(bytes) == Fixed1(n) + " KB"
      && 1024 * (2 * n - 1) <= 20 * bytes < 1024 * (2 * n + 1)
  {
  }

  // ---------------------------------------------------------------------
  // The zip placeholder
  // ---------------------------------------------------------------------

  function ZipName(mode: ProjectMode): string {
    if mode == FigmaMode then "wp-theme.zip" else "site.zip"
  }

  /** `genFiles.reduce((s, f) => s + f.content.length, 0)`. */
  function TotalSize(fs: seq<GenFile>): nat {
    if fs == [] then 0 else Utf16Length(fs[0].content) + TotalSize(fs[1..])
  }

  /** `(totalSize / 1024 * 1.2).toFixed(1) + ' KB'`, in exact arithmetic. */
  function ZipSize(total: nat): string {
    Fixed1(Tenths(12 * total, 1024)) + " KB"
  }

  /** Every output file named like the placeholder becomes a zip entry. */
  function MarkZip(os: seq<OutputFile>, zipName: string, size: string): (r: seq<OutputFile>)
    ensures |r| == |os|
    ensures forall i :: 0 <= i < |os| ==>
      r[i] == (if os[i].name == zipName then os[i].(fileType := Zip, icon := ZipIcon, size := size) else os[i])
  {
    seq(|os|, i requires 0 <= i < |os| =>
      if os[i].name == zipName then os[i].(fileType := Zip, icon := ZipIcon, size := size) else os[i])
  }

  /** The `complete` file list: the generated files, then the placeholder. */
  function Package(gen: seq<GenFile>, zipName: string): seq<OutputFile> {
    MarkZip(ToOutputFiles(gen + [GenFile(zipName, "")]), zipName, ZipSize(TotalSize(gen)))
  }

  /**
   * The generated files come first, in order, with their names and
   * contents; then one empty placeholder of type `zip` with the zip name.
   */
  lemma PackageSpec(gen: seq<GenFile>, zipName: string)
    ensures var r := Package(gen, zipName);
      && |r| == |gen| + 1
      && (forall i :: 0 <= i < |gen| ==> r[i].name == gen[i].name && r[i].content == gen[i].content)
      && r[|gen|].name == zipName && r[|gen|].content == []
      && r[|gen|].fileType == Zip && r[|gen|].icon == ZipIcon
  {
    var all := gen + [GenFile(zipName, "")];
    assert forall i :: 0 <= i < |gen| ==> all[i] == gen[i];
    assert all[|gen|] == GenFile(zipName, "");
  }

  // ---------------------------------------------------------------------
  // The crawl fallback
  // ---------------------------------------------------------------------

  /** Where `pat` first occurs in `s`. */
  function FirstOccurrence(s: string, pat: string, from: nat): (r: Option<nat>)
    ensures r.Some? ==> from <= r.value && Occurs(s, pat, r.value)
    ensures forall k :: from <= k && (r.None? || k < r.value) ==> !Occurs(s, pat, k)
    decreases |s| - from
  {
    if from + |pat| > |s| then None
    else if Occurs(s, pat, from) then Some(from)
    else FirstOccurrence(s, pat, from + 1)
  }

  /** `s.replace(pat, rep)` with a string pattern: only the first occurrence. */
  function ReplaceFirst(s: string, pat: string, rep: string): string {
    match FirstOccurrence(s, pat, 0)
    case None => s
    case Some(i) => s[..i] + rep + s[i + |pat|..]
  }

  /** The site name made from a host name: `www.` dropped once, dots as spaces, words capitalised. */
  function SiteName(hostname: string): string {
    TitleCase(ReplaceChar(ReplaceFirst(hostname, "www.", ""), '.', ' '))
  }

  function StubPage(url: string, path: string, filename: string, navLabel: string, title: string): PageData {
    PageData(url, path, filename, navLabel, title, "", [], [], "")
  }

  /** The five standard pages of a site that could not be crawled. */
  function FallbackSite(source: string, h: Host): SiteData {
    var hostname := ReplaceFirst(h.hostname, "www.", "");
    var name := SiteName(h.hostname);
    SiteData(source, h.origin, name, "Website rebuild for " + hostname, [], [], [], [], "en",
      [ StubPage(source, "/", "index.html", "Home", name),
        StubPage(h.origin + "/about", "/about", "about.html", "About", "About" + Dash + name),
        StubPage(h.origin + "/services", "/services", "services.html", "Services", "Services" + Dash + name),
        StubPage(h.origin + "/blog", "/blog", "blog.html", "Blog", "Blog" + Dash + name),
        StubPage(h.origin + "/contact", "/contact", "contact.html", "Contact", "Contact" + Dash + name) ])
  }

  /** The fallback has the root page `index.html` labelled `Home` and four more standard pages. */
  lemma FallbackSiteSpec(source: string, h: Host)
    ensures var s := FallbackSite(source, h);
      && |s.pages| == 5
      && s.pages[0].filename == "index.html" && s.pages[0].navLabel == "Home" && s.pages[0].path == "/"
      && s.pages[0].url == source && s.rootUrl == source && s.origin == h.origin
      && [s.pages[1].filename, s.pages[2].filename, s.pages[3].filename, s.pages[4].filename]
         == ["about.html", "services.html", "blog.html", "contact.html"]
      && (forall k :: 1 <= k < 5 ==> s.pages[k].url == h.origin + s.pages[k].path && s.pages[k].description == [])
      && s.navLinks == [] && s.colors == [] && s.fonts == [] && s.lang == "en"
  {
  }

  function CrawlingMessage(source: string): string {
    "Crawling " + source + "\U{2026}"
  }

  function CrawledMessage(pages: nat, hostname: string): string {
    "Crawl complete" + Dash + NatToString(pages) + " pages discovered on " + hostname
  }

  function FallbackMessage(source: string): string {
    "Could not crawl " + source + " (site may block robots)" + Dash + "generating 5 standard pages from URL metadata."
  }

  function LoadedMessage(d: FigmaDesignData): string {
    "Figma file \"" + d.fileName + "\" loaded" + Dash + NatToString(|d.colors|) + " colours, "
      + NatToString(|d.textStyles|) + " text styles, " + NatToString(|d.components|) + " components"
  }

  function Statuses(msgs: seq<string>, progress: int): (r: seq<Event>)
    ensures |r| == |msgs| && AllStatus(r)
  {
    if msgs == [] then [] else [Status(msgs[0], progress)] + Statuses(msgs[1..], progress)
  }

  function ReportEvents(reports: seq<Report>): (r: seq<Event>)
    ensures |r| == |reports| && AllStatus(r)
  {
    if reports == [] then [] else [Status(reports[0].message, reports[0].pct)] + ReportEvents(reports[1..])
  }

  // ---------------------------------------------------------------------
  // POST
  // ---------------------------------------------------------------------

  /** How far a request gets before the generator runs. */
  datatype Prep =
    | Stopped(events: seq<Event>)
    | Generated(events: seq<Event>, generator: Generator)

  /** Which generator runs: the theme from a design, or the site from its root URL and pages. */
  datatype Generator = Theme | Site(rootUrl: string, pages: seq<PageData>)

  /** `new URL(url).hostname`, or `None` when `new URL` throws. */
  function HostnameOf(env: Env, url: string): (r: Option<string>)
    ensures r.Some? <==> env.hosts(url).Some?
    ensures r.Some? ==> r.value == env.hosts(url).value.hostname
  {
    match env.hosts(url)
    case None => None
    case Some(h) => Some(h.hostname)
  }

  function RunOf(env: Env, g: Generator): Run {
    match g
    case Theme => GenerateFigmaTheme(env.claude, 0)
    case Site(rootUrl, pages) => GenerateUrlSite(env.claude, 0, HostnameOf(env, rootUrl), pages)
  }

  /** The site the generator is given in URL mode, or `None` when `new URL` of the source throws. */
  function SiteFor(env: Env, source: string, c: Crawl): Option<(string, SiteData)> {
    if c.result.Ok? && env.hosts(c.result.value.rootUrl).Some? then
      Some((CrawledMessage(|c.result.value.pages|, env.hosts(c.result.value.rootUrl).value.hostname), c.result.value))
    else match env.hosts(RootUrl(source))
      case None => None
      case Some(h) => Some((FallbackMessage(source), FallbackSite(source, h)))
  }

  /** A stopped request has ended properly; a generating one has sent only status events so far. */
  predicate Shaped(p: Prep) {
    (p.Stopped? ==> WellFormed(p.events)) && (p.Generated? ==> AllStatus(p.events))
  }

  /** Design mode after the start status: the token guard, then the Figma fetch. */
  function DesignPrep(env: Env, source: string, token: Option<string>): (p: Prep)
    ensures Shaped(p)
  {
    var start := [Status(Starting, 5)];
    if Blank(token) then Stopped(start + [Error(TokenRequired)])
    else
      var pre := start + [Status(Connecting, 8)];
      match env.fetchFigma(source, token.value)
      case Err(m) => Stopped(pre + [Error(m)])
      case Ok(d) => Generated(pre + [Status(LoadedMessage(d), 22)], Theme)
  }

  /** URL mode after the start status: the source guard, then the crawl or its fallback. */
  function UrlPrep(env: Env, source: string): (p: Prep)
    ensures Shaped(p)
  {
    var start := [Status(Starting, 5)];
    if Blank(Some(source)) then Stopped(start + [Error(UrlRequired)])
    else
      var c := env.crawl(source);
      var head := [Status(Starting, 5), Status(CrawlingMessage(source), 8)];
      var progress := Statuses(c.messages, 12);
      AllStatusAppend(head, progress);
      var pre := head + progress;
      match SiteFor(env, source, c)
      case None =>
        AppendWellFormed(pre, [Error(InvalidUrl)]);
        Stopped(pre + [Error(InvalidUrl)])
      case Some((msg, site)) =>
        AllStatusAppend(pre, [Status(msg, 22)]);
        Generated(pre + [Status(msg, 22)], Site(site.rootUrl, site.pages))
  }

  function Prepare(env: Env, req: Request): (p: Prep)
    ensures Shaped(p)
  {
    if !env.hasApiKey then Stopped([Error(ApiKeyMissing)])
    else if req.mode == FigmaMode then DesignPrep(env, req.source, req.figmaToken)
    else UrlPrep(env, req.source)
  }

  /** What follows the generator: its reports, then the error it threw, or the packaged files. */
  function Finish(run: Run, zipName: string): (r: seq<Event>)
    ensures WellFormed(r)
  {
    var reports := ReportEvents(run.reports);
    if run.failure.Some? then reports + [Error(MessageOf(run.failure.value))]
    else if Files(run) == [] then reports + [Error(NoFiles)]
    else reports + [Status(Packaging, 97), Complete(Package(Files(run), zipName))]
  }

  /** The events one request produces. */
  function Post(env: Env, req: Request): seq<Event> {
    match Prepare(env, req)
    case Stopped(events) => events
    case Generated(events, g) => events + Finish(RunOf(env, g), ZipName(req.mode))
  }

  lemma AppendWellFormed(pre: seq<Event>, post: seq<Event>)
    requires AllStatus(pre) && WellFormed(post)
    ensures WellFormed(pre + post) && (pre + post)[|pre + post| - 1] == post[|post| - 1]
  {
    var all := pre + post;
    forall i | 0 <= i < |all| - 1 ensures all[i].Status? {
      if i >= |pre| {
        assert all[i] == post[i - |pre|];
      }
    }
  }

  /** Every request ends in exactly one terminal event, and it is the last one sent. */
  lemma PostWellFormed(env: Env, req: Request)
    ensures WellFormed(Post(env, req))
  {
    match Prepare(env, req)
    case Stopped(_) =>
    case Generated(events, g) => AppendWellFormed(events, Finish(RunOf(env, g), ZipName(req.mode)));
  }

  /**
   * The guards: no API key gives a lone error; a blank token (design mode)
   * or a blank source (URL mode) gives the start status and an error.
   */
  lemma Guards(env: Env, req: Request)
    ensures !env.hasApiKey ==> Post(env, req) == [Error(ApiKeyMissing)]
    ensures env.hasApiKey && req.mode == FigmaMode && Blank(req.figmaToken) ==>
      Post(env, req) == [Status(Starting, 5), Error(TokenRequired)]
    ensures env.hasApiKey && req.mode == UrlMode && Blank(Some(req.source)) ==>
      Post(env, req) == [Status(Starting, 5), Error(UrlRequired)]
  {
  }

  /**
   * A failed crawl is not the end: when `new URL` accepts the source (with
   * `https://` put in front when it lacks `http`), the fallback status is
   * sent and the generator is given the five standard pages, with the
   * source as typed for their root URL.
   */
  lemma CrawlFallback(env: Env, req: Request)
    requires env.hasApiKey && req.mode == UrlMode && !Blank(Some(req.source))
    requires env.crawl(req.source).result.Err?
    requires env.hosts(RootUrl(req.source)).Some?
    ensures var site := FallbackSite(req.source, env.hosts(RootUrl(req.source)).value);
      var p := Prepare(env, req);
      && p.Generated?
      && p.events[|p.events| - 1] == Status(FallbackMessage(req.source), 22)
      && p.generator == Site(req.source, site.pages)
  {
    var h := env.hosts(RootUrl(req.source)).value;
    assert SiteFor(env, req.source, env.crawl(req.source)) == Some((FallbackMessage(req.source), FallbackSite(req.source, h)));
    UrlPrepGenerates(env, req.source);
  }

  /**
   * The fallback keeps the source as typed for its root URL, and
   * `generateUrlSite` parses the root URL before it reports or asks
   * anything. So a source that `new URL` rejects without the `https://`
   * prefix (`example.com`) and whose crawl fails is announced as a fallback
   * and then ends in `Invalid URL`, with no request made.
   */
  lemma FallbackSchemeless(env: Env, req: Request)
    requires env.hasApiKey && req.mode == UrlMode && !Blank(Some(req.source))
    requires env.crawl(req.source).result.Err?
    requires env.hosts(RootUrl(req.source)).Some? && env.hosts(req.source).None?
    ensures var events := Post(env, req);
      && |events| >= 2
      && events[|events| - 2] == Status(FallbackMessage(req.source), 22)
      && events[|events| - 1] == Error(InvalidUrl)
      && forall i :: 0 <= i < |events| ==> !events[i].Complete?
  {
    CrawlFallback(env, req);
    var p := Prepare(env, req);
    var run := RunOf(env, p.generator);
    UrlSiteSequence(env.claude, 0, None, p.generator.pages);
    assert Finish(run, ZipName(req.mode)) == [Error(InvalidUrl)];
    AppendWellFormed(p.events, [Error(InvalidUrl)]);
  }

  /** The fallback site with the normalised URL that `new URL` accepted as its root URL. */
  function IntendedFallbackSite(source: string, h: Host): (s: SiteData)
    ensures s.rootUrl == RootUrl(source)
    ensures s == FallbackSite(source, h).(rootUrl := s.rootUrl)
  {
    FallbackSite(source, h).(rootUrl := RootUrl(source))
  }

  /**
   * With the normalised root URL the fallback reaches the generator's
   * requests whatever the source looks like: the run is that of the batch
   * and asset stages for the five standard pages, and it asks at least once.
   */
  lemma IntendedFallbackGenerates(env: Env, source: string, h: Host)
    requires env.hosts(RootUrl(source)) == Some(h)
    ensures var s := IntendedFallbackSite(source, h);
      var r := RunOf(env, Site(s.rootUrl, s.pages));
      && r == RunStages(env.claude, 0, UrlStages(s.pages))
      && 1 <= |r.calls|
      && r.calls[0] == HtmlPages(Requests(s.pages))
  {
    var s := IntendedFallbackSite(source, h);
    FallbackSiteSpec(source, h);
    UrlSiteSequence(env.claude, 0, Some(h.hostname), s.pages);
    assert Batches(s.pages)[0] == s.pages;
  }

  /**
   * A crawl that succeeds on a parsable root URL reports the page count and
   * generates from the crawled pages; a failed crawl of a source `new URL`
   * rejects ends in the `Invalid URL` error.
   */
  lemma CrawlOutcomes(env: Env, req: Request)
    requires env.hasApiKey && req.mode == UrlMode && !Blank(Some(req.source))
    ensures var c := env.crawl(req.source);
      c.result.Ok? && env.hosts(c.result.value.rootUrl).Some? ==>
        var p := Prepare(env, req);
        && p.Generated? && p.generator == Site(c.result.value.rootUrl, c.result.value.pages)
        && p.events[|p.events| - 1] == Status(CrawledMessage(|c.result.value.pages|, env.hosts(c.result.value.rootUrl).value.hostname), 22)
    ensures var c := env.crawl(req.source);
      c.result.Err? && env.hosts(RootUrl(req.source)).None? ==>
        var events := Post(env, req);
        && WellFormed(events) && events[|events| - 1] == Error(InvalidUrl)
  {
    var c := env.crawl(req.source);
    if c.result.Ok? && env.hosts(c.result.value.rootUrl).Some? {
      UrlPrepGenerates(env, req.source);
    }
    PostWellFormed(env, req);
  }

  /** When a site is found, the URL branch goes on to the generator with that site's status last. */
  lemma UrlPrepGenerates(env: Env, source: string)
    requires !Blank(Some(source)) && SiteFor(env, source, env.crawl(source)).Some?
    ensures var found := SiteFor(env, source, env.crawl(source)).value;
      var p := UrlPrep(env, source);
      && p.Generated? && p.events[|p.events| - 1] == Status(found.0, 22) && p.generator == Site(found.1.rootUrl, found.1.pages)
  {
  }

  /** A generator that returns no files ends the run in an error, and nothing is completed. */
  lemma NoFilesIsError(env: Env, req: Request)
    requires Prepare(env, req).Generated?
    requires RunOf(env, Prepare(env, req).generator).failure.None? && Files(RunOf(env, Prepare(env, req).generator)) == []
    ensures var events := Post(env, req);
      && events[|events| - 1] == Error(NoFiles)
      && forall i :: 0 <= i < |events| ==> !events[i].Complete?
  {
    var p := Prepare(env, req);
    var fin := Finish(RunOf(env, p.generator), ZipName(req.mode));
    AppendWellFormed(p.events, fin);
  }

  /** The run ends in `complete` exactly when the generator neither threw nor came back empty. */
  lemma FinishCompletes(run: Run, zipName: string)
    ensures var events := Finish(run, zipName);
      events[|events| - 1].Complete? <==> run.failure.None? && Files(run) != []
  {
  }

  /** A completed run follows the packaging status with the packaged files. */
  lemma FinishPackages(run: Run, zipName: string)
    requires run.failure.None? && Files(run) != []
    ensures var events := Finish(run, zipName);
      && |events| >= 2 && events[|events| - 2] == Status(Packaging, 97)
      && events[|events| - 1] == Complete(Package(Files(run), zipName))
  {
    var reports := ReportEvents(run.reports);
    assert Finish(run, zipName) == reports + [Status(Packaging, 97), Complete(Package(Files(run), zipName))];
  }

  /**
   * A `complete` event follows the packaging status and lists the
   * generated files in order, then the empty zip placeholder named for the
   * mode.
   */
  lemma CompleteSpec(env: Env, req: Request)
    ensures var events := Post(env, req);
      |events| >= 1 && events[|events| - 1].Complete? ==>
        var p := Prepare(env, req);
        && p.Generated? && RunOf(env, p.generator).failure.None?
        && var gen := Files(RunOf(env, p.generator));
        var files := events[|events| - 1].files;
        && events[|events| - 2] == Status(Packaging, 97)
        && |files| == |gen| + 1
        && (forall i :: 0 <= i < |gen| ==> files[i].name == gen[i].name && files[i].content == gen[i].content)
        && files[|gen|].name == ZipName(req.mode) && files[|gen|].content == [] && files[|gen|].fileType == Zip
  {
    var events := Post(env, req);
    var p := Prepare(env, req);
    if |events| >= 1 && events[|events| - 1].Complete? && p.Generated? {
      var fin := Finish(RunOf(env, p.generator), ZipName(req.mode));
      AppendWellFormed(p.events, fin);
      FinishCompletes(RunOf(env, p.generator), ZipName(req.mode));
      FinishPackages(RunOf(env, p.generator), ZipName(req.mode));
      PackageSpec(Files(RunOf(env, p.generator)), ZipName(req.mode));
      assert events[|events| - 2] == fin[|fin| - 2];
    }
  }
}
