# DayShip generation pipeline, in Dafny

DayShip turns a design file or a live web site into a WordPress theme or a
static site by asking a language model for the files. This project models
the sequential logic of that pipeline and proves properties of it. Each
network call is replaced by an oracle that the proofs range over.

- `parser.dfy` (module `OutputParser`): `parseFiles`, which reads the model's
  answer. It first tries `<file name="…">…</file>` blocks, then falls back
  to fenced code blocks preceded by a file name.
- `retry.dfy` (module `Retry`): the retry and back-off schedule of `ask`. The
  model API is a function from request number to outcome.
- `generation.dfy` (module `Generation`): the two generators
  (`generateFigmaTheme`, `generateUrlSite`). Covers their fixed call
  order, the batching of pages by six, the progress values, the theme slug
  and the bounded, defaulted summaries put into the prompts.
- `scraper.dfy` (module `Scraper`): the crawler's string utilities and the
  field caps of page and site extraction. A fetched page's DOM queries are
  given as a `Doc` record of element texts.
- `crawler.dfy` (module `Crawler`): the breadth-first `crawlSite` loop,
  with `fetchPage` as an oracle from URL to optional page.
- `figma.dfy` (module `Figma`): hex codes, colour names, the file key of a
  design link and the depth-bounded tree walk. Also `fetchFigmaData`: its
  status mapping and the caps and sort on its result.
- `route.dfy` (module `GenerateRoute`): the event stream of the generate
  endpoint. Covers its guards, the crawl fallback, the zip placeholder
  and `toOutputFiles`.
- `store.dfy` (module `Store`): the project store's reducers and its
  persistence hooks.
- `text.dfy`, `types.dfy`, `wrappers.dfy`: shared string functions,
  records of the pipeline and `Option`/`Result`.

Where the specification of the system and its code disagree, the model follows the code.
Example: a file name written as `` `styles.css:` `` before a fenced block,
with the colon inside the backticks, does not name the block. The
fallback's pattern at src/lib/claude.ts:24 wants the colon after the
closing backtick (`OutputParser.ColonInsideBackticks`).

## Model

| member | source | states |
|---|---|---|
| OutputParser.ParseFiles | src/lib/claude.ts:9-28 | When some `<file>` match has content that is not blank after its leading and trailing CR/LF are stripped, the result is non-empty and is the artifacts of the matches in text order, each with a trimmed name and non-empty content; when every match is blank, or there is none, the fenced-block fallback's result is returned |
| OutputParser.TaggedFilesEmpty | src/lib/claude.ts:14-18 | The tagged pass keeps nothing if and only if every match's content is empty once its CR/LF ends are stripped |
| OutputParser.ScanGenuine | src/lib/claude.ts:12-17 | Every block the scan reports is a genuine `<file name="…">…</file>` match at its own start position |
| OutputParser.TaggedPassShape | src/lib/claude.ts:12-17 | Every artifact of the tagged pass has a trimmed name without `"` (it can be empty: a name of only spaces trims to nothing), and non-empty content with no leading or trailing CR/LF |
| OutputParser.TaggedFilesShape | src/lib/claude.ts:13-16 | Turning matches into artifacts drops empty ones and yields only trimmed names and content stripped of framing newlines |
| OutputParser.Scan | src/lib/claude.ts:12-17 | Matches are reported in text order, none before the scan's start |
| OutputParser.ScanRender | src/lib/claude.ts:12-17 | Scanning a rendering of renderable artifacts, from any position where that rendering begins, gives back exactly those artifacts in order |
| OutputParser.ParseRender | src/lib/claude.ts:12-16 | Round trip: rendering artifacts as `<file name="n">` newline, content, newline, `</file>` and parsing the text returns the same list, for trimmed quote-free names and contents without framing newlines or `</file>` |
| OutputParser.FenceScan | src/lib/claude.ts:20-26 | Fenced blocks are found in order and do not overlap |
| OutputParser.NameBeforeFinds | src/lib/claude.ts:21-24 | A name is recognised before a block if and only if some `name.ext` token, optionally wrapped in a backtick, `*` or `_` and followed by an optional `:`, en dash or hyphen, ends the text before it |
| OutputParser.NameSearchComplete | src/lib/claude.ts:21-24 | The search for a file name never misses a matching token at or after its start |
| OutputParser.SpanIsFileName | src/lib/claude.ts:24 | A recognised name is a file name: name characters, a dot, a 2-5 letter extension |
| OutputParser.FallbackFilesShape | src/lib/claude.ts:20-26 | Each fallback artifact has a file name as its name and trimmed block body as its content |
| OutputParser.ColonInsideBackticks | src/lib/claude.ts:24 | Text ending in a colon inside backticks just before the fence names no file |
| OutputParser.NoSpanBeforeColonBacktick | src/lib/claude.ts:24 | No name token can end a text whose tail is a colon, a backtick and a newline |
| Retry.AskFromSpec | src/lib/claude.ts:33-57 | Every request but the last failed with a rate-limit or overload error; the last one decides the answer (the first text block, `''` for a non-text block, a TypeError for an empty reply, or the raised error, which is not retryable or came after the fourth retry); the pauses follow 8000 times 2 to the attempt |
| Retry.AskFromDelays | src/lib/claude.ts:52 | The i-th pause of a call starting at a given attempt is 8000 times 2 to the power attempt plus i |
| Retry.AskFromRetried | src/lib/claude.ts:45-55 | Only rate-limit errors (RateLimitError, or status 429, 529 or 503) lead to another request |
| Retry.AskFromLast | src/lib/claude.ts:37-57 | The final request's outcome is the answer; a failure raised there is either not retryable or past the retry limit |
| Retry.AskFrom | src/lib/claude.ts:33-57 | A call makes at least one request and one request more than it pauses, and at most 5 minus the starting attempt |
| Retry.DelayDoubles | src/lib/claude.ts:52 | Each pause doubles the one before, so the schedule strictly increases |
| Retry.DelayMonotone | src/lib/claude.ts:52 | A later attempt always waits strictly longer |
| Retry.DelaysIncrease | src/lib/claude.ts:52 | The pauses of one call start at 8000 and strictly increase |
| Retry.AtMostFiveRequests | src/lib/claude.ts:45-54 | One `ask` makes 1 to 5 requests and at most 4 pauses |
| Retry.FourRateLimitsThenSuccess | src/lib/claude.ts:45-57 | Four rate-limit errors then a text reply give that text after five requests with pauses 8000, 16000, 32000, 64000 |
| Retry.FiveOverloadsRaise | src/lib/claude.ts:45-57 | Five 529 overload errors in a row raise the fifth error after the four pauses |
| Retry.OtherErrorPropagates | src/lib/claude.ts:44-57 | Any error that is not rate-limit or overload is raised at once, after a single request |
| Retry.ServerErrorNotRetried | src/lib/claude.ts:45-57 | A status 500 error is not retried |
| Generation.RunStagesSpec | src/lib/claude.ts:105-299 | The calls made and progress reported are prefixes of the fixed plan; without failure all of it is carried out and every stage answered; with one, the failing call is the last made; each call costs 1 to 5 requests |
| Generation.RunStagesAllAnswered | src/lib/claude.ts:105-299 | When every request is answered no stage fails and each call costs one request |
| Generation.DesignCalls | src/lib/claude.ts:140-297 | The design path asks exactly five calls: design system, layouts, page templates, utility templates, theme config |
| Generation.DesignReportsSorted | src/lib/claude.ts:105-299 | The design path's ten progress reports start at 28 and never decrease |
| Generation.DesignReports | src/lib/claude.ts:105-299 | The design path reports 28, 45, 48, 55, 57, 63, 65, 70, 73, 95 |
| Generation.FigmaThemeSequence | src/lib/claude.ts:68-302 | A design run makes 1 to 5 calls in the fixed order, its progress never decreases and starts at 28; a successful run makes all five calls and reports the full sequence up to 95 |
| Generation.Batches | src/lib/claude.ts:372-375 | There are ceil(n/6) batches |
| Generation.BatchesShape | src/lib/claude.ts:372-375 | Batch i is the slice of pages from 6i to min(6i+6, n); every batch holds 1 to 6 pages and all but the last exactly 6 |
| Generation.BatchesConcat | src/lib/claude.ts:372-375 | The batches concatenated give back the page list |
| Generation.BatchLoop | src/lib/claude.ts:372-375 | The slicing loop computes exactly the batches of the reference definition |
| Generation.BatchPct | src/lib/claude.ts:377-382 | The batch percentage is round(25 + 50 bi/len) with ties going up, and lies in 25..75 |
| Generation.BatchPctMonotone | src/lib/claude.ts:382 | The batch percentage never decreases as the batch index grows |
| Generation.SummarisePageSpec | src/lib/claude.ts:309-313 | A page summary begins with its filename, quoted title and its headings (`(none)` when it has none), and depends only on the first 6 headings and first 4 sections with bodies cut at 120 |
| Generation.UrlCalls | src/lib/claude.ts:372-455 | The URL path makes ceil(n/6)+1 calls: one per batch asking for exactly that batch's pages, then the site assets |
| Generation.UrlReportsLayout | src/lib/claude.ts:377-455 | The URL path reports one rounded percentage per batch, then 77, 80 and 95 |
| Generation.BatchThenAssetsSorted | src/lib/claude.ts:382-455 | Batch percentages followed by 77, 80, 95 never decrease and lie in 25..95 |
| Generation.UrlReports | src/lib/claude.ts:377-455 | The URL path's planned reports lie in 25..95, never decrease and end at 95 |
| Generation.UrlSiteSequence | src/lib/claude.ts:315-458 | A root URL that `new URL` rejects throws `Invalid URL` before any report or request (the contact line of the shared context parses it); otherwise a URL run asks at least once, asks its batches in order, its progress never decreases and stays in 25..95, and a successful run makes ceil(n/6)+1 calls ending with the assets and last reports 95 |
| Generation.FlattenSectionsAppend | src/lib/claude.ts:89-91 | The flattened section names are the pages' section names, page after page in page order |
| Generation.FlattenSectionsHas | src/lib/claude.ts:89-91 | Every section name of every page appears among the flattened names |
| Generation.SummariseDesign | src/lib/claude.ts:76-101 | The first 20 colours, the first 20 of the pages' flattened section names, the names of the first 20 components and the first 10 text styles; every page's name, in page order; primary and secondary hex default to `#1a3cff` and `#ff6b2b`, the body font to `Inter`; the heading font is that of the first style of size at least 28, else the body font; the fonts are the distinct families |
| Generation.HeadingFont | src/lib/claude.ts:84-86 | The heading font is the family of the first style of size at least 28, or the fallback when there is none |
| Generation.Families | src/lib/claude.ts:87 | The font list has no duplicates and holds exactly the styles' families |
| Generation.SummariseSite | src/lib/claude.ts:322-325 | The URL prompt uses at most 15 colours and 4 fonts, prefixes of the site's, and at most 10 key headings, all headings of the site's pages |
| Generation.ThemeSlug | src/lib/claude.ts:74 | The slug is over `[a-z0-9-]` with no leading, trailing or doubled `-`, and keeps the lower-cased name's letters and digits in order |
| Generation.FnPrefixSpec | src/lib/claude.ts:75 | The function prefix is the slug with every `-` turned into `_`: over `[a-z0-9_]`, no leading, trailing or doubled `_`, and mapping back gives the slug |
| Text.Slug | src/lib/claude.ts:74 | The slug has no character outside `[a-z0-9-]`, no edge or doubled `-`, and the same letters and digits as the lower-cased input |
| Text.SlugIdempotent | src/lib/figma.ts:32-34 | Slugging a slug changes nothing |
| Text.SplitJoin | src/app/api/generate/route.ts:26 | Splitting at a separator and joining with it gives back the string |
| Text.AfterLastIsLastPiece | src/app/api/generate/route.ts:26 | The text after the last separator is the last piece of the split |
| Text.NatToStringRoundTrip | src/app/api/generate/route.ts:30 | Reading back a number's decimal digits gives the number |
| Scraper.CleanTextSpec | src/lib/scraper.ts:30-32 | The cleaned text has no leading, trailing or doubled whitespace, each whitespace run became one space, and the non-space characters are kept in order |
| Scraper.CleanTextIdempotent | src/lib/scraper.ts:30-32 | Cleaning clean text changes nothing |
| Scraper.DedupeInsert | src/lib/scraper.ts:34-36 | Existing elements are never altered; the item is present afterwards exactly when it was already or there was room; nothing else is added; duplicate-freedom and the length bound are kept |
| Scraper.DedupeAllSpec | src/lib/scraper.ts:34-36 | Inserting many items keeps the list duplicate-free and within the bound, keeps it as prefix, adds only offered items, and every offered item is in unless the list is full |
| Scraper.PathToFilenameSpec | src/lib/scraper.ts:38-42 | A path with no segments gives `index.html`; otherwise a stem over `[A-Za-z0-9-]` without doubled `-` keeping the path's letters and digits in order, plus `.html` |
| Scraper.PathToFilenameExample | src/lib/scraper.ts:38-42 | `/services/web-design` gives `services-web-design.html` |
| Scraper.TwoSegmentFilename | src/lib/scraper.ts:38-42 | Two plain segments give the segments joined by `-`, plus `.html` |
| Scraper.OneSegmentFilename | src/lib/scraper.ts:38-42 | A plain single segment gives itself plus `.html` |
| Scraper.RootFilename | src/lib/scraper.ts:39-42 | `/` and the empty path give `index.html` |
| Scraper.FilenamesCollide | src/lib/scraper.ts:38-42 | Distinct paths `/a/b` and `/a-b` give the same file name `a-b.html` |
| Scraper.PathToLabelSpec | src/lib/scraper.ts:44-48 | With no segment the label is `Home`; otherwise it is the last non-empty segment with `-` and `_` spaced out, same length and letters up to case, no word starting with a lower-case letter |
| Scraper.PathToLabelExample | src/lib/scraper.ts:44-48 | `/about-us` gives `About Us` |
| Scraper.RootLabel | src/lib/scraper.ts:44-48 | `/` gives `Home` |
| Scraper.ResolveHrefSpec | src/lib/scraper.ts:51-63 | A link is followed if and only if the href is not empty, a fragment, `javascript:`, `mailto:` or `tel:`, it resolves on the crawl origin, and its path has no listed non-HTML extension; the result is origin plus path, without query or fragment |
| Scraper.SameKeyUpToQueryAndFragment | src/lib/scraper.ts:51-63 | Hrefs resolving to the same origin and path give the same key, whatever their query or fragment |
| Scraper.PdfNotFollowed | src/lib/scraper.ts:59-60 | A link to a `.pdf` path, in any case, is not followed |
| Scraper.HexTokenAt | src/lib/scraper.ts:161-168 | A match at a position is `#` followed by 3 to 8 hex digits, and the text ends after it or goes on with a character that is not a letter, digit or `_` |
| Scraper.HexTokensAreColors | src/lib/scraper.ts:161-168 | Every hex token found in style text is `#` followed by 3 to 8 hex digits |
| Scraper.NineDigitsNoColor | src/lib/scraper.ts:161-168 | `#` followed by nine hex digits yields no colour at that position |
| Scraper.VarTokensAreColors | src/lib/scraper.ts:161-168 | Every colour taken from a `--colour: #…` custom property is a colour token |
| Scraper.LowerColor | src/lib/scraper.ts:161-168 | A colour token lower-cased is a lower-case colour |
| Scraper.ColorCandidatesLower | src/lib/scraper.ts:161-168 | Every colour candidate of a page is a lower-case colour token |
| Scraper.LinksOnOrigin | src/lib/scraper.ts:119-123 | Every link collected from a page is on the crawl origin |
| Scraper.PageOf | src/lib/scraper.ts:87-137 | The page's filename and label come from its path; at most 20 distinct headings of 3 to 119 characters; at most 12 sections with headings of at least 3 characters and bodies of at most 300; a preview of at most 2000 characters; the meta description cleaned |
| Scraper.ExtractPageBounds | src/lib/scraper.ts:87-137 | The caps on a page's headings, sections, preview and links, stated for the whole extraction |
| Scraper.Sections | src/lib/scraper.ts:101-112 | Sections come only from h2s of at least 3 characters, with bodies of at most 300 characters |
| Scraper.NavFoldSpec | src/lib/scraper.ts:148-158 | Nav links are collected up to 20, each with a usable label and href, earlier ones kept |
| Scraper.ExtractGlobalBounds | src/lib/scraper.ts:139-198 | At most 20 nav links, at most 30 distinct lower-case colours, at most 8 distinct non-empty fonts, at most 30 distinct footer links of under 60 characters, and language `en` by default |
| Scraper.GlobalColors | src/lib/scraper.ts:161-168 | The site's colours are at most 30, distinct and lower-case |
| Scraper.GlobalFonts | src/lib/scraper.ts:171-185 | The site's fonts are at most 8, distinct and non-empty |
| Scraper.GlobalFooter | src/lib/scraper.ts:188-195 | The footer links are at most 30, distinct, non-empty and under 60 characters |
| Crawler.Unvisited | src/lib/scraper.ts:222 | The candidates of a batch are exactly the queued URLs not yet visited |
| Crawler.UnvisitedNoDup | src/lib/scraper.ts:222 | Filtering a duplicate-free queue keeps it duplicate-free |
| Crawler.NextBatch | src/lib/scraper.ts:222-226 | A batch holds at most 5 distinct URLs, exactly the unvisited ones among the first 5 queued |
| Crawler.FetchAllAt | src/lib/scraper.ts:228-234 | The result at each position of a batch is the fetch of the URL at that position |
| Crawler.FetchAllAppend | src/lib/scraper.ts:228-234 | Fetching URLs batch after batch gives the results of fetching them all in that order |
| Crawler.FetchedAppend | src/lib/scraper.ts:236-243 | The pages kept from two runs of results are those of the first run, then those of the second |
| Crawler.LinksOfAppend | src/lib/scraper.ts:236-243 | The links queued from two runs of results are those of the first run, then those of the second |
| Crawler.Merge | src/lib/scraper.ts:236-243 | Successful fetches are appended to the pages in batch order, failed ones dropped; pages only grow and the queue never shrinks |
| Crawler.MergeQueues | src/lib/scraper.ts:236-243 | While the crawl stays under maxPages pages, merging queues every fetched page's links, in result order |
| Crawler.StepQueue | src/lib/scraper.ts:221-243 | A turn leaves each of the first five queued URLs visited and the remaining queue in place; while under the cap, the batch's new links follow it |
| Crawler.MergeWhenFull | src/lib/scraper.ts:239-241 | Once pages reach the cap no link is enqueued |
| Crawler.StepInv | src/lib/scraper.ts:221-244 | A turn of the loop keeps the crawl invariant and either adds pages or shrinks the queue |
| Crawler.StepPages | src/lib/scraper.ts:221-243 | After a turn the pages are still the root page followed by the successful fetches of all batches so far, in batch order |
| Crawler.StepClosed | src/lib/scraper.ts:221-243 | While the crawl is under the cap, a turn leaves every link found so far visited or still queued |
| Crawler.CrawlLoop | src/lib/scraper.ts:221-244 | The loop ends with an empty queue or a full crawl, with the invariant: the root page followed by the successful fetches of the batches in order, at most maxPages+4 pages, batches of 1 to 5 distinct URLs, no URL fetched twice, the root never refetched under its own spelling, and, under the cap, every link found visited or queued |
| Crawler.CrawlSite | src/lib/scraper.ts:201-264 | An unparsable root or a failed root fetch raises; otherwise the first page is the root page named `index.html` and labelled `Home` and the others are exactly the successful fetches of the batches' URLs in batch order; there are at most maxPages+4 pages, no URL is fetched twice; a crawl with fewer than maxPages pages has fetched every link of the root and of its pages (other than the root URL); the messages start with the fetching message and end with the done message |
| Figma.RgbToHexSpec | src/lib/figma.ts:26-30 | The code is `#` and six lower-case hex digits that read back as the three channels |
| Figma.RgbToHexInjective | src/lib/figma.ts:26-30 | Distinct colours give distinct hex codes |
| Figma.NormalizeName | src/lib/figma.ts:32-34 | The name is a non-empty slug; it is the slug of the input when that is non-empty, else `color` |
| Figma.FirstKeyLeftmost | src/lib/figma.ts:37-42 | A key found is the capture of the leftmost occurrence of the pattern: 5 to 60 characters of `[A-Za-z0-9_-]` |
| Figma.FirstKeyFound | src/lib/figma.ts:37-42 | Whenever the pattern occurs anywhere, a key is found |
| Figma.DesignLinkKey | src/lib/figma.ts:37-42 | A link with `figma.com/`, a kind (design, file, proto, board, slides), `/` and a key of 5 to 60 key characters gives that key |
| Figma.PutColorsSpec | src/lib/figma.ts:55-68 | Colour facts are keyed by hex, first seen wins: keys stay distinct, existing facts are kept as prefix, only offered facts are added, and every offered hex is present |
| Figma.AddFillsIsPut | src/lib/figma.ts:55-68 | A node's fills add exactly its painting colours |
| Figma.WalkColors | src/lib/figma.ts:45-91 | The walk adds exactly the tree's colour facts, in walk order |
| Figma.TooDeep | src/lib/figma.ts:51 | A node deeper than 6 contributes nothing |
| Figma.WalkGrows | src/lib/figma.ts:45-91 | Both maps only grow, keys stay distinct and an existing entry is never overwritten |
| Figma.AlphaDoesNotSplit | src/lib/figma.ts:57-68 | A colour without alpha and the same colour with alpha 1 give one fact |
| Figma.NonPaintingFill | src/lib/figma.ts:57-60 | A fill that is not SOLID, has no colour or has opacity 0 adds no fact |
| Figma.TextDefaults | src/lib/figma.ts:71-85 | A text fact's key is family, size and weight, defaulting to Inter, 16 and 400, and its name to `text` |
| Figma.SortBySizeSpec | src/lib/figma.ts:179-181 | The sort is a permutation ordering the styles by size, largest first |
| Figma.SectionNames | src/lib/figma.ts:146-149 | Section names are exactly the names of the FRAME, COMPONENT, COMPONENT_SET and GROUP frames |
| Figma.NamedComponents | src/lib/figma.ts:159-163 | Components kept are exactly the named ones |
| Figma.ProcessShape | src/lib/figma.ts:134-184 | The file name defaults to `Figma Design`; at most 8 pages, each with at most 12 section names taken from section-kind frames among its first 20; at most 40 named components of the file |
| Figma.ProcessFacts | src/lib/figma.ts:134-184 | At most 40 distinct colours, the first ones seen; at most 20 text styles, sorted by size, all found by the walk |
| Figma.ProcessColors | src/lib/figma.ts:134-178 | The colours are the first 40 distinct colour facts of the walked pages, in first-seen order |
| Figma.ProcessStyles | src/lib/figma.ts:179-181 | The text styles are at most 20, sorted non-increasing by size, all found by the walk |
| Figma.FetchFigmaDataSpec | src/lib/figma.ts:93-185 | Data comes back exactly when the link has a key and the API answers 2xx; a link without a key fails before any request; a thrown request error is reported |
| Figma.StatusErrorSpec | src/lib/figma.ts:125-130 | A status is an error exactly when it is outside 200..299 |
| Figma.ThrownMessageSpec | src/lib/figma.ts:119-123 | A timeout message is passed on unchanged; any other is prefixed with `Could not reach Figma API: ` |
| GenerateRoute.Extension | src/app/api/generate/route.ts:26 | The extension is the lower-cased text after the last `.`, or the whole lower-cased name when there is no dot |
| GenerateRoute.ToOutputFilesSpec | src/app/api/generate/route.ts:17-33 | Length, order, names and contents are kept; the type is `html` exactly when the extension is not a known one; an unknown extension gets the page icon |
| GenerateRoute.TypeOfSpec | src/app/api/generate/route.ts:18-27 | Only css, php, json, js and md map to a type other than `html` |
| GenerateRoute.SizeLabelSpec | src/app/api/generate/route.ts:29-30 | Under 1024 bytes the size is the byte count with ` B`; otherwise kilobytes rounded to one decimal, with ` KB` |
| GenerateRoute.PackageSpec | src/app/api/generate/route.ts:142-151 | The packaged list is the generated files in order, then one placeholder with the zip name, empty content and type `zip` |
| GenerateRoute.FallbackSiteSpec | src/app/api/generate/route.ts:102-130 | The fallback site has 5 pages: index, about, services, blog and contact `.html`, the root labelled `Home` at the source URL, the rest on the source's origin, no colours, fonts or nav, language `en` |
| GenerateRoute.PostWellFormed | src/app/api/generate/route.ts:50-161 | Every run emits status events, then exactly one terminal `error` or `complete` event, last |
| GenerateRoute.Guards | src/app/api/generate/route.ts:52-88 | A missing API key gives a lone error; a blank token in design mode or a blank source in URL mode gives status 5 then an error |
| GenerateRoute.CrawlFallback | src/app/api/generate/route.ts:102-130 | A failed crawl of a URL that parses once `https://` is put in front is not terminal: status 22 announces the fallback and the generator is given the 5 fallback pages with the source as typed for their root URL |
| GenerateRoute.FallbackSchemeless | src/app/api/generate/route.ts:102-158 | A failed crawl of a source that parses only with `https://` in front sends the fallback status at 22 and then ends in `Invalid URL`, never `complete` |
| GenerateRoute.IntendedFallbackSite | src/app/api/generate/route.ts:102-108 | The corrected fallback site is the fallback as written with the normalised URL as its root URL, and nothing else changed |
| GenerateRoute.IntendedFallbackGenerates | src/app/api/generate/route.ts:102-132 | With the normalised URL as the fallback's root URL the run is that of the batch and asset stages and makes at least one request, beginning with the five pages' batch |
| GenerateRoute.CrawlOutcomes | src/app/api/generate/route.ts:90-130 | A crawl that succeeds goes on with its pages after the crawl-complete status at 22; a failed crawl of an unparsable URL ends in an error |
| GenerateRoute.UrlPrepGenerates | src/app/api/generate/route.ts:84-135 | Whenever a site is available, URL mode generates from its root URL and pages after a status at 22 |
| GenerateRoute.NoFilesIsError | src/app/api/generate/route.ts:138-140 | A run that generates no files ends in an error and never emits `complete` |
| GenerateRoute.FinishCompletes | src/app/api/generate/route.ts:132-158 | The run ends in `complete` if and only if generation succeeded and produced files |
| GenerateRoute.FinishPackages | src/app/api/generate/route.ts:142-154 | A successful run ends with status 97 then `complete` carrying the packaged files |
| GenerateRoute.CompleteSpec | src/app/api/generate/route.ts:142-154 | A `complete` event follows status 97 and lists all generated files in order, then an empty `zip` placeholder named `wp-theme.zip` in design mode and `site.zip` otherwise |
| Store.MakeDemos | src/lib/store.ts:10-28 | Two demo projects, ids `demo1` and `demo2`, done, with their built files |
| Store.AddProjectSpec | src/lib/store.ts:57-70 | Exactly one project is prepended, with a fresh `p`-plus-digits id, status `generating`, progress 2, no files and the given fields; the old list follows unchanged |
| Store.SetProjectProgressSpec | src/lib/store.ts:72-80 | Only the progress message and percentage of projects with the id change; length, order and every other project and field are unchanged |
| Store.FinishSpec | src/lib/store.ts:82-117 | A matching project becomes done with progress cleared and files set to the given list or the built files (fail also sets the error); identity is kept and other projects are unchanged |
| Store.DeleteProject | src/lib/store.ts:119-121 | Exactly the projects with the id are removed |
| Store.DeleteProjectOrder | src/lib/store.ts:119-121 | Deletion keeps the rest in order and leaves no project with the id |
| Store.DeleteAbsent | src/lib/store.ts:119-121 | Deleting an id no project has changes nothing |
| Store.AddThenDelete | src/lib/store.ts:57-121 | Deleting a just-added project restores the list |
| Store.PartializeSpec | src/lib/store.ts:126-135 | Persisting clears the token, progress fields and every file content, and keeps ids, names, statuses, errors, file names and types; doing it twice is the same as once |
| Store.RehydrateSpec | src/lib/store.ts:137-164 | An unseeded state becomes the two demos, seeded; otherwise no project is left generating, an interrupted one loses its progress, and a done project with empty file contents gets built files |
| Store.PersistRoundTrip | src/lib/store.ts:126-164 | Persisting then rehydrating a seeded state keeps the projects and ids, all done, with no token or progress message |

## Left out

- Network, model API, DOM and URL parsing are oracles. The model API is a function from request number to outcome. A page fetch is a function from URL to optional HTML, and the DOM queries are a `Doc` record of element texts. `new URL` is a parser record, and the Figma API is a function from key and token to a response.
- The route's crawl and Figma outcomes, and whether an API key is configured, are inputs of the endpoint.
- `buildFiles` (from `./files`, not part of this model) and the clock behind ids and dates are parameters.
- Prompt texts, the server-sent-event encoding and the `INTER_CALL_DELAY` pauses are not modelled.
- `sleep` is not modelled; the back-off pauses are recorded as numbers.
- The 25-second timer in `ask` is not modelled. It throws inside a timer callback, outside the `try`, so it does not bound a call.
- `Promise.allSettled` in the crawl is sequential in the model, results merged in batch order.
- The font regex captures and Google `family=` values are given as `Doc` fields. The colour regexes are modelled exactly.
- Scraper.ResolveHrefSpec: a URL's user name and password are not modelled. `resolved.href` keeps a `user:pass@` part, but the model builds the link from the origin, which drops it. Two links that differ only in their user info are therefore one link in the model.
- `\s` and `trim` use JavaScript's full whitespace set (`Text.IsSpace`). `\w`, `\b` and the letter classes are ASCII, as in JavaScript without the `u` flag.
- Scraper.HeadingCandidates, Scraper.FirstBody, Scraper.Preview, Scraper.GoodNavLink, Scraper.FooterCandidates, Scraper.StyleFontNames, OutputParser.FallbackFiles, Generation.SummarisePage: lengths, `slice` caps, the 120-character look-behind and length bounds count code points, where JavaScript counts UTF-16 code units. Text outside the Basic Multilingual Plane is cut or bounded later than the code would. Only the zip size estimate counts code units (`GenerateRoute.Utf16Length`); the per-file size labels count UTF-8 bytes.
- Text.Slug, Generation.ThemeSlug, Figma.NormalizeName, GenerateRoute.Extension: lower-casing maps only `A`–`Z`. JavaScript's `toLowerCase` also maps other capitals, among them U+212A (Kelvin sign) to `k` and U+0130 to `i` plus a combining dot. Those two survive the `[^a-z0-9]` cleanup, so a slug can differ on them. No known extension is affected.
- Types.FigmaTextStyle: has no `lineHeightPx` or `letterSpacing`. `fetchFigmaData` copies them but nothing in the core reads them.
- GenerateRoute.Guards: states the events the guards send, not what reaches the client. A guard closes the controller and returns, and the `finally` closes it again. A second `close()` throws in a WHATWG stream, and the rejected `start` can error the stream before the queued error event is read. Stream state is not modelled.
- `console.warn` and the loop over the `styles` map in `fetchFigmaData`, which has no effect on the result, are not modelled.
- A `res.json()` failure is not modelled.
- Text-style keys are tuples of family, size and weight, not strings. The string key `${family}-${size}-${weight}` can merge two different styles when a size prints with a `-`: negative sizes, and sizes printed in exponent form (below 1e-6 or from 1e21). For example, family `A` at size 1e-7 and family `A-1e` at size 7 share the key `A-1e-7-400`.
- Lookups of `EXT_TYPE` and `ICON` on inherited object keys such as `constructor` are not modelled.
- The `?? 'txt'` in `toOutputFiles` is dead code: `split('.').pop()` always gives a string.
- `Retry.AskFromSpec`: an empty reply raises the message V8 gives for reading `type` of `undefined`. Other engines word it differently.
- `Figma.RgbToHexSpec`: channels are integers 0..255, already scaled and rounded. The floating `Math.round(v * 255)` is not modelled.
- `Figma.StatusErrorSpec`: states which statuses fail, not that the messages of 400, 401, 403, 404 and 405 differ from one another. `StatusError` spells out each distinct message, but the proof does not compare them.
- `Figma.SortBySizeSpec`: states a permutation sorted by size, not that styles of equal size keep their order. `SortBySize` is a stable insertion, like the stable `Array.prototype.sort`.
- `Figma.ProcessStyles`: states that the kept styles are sorted and found by the walk, not that they are the 20 largest.
- `Generation.BatchPct`: `Math.round` is computed on exact rationals, ties going up; floating error is ignored.
- `GenerateRoute.SizeLabelSpec`: `toFixed(1)` is computed on exact rationals. On an exact tie the binary float may round the other way. The zip size estimate is treated the same way.
- `Generation.SummarisePageSpec`: states the summary's opening and what it depends on, not its full text.
- `Generation.SummariseSite`: states that the key headings are at most 10 headings of the site's pages, not that they are the first two of each page.
- `Generation.Families`: states the distinct families, not their first-seen order.
- `Scraper.PathToLabelSpec`: states the label's letters up to case and that no word starts lower-case, not that letters other than word starts keep their case. `Scraper.PathToLabelExample` pins one label exactly.
- `Store.PersistRoundTrip`: states what survives for every project, not the full record; `Store.RehydrateSpec` gives the rest.
- `Crawler.CrawlSite`: a crawl can hold up to maxPages+4 pages, as the code allows. File names need not be unique (`Scraper.FilenamesCollide`). The root can be fetched a second time when the site links to it under a different spelling.

## Findings

| source | as written | input that shows it | evidently intended | confidence | as-written member | corrected member |
|---|---|---|---|---|---|---|
| src/app/api/generate/route.ts:108 | The crawl fallback's `rootUrl` is the source as typed. The code parses `https://` plus the source for the host (line 104), but `generateUrlSite` parses `rootUrl` again at src/lib/claude.ts:357 | Source `example.com` whose crawl fails: the fallback status is sent at 22, then the run ends in `Invalid URL` with no request made | The fallback's root URL is the URL it has already parsed, so generation goes on from the five standard pages | not executed; high | GenerateRoute.FallbackSchemeless | GenerateRoute.IntendedFallbackGenerates |

`GenerateRoute.Post` models the endpoint as written. `GenerateRoute.IntendedFallbackSite` is the corrected fallback site, and `GenerateRoute.IntendedFallbackGenerates` proves that generation from it starts.
