/**
 * The records that flow between the pipeline's stages (src/lib/types.ts,
 * the data interfaces of src/lib/figma.ts and src/lib/scraper.ts).
 */
module Types {
  import opened Wrappers

  // ---------------------------------------------------------------------
  // Design data read from a design file
  // ---------------------------------------------------------------------

  /** A colour channel, already scaled to 0..255. */
  type Channel = x: int | 0 <= x <= 255

  /** A named colour; the channels are those the hex code was built from. */
  datatype FigmaColor = FigmaColor(name: string, hex: string, r: Channel, g: Channel, b: Channel, a: real)

  /** A text style; the size and weight are the style's numbers after defaulting. */
  datatype FigmaTextStyle = FigmaTextStyle(name: string, fontFamily: string, fontSize: real, fontWeight: real)

  datatype FigmaPage = FigmaPage(name: string, sections: seq<string>)

  datatype FigmaComponent = FigmaComponent(name: string, description: Option<string>)

  datatype FigmaDesignData = FigmaDesignData(
    fileName: string,
    colors: seq<FigmaColor>,
    textStyles: seq<FigmaTextStyle>,
    pages: seq<FigmaPage>,
    components: seq<FigmaComponent>)

  // ---------------------------------------------------------------------
  // Site data read by the crawler
  // ---------------------------------------------------------------------

  /** What `new URL` throws on a string it cannot parse. */
  const InvalidUrl: string := "Invalid URL"

  datatype Section = Section(heading: string, body: string)

  datatype PageData = PageData(
    url: string,
    path: string,
    filename: string,
    navLabel: string,
    title: string,
    description: string,
    headings: seq<string>,
    sections: seq<Section>,
    bodyPreview: string)

  datatype NavLink = NavLink(text: string, href: string)

  datatype SiteData = SiteData(
    rootUrl: string,
    origin: string,
    siteTitle: string,
    siteDescription: string,
    navLinks: seq<NavLink>,
    colors: seq<string>,
    fonts: seq<string>,
    footerLinks: seq<string>,
    lang: string,
    pages: seq<PageData>)

  // ---------------------------------------------------------------------
  // Projects and their output
  // ---------------------------------------------------------------------

  datatype FileType = Html | Css | Php | Json | Zip | Js | Md

  datatype OutputFile = OutputFile(name: string, icon: string, fileType: FileType, size: string, content: string)

  datatype ProjectMode = FigmaMode | UrlMode

  datatype ProjectStatus = Generating | Done

  datatype Project = Project(
    id: string,
    name: string,
    client: string,
    mode: ProjectMode,
    source: string,
    figmaToken: Option<string>,
    createdAt: string,
    status: ProjectStatus,
    files: seq<OutputFile>,
    progressMessage: Option<string>,
    progressPct: Option<int>,
    error: Option<string>)
}
