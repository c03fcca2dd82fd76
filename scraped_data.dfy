/** The JSON records the scrapers write and the knowledge-base generator reads.
    A key the generator reads with a default (`table.get('title', ...)`,
    `section.get('heading', ...)`) is an `Option`; a list or text the generator
    treats as empty when absent is just a (possibly empty) sequence or string. */
module ScrapedData {
  import opened Wrappers
  import opened Dict

  /** One extracted figure: `{'metric', 'value', 'unit', 'year'}`. */
  datatype Stat = Stat(metric: string, value: string, unit: string, year: string)

  /** `key_statistics`: three lists of figures and an `annual_data` dictionary. */
  datatype KeyStatistics = KeyStatistics(
    keyHighlights: seq<Stat>,
    wasteTrends: seq<Stat>,
    recyclingRates: seq<Stat>,
    annualData: Dict<string>)

  /** One entry of `statistics_tables`. */
  datatype Table = Table(
    tableIndex: nat,
    headers: seq<string>,
    rows: seq<seq<string>>,
    title: Option<string>)

  /** One entry of `content_sections`; `kind` is its `type` field. */
  datatype Section = Section(heading: Option<string>, content: seq<string>, kind: string)

  /** An entry of `relevant_links` (its `type` is always `relevant_link`) or of
      `press_releases` (with its `source` tag). */
  datatype LinkEntry =
    | RelevantLink(text: string, url: string)
    | PressRelease(title: string, url: string, source: string)

  /** One entry of `faqs`. */
  datatype Faq = Faq(question: string, answer: string, source: string)

  /** `trafilatura_metadata`, reduced to the four fields the generator prints;
      a missing or null field is the empty string (both are falsy). */
  datatype Metadata = Metadata(title: string, author: string, date: string, language: string)

  /** A record as written by the statistics scraper and read by the generator;
      `annual_data` maps each year to its own dictionary of cells. */
  datatype ScrapedRecord = ScrapedRecord(
    url: string,
    scrapedAt: string,
    pageTitle: string,
    statisticsTables: seq<Table>,
    keyStatistics: KeyStatistics,
    annualData: Dict<Dict<string>>,
    contentSections: seq<Section>,
    relevantLinks: seq<LinkEntry>,
    metadata: Metadata)
}
