/** The knowledge-base generator: turns one scraped record into an ordered list
    of markdown snippets `(snippet_id, markdown)`, and builds from that list an
    index file and a combined file.

    Every builder grows its markdown text line by line, so each text is specified
    as `Unlines(lines)` for an explicit list of lines; the methods, which follow
    the generator's loops, are proved to build exactly that text. */
module KnowledgeBase {
  import opened Wrappers
  import opened Text
  import opened Dict
  import opened ScrapedData

  /** The footer line every snippet ends with. */
  const Footer := "*Source: NEA Waste Statistics Report*"

  /** `(snippet_id, markdown)` */
  datatype Snippet = Snippet(id: string, text: string)

  function Ids(snippets: seq<Snippet>): seq<string> {
    seq(|snippets|, k requires 0 <= k < |snippets| => snippets[k].id)
  }

  // ---------------------------------------------------------------------------
  // Statistics snippets

  /** `- **{metric}**: {value}{unit} ({year})` */
  function BulletLine(s: Stat): string {
    "- **" + s.metric + "**: " + s.value + s.unit + " (" + s.year + ")"
  }

  function BulletLines(items: seq<Stat>): seq<string> {
    seq(|items|, k requires 0 <= k < |items| => BulletLine(items[k]))
  }

  /** A statistics snippet: heading, blank line, one bullet per figure, blank
      line, footer. */
  function StatLines(heading: string, items: seq<Stat>): seq<string> {
    ["# " + heading, ""] + BulletLines(items) + ["", Footer]
  }

  /** The snippet for one list of figures, present only when the list is non-empty. */
  function StatSnippet(id: string, heading: string, items: seq<Stat>): seq<Snippet> {
    if items == [] then [] else [Snippet(id, Unlines(StatLines(heading, items)))]
  }

  const HighlightsHeading := "Key Waste Management Highlights"
  const RatesHeading := "Recycling Rate Trends"
  const TrendsHeading := "Waste Generation Trends"

  function StatisticsSnippets(ks: KeyStatistics): seq<Snippet> {
    StatSnippet("key_highlights", HighlightsHeading, ks.keyHighlights)
    + StatSnippet("recycling_rates", RatesHeading, ks.recyclingRates)
    + StatSnippet("waste_trends", TrendsHeading, ks.wasteTrends)
  }

  lemma UnlinesTwo(a: string, b: string)
    ensures Unlines([a, b]) == a + "\n" + b + "\n"
  {
    assert Unlines([b]) == b + "\n" + Unlines([]);
  }

  /** One loop step: appending `line` and a newline to a text built from `top`
      and the lines so far. */
  lemma AppendLine(text: string, top: seq<string>, done: seq<string>, line: string)
    requires text == Unlines(top + done)
    ensures text + line + "\n" == Unlines(top + (done + [line]))
  {
    UnlinesSnoc(top + done, line);
    assert top + (done + [line]) == top + done + [line];
  }

  /** A line followed by a blank line. */
  lemma BlankAfter(line: string)
    ensures Unlines([line, ""]) == line + "\n\n"
  {
    UnlinesTwo(line, "");
  }

  /** Appending a line and a blank line to a text built by `Unlines(lines)`. */
  lemma AppendBlankAfter(text: string, lines: seq<string>, line: string)
    requires text == Unlines(lines)
    ensures text + line + "\n\n" == Unlines(lines + [line, ""])
  {
    UnlinesAppend(lines, [line, ""]);
    BlankAfter(line);
  }

  /** A blank line followed by the footer. */
  lemma FooterBlock()
    ensures Unlines(["", Footer]) == "\n" + Footer + "\n"
  {
    UnlinesTwo("", Footer);
  }

  /** Finishing a text built by `Unlines(body)` with a blank line and the footer. */
  lemma AppendFooterBlock(text: string, body: seq<string>)
    requires text == Unlines(body)
    ensures text + "\n" + Footer + "\n" == Unlines(body + ["", Footer])
  {
    UnlinesAppend(body, ["", Footer]);
    FooterBlock();
  }

  /** The loop body of every statistics list: one bullet per figure. */
  method BuildStatSnippet(heading: string, items: seq<Stat>) returns (text: string)
    ensures text == Unlines(StatLines(heading, items))
  {
    ghost var top := ["# " + heading, ""];
    text := "# " + heading + "\n\n";
    BlankAfter("# " + heading);
    assert top + BulletLines(items[..0]) == top;
    for i := 0 to |items|
      invariant text == Unlines(top + BulletLines(items[..i]))
    {
      var item := items[i];
      ghost var before := top + BulletLines(items[..i]);
      var line := "- **" + item.metric + "**: " + item.value + item.unit + " (" + item.year + ")";
      text := text + line + "\n";
      UnlinesSnoc(before, BulletLine(item));
      assert BulletLines(items[..i + 1]) == BulletLines(items[..i]) + [BulletLine(item)];
      assert top + BulletLines(items[..i + 1]) == before + [BulletLine(item)];
    }
    assert items[..|items|] == items;
    ghost var body := top + BulletLines(items);
    AppendFooterBlock(text, body);
    text := text + "\n" + Footer + "\n";
  }

  method CreateStatisticsSnippets(data: ScrapedRecord) returns (snippets: seq<Snippet>)
    ensures snippets == StatisticsSnippets(data.keyStatistics)
  {
    var ks := data.keyStatistics;
    snippets := [];
    if ks.keyHighlights != [] {
      var snippet := BuildStatSnippet(HighlightsHeading, ks.keyHighlights);
      snippets := snippets + [Snippet("key_highlights", snippet)];
    }
    if ks.recyclingRates != [] {
      var snippet := BuildStatSnippet(RatesHeading, ks.recyclingRates);
      snippets := snippets + [Snippet("recycling_rates", snippet)];
    }
    if ks.wasteTrends != [] {
      var snippet := BuildStatSnippet(TrendsHeading, ks.wasteTrends);
      snippets := snippets + [Snippet("waste_trends", snippet)];
    }
  }

  // ---------------------------------------------------------------------------
  // Table snippets

  /** `"| " + " | ".join(cells) + " |"` */
  function RowLine(cells: seq<string>): string {
    "| " + Join(cells, " | ") + " |"
  }

  /** `["---"] * n` */
  function Separator(n: nat): seq<string> {
    seq(n, _ => "---")
  }

  function HeaderLines(headers: seq<string>): seq<string> {
    if headers == [] then [] else [RowLine(headers), RowLine(Separator(|headers|))]
  }

  function RowLines(rows: seq<seq<string>>): seq<string> {
    seq(|rows|, k requires 0 <= k < |rows| => RowLine(rows[k]))
  }

  /** A table snippet: heading, blank line, the header row and its separator when
      there are headers, one line per row, blank line, footer. */
  function TableLines(title: string, headers: seq<string>, rows: seq<seq<string>>): seq<string> {
    ["# " + title, ""] + HeaderLines(headers) + RowLines(rows) + ["", Footer]
  }

  /** `s.lower().replace(' ', '_')` */
  function Slug(s: string): string {
    ReplaceChar(Lower(s), ' ', '_')
  }

  /** `table.get('title', f'Table {i+1}')`: the default only when the key is absent. */
  function TableTitle(i: nat, t: Table): string {
    t.title.GetOr("Table " + NatToString(i + 1))
  }

  function TableId(i: nat, title: string): string {
    "table_" + NatToString(i + 1) + "_" + Slug(title)
  }

  function TableSnippet(i: nat, t: Table): Snippet {
    var title := TableTitle(i, t);
    Snippet(TableId(i, title), Unlines(TableLines(title, t.headers, t.rows)))
  }

  /** One snippet per table that has rows, numbered by its position among all tables. */
  function TableSnippets(tables: seq<Table>): seq<Snippet>
    decreases |tables|
  {
    if tables == [] then []
    else
      var i := |tables| - 1;
      TableSnippets(tables[..i]) + (if tables[i].rows == [] then [] else [TableSnippet(i, tables[i])])
  }

  method BuildTableText(title: string, headers: seq<string>, rows: seq<seq<string>>) returns (text: string)
    ensures text == Unlines(TableLines(title, headers, rows))
  {
    text := TableHead(title, headers);
    ghost var head := ["# " + title, ""] + HeaderLines(headers);
    assert head + RowLines(rows[..0]) == head;
    for i := 0 to |rows|
      invariant text == Unlines(head + RowLines(rows[..i]))
    {
      var row := rows[i];
      var line := "| " + Join(row, " | ") + " |";
      TableRowStep(text, head, rows, i);
      text := text + line + "\n";
    }
    assert rows[..|rows|] == rows;
    ghost var body := head + RowLines(rows);
    AppendFooterBlock(text, body);
    text := text + "\n" + Footer + "\n";
  }

  /** The heading, the blank line and, when there are headers, the header row
      and its separator. */
  method TableHead(title: string, headers: seq<string>) returns (text: string)
    ensures text == Unlines(["# " + title, ""] + HeaderLines(headers))
  {
    text := "# " + title + "\n\n";
    if headers != [] {
      var headerLine := "| " + Join(headers, " | ") + " |";
      var separatorLine := "| " + Join(Separator(|headers|), " | ") + " |";
      TwoLinesAfterHeading("# " + title, headerLine, separatorLine);
      text := text + headerLine + "\n";
      text := text + separatorLine + "\n";
    } else {
      BlankAfter("# " + title);
      assert ["# " + title, ""] + HeaderLines(headers) == ["# " + title, ""];
    }
  }

  lemma TwoLinesAfterHeading(heading: string, a: string, b: string)
    ensures Unlines([heading, ""] + [a, b]) == heading + "\n\n" + a + "\n" + b + "\n"
  {
    BlankAfter(heading);
    UnlinesAppend([heading, ""], [a, b]);
    UnlinesTwo(a, b);
  }

  /** The row loop of a table snippet appends the next row's line. */
  lemma TableRowStep(text: string, head: seq<string>, rows: seq<seq<string>>, i: nat)
    requires i < |rows| && text == Unlines(head + RowLines(rows[..i]))
    ensures text + RowLine(rows[i]) + "\n" == Unlines(head + RowLines(rows[..i + 1]))
  {
    var before := head + RowLines(rows[..i]);
    UnlinesSnoc(before, RowLine(rows[i]));
    assert RowLines(rows[..i + 1]) == RowLines(rows[..i]) + [RowLine(rows[i])];
    assert head + RowLines(rows[..i + 1]) == before + [RowLine(rows[i])];
  }

  method CreateTableSnippets(data: ScrapedRecord) returns (snippets: seq<Snippet>)
    ensures snippets == TableSnippets(data.statisticsTables)
  {
    var tables := data.statisticsTables;
    snippets := [];
    for i := 0 to |tables|
      invariant snippets == TableSnippets(tables[..i])
    {
      assert tables[..i + 1][..i] == tables[..i];
      var table := tables[i];
      var title := table.title.GetOr("Table " + NatToString(i + 1));
      if table.rows == [] {
        continue;
      }
      var snippet := BuildTableText(title, table.headers, table.rows);
      snippets := snippets + [Snippet("table_" + NatToString(i + 1) + "_" + Slug(title), snippet)];
    }
    assert tables[..|tables|] == tables;
  }

  // ---------------------------------------------------------------------------
  // Content snippets

  /** Each paragraph that is not blank after `strip()`, followed by a blank line;
      `Text.BlankIff` relates `Blank` to `strip()`. */
  function ParagraphLines(content: seq<string>): seq<string>
    decreases |content|
  {
    if content == [] then []
    else
      var p := content[|content| - 1];
      ParagraphLines(content[..|content| - 1]) + (if !Blank(p) then [p, ""] else [])
  }

  /** A content snippet: heading, blank line, the kept paragraphs each followed by
      a blank line, footer. */
  function ContentLines(heading: string, content: seq<string>): seq<string> {
    ["# " + heading, ""] + ParagraphLines(content) + [Footer]
  }

  /** `section.get('heading', f'Section {i+1}')` */
  function SectionHeading(i: nat, s: Section): string {
    s.heading.GetOr("Section " + NatToString(i + 1))
  }

  function ContentId(i: nat, heading: string): string {
    "content_" + NatToString(i + 1) + "_" + Slug(heading)
  }

  function ContentSnippet(i: nat, s: Section): Snippet {
    var heading := SectionHeading(i, s);
    Snippet(ContentId(i, heading), Unlines(ContentLines(heading, s.content)))
  }

  /** One snippet per section whose content list is non-empty. */
  function ContentSnippets(sections: seq<Section>): seq<Snippet>
    decreases |sections|
  {
    if sections == [] then []
    else
      var i := |sections| - 1;
      ContentSnippets(sections[..i]) + (if sections[i].content == [] then [] else [ContentSnippet(i, sections[i])])
  }

  /** One step of the paragraph loop: a kept paragraph adds itself and a blank
      line to the text, a blank one adds nothing. */
  lemma ParagraphStep(text: string, top: seq<string>, content: seq<string>, i: nat)
    requires i < |content| && text == Unlines(top + ParagraphLines(content[..i]))
    ensures !Blank(content[i]) ==> text + content[i] + "\n\n" == Unlines(top + ParagraphLines(content[..i + 1]))
    ensures Blank(content[i]) ==> text == Unlines(top + ParagraphLines(content[..i + 1]))
  {
    assert content[..i + 1][..i] == content[..i];
    var before := top + ParagraphLines(content[..i]);
    if !Blank(content[i]) {
      AppendBlankAfter(text, before, content[i]);
      assert top + ParagraphLines(content[..i + 1]) == before + [content[i], ""];
    } else {
      assert top + ParagraphLines(content[..i + 1]) == before;
    }
  }

  method BuildContentText(heading: string, content: seq<string>) returns (text: string)
    ensures text == Unlines(ContentLines(heading, content))
  {
    ghost var top := ["# " + heading, ""];
    text := "# " + heading + "\n\n";
    BlankAfter("# " + heading);
    assert content[..0] == [];
    assert top + ParagraphLines(content[..0]) == top;
    for i := 0 to |content|
      invariant text == Unlines(top + ParagraphLines(content[..i]))
    {
      var paragraph := content[i];
      ParagraphStep(text, top, content, i);
      if !Blank(paragraph) {
        text := text + paragraph + "\n\n";
      }
    }
    assert content[..|content|] == content;
    ghost var body := top + ParagraphLines(content);
    text := text + Footer + "\n";
    UnlinesSnoc(body, Footer);
  }

  method CreateContentSnippets(data: ScrapedRecord) returns (snippets: seq<Snippet>)
    ensures snippets == ContentSnippets(data.contentSections)
  {
    var sections := data.contentSections;
    snippets := [];
    for i := 0 to |sections|
      invariant snippets == ContentSnippets(sections[..i])
    {
      assert sections[..i + 1][..i] == sections[..i];
      var section := sections[i];
      var heading := section.heading.GetOr("Section " + NatToString(i + 1));
      if section.content == [] {
        continue;
      }
      var snippet := BuildContentText(heading, section.content);
      snippets := snippets + [Snippet("content_" + NatToString(i + 1) + "_" + Slug(heading), snippet)];
    }
    assert sections[..|sections|] == sections;
  }

  // ---------------------------------------------------------------------------
  // Annual-data snippets

  /** The bullet label of an annual-data key. */
  function AnnualLabel(key: string): string {
    if StartsWith(key, "rate_") then "Recycling Rate"
    else if StartsWith(key, "value_") then "Waste Generated"
    else TitleCase(ReplaceChar(key, '_', ' '))
  }

  function AnnualBullet(key: string, value: string): string {
    "- **" + AnnualLabel(key) + "**: " + value
  }

  function AnnualBullets(yearData: Dict<string>): seq<string> {
    seq(|yearData|, k requires 0 <= k < |yearData| => AnnualBullet(yearData[k].0, yearData[k].1))
  }

  /** An annual snippet: heading with the year, blank line, one bullet per key in
      the year's dictionary order, blank line, footer. */
  function AnnualLines(year: string, yearData: Dict<string>): seq<string> {
    ["# Annual Waste Data - " + year, ""] + AnnualBullets(yearData) + ["", Footer]
  }

  function AnnualSnippet(year: string, yearData: Dict<string>): Snippet {
    Snippet("annual_data_" + year, Unlines(AnnualLines(year, yearData)))
  }

  /** One snippet per year, in the dictionary's order. */
  function AnnualSnippets(annual: Dict<Dict<string>>): seq<Snippet> {
    seq(|annual|, k requires 0 <= k < |annual| => AnnualSnippet(annual[k].0, annual[k].1))
  }

  lemma AnnualBulletsStep(yearData: Dict<string>, i: nat)
    requires i < |yearData|
    ensures AnnualBullets(yearData[..i + 1]) == AnnualBullets(yearData[..i]) + [AnnualBullet(yearData[i].0, yearData[i].1)]
  {
  }

  /** The bullet the annual loop writes for one key: rates and amounts get fixed
      labels, other keys their title-cased name. */
  method AnnualLine(key: string, value: string) returns (line: string)
    ensures line == AnnualBullet(key, value)
  {
    if StartsWith(key, "rate_") {
      line := "- **" + "Recycling Rate" + "**: " + value;
    } else if StartsWith(key, "value_") {
      line := "- **" + "Waste Generated" + "**: " + value;
    } else {
      line := "- **" + TitleCase(ReplaceChar(key, '_', ' ')) + "**: " + value;
    }
  }

  /** The loop body of the annual snippet appends the next key's bullet. */
  lemma AnnualStep(text: string, top: seq<string>, yearData: Dict<string>, i: nat)
    requires i < |yearData| && text == Unlines(top + AnnualBullets(yearData[..i]))
    ensures text + AnnualBullet(yearData[i].0, yearData[i].1) + "\n" == Unlines(top + AnnualBullets(yearData[..i + 1]))
  {
    AppendLine(text, top, AnnualBullets(yearData[..i]), AnnualBullet(yearData[i].0, yearData[i].1));
    AnnualBulletsStep(yearData, i);
  }

  method BuildAnnualText(year: string, yearData: Dict<string>) returns (text: string)
    ensures text == Unlines(AnnualLines(year, yearData))
  {
    ghost var top := ["# Annual Waste Data - " + year, ""];
    text := "# Annual Waste Data - " + year + "\n\n";
    BlankAfter("# Annual Waste Data - " + year);
    assert top + AnnualBullets(yearData[..0]) == top;
    for i := 0 to |yearData|
      invariant text == Unlines(top + AnnualBullets(yearData[..i]))
    {
      var key := yearData[i].0;
      var value := yearData[i].1;
      var line := AnnualLine(key, value);
      AnnualStep(text, top, yearData, i);
      text := text + line + "\n";
    }
    assert yearData[..|yearData|] == yearData;
    ghost var body := top + AnnualBullets(yearData);
    AppendFooterBlock(text, body);
    text := text + "\n" + Footer + "\n";
  }

  method CreateAnnualDataSnippets(data: ScrapedRecord) returns (snippets: seq<Snippet>)
    ensures snippets == AnnualSnippets(data.annualData)
  {
    var annual := data.annualData;
    snippets := [];
    for i := 0 to |annual|
      invariant snippets == AnnualSnippets(annual[..i])
    {
      var year := annual[i].0;
      var yearData := annual[i].1;
      var snippet := BuildAnnualText(year, yearData);
      snippets := snippets + [Snippet("annual_data_" + year, snippet)];
      assert AnnualSnippets(annual[..i + 1]) == AnnualSnippets(annual[..i]) + [AnnualSnippet(year, yearData)];
    }
    assert annual[..|annual|] == annual;
  }

  // ---------------------------------------------------------------------------
  // Metadata snippet

  /** A `- **{label}**: {value}` line, present only when the value is truthy. */
  function OptionalLine(name: string, value: string): seq<string> {
    if value == "" then [] else ["- **" + name + "**: " + value]
  }

  /** The metadata snippet: heading, blank line, source URL, scrape time, then
      title, author, publication date and language when present, blank line, footer. */
  function MetadataLines(url: string, scrapedAt: string, m: Metadata): seq<string> {
    MetadataHead(url, scrapedAt)
    + OptionalLine("Title", m.title)
    + OptionalLine("Author", m.author)
    + OptionalLine("Publication Date", m.date)
    + OptionalLine("Language", m.language)
    + ["", Footer]
  }

  /** The lines the metadata snippet always has. */
  function MetadataHead(url: string, scrapedAt: string): seq<string> {
    ["# Document Metadata", "", "- **Source URL**: " + url, "- **Scraped At**: " + scrapedAt]
  }

  lemma MetadataHeadText(url: string, scrapedAt: string)
    ensures Unlines(MetadataHead(url, scrapedAt))
      == "# Document Metadata\n\n" + ("- **Source URL**: " + url) + "\n" + ("- **Scraped At**: " + scrapedAt) + "\n"
  {
    var top := ["# Document Metadata", ""];
    BlankAfter("# Document Metadata");
    UnlinesSnoc(top, "- **Source URL**: " + url);
    UnlinesSnoc(top + ["- **Source URL**: " + url], "- **Scraped At**: " + scrapedAt);
    assert top + ["- **Source URL**: " + url] + ["- **Scraped At**: " + scrapedAt] == MetadataHead(url, scrapedAt);
  }

  function MetadataSnippets(data: ScrapedRecord): seq<Snippet> {
    [Snippet("metadata", Unlines(MetadataLines(data.url, data.scrapedAt, data.metadata)))]
  }

  method AddOptionalLine(text: string, ghost lines: seq<string>, name: string, value: string)
    returns (text': string)
    requires text == Unlines(lines)
    ensures text' == Unlines(lines + OptionalLine(name, value))
  {
    text' := text;
    if value != "" {
      var line := "- **" + name + "**: " + value;
      text' := text + line + "\n";
      UnlinesSnoc(lines, line);
    } else {
      assert lines + OptionalLine(name, value) == lines;
    }
  }

  method CreateMetadataSnippet(data: ScrapedRecord) returns (snippets: seq<Snippet>)
    ensures snippets == MetadataSnippets(data)
  {
    var m := data.metadata;
    var snippet := "# Document Metadata\n\n";
    var line := "- **Source URL**: " + data.url;
    snippet := snippet + line + "\n";
    line := "- **Scraped At**: " + data.scrapedAt;
    snippet := snippet + line + "\n";
    MetadataHeadText(data.url, data.scrapedAt);
    ghost var lines := MetadataHead(data.url, data.scrapedAt);
    snippet := AddOptionalLine(snippet, lines, "Title", m.title);
    lines := lines + OptionalLine("Title", m.title);
    snippet := AddOptionalLine(snippet, lines, "Author", m.author);
    lines := lines + OptionalLine("Author", m.author);
    snippet := AddOptionalLine(snippet, lines, "Publication Date", m.date);
    lines := lines + OptionalLine("Publication Date", m.date);
    snippet := AddOptionalLine(snippet, lines, "Language", m.language);
    lines := lines + OptionalLine("Language", m.language);
    AppendFooterBlock(snippet, lines);
    snippet := snippet + "\n" + Footer + "\n";
    snippets := [Snippet("metadata", snippet)];
  }

  // ---------------------------------------------------------------------------
  // The whole knowledge base

  /** Metadata first, then statistics, tables, content sections and annual data. */
  function KnowledgeBaseSnippets(data: ScrapedRecord): seq<Snippet> {
    MetadataSnippets(data)
    + StatisticsSnippets(data.keyStatistics)
    + TableSnippets(data.statisticsTables)
    + ContentSnippets(data.contentSections)
    + AnnualSnippets(data.annualData)
  }

  /** What one run of the generator produces: the snippet list, the count it
      reports, the index file and the combined file. */
  datatype Output = Output(snippets: seq<Snippet>, snippetCount: nat, index: string, combined: string)

  /** What `load_latest_scraped_data` returns: `None` when no scraped file
      exists, a falsy JSON value (`{}`, `[]`, `""`, `0`, `null`), or a record. */
  datatype Loaded = NoFile | Falsy | Record(record: ScrapedRecord)

  /** `generate_knowledge_base`. The loaded data is an input and `if not data`
      stops on anything but a record; the clock is read once for the index file
      and once more for the combined file, so the two time stamps are separate
      inputs and may differ; file writes are not modelled, so the snippet loop
      only counts. */
  method GenerateKnowledgeBase(data: Loaded, indexGeneratedOn: string, combinedGeneratedOn: string)
    returns (out: Option<Output>)
    ensures !data.Record? ==> out.None?
    ensures data.Record? ==> out.Some?
    ensures data.Record? ==> out.value.snippets == KnowledgeBaseSnippets(data.record)
    ensures out.Some? ==> out.value.snippetCount == |out.value.snippets|
    ensures out.Some? ==> out.value.index == Unlines(IndexLines(out.value.snippets, indexGeneratedOn))
    ensures out.Some? ==> out.value.combined == CombinedText(out.value.snippets, combinedGeneratedOn)
  {
    if !data.Record? {
      return None;
    }
    var d := data.record;
    var allSnippets: seq<Snippet> := [];
    var part := CreateMetadataSnippet(d);
    allSnippets := allSnippets + part;
    assert allSnippets == MetadataSnippets(d);
    part := CreateStatisticsSnippets(d);
    allSnippets := allSnippets + part;
    part := CreateTableSnippets(d);
    allSnippets := allSnippets + part;
    part := CreateContentSnippets(d);
    allSnippets := allSnippets + part;
    part := CreateAnnualDataSnippets(d);
    allSnippets := allSnippets + part;
    assert allSnippets == KnowledgeBaseSnippets(d);

    var snippetCount := 0;
    for k := 0 to |allSnippets|
      invariant snippetCount == k
    {
      snippetCount := snippetCount + 1;
    }

    var index := CreateIndexFile(allSnippets, indexGeneratedOn);
    var combined := CreateCombinedKb(allSnippets, combinedGeneratedOn);
    return Some(Output(allSnippets, snippetCount, index, combined));
  }

  // ---------------------------------------------------------------------------
  // Index file

  /** A line `^# (.+)$` matches: `# ` followed by at least one character. */
  predicate TitleLine(line: string) {
    StartsWith(line, "# ") && |line| > 2
  }

  /** `re.search(r'^# (.+)$', content, re.MULTILINE)`: the rest of the first line
      that starts with `# ` and has at least one character after it. */
  function FirstTitleLine(lines: seq<string>): (r: Option<string>)
    ensures r.None? <==> forall k :: 0 <= k < |lines| ==> !TitleLine(lines[k])
    ensures r.Some? ==> r.value != ""
    ensures r.Some? ==> exists k :: 0 <= k < |lines| && lines[k] == "# " + r.value && forall j :: 0 <= j < k ==> !TitleLine(lines[j])
  {
    if lines == [] then None
    else if TitleLine(lines[0]) then
      assert lines[0] == "# " + lines[0][2..];
      Some(lines[0][2..])
    else
      var r := FirstTitleLine(lines[1..]);
      assert forall k :: 1 <= k < |lines| ==> lines[k] == lines[1..][k - 1];
      assert r.Some? ==> exists k :: 0 <= k < |lines| && lines[k] == "# " + r.value && forall j :: 0 <= j < k ==> !TitleLine(lines[j]) by {
        if r.Some? {
          var k :| 0 <= k < |lines[1..]| && lines[1..][k] == "# " + r.value
            && forall j :: 0 <= j < k ==> !TitleLine(lines[1..][j]);
          assert lines[k + 1] == "# " + r.value;
          forall j | 0 <= j < k + 1
            ensures !TitleLine(lines[j])
          {
            if j > 0 { assert lines[j] == lines[1..][j - 1]; }
          }
        }
      }
      r
  }

  /** The title shown for a snippet in the index: its first `# ` heading, or its
      id with `_` as spaces and title-cased. */
  function IndexTitle(s: Snippet): string {
    match FirstTitleLine(Split(s.text, '\n'))
    case Some(t) => t
    case None => TitleCase(ReplaceChar(s.id, '_', ' '))
  }

  function IndexEntry(s: Snippet): string {
    "- **" + s.id + "**: " + IndexTitle(s)
  }

  function IndexHeader(generatedOn: string): seq<string> {
    ["# NEA Waste Statistics Knowledge Base Index", "", "Generated on: " + generatedOn, "", "## Available Snippets", ""]
  }

  /** The index: a fixed header, then one entry per snippet in order. */
  function IndexLines(snippets: seq<Snippet>, generatedOn: string): seq<string> {
    IndexHeader(generatedOn) + seq(|snippets|, k requires 0 <= k < |snippets| => IndexEntry(snippets[k]))
  }

  method CreateIndexFile(snippets: seq<Snippet>, generatedOn: string) returns (index: string)
    ensures index == Unlines(IndexLines(snippets, generatedOn))
  {
    index := "# NEA Waste Statistics Knowledge Base Index\n\n";
    var line := "Generated on: " + generatedOn;
    index := index + line + "\n\n";
    index := index + "## Available Snippets" + "\n\n";
    IndexHeaderText(snippets, generatedOn);
    for k := 0 to |snippets|
      invariant index == Unlines(IndexLines(snippets[..k], generatedOn))
    {
      var s := snippets[k];
      var titleMatch := FirstTitleLine(Split(s.text, '\n'));
      var title := if titleMatch.Some? then titleMatch.value else TitleCase(ReplaceChar(s.id, '_', ' '));
      line := "- **" + s.id + "**: " + title;
      assert line == IndexEntry(s);
      IndexStep(index, snippets, generatedOn, k);
      index := index + line + "\n";
    }
    assert snippets[..|snippets|] == snippets;
  }

  /** The index header as the text the generator writes first. */
  lemma IndexHeaderText(snippets: seq<Snippet>, generatedOn: string)
    ensures Unlines(IndexLines(snippets[..0], generatedOn))
      == "# NEA Waste Statistics Knowledge Base Index\n\n" + ("Generated on: " + generatedOn) + "\n\n"
         + "## Available Snippets" + "\n\n"
  {
    var title := "# NEA Waste Statistics Knowledge Base Index";
    var line := "Generated on: " + generatedOn;
    var lines := [title, ""];
    BlankAfter(title);
    AppendBlankAfter(title + "\n\n", lines, line);
    AppendBlankAfter(title + "\n\n" + line + "\n\n", lines + [line, ""], "## Available Snippets");
    assert lines + [line, ""] + ["## Available Snippets", ""] == IndexLines(snippets[..0], generatedOn);
  }

  /** The index loop appends the entry of the next snippet. */
  lemma IndexStep(index: string, snippets: seq<Snippet>, generatedOn: string, k: nat)
    requires k < |snippets| && index == Unlines(IndexLines(snippets[..k], generatedOn))
    ensures index + IndexEntry(snippets[k]) + "\n" == Unlines(IndexLines(snippets[..k + 1], generatedOn))
  {
    IndexLinesSnoc(snippets, generatedOn, k);
    UnlinesSnoc(IndexLines(snippets[..k], generatedOn), IndexEntry(snippets[k]));
  }

  lemma IndexLinesSnoc(snippets: seq<Snippet>, generatedOn: string, k: nat)
    requires k < |snippets|
    ensures IndexLines(snippets[..k + 1], generatedOn) == IndexLines(snippets[..k], generatedOn) + [IndexEntry(snippets[k])]
  {
    var a := seq(k, j requires 0 <= j < k => IndexEntry(snippets[..k][j]));
    var b := seq(k + 1, j requires 0 <= j < k + 1 => IndexEntry(snippets[..k + 1][j]));
    forall j | 0 <= j < k + 1
      ensures b[j] == (a + [IndexEntry(snippets[k])])[j]
    {
      assert snippets[..k + 1][j] == snippets[j];
      if j < k { assert snippets[..k][j] == snippets[j]; }
    }
    assert b == a + [IndexEntry(snippets[k])];
  }

  // ---------------------------------------------------------------------------
  // Combined file

  const BlockEnd := "\n\n---\n\n"

  function CombinedHeader(generatedOn: string): string {
    "# NEA Waste Statistics - Complete Knowledge Base\n\n" + "Generated on: " + generatedOn + "\n\n" + "---\n\n"
  }

  /** Every snippet's text followed by a horizontal rule, in order. */
  function Blocks(snippets: seq<Snippet>): string
    decreases |snippets|
  {
    if snippets == [] then ""
    else Blocks(snippets[..|snippets| - 1]) + snippets[|snippets| - 1].text + BlockEnd
  }

  function CombinedText(snippets: seq<Snippet>, generatedOn: string): string {
    CombinedHeader(generatedOn) + Blocks(snippets)
  }

  method CreateCombinedKb(snippets: seq<Snippet>, generatedOn: string) returns (combined: string)
    ensures combined == CombinedText(snippets, generatedOn)
  {
    combined := "# NEA Waste Statistics - Complete Knowledge Base\n\n";
    combined := combined + "Generated on: " + generatedOn + "\n\n";
    combined := combined + "---\n\n";
    for k := 0 to |snippets|
      invariant combined == CombinedHeader(generatedOn) + Blocks(snippets[..k])
    {
      assert snippets[..k + 1][..k] == snippets[..k];
      combined := combined + snippets[k].text + "\n\n---\n\n";
    }
    assert snippets[..|snippets|] == snippets;
  }

  // ---------------------------------------------------------------------------
  // Properties of the statistics snippets

  /** Statistics snippets: at most three, each present exactly when its list is
      non-empty, in the order highlights, rates, trends. */
  lemma StatisticsSnippetsShape(ks: KeyStatistics)
    ensures |StatisticsSnippets(ks)| <= 3
    ensures "key_highlights" in Ids(StatisticsSnippets(ks)) <==> ks.keyHighlights != []
    ensures "recycling_rates" in Ids(StatisticsSnippets(ks)) <==> ks.recyclingRates != []
    ensures "waste_trends" in Ids(StatisticsSnippets(ks)) <==> ks.wasteTrends != []
    ensures forall i, j :: 0 <= i < j < |StatisticsSnippets(ks)| ==>
      StatRank(StatisticsSnippets(ks)[i].id) < StatRank(StatisticsSnippets(ks)[j].id)
  {
    var a := StatSnippet("key_highlights", HighlightsHeading, ks.keyHighlights);
    var b := StatSnippet("recycling_rates", RatesHeading, ks.recyclingRates);
    var c := StatSnippet("waste_trends", TrendsHeading, ks.wasteTrends);
    var r := StatisticsSnippets(ks);
    assert r == a + b + c;
    assert Ids(r) == Ids(a) + Ids(b) + Ids(c);
    assert Ids(a) == if ks.keyHighlights == [] then [] else ["key_highlights"];
    assert Ids(b) == if ks.recyclingRates == [] then [] else ["recycling_rates"];
    assert Ids(c) == if ks.wasteTrends == [] then [] else ["waste_trends"];
  }

  /** The position of a statistics snippet kind in the output order. */
  function StatRank(id: string): nat {
    if id == "key_highlights" then 0 else if id == "recycling_rates" then 1 else 2
  }

  /** A statistics text has the heading, a blank line, one bullet per figure in
      order, a blank line and the footer as its lines. */
  lemma StatSnippetLines(heading: string, items: seq<Stat>)
    requires NoNewline(heading)
    requires forall k :: 0 <= k < |items| ==> NoNewline(BulletLine(items[k]))
    ensures Split(Unlines(StatLines(heading, items)), '\n')
      == ["# " + heading, ""] + BulletLines(items) + ["", Footer, ""]
    ensures |Split(Unlines(StatLines(heading, items)), '\n')| == |items| + 5
  {
    var bullets := BulletLines(items);
    assert forall k :: 0 <= k < |bullets| ==> NoNewline(bullets[k]);
    FooterNoNewline();
    BlockLines("# " + heading, bullets, Footer);
  }

  // ---------------------------------------------------------------------------
  // Enumeration with skipped entries (tables and content sections)

  /** The positions whose flag is set, in increasing order. */
  function KeptIndices(flags: seq<bool>): (ks: seq<nat>)
    ensures forall k :: 0 <= k < |ks| ==> ks[k] < |flags| && flags[ks[k]]
    ensures forall k, l :: 0 <= k < l < |ks| ==> ks[k] < ks[l]
    decreases |flags|
  {
    if flags == [] then []
    else
      var n := |flags| - 1;
      var init := KeptIndices(flags[..n]);
      init + (if flags[n] then [n] else [])
  }

  /** Every flagged position is kept. */
  lemma {:induction false} KeptIndicesComplete(flags: seq<bool>, i: nat)
    requires i < |flags| && flags[i]
    ensures i in KeptIndices(flags)
    decreases |flags|
  {
    var n := |flags| - 1;
    if i < n {
      KeptIndicesComplete(flags[..n], i);
    }
  }

  function TableFlags(tables: seq<Table>): seq<bool> {
    seq(|tables|, i requires 0 <= i < |tables| => tables[i].rows != [])
  }

  function SectionFlags(sections: seq<Section>): seq<bool> {
    seq(|sections|, i requires 0 <= i < |sections| => sections[i].content != [])
  }

  /** The table snippets are, in order, the snippets of the tables that have rows,
      each numbered by its position among all tables (so skipped tables leave
      gaps in the numbering). */
  lemma {:induction false} TableSnippetsIndexed(tables: seq<Table>)
    ensures |TableSnippets(tables)| == |KeptIndices(TableFlags(tables))|
    ensures forall k :: 0 <= k < |TableSnippets(tables)| ==>
      var i := KeptIndices(TableFlags(tables))[k];
      i < |tables| && tables[i].rows != [] && TableSnippets(tables)[k] == TableSnippet(i, tables[i])
    decreases |tables|
  {
    if tables != [] {
      var n := |tables| - 1;
      TableSnippetsIndexed(tables[..n]);
      var init := TableSnippets(tables[..n]);
      var ks0 := KeptIndices(TableFlags(tables[..n]));
      var ks := KeptIndices(TableFlags(tables));
      assert TableFlags(tables)[..n] == TableFlags(tables[..n]);
      assert ks == ks0 + (if tables[n].rows != [] then [n] else []);
      assert TableSnippets(tables) == init + (if tables[n].rows == [] then [] else [TableSnippet(n, tables[n])]);
      forall k | 0 <= k < |init|
        ensures ks[k] < |tables| && tables[ks[k]].rows != [] && TableSnippets(tables)[k] == TableSnippet(ks[k], tables[ks[k]])
      {
        assert ks[k] == ks0[k];
        assert tables[..n][ks0[k]] == tables[ks0[k]];
      }
    }
  }

  /** The same for content sections: one snippet per section with content. */
  lemma {:induction false} ContentSnippetsIndexed(sections: seq<Section>)
    ensures |ContentSnippets(sections)| == |KeptIndices(SectionFlags(sections))|
    ensures forall k :: 0 <= k < |ContentSnippets(sections)| ==>
      var i := KeptIndices(SectionFlags(sections))[k];
      i < |sections| && sections[i].content != [] && ContentSnippets(sections)[k] == ContentSnippet(i, sections[i])
    decreases |sections|
  {
    if sections != [] {
      var n := |sections| - 1;
      ContentSnippetsIndexed(sections[..n]);
      assert SectionFlags(sections)[..n] == SectionFlags(sections[..n]);
    }
  }

  /** A table with rows always has a snippet, and one without rows never does. */
  lemma TableKeptIff(tables: seq<Table>, i: nat)
    requires i < |tables|
    ensures (exists k :: 0 <= k < |TableSnippets(tables)| && TableSnippets(tables)[k] == TableSnippet(i, tables[i]))
      <==> tables[i].rows != []
  {
    TableSnippetsIndexed(tables);
    var ks := KeptIndices(TableFlags(tables));
    if tables[i].rows != [] {
      KeptIndicesComplete(TableFlags(tables), i);
      var k :| 0 <= k < |ks| && ks[k] == i;
      assert TableSnippets(tables)[k] == TableSnippet(i, tables[i]);
    } else {
      forall k | 0 <= k < |TableSnippets(tables)|
        ensures TableSnippets(tables)[k] != TableSnippet(i, tables[i])
      {
        var j := ks[k];
        if TableSnippets(tables)[k] == TableSnippet(i, tables[i]) {
          IdNumberInjective("table_", j, i, Slug(TableTitle(j, tables[j])), Slug(TableTitle(i, tables[i])));
        }
      }
    }
  }

  /** A digit string followed by `_` is determined by the whole string. */
  lemma DigitsBeforeUnderscore(a: string, b: string, x: string, y: string)
    requires forall k :: 0 <= k < |a| ==> IsDigit(a[k])
    requires forall k :: 0 <= k < |b| ==> IsDigit(b[k])
    requires a + "_" + x == b + "_" + y
    ensures a == b
  {
    var s, t := a + "_" + x, b + "_" + y;
    assert s[|a|] == '_' && t[|b|] == '_';
    assert forall k :: 0 <= k < |a| ==> s[k] == a[k];
    assert forall k :: 0 <= k < |b| ==> t[k] == b[k];
    assert |a| == |b|;
    assert a == s[..|a|] == b;
  }

  /** Ids of the form `{prefix}{i+1}_{suffix}` determine `i`. */
  lemma IdNumberInjective(prefix: string, i: nat, j: nat, x: string, y: string)
    requires prefix + NatToString(i + 1) + "_" + x == prefix + NatToString(j + 1) + "_" + y
    ensures i == j
  {
    var a := NatToString(i + 1);
    var b := NatToString(j + 1);
    var s := prefix + a + "_" + x;
    assert s == prefix + (a + "_" + x);
    assert prefix + b + "_" + y == prefix + (b + "_" + y);
    assert a + "_" + x == s[|prefix|..] == b + "_" + y;
    DigitsBeforeUnderscore(a, b, x, y);
    NatToStringInjective(i + 1, j + 1);
  }

  /** No two table snippets share an id, so no snippet file overwrites another. */
  lemma TableIdsDistinct(tables: seq<Table>)
    ensures forall k, l :: 0 <= k < l < |TableSnippets(tables)| ==>
      TableSnippets(tables)[k].id != TableSnippets(tables)[l].id
  {
    TableSnippetsIndexed(tables);
    var r := TableSnippets(tables);
    var ks := KeptIndices(TableFlags(tables));
    forall k, l | 0 <= k < l < |r|
      ensures r[k].id != r[l].id
    {
      TableIdsDiffer(tables, ks[k], ks[l], r[k], r[l]);
    }
  }

  /** The snippets of two different tables have different ids. */
  lemma TableIdsDiffer(tables: seq<Table>, i: nat, j: nat, a: Snippet, b: Snippet)
    requires i < j < |tables|
    requires a == TableSnippet(i, tables[i]) && b == TableSnippet(j, tables[j])
    ensures a.id != b.id
  {
    var x := Slug(TableTitle(i, tables[i]));
    var y := Slug(TableTitle(j, tables[j]));
    assert a.id == "table_" + NatToString(i + 1) + "_" + x;
    assert b.id == "table_" + NatToString(j + 1) + "_" + y;
    if a.id == b.id {
      IdNumberInjective("table_", i, j, x, y);
    }
  }

  /** No two content snippets share an id. */
  lemma ContentIdsDistinct(sections: seq<Section>)
    ensures forall k, l :: 0 <= k < l < |ContentSnippets(sections)| ==>
      ContentSnippets(sections)[k].id != ContentSnippets(sections)[l].id
  {
    ContentSnippetsIndexed(sections);
    var r := ContentSnippets(sections);
    var ks := KeptIndices(SectionFlags(sections));
    forall k, l | 0 <= k < l < |r|
      ensures r[k].id != r[l].id
    {
      ContentIdsDiffer(sections, ks[k], ks[l], r[k], r[l]);
    }
  }

  /** The snippets of two different sections have different ids. */
  lemma ContentIdsDiffer(sections: seq<Section>, i: nat, j: nat, a: Snippet, b: Snippet)
    requires i < j < |sections|
    requires a == ContentSnippet(i, sections[i]) && b == ContentSnippet(j, sections[j])
    ensures a.id != b.id
  {
    var x := Slug(SectionHeading(i, sections[i]));
    var y := Slug(SectionHeading(j, sections[j]));
    assert a.id == "content_" + NatToString(i + 1) + "_" + x;
    assert b.id == "content_" + NatToString(j + 1) + "_" + y;
    if a.id == b.id {
      IdNumberInjective("content_", i, j, x, y);
    }
  }

  /** The layout of a table text's lines: heading, blank line, the header row
      and a separator of `len(headers)` cells when there are headers, one row line
      per row in order, blank line, footer. */
  lemma TableLinesLayout(title: string, headers: seq<string>, rows: seq<seq<string>>)
    ensures var h := if headers == [] then 0 else 2;
      var lines := TableLines(title, headers, rows);
      |lines| == |rows| + h + 4
      && lines[0] == "# " + title && lines[1] == ""
      && (headers != [] ==> lines[2] == RowLine(headers) && lines[3] == RowLine(Separator(|headers|)))
      && |Separator(|headers|)| == |headers|
      && (forall r :: 0 <= r < |rows| ==> lines[2 + h + r] == RowLine(rows[r]))
      && lines[|rows| + h + 2] == "" && lines[|rows| + h + 3] == Footer
  {
    var head := ["# " + title, ""] + HeaderLines(headers);
    var h := |HeaderLines(headers)|;
    var body := RowLines(rows);
    var lines := TableLines(title, headers, rows);
    assert lines == head + body + ["", Footer];
    forall r | 0 <= r < |rows|
      ensures lines[2 + h + r] == RowLine(rows[r])
    {
      assert lines[|head| + r] == body[r];
    }
  }

  /** With newline-free title and cells, the lines of a table text are exactly
      its `TableLines`, then the empty piece after the final newline. */
  lemma TableSnippetLines(title: string, headers: seq<string>, rows: seq<seq<string>>)
    requires NoNewline(title)
    requires forall k :: 0 <= k < |headers| ==> NoNewline(headers[k])
    requires forall r, k :: 0 <= r < |rows| && 0 <= k < |rows[r]| ==> NoNewline(rows[r][k])
    ensures Split(Unlines(TableLines(title, headers, rows)), '\n') == TableLines(title, headers, rows) + [""]
  {
    var lines := TableLines(title, headers, rows);
    var h := if headers == [] then 0 else 2;
    TableLinesLayout(title, headers, rows);
    JoinNoNewline(headers, " | ");
    JoinNoNewline(Separator(|headers|), " | ");
    forall r | 0 <= r < |rows|
      ensures NoNewline(RowLine(rows[r]))
    {
      JoinNoNewline(rows[r], " | ");
    }
    forall k | 0 <= k < |lines|
      ensures NoNewline(lines[k])
    {
      if 2 + h <= k < 2 + h + |rows| {
        assert lines[k] == RowLine(rows[k - 2 - h]);
      }
    }
    SplitUnlines(lines);
  }

  // ---------------------------------------------------------------------------
  // Properties of the content snippets

  /** The paragraphs that are not blank after `strip()`, in order. */
  function NonBlank(content: seq<string>): (r: seq<string>)
    ensures forall k :: 0 <= k < |r| ==> !Blank(r[k]) && r[k] in content
    decreases |content|
  {
    if content == [] then []
    else
      var n := |content| - 1;
      NonBlank(content[..n]) + (if !Blank(content[n]) then [content[n]] else [])
  }

  /** The paragraph lines are exactly the non-blank paragraphs in order, each
      followed by an empty line (so each kept paragraph is followed by `\n\n`). */
  lemma {:induction false} ParagraphLinesSpec(content: seq<string>)
    ensures |ParagraphLines(content)| == 2 * |NonBlank(content)|
    ensures forall k :: 0 <= k < |NonBlank(content)| ==>
      ParagraphLines(content)[2 * k] == NonBlank(content)[k] && ParagraphLines(content)[2 * k + 1] == ""
    decreases |content|
  {
    if content != [] {
      var n := |content| - 1;
      var p := content[n];
      ParagraphLinesSpec(content[..n]);
      if !Blank(p) {
        assert ParagraphLines(content) == ParagraphLines(content[..n]) + [p, ""];
        assert NonBlank(content) == NonBlank(content[..n]) + [p];
      } else {
        assert ParagraphLines(content) == ParagraphLines(content[..n]);
        assert NonBlank(content) == NonBlank(content[..n]);
      }
    }
  }

  /** Every non-blank paragraph is kept. */
  lemma {:induction false} NonBlankComplete(content: seq<string>, i: nat)
    requires i < |content| && !Blank(content[i])
    ensures content[i] in NonBlank(content)
    decreases |content|
  {
    var n := |content| - 1;
    if i < n {
      NonBlankComplete(content[..n], i);
      assert content[..n][i] == content[i];
    }
  }

  // ---------------------------------------------------------------------------
  // Properties of the annual and metadata snippets

  /** One annual snippet per year, in order, with id `annual_data_{year}`. */
  lemma AnnualSnippetsShape(annual: Dict<Dict<string>>)
    ensures |AnnualSnippets(annual)| == |annual|
    ensures forall k :: 0 <= k < |annual| ==> AnnualSnippets(annual)[k].id == "annual_data_" + annual[k].0
  {
  }

  /** The lines of an annual text: heading with the year, blank line, one bullet
      per key in order, blank line, footer. */
  lemma AnnualSnippetLines(year: string, yearData: Dict<string>)
    requires NoNewline(year)
    requires forall j :: 0 <= j < |yearData| ==> NoNewline(AnnualBullet(yearData[j].0, yearData[j].1))
    ensures Split(Unlines(AnnualLines(year, yearData)), '\n')
      == ["# Annual Waste Data - " + year, ""] + AnnualBullets(yearData) + ["", Footer, ""]
  {
    var bullets := AnnualBullets(yearData);
    assert forall j :: 0 <= j < |bullets| ==> NoNewline(bullets[j]);
    FooterNoNewline();
    BlockLines("# Annual Waste Data - " + year, bullets, Footer);
  }

  lemma FooterNoNewline()
    ensures NoNewline(Footer)
  {
  }

  /** A heading, a blank line, newline-free body lines, a blank line and a
      closing line split back into those lines. */
  lemma BlockLines(heading: string, body: seq<string>, last: string)
    requires NoNewline(heading) && NoNewline(last)
    requires forall j :: 0 <= j < |body| ==> NoNewline(body[j])
    ensures Split(Unlines([heading, ""] + body + ["", last]), '\n') == [heading, ""] + body + ["", last, ""]
  {
    BlockNoNewline(heading, body, last);
    BlockAppendBlank(heading, body, last);
    SplitUnlines([heading, ""] + body + ["", last]);
  }

  lemma BlockAppendBlank(heading: string, body: seq<string>, last: string)
    ensures [heading, ""] + body + ["", last] + [""] == [heading, ""] + body + ["", last, ""]
  {
  }

  lemma BlockNoNewline(heading: string, body: seq<string>, last: string)
    requires NoNewline(heading) && NoNewline(last)
    requires forall j :: 0 <= j < |body| ==> NoNewline(body[j])
    ensures forall j :: 0 <= j < |[heading, ""] + body + ["", last]| ==> NoNewline(([heading, ""] + body + ["", last])[j])
  {
    var lines := [heading, ""] + body + ["", last];
    forall j | 0 <= j < |lines|
      ensures NoNewline(lines[j])
    {
      if 2 <= j < 2 + |body| {
        assert lines[j] == body[j - 2];
      }
    }
  }

  /** `rate_*` keys are labelled "Recycling Rate", other `value_*` keys "Waste
      Generated"; every other key keeps its length, and its label has a space
      exactly where the key has `_` or a space. */
  lemma AnnualLabelCases(key: string)
    ensures StartsWith(key, "rate_") ==> AnnualLabel(key) == "Recycling Rate"
    ensures !StartsWith(key, "rate_") && StartsWith(key, "value_") ==> AnnualLabel(key) == "Waste Generated"
    ensures !StartsWith(key, "rate_") && !StartsWith(key, "value_") ==>
      |AnnualLabel(key)| == |key|
      && forall i :: 0 <= i < |key| ==> (AnnualLabel(key)[i] == ' ' <==> key[i] == '_' || key[i] == ' ')
  {
    if !StartsWith(key, "rate_") && !StartsWith(key, "value_") {
      var spaced := ReplaceChar(key, '_', ' ');
      forall i | 0 <= i < |key|
        ensures AnnualLabel(key)[i] == ' ' <==> key[i] == '_' || key[i] == ' '
      {
        TitleFromChar(spaced, false, i);
      }
    }
  }

  /** `title()` maps letters to letters and keeps every other character. */
  lemma {:induction false} TitleFromChar(s: string, afterLetter: bool, i: nat)
    requires i < |s|
    ensures IsLetter(s[i]) ==> IsLetter(TitleFrom(s, afterLetter)[i])
    ensures !IsLetter(s[i]) ==> TitleFrom(s, afterLetter)[i] == s[i]
    decreases |s|
  {
    if i > 0 {
      TitleFromChar(s[1..], IsLetter(s[0]), i - 1);
    }
  }

  /** Whether some line carries the `- **{name}**: ` label. */
  predicate HasField(lines: seq<string>, name: string) {
    exists k :: 0 <= k < |lines| && StartsWith(lines[k], "- **" + name + "**: ")
  }

  /** Exactly one metadata snippet; it always gives the source URL and scrape
      time, and each optional field appears exactly when it is truthy. */
  lemma MetadataSnippetShape(data: ScrapedRecord)
    ensures |MetadataSnippets(data)| == 1 && MetadataSnippets(data)[0].id == "metadata"
    ensures var lines := MetadataLines(data.url, data.scrapedAt, data.metadata);
      lines[2] == "- **Source URL**: " + data.url
      && lines[3] == "- **Scraped At**: " + data.scrapedAt
      && (HasField(lines, "Title") <==> data.metadata.title != "")
      && (HasField(lines, "Author") <==> data.metadata.author != "")
      && (HasField(lines, "Publication Date") <==> data.metadata.date != "")
      && (HasField(lines, "Language") <==> data.metadata.language != "")
  {
    var m := data.metadata;
    var lines := MetadataLines(data.url, data.scrapedAt, m);
    FieldPresence(lines, data.url, data.scrapedAt, m, "Title", m.title);
    FieldPresence(lines, data.url, data.scrapedAt, m, "Author", m.author);
    FieldPresence(lines, data.url, data.scrapedAt, m, "Publication Date", m.date);
    FieldPresence(lines, data.url, data.scrapedAt, m, "Language", m.language);
  }

  /** One optional field line appears exactly when its value is truthy; the
      other lines are told apart from it by the letter after `- **`. */
  lemma FieldPresence(lines: seq<string>, url: string, scrapedAt: string, m: Metadata,
                      name: string, value: string)
    requires lines == MetadataLines(url, scrapedAt, m)
    requires (name == "Title" && value == m.title) || (name == "Author" && value == m.author)
      || (name == "Publication Date" && value == m.date) || (name == "Language" && value == m.language)
    ensures HasField(lines, name) <==> value != ""
  {
    var tag := "- **" + name + "**: ";
    var top := ["# Document Metadata", "", "- **Source URL**: " + url, "- **Scraped At**: " + scrapedAt];
    var ot, oa := OptionalLine("Title", m.title), OptionalLine("Author", m.author);
    var od, ol := OptionalLine("Publication Date", m.date), OptionalLine("Language", m.language);
    assert lines == top + ot + oa + od + ol + ["", Footer];
    if value != "" {
      var k := if name == "Title" then 4
               else if name == "Author" then 4 + |ot|
               else if name == "Publication Date" then 4 + |ot| + |oa|
               else 4 + |ot| + |oa| + |od|;
      assert lines[k] == tag + value;
      assert StartsWith(lines[k], tag);
    } else {
      assert |tag| > 4 && tag[0] == '-' && tag[4] == name[0];
      forall k | 0 <= k < |lines|
        ensures !StartsWith(lines[k], tag)
      {
        var x := lines[k];
        assert x in top || x in ot || x in oa || x in od || x in ol || x in ["", Footer];
        assert |x| <= 4 || x[0] != '-' || x[4] != name[0];
      }
    }
  }

  // ---------------------------------------------------------------------------
  // Properties of the whole knowledge base

  /** The kind of a snippet, read off the first character of its id: metadata 0,
      statistics 1, tables 2, content 3, annual data 4. */
  function Kind(id: string): nat {
    if id == [] then 5
    else if id[0] == 'm' then 0
    else if id[0] in "krw" then 1
    else if id[0] == 't' then 2
    else if id[0] == 'c' then 3
    else if id[0] == 'a' then 4
    else 5
  }

  predicate AllOfKind(xs: seq<Snippet>, g: nat) {
    forall k :: 0 <= k < |xs| ==> Kind(xs[k].id) == g
  }

  predicate KindsSorted(xs: seq<Snippet>) {
    forall i, j :: 0 <= i < j < |xs| ==> Kind(xs[i].id) <= Kind(xs[j].id)
  }

  lemma SortedAppend(a: seq<Snippet>, b: seq<Snippet>, g: nat)
    requires KindsSorted(a) && AllOfKind(b, g)
    requires forall k :: 0 <= k < |a| ==> Kind(a[k].id) <= g
    ensures KindsSorted(a + b)
    ensures forall k :: 0 <= k < |a + b| ==> Kind((a + b)[k].id) <= g
  {
  }

  lemma {:induction false} TableKinds(tables: seq<Table>)
    ensures AllOfKind(TableSnippets(tables), 2)
    decreases |tables|
  {
    if tables != [] {
      TableKinds(tables[..|tables| - 1]);
    }
  }

  lemma {:induction false} ContentKinds(sections: seq<Section>)
    ensures AllOfKind(ContentSnippets(sections), 3)
    decreases |sections|
  {
    if sections != [] {
      ContentKinds(sections[..|sections| - 1]);
    }
  }

  lemma StatKinds(ks: KeyStatistics)
    ensures AllOfKind(StatisticsSnippets(ks), 1)
    ensures DistinctIds(StatisticsSnippets(ks))
  {
    var st := StatisticsSnippets(ks);
    StatisticsSnippetsShape(ks);
    StatIdsNamed(ks);
    forall k | 0 <= k < |st|
      ensures Kind(st[k].id) == 1
    {
      assert st[k].id[0] in "krw";
    }
  }

  /** Every statistics snippet is one of the three named ones. */
  lemma StatIdsNamed(ks: KeyStatistics)
    ensures forall k :: 0 <= k < |StatisticsSnippets(ks)| ==>
      StatisticsSnippets(ks)[k].id == "key_highlights" || StatisticsSnippets(ks)[k].id == "recycling_rates"
      || StatisticsSnippets(ks)[k].id == "waste_trends"
  {
    var a := StatSnippet("key_highlights", HighlightsHeading, ks.keyHighlights);
    var b := StatSnippet("recycling_rates", RatesHeading, ks.recyclingRates);
    var c := StatSnippet("waste_trends", TrendsHeading, ks.wasteTrends);
    assert StatisticsSnippets(ks) == a + b + c;
  }

  lemma AnnualKinds(annual: Dict<Dict<string>>)
    ensures AllOfKind(AnnualSnippets(annual), 4)
  {
    var a := AnnualSnippets(annual);
    forall k | 0 <= k < |a|
      ensures Kind(a[k].id) == 4
    {
      assert a[k].id[0] == 'a';
    }
  }

  /** Five groups of snippets of kinds 0 to 4, concatenated in that order. */
  lemma GroupsSorted(m: seq<Snippet>, st: seq<Snippet>, t: seq<Snippet>, c: seq<Snippet>, a: seq<Snippet>)
    requires AllOfKind(m, 0) && AllOfKind(st, 1) && AllOfKind(t, 2) && AllOfKind(c, 3) && AllOfKind(a, 4)
    ensures KindsSorted(m + st + t + c + a)
  {
    SortedAppend(m, st, 1);
    SortedAppend(m + st, t, 2);
    SortedAppend(m + st + t, c, 3);
    SortedAppend(m + st + t + c, a, 4);
  }

  /** The snippets come in the order metadata, statistics, tables, content
      sections, annual data, and the metadata snippet is first. */
  lemma KnowledgeBaseOrder(data: ScrapedRecord)
    ensures KnowledgeBaseSnippets(data) != [] && KnowledgeBaseSnippets(data)[0].id == "metadata"
    ensures KindsSorted(KnowledgeBaseSnippets(data))
  {
    StatKinds(data.keyStatistics);
    TableKinds(data.statisticsTables);
    ContentKinds(data.contentSections);
    AnnualKinds(data.annualData);
    GroupsSorted(MetadataSnippets(data), StatisticsSnippets(data.keyStatistics),
      TableSnippets(data.statisticsTables), ContentSnippets(data.contentSections), AnnualSnippets(data.annualData));
  }

  predicate AllEndWithFooter(xs: seq<Snippet>) {
    forall k :: 0 <= k < |xs| ==> EndsWith(xs[k].text, Footer + "\n")
  }

  lemma MetadataFooter(data: ScrapedRecord)
    ensures AllEndWithFooter(MetadataSnippets(data))
  {
    UnlinesEndsWith(MetadataLines(data.url, data.scrapedAt, data.metadata), Footer);
  }

  lemma StatFooters(ks: KeyStatistics)
    ensures AllEndWithFooter(StatisticsSnippets(ks))
  {
    UnlinesEndsWith(StatLines(HighlightsHeading, ks.keyHighlights), Footer);
    UnlinesEndsWith(StatLines(RatesHeading, ks.recyclingRates), Footer);
    UnlinesEndsWith(StatLines(TrendsHeading, ks.wasteTrends), Footer);
  }

  lemma {:induction false} TableFooters(tables: seq<Table>)
    ensures AllEndWithFooter(TableSnippets(tables))
    decreases |tables|
  {
    if tables != [] {
      var i := |tables| - 1;
      TableFooters(tables[..i]);
      var tb := tables[i];
      UnlinesEndsWith(TableLines(TableTitle(i, tb), tb.headers, tb.rows), Footer);
    }
  }

  lemma {:induction false} ContentFooters(sections: seq<Section>)
    ensures AllEndWithFooter(ContentSnippets(sections))
    decreases |sections|
  {
    if sections != [] {
      var i := |sections| - 1;
      ContentFooters(sections[..i]);
      var sc := sections[i];
      UnlinesEndsWith(ContentLines(SectionHeading(i, sc), sc.content), Footer);
    }
  }

  lemma AnnualFooters(annual: Dict<Dict<string>>)
    ensures AllEndWithFooter(AnnualSnippets(annual))
  {
    forall k | 0 <= k < |annual|
      ensures EndsWith(AnnualSnippets(annual)[k].text, Footer + "\n")
    {
      UnlinesEndsWith(AnnualLines(annual[k].0, annual[k].1), Footer);
    }
  }

  lemma FootersAppend(a: seq<Snippet>, b: seq<Snippet>)
    requires AllEndWithFooter(a) && AllEndWithFooter(b)
    ensures AllEndWithFooter(a + b)
  {
    forall k | 0 <= k < |a + b|
      ensures EndsWith((a + b)[k].text, Footer + "\n")
    {
      if k >= |a| {
        assert (a + b)[k] == b[k - |a|];
      }
    }
  }

  /** Every snippet text ends with the footer line. */
  lemma KnowledgeBaseFooters(data: ScrapedRecord)
    ensures AllEndWithFooter(KnowledgeBaseSnippets(data))
  {
    var m := MetadataSnippets(data);
    var st := StatisticsSnippets(data.keyStatistics);
    var t := TableSnippets(data.statisticsTables);
    var c := ContentSnippets(data.contentSections);
    var a := AnnualSnippets(data.annualData);
    MetadataFooter(data);
    StatFooters(data.keyStatistics);
    TableFooters(data.statisticsTables);
    ContentFooters(data.contentSections);
    AnnualFooters(data.annualData);
    FootersAppend(m, st);
    FootersAppend(m + st, t);
    FootersAppend(m + st + t, c);
    FootersAppend(m + st + t + c, a);
  }

  predicate DistinctIds(xs: seq<Snippet>) {
    forall i, j :: 0 <= i < j < |xs| ==> xs[i].id != xs[j].id
  }

  lemma DistinctAppend(a: seq<Snippet>, b: seq<Snippet>, g: nat)
    requires DistinctIds(a) && DistinctIds(b) && AllOfKind(b, g)
    requires forall k :: 0 <= k < |a| ==> Kind(a[k].id) < g
    ensures DistinctIds(a + b)
    ensures forall k :: 0 <= k < |a + b| ==> Kind((a + b)[k].id) <= g
  {
    forall i, j | 0 <= i < j < |a + b|
      ensures (a + b)[i].id != (a + b)[j].id
    {
      if i < |a| && j >= |a| {
        assert Kind((a + b)[i].id) < g == Kind((a + b)[j].id);
      }
    }
  }

  /** Distinct years give distinct annual ids. */
  lemma AnnualIdsDistinct(annual: Dict<Dict<string>>)
    requires UniqueKeys(annual)
    ensures DistinctIds(AnnualSnippets(annual))
  {
    var a := AnnualSnippets(annual);
    forall i, j | 0 <= i < j < |a|
      ensures a[i].id != a[j].id
    {
      var p := "annual_data_";
      assert annual[i].0 == a[i].id[|p|..] && annual[j].0 == a[j].id[|p|..];
    }
  }

  lemma GroupsDistinct(m: seq<Snippet>, st: seq<Snippet>, t: seq<Snippet>, c: seq<Snippet>, a: seq<Snippet>)
    requires AllOfKind(m, 0) && AllOfKind(st, 1) && AllOfKind(t, 2) && AllOfKind(c, 3) && AllOfKind(a, 4)
    requires DistinctIds(m) && DistinctIds(st) && DistinctIds(t) && DistinctIds(c) && DistinctIds(a)
    ensures DistinctIds(m + st + t + c + a)
  {
    DistinctAppend(m, st, 1);
    DistinctAppend(m + st, t, 2);
    DistinctAppend(m + st + t, c, 3);
    DistinctAppend(m + st + t + c, a, 4);
  }

  /** No two snippets of the knowledge base share an id (so no snippet file is
      written twice), provided the years of the annual data are distinct, as the
      keys of a dictionary are. */
  lemma KnowledgeBaseIdsDistinct(data: ScrapedRecord)
    requires UniqueKeys(data.annualData)
    ensures DistinctIds(KnowledgeBaseSnippets(data))
  {
    StatKinds(data.keyStatistics);
    TableKinds(data.statisticsTables);
    TableIdsDistinct(data.statisticsTables);
    ContentKinds(data.contentSections);
    ContentIdsDistinct(data.contentSections);
    AnnualKinds(data.annualData);
    AnnualIdsDistinct(data.annualData);
    GroupsDistinct(MetadataSnippets(data), StatisticsSnippets(data.keyStatistics),
      TableSnippets(data.statisticsTables), ContentSnippets(data.contentSections), AnnualSnippets(data.annualData));
  }

  // ---------------------------------------------------------------------------
  // Properties of the index and the combined file

  /** The first `# ` heading of a snippet whose first line is a non-empty heading
      is that heading. */
  lemma HeadingIsIndexTitle(s: Snippet, heading: string, rest: seq<string>)
    requires s.text == Unlines(["# " + heading] + rest)
    requires heading != [] && NoNewline(heading)
    ensures IndexTitle(s) == heading
  {
    var first := "# " + heading;
    assert (["# " + heading] + rest)[1..] == rest;
    assert s.text == first + ['\n'] + Unlines(rest);
    SplitAtFirst(first, Unlines(rest), '\n');
    assert first[2..] == heading;
  }

  /** A table whose title is present and non-empty, or absent (so `Table {i+1}`),
      is listed in the index under that title. */
  lemma TableIndexTitle(i: nat, t: Table)
    requires NoNewline(TableTitle(i, t)) && TableTitle(i, t) != ""
    ensures IndexTitle(TableSnippet(i, t)) == TableTitle(i, t)
  {
    var title := TableTitle(i, t);
    var lines := TableLines(title, t.headers, t.rows);
    assert lines == ["# " + title] + lines[1..];
    HeadingIsIndexTitle(TableSnippet(i, t), title, lines[1..]);
  }

  /** No line is a `# ` heading with text after it. */
  lemma {:induction false} NoTitleLine(lines: seq<string>)
    requires forall k :: 0 <= k < |lines| ==> !(StartsWith(lines[k], "# ") && |lines[k]| > 2)
    ensures FirstTitleLine(lines) == None
    decreases |lines|
  {
    if lines != [] {
      NoTitleLine(lines[1..]);
    }
  }

  /** A present but empty title is kept: the table's heading line is a bare `# `,
      so its index entry falls back to the title-cased id. */
  lemma EmptyTitleIndexFallback(i: nat, t: Table)
    requires t.title == Some("")
    requires forall k :: 0 <= k < |t.headers| ==> NoNewline(t.headers[k])
    requires forall r, k :: 0 <= r < |t.rows| && 0 <= k < |t.rows[r]| ==> NoNewline(t.rows[r][k])
    ensures TableTitle(i, t) == ""
    ensures TableSnippet(i, t).id == "table_" + NatToString(i + 1) + "_"
    ensures IndexTitle(TableSnippet(i, t)) == TitleCase(ReplaceChar(TableSnippet(i, t).id, '_', ' '))
  {
    var lines := TableLines("", t.headers, t.rows);
    TableSnippetLines("", t.headers, t.rows);
    UntitledTableLines(t.headers, t.rows);
    NoTitleLine(lines + [""]);
  }

  /** No line of a table text with an empty title is a `# ` heading with text. */
  lemma UntitledTableLines(headers: seq<string>, rows: seq<seq<string>>)
    ensures var all := TableLines("", headers, rows) + [""];
      forall k :: 0 <= k < |all| ==> !(StartsWith(all[k], "# ") && |all[k]| > 2)
  {
    var all := TableLines("", headers, rows) + [""];
    TableLinesLayout("", headers, rows);
    var h := if headers == [] then 0 else 2;
    forall k | 0 <= k < |all|
      ensures !(StartsWith(all[k], "# ") && |all[k]| > 2)
    {
      if 2 <= k < 2 + h + |rows| {
        RowLineStart(all[k], if k < 2 + h then (if k == 2 then headers else Separator(|headers|)) else rows[k - 2 - h]);
      } else if k == |rows| + h + 3 {
        assert all[k][0] == '*';
      }
    }
  }

  lemma RowLineStart(line: string, cells: seq<string>)
    requires line == RowLine(cells)
    ensures line[0] == '|'
  {
  }

  /** The index: the fixed six header lines, then one `- **{id}**: {title}` line
      per snippet in the same order. */
  lemma IndexFileLines(snippets: seq<Snippet>, generatedOn: string)
    requires NoNewline(generatedOn)
    requires forall k :: 0 <= k < |snippets| ==> NoNewline(snippets[k].id)
    ensures var lines := Split(Unlines(IndexLines(snippets, generatedOn)), '\n');
      |lines| == |snippets| + 7
      && lines[..6] == IndexHeader(generatedOn)
      && (forall k :: 0 <= k < |snippets| ==> lines[6 + k] == "- **" + snippets[k].id + "**: " + IndexTitle(snippets[k]))
      && lines[|snippets| + 6] == ""
  {
    var lines := IndexLines(snippets, generatedOn);
    IndexLinesNoNewline(snippets, generatedOn);
    SplitUnlines(lines);
    IndexLinesLayout(Split(Unlines(lines), '\n'), snippets, generatedOn);
  }

  /** The index lines followed by the empty piece after the last line break. */
  lemma IndexLinesLayout(all: seq<string>, snippets: seq<Snippet>, generatedOn: string)
    requires all == IndexLines(snippets, generatedOn) + [""]
    ensures |all| == |snippets| + 7
    ensures all[..6] == IndexHeader(generatedOn)
    ensures forall k :: 0 <= k < |snippets| ==> all[6 + k] == "- **" + snippets[k].id + "**: " + IndexTitle(snippets[k])
    ensures all[|snippets| + 6] == ""
  {
    var lines := IndexLines(snippets, generatedOn);
    assert all[..6] == lines[..6];
    forall k | 0 <= k < |snippets|
      ensures all[6 + k] == IndexEntry(snippets[k])
    {
      assert all[6 + k] == lines[6 + k];
    }
  }

  /** No line of the index contains a line break. */
  lemma IndexLinesNoNewline(snippets: seq<Snippet>, generatedOn: string)
    requires NoNewline(generatedOn)
    requires forall k :: 0 <= k < |snippets| ==> NoNewline(snippets[k].id)
    ensures forall k :: 0 <= k < |IndexLines(snippets, generatedOn)| ==> NoNewline(IndexLines(snippets, generatedOn)[k])
  {
    var lines := IndexLines(snippets, generatedOn);
    IndexHeaderNoNewline(generatedOn);
    forall k | 0 <= k < |lines|
      ensures NoNewline(lines[k])
    {
      if k >= 6 {
        IndexEntryNoNewline(snippets[k - 6]);
        assert lines[k] == IndexEntry(snippets[k - 6]);
      } else {
        assert lines[k] == IndexHeader(generatedOn)[k];
      }
    }
  }

  lemma IndexHeaderNoNewline(generatedOn: string)
    requires NoNewline(generatedOn)
    ensures forall k :: 0 <= k < 6 ==> NoNewline(IndexHeader(generatedOn)[k])
  {
    var h := IndexHeader(generatedOn);
    forall k | 0 <= k < 6
      ensures NoNewline(h[k])
    {
      if k == 2 {
        var g := "Generated on: ";
        assert forall i :: 0 <= i < |g| ==> g[i] != '\n';
        assert h[2] == g + generatedOn;
      }
    }
  }

  lemma IndexEntryNoNewline(s: Snippet)
    requires NoNewline(s.id)
    ensures NoNewline(IndexEntry(s))
  {
    IndexTitleNoNewline(s);
    var t := IndexTitle(s);
    assert IndexEntry(s) == "- **" + s.id + "**: " + t;
  }

  /** An index title never contains a line break when the id does not. */
  lemma IndexTitleNoNewline(s: Snippet)
    requires NoNewline(s.id)
    ensures NoNewline(IndexTitle(s))
  {
    var parts := Split(s.text, '\n');
    match FirstTitleLine(parts)
    case Some(t) =>
      var k :| 0 <= k < |parts| && parts[k] == "# " + t;
      assert t == parts[k][2..];
    case None =>
      var spaced := ReplaceChar(s.id, '_', ' ');
      forall i | 0 <= i < |spaced|
        ensures TitleCase(spaced)[i] != '\n'
      {
        TitleFromChar(spaced, false, i);
      }
  }

  lemma {:induction false} BlocksAppend(a: seq<Snippet>, b: seq<Snippet>)
    ensures Blocks(a + b) == Blocks(a) + Blocks(b)
    decreases |b|
  {
    if b != [] {
      var n := |b| - 1;
      assert (a + b)[..|a + b| - 1] == a + b[..n];
      assert (a + b)[|a + b| - 1] == b[n];
      assert Blocks(a + b) == Blocks(a + b[..n]) + b[n].text + BlockEnd;
      BlocksAppend(a, b[..n]);
      assert Blocks(b) == Blocks(b[..n]) + b[n].text + BlockEnd;
    } else {
      assert a + b == a;
    }
  }

  /** In the combined file, snippet `k`'s text followed by the horizontal rule
      sits right after the header and the blocks of the snippets before it. */
  lemma CombinedBlockAt(snippets: seq<Snippet>, generatedOn: string, k: nat)
    requires k < |snippets|
    ensures var start := |CombinedHeader(generatedOn)| + |Blocks(snippets[..k])|;
      var stop := start + |snippets[k].text| + |BlockEnd|;
      stop <= |CombinedText(snippets, generatedOn)|
      && CombinedText(snippets, generatedOn)[start..stop] == snippets[k].text + BlockEnd
  {
    var head := CombinedHeader(generatedOn);
    var before := snippets[..k];
    var after := snippets[k + 1..];
    assert snippets == before + [snippets[k]] + after;
    BlocksAppend(before + [snippets[k]], after);
    BlocksAppend(before, [snippets[k]]);
    assert Blocks([snippets[k]]) == snippets[k].text + BlockEnd by {
      assert [snippets[k]][..0] == [];
    }
    var text := head + Blocks(before) + (snippets[k].text + BlockEnd) + Blocks(after);
    assert CombinedText(snippets, generatedOn) == text;
  }

  /** The combined file is the header plus, per snippet, its text and 7 more
      characters for the rule. */
  lemma {:induction false} BlocksLength(snippets: seq<Snippet>)
    ensures |Blocks(snippets)| == TextLengths(snippets) + |BlockEnd| * |snippets|
    decreases |snippets|
  {
    if snippets != [] {
      var n := |snippets| - 1;
      BlocksLength(snippets[..n]);
      assert TextLengths(snippets) == TextLengths(snippets[..n]) + |snippets[n].text|;
    }
  }

  function TextLengths(snippets: seq<Snippet>): nat
    decreases |snippets|
  {
    if snippets == [] then 0 else TextLengths(snippets[..|snippets| - 1]) + |snippets[|snippets| - 1].text|
  }
}
