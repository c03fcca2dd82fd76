/** The waste-statistics page scraper: table extraction, the per-year annual
    data dictionary, the key-statistics record, content sections and relevant
    links.

    BeautifulSoup and Trafilatura are not modelled. A table is the sequence of
    its rows in document order, each row the stripped texts of its th/td cells,
    together with the text of the nearest heading or caption before it. */
module StatsScraper {
  import opened Wrappers
  import opened Text
  import opened Dict
  import opened Dom
  import opened ScrapedData

  const BaseUrl := "https://www.nea.gov.sg"

  /** A `<table>` of the page: `find_all('tr')` as rows of cell texts, and the
      text of `find_previous([h1..h6, caption])` when there is one. */
  datatype TableElem = TableElem(rows: seq<seq<string>>, precedingTitle: Option<string>)

  // ---------------------------------------------------------------------------
  // Statistics tables

  /** The rows with at least one cell, in order. */
  function NonEmptyRows(rows: seq<seq<string>>): seq<seq<string>>
    decreases |rows|
  {
    if rows == [] then []
    else
      var n := |rows| - 1;
      NonEmptyRows(rows[..n]) + (if rows[n] != [] then [rows[n]] else [])
  }

  /** The data rows of a table: every row after the first that has a cell. */
  function DataRows(t: TableElem): seq<seq<string>> {
    if t.rows == [] then [] else NonEmptyRows(t.rows[1..])
  }

  /** The record for the table at position `i` of the page. */
  function TableOf(t: TableElem, i: nat): Table {
    Table(i, if t.rows == [] then [] else t.rows[0], DataRows(t), Some(t.precedingTitle.GetOr("")))
  }

  /** The records of the tables among the first `m` with data rows, in page order. */
  function TablesUpTo(tables: seq<TableElem>, m: nat): seq<Table>
    requires m <= |tables|
    decreases m
  {
    if m == 0 then []
    else
      TablesUpTo(tables, m - 1)
      + (if DataRows(tables[m - 1]) != [] then [TableOf(tables[m - 1], m - 1)] else [])
  }

  /** `extract_statistics_tables` */
  method ExtractStatisticsTables(tableElements: seq<TableElem>) returns (tables: seq<Table>)
    ensures tables == TablesUpTo(tableElements, |tableElements|)
  {
    tables := [];
    for i := 0 to |tableElements|
      invariant tables == TablesUpTo(tableElements, i)
    {
      var tableData := ExtractTable(tableElements[i], i);
      TablesStep(tableElements, i, tableData);
      if tableData.rows != [] {
        tables := tables + [tableData];
      }
    }
  }

  /** The `table_data` record the loop body builds for the table at position
      `i`: the title defaults to `''`, and a table without rows has no headers. */
  method ExtractTable(table: TableElem, i: nat) returns (tableData: Table)
    ensures tableData == TableOf(table, i)
  {
    var title := "";
    if table.precedingTitle.Some? {
      title := table.precedingTitle.value;
    }
    var headers: seq<string> := [];
    var rows: seq<seq<string>> := [];
    if table.rows != [] {
      headers := table.rows[0];
      rows := CollectDataRows(table.rows[1..]);
    }
    tableData := Table(i, headers, rows, Some(title));
  }

  /** The `for row in data_rows` loop: the rows that have a cell, in order. */
  method CollectDataRows(dataRows: seq<seq<string>>) returns (rows: seq<seq<string>>)
    ensures rows == NonEmptyRows(dataRows)
  {
    rows := [];
    for j := 0 to |dataRows|
      invariant rows == NonEmptyRows(dataRows[..j])
    {
      NonEmptyRowsStep(dataRows, j);
      var rowData := dataRows[j];
      if rowData != [] {
        rows := rows + [rowData];
      }
    }
    assert dataRows[..|dataRows|] == dataRows;
  }

  lemma NonEmptyRowsStep(rows: seq<seq<string>>, j: nat)
    requires j < |rows|
    ensures rows[j] != [] ==> NonEmptyRows(rows[..j + 1]) == NonEmptyRows(rows[..j]) + [rows[j]]
    ensures rows[j] == [] ==> NonEmptyRows(rows[..j + 1]) == NonEmptyRows(rows[..j])
  {
    assert rows[..j + 1][..j] == rows[..j];
    assert NonEmptyRows(rows[..j]) + [] == NonEmptyRows(rows[..j]);
  }

  /** What the table at position `i` adds to the records, given the record
      the loop body builds for it. */
  lemma TablesStep(tables: seq<TableElem>, i: nat, built: Table)
    requires i < |tables|
    requires built == TableOf(tables[i], i)
    ensures built.rows != [] ==> TablesUpTo(tables, i + 1) == TablesUpTo(tables, i) + [built]
    ensures built.rows == [] ==> TablesUpTo(tables, i + 1) == TablesUpTo(tables, i)
  {
    assert TablesUpTo(tables, i) + [] == TablesUpTo(tables, i);
  }

  /** A row is kept exactly when it is one of the rows and has a cell. */
  lemma {:induction false} NonEmptyRowsIff(rows: seq<seq<string>>, row: seq<string>)
    ensures row in NonEmptyRows(rows) <==> row in rows && row != []
    decreases |rows|
  {
    if rows != [] {
      var n := |rows| - 1;
      NonEmptyRowsIff(rows[..n], row);
      assert rows == rows[..n] + [rows[n]];
    }
  }

  /** Every returned table has data rows, comes from an earlier position, and is
      that table's record: its headers are the first row's cells, its rows the
      later non-empty rows and its title the preceding heading's text or `''`. */
  lemma {:induction false} TablesShape(tables: seq<TableElem>, m: nat)
    requires m <= |tables|
    ensures forall k :: 0 <= k < |TablesUpTo(tables, m)| ==>
      var t := TablesUpTo(tables, m)[k];
      t.tableIndex < m && t.rows != [] && t == TableOf(tables[t.tableIndex], t.tableIndex)
    decreases m
  {
    if m > 0 {
      TablesShape(tables, m - 1);
    }
  }

  /** Table indices strictly increase along the result. */
  lemma {:induction false} TableIndicesIncrease(tables: seq<TableElem>, m: nat)
    requires m <= |tables|
    ensures forall a, b :: 0 <= a < b < |TablesUpTo(tables, m)| ==>
      TablesUpTo(tables, m)[a].tableIndex < TablesUpTo(tables, m)[b].tableIndex
    decreases m
  {
    if m > 0 {
      TableIndicesIncrease(tables, m - 1);
      TablesShape(tables, m - 1);
    }
  }

  /** Every table with a data row is returned, as its record. */
  lemma {:induction false} TablesComplete(tables: seq<TableElem>, m: nat, i: nat)
    requires i < m <= |tables| && DataRows(tables[i]) != []
    ensures TableOf(tables[i], i) in TablesUpTo(tables, m)
    decreases m
  {
    TablesStep(tables, m - 1, TableOf(tables[m - 1], m - 1));
    if i < m - 1 {
      TablesComplete(tables, m - 1, i);
    }
  }

  /** A table without a preceding heading or caption has the empty title. */
  lemma UntitledTableTitle(t: TableElem, i: nat)
    requires t.precedingTitle.None?
    ensures TableOf(t, i).title == Some("")
  {
  }

  // ---------------------------------------------------------------------------
  // Annual data

  /** Four decimal digits start at position `p`. */
  predicate YearAt(s: string, p: nat) {
    p + 4 <= |s| && IsDigit(s[p]) && IsDigit(s[p + 1]) && IsDigit(s[p + 2]) && IsDigit(s[p + 3])
  }

  /** The leftmost position at or after `p` where four digits start. */
  function YearFrom(s: string, p: nat): (r: Option<nat>)
    ensures r.Some? ==> p <= r.value && YearAt(s, r.value) && forall q :: p <= q < r.value ==> !YearAt(s, q)
    ensures r.None? ==> forall q :: p <= q ==> !YearAt(s, q)
    decreases |s| - p
  {
    if p + 4 > |s| then None
    else if YearAt(s, p) then Some(p)
    else YearFrom(s, p + 1)
  }

  /** `re.search(r'(\d{4})', s).group(1)`: the first run of four digits. */
  function FirstYear(s: string): Option<string> {
    var p := YearFrom(s, 0);
    if p.Some? then Some(s[p.value..p.value + 4]) else None
  }

  /** `re.search(r'\d+', s)` succeeds. */
  predicate HasDigit(s: string) {
    exists k :: 0 <= k < |s| && IsDigit(s[k])
  }

  /** The key a non-empty cell in column `i` is stored under, if any. */
  function CellKey(i: nat, text: string): (r: Option<string>)
    ensures r.Some? ==> text != ""
  {
    if text == "" then None
    else if '%' in text then Some("rate_" + NatToString(i))
    else if HasDigit(text) then Some("value_" + NatToString(i))
    else None
  }

  /** The year's entry after the cells of columns 1 to `n - 1` of a row. */
  function AddCells(entry: Dict<string>, row: seq<string>, n: nat): Dict<string>
    requires n <= |row|
    decreases n
  {
    if n <= 1 then entry
    else
      var e := AddCells(entry, row, n - 1);
      var key := CellKey(n - 1, row[n - 1]);
      if key.Some? then Put(e, key.value, row[n - 1]) else e
  }

  /** A row whose first cell holds a year, if it has two cells or more. */
  function RowYear(row: seq<string>): Option<string> {
    if |row| >= 2 then FirstYear(row[0]) else None
  }

  /** What one table row does to the annual data. */
  function AddRow(annual: Dict<Dict<string>>, row: seq<string>): Dict<Dict<string>> {
    var year := RowYear(row);
    if year.Some? then
      Put(annual, year.value, AddCells(Get(annual, year.value).GetOr([]), row, |row|))
    else annual
  }

  /** The annual data after the first `m` rows. */
  function AddRows(annual: Dict<Dict<string>>, rows: seq<seq<string>>, m: nat): Dict<Dict<string>>
    requires m <= |rows|
    decreases m
  {
    if m == 0 then annual else AddRow(AddRows(annual, rows, m - 1), rows[m - 1])
  }

  /** The annual data after the rows of the first `m` tables. */
  function AnnualUpTo(tables: seq<TableElem>, m: nat): Dict<Dict<string>>
    requires m <= |tables|
    decreases m
  {
    if m == 0 then [] else AddRows(AnnualUpTo(tables, m - 1), tables[m - 1].rows, |tables[m - 1].rows|)
  }

  /** `extract_annual_data`: `annual_data[year][key]` is assigned in place. */
  method ExtractAnnualData(tables: seq<TableElem>) returns (annualData: Dict<Dict<string>>)
    ensures annualData == AnnualUpTo(tables, |tables|)
  {
    annualData := [];
    for t := 0 to |tables|
      invariant annualData == AnnualUpTo(tables, t)
    {
      var rows := tables[t].rows;
      ghost var start := annualData;
      for r := 0 to |rows|
        invariant annualData == AddRows(start, rows, r)
      {
        annualData := StoreRow(annualData, rows[r]);
      }
    }
  }

  /** The body of the row loop of `extract_annual_data`: a row of two cells or
      more whose first cell holds a year has its classified cells stored under
      that year, creating the year's entry when it is new. */
  method StoreRow(annualData: Dict<Dict<string>>, cells: seq<string>) returns (updated: Dict<Dict<string>>)
    ensures updated == AddRow(annualData, cells)
  {
    updated := annualData;
    if |cells| >= 2 {
      var firstCell := cells[0];
      var yearMatch := FirstYear(firstCell);
      if yearMatch.Some? {
        var year := yearMatch.value;
        ghost var entry := Get(annualData, year).GetOr([]);
        if year !in Keys(updated) {
          updated := Put(updated, year, []);
        } else {
          PutGet(updated, year);
        }
        for i := 1 to |cells|
          invariant updated == Put(annualData, year, AddCells(entry, cells, i))
        {
          CellStep(annualData, year, entry, cells, i);
          var cellText := cells[i];
          if cellText != "" {
            if '%' in cellText {
              updated := Put(updated, year, Put(Get(updated, year).value, "rate_" + NatToString(i), cellText));
            } else if HasDigit(cellText) {
              updated := Put(updated, year, Put(Get(updated, year).value, "value_" + NatToString(i), cellText));
            }
          }
        }
      }
    }
  }

  /** What the cell in column `i` does to the year's entry inside the annual
      data, branch by branch. */
  lemma CellStep(annualData: Dict<Dict<string>>, year: string, entry: Dict<string>, cells: seq<string>, i: nat)
    requires 1 <= i < |cells|
    ensures var e := AddCells(entry, cells, i);
      var cur := Put(annualData, year, e);
      var next := Put(annualData, year, AddCells(entry, cells, i + 1));
      Get(cur, year) == Some(e)
      && (cells[i] != "" && '%' in cells[i] ==>
            Put(cur, year, Put(e, "rate_" + NatToString(i), cells[i])) == next)
      && (cells[i] != "" && '%' !in cells[i] && HasDigit(cells[i]) ==>
            Put(cur, year, Put(e, "value_" + NatToString(i), cells[i])) == next)
      && (!(cells[i] != "" && ('%' in cells[i] || HasDigit(cells[i]))) ==> cur == next)
  {
    var e := AddCells(entry, cells, i);
    GetPutSame(annualData, year, e);
    var key := CellKey(i, cells[i]);
    if key.Some? {
      PutPut(annualData, year, e, Put(e, key.value, cells[i]));
    }
  }

  /** The year is the four digits at `p`, and no four digits start before `p`. */
  predicate FirstYearAt(s: string, p: nat) {
    YearAt(s, p) && FirstYear(s) == Some(s[p..p + 4]) && forall q :: 0 <= q < p ==> !YearAt(s, q)
  }

  /** The year found is four digits of the first cell, at the first place where
      four digits occur; no year is found exactly when there is no such place. */
  lemma FirstYearSpec(s: string)
    ensures FirstYear(s).Some? <==> exists p: nat :: YearAt(s, p)
    ensures FirstYear(s).Some? ==> exists p: nat :: FirstYearAt(s, p)
    ensures FirstYear(s).Some? ==> |FirstYear(s).value| == 4 && forall k :: 0 <= k < 4 ==> IsDigit(FirstYear(s).value[k])
  {
    var p := YearFrom(s, 0);
    if p.Some? {
      assert FirstYearAt(s, p.value);
      var y := FirstYear(s).value;
      assert forall k :: 0 <= k < 4 ==> y[k] == s[p.value + k];
    } else {
      assert forall q: nat :: !YearAt(s, q);
    }
  }

  /** A row with at least two cells and a year in its first cell creates the
      year's entry even when none of its cells yields a value; any other row
      changes nothing. */
  lemma AddRowYear(annual: Dict<Dict<string>>, row: seq<string>)
    ensures RowYear(row).Some? ==> RowYear(row).value in Keys(AddRow(annual, row))
    ensures RowYear(row).None? ==> AddRow(annual, row) == annual
    ensures Keys(annual) <= Keys(AddRow(annual, row))
  {
  }

  /** Keys of one column of one kind are written by that column only. */
  lemma CellKeyInjective(i: nat, a: string, j: nat, b: string)
    requires CellKey(i, a).Some? && CellKey(i, a) == CellKey(j, b)
    ensures i == j
  {
    var ka := CellKey(i, a).value;
    assert ka[0] == CellKey(j, b).value[0];
    if '%' in a {
      assert ka[5..] == NatToString(i) && ka[5..] == NatToString(j);
    } else {
      assert ka[6..] == NatToString(i) && ka[6..] == NatToString(j);
    }
    NatToStringInjective(i, j);
  }

  /** The cell of column `i` decides the value of its key: after the row, the key
      holds that cell's text. */
  lemma {:induction false} AddCellsGet(entry: Dict<string>, row: seq<string>, n: nat, i: nat)
    requires 1 <= i < n <= |row| && CellKey(i, row[i]).Some?
    ensures Get(AddCells(entry, row, n), CellKey(i, row[i]).value) == Some(row[i])
    decreases n
  {
    var key := CellKey(i, row[i]).value;
    var e := AddCells(entry, row, n - 1);
    if i == n - 1 {
      GetPutSame(e, key, row[i]);
    } else {
      AddCellsGet(entry, row, n - 1, i);
      var k' := CellKey(n - 1, row[n - 1]);
      if k'.Some? {
        if k'.value == key {
          CellKeyInjective(i, row[i], n - 1, row[n - 1]);
        }
        GetPutOther(e, k'.value, row[n - 1], key);
      }
    }
  }

  /** A key no column of the row yields keeps its earlier value. */
  lemma {:induction false} AddCellsOther(entry: Dict<string>, row: seq<string>, n: nat, key: string)
    requires n <= |row|
    requires forall i :: 1 <= i < n ==> CellKey(i, row[i]) != Some(key)
    ensures Get(AddCells(entry, row, n), key) == Get(entry, key)
    decreases n
  {
    if n > 1 {
      AddCellsOther(entry, row, n - 1, key);
      var k' := CellKey(n - 1, row[n - 1]);
      if k'.Some? {
        GetPutOther(AddCells(entry, row, n - 1), k'.value, row[n - 1], key);
      }
    }
  }

  /** A later row for the same year overwrites the value under the key its
      cell gets (`rate_i` or `value_i`), whatever an earlier row or table
      stored under that key. */
  lemma LaterRowOverwrites(annual: Dict<Dict<string>>, row: seq<string>, i: nat)
    requires RowYear(row).Some? && 1 <= i < |row| && CellKey(i, row[i]).Some?
    ensures var year := RowYear(row).value;
      Get(AddRow(annual, row), year).Some?
      && Get(Get(AddRow(annual, row), year).value, CellKey(i, row[i]).value) == Some(row[i])
  {
    var year := RowYear(row).value;
    var cells := AddCells(Get(annual, year).GetOr([]), row, |row|);
    GetPutSame(annual, year, cells);
    AddCellsGet(Get(annual, year).GetOr([]), row, |row|, i);
  }

  /** Every year key of the result is four digits. */
  lemma {:induction false} AnnualYearsAreDigits(tables: seq<TableElem>, m: nat, y: string)
    requires m <= |tables| && y in Keys(AnnualUpTo(tables, m))
    ensures |y| == 4 && forall k :: 0 <= k < 4 ==> IsDigit(y[k])
    decreases m
  {
    var rows := tables[m - 1].rows;
    RowsYearsAreDigits(AnnualUpTo(tables, m - 1), rows, |rows|, y);
    if y in Keys(AnnualUpTo(tables, m - 1)) {
      AnnualYearsAreDigits(tables, m - 1, y);
    }
  }

  lemma {:induction false} RowsYearsAreDigits(annual: Dict<Dict<string>>, rows: seq<seq<string>>, m: nat, y: string)
    requires m <= |rows| && y in Keys(AddRows(annual, rows, m))
    ensures y in Keys(annual) || (|y| == 4 && forall k :: 0 <= k < 4 ==> IsDigit(y[k]))
    decreases m
  {
    if m > 0 {
      var before := AddRows(annual, rows, m - 1);
      var row := rows[m - 1];
      if y in Keys(before) {
        RowsYearsAreDigits(annual, rows, m - 1, y);
      } else {
        assert RowYear(row) == Some(y);
        FirstYearSpec(row[0]);
      }
    }
  }

  // ---------------------------------------------------------------------------
  // Key statistics

  const DomesticPattern := "(\\d+\\.?\\d*)\\s*kg.*per capita.*(\\d{4})"
  const RecyclingPattern := "(\\d+)\\s*per cent.*recycling.*(\\d{4})"
  const HouseholdPattern := "(\\d+)\\s*per cent.*household.*recycle.*(\\d{4})"

  /** One figure per match, each match being `(value, year)`. */
  function StatsOf(matches: seq<(string, string)>, metric: string, unit: string): (r: seq<Stat>)
    ensures |r| == |matches|
  {
    seq(|matches|, k requires 0 <= k < |matches| => Stat(metric, matches[k].0, unit, matches[k].1))
  }

  /** `extract_key_statistics`, with `re.findall(pattern, text, re.IGNORECASE)`
      given as `findall`: the text is `''` when Trafilatura produced none. */
  method ExtractKeyStatistics(text: string, findall: (string, string) -> seq<(string, string)>)
    returns (statistics: KeyStatistics)
    ensures statistics.annualData == []
    ensures text == "" ==> statistics == KeyStatistics([], [], [], [])
    ensures text != "" ==>
      statistics.wasteTrends == StatsOf(findall(DomesticPattern, text), "Daily domestic waste per capita", "kg")
      && statistics.recyclingRates == StatsOf(findall(RecyclingPattern, text), "Overall recycling rate", "percent")
      && statistics.keyHighlights == StatsOf(findall(HouseholdPattern, text), "Household recycling participation", "percent")
  {
    var keyHighlights: seq<Stat> := [];
    var wasteTrends: seq<Stat> := [];
    var recyclingRates: seq<Stat> := [];
    if text != "" {
      var domesticMatches := findall(DomesticPattern, text);
      for k := 0 to |domesticMatches|
        invariant wasteTrends == StatsOf(domesticMatches[..k], "Daily domestic waste per capita", "kg")
      {
        wasteTrends := wasteTrends + [Stat("Daily domestic waste per capita", domesticMatches[k].0, "kg", domesticMatches[k].1)];
      }
      assert domesticMatches[..|domesticMatches|] == domesticMatches;
      var recyclingMatches := findall(RecyclingPattern, text);
      for k := 0 to |recyclingMatches|
        invariant recyclingRates == StatsOf(recyclingMatches[..k], "Overall recycling rate", "percent")
      {
        recyclingRates := recyclingRates + [Stat("Overall recycling rate", recyclingMatches[k].0, "percent", recyclingMatches[k].1)];
      }
      assert recyclingMatches[..|recyclingMatches|] == recyclingMatches;
      var householdMatches := findall(HouseholdPattern, text);
      for k := 0 to |householdMatches|
        invariant keyHighlights == StatsOf(householdMatches[..k], "Household recycling participation", "percent")
      {
        keyHighlights := keyHighlights + [Stat("Household recycling participation", householdMatches[k].0, "percent", householdMatches[k].1)];
      }
      assert householdMatches[..|householdMatches|] == householdMatches;
    }
    statistics := KeyStatistics(keyHighlights, wasteTrends, recyclingRates, []);
  }

  // ---------------------------------------------------------------------------
  // Content sections

  /** Trafilatura's extraction: its text and markdown output, `''` when absent. */
  datatype Extracted = Extracted(text: string, markdown: string)

  const TextHeading := "Main Content (Trafilatura)"
  const MarkdownHeading := "Main Content (Markdown)"

  /** The Trafilatura sections: the text one, then the markdown one, each when
      its output is non-empty. */
  function TrafilaturaSections(extracted: Option<Extracted>): seq<Section> {
    if extracted.None? then []
    else
      var x := extracted.value;
      (if x.text != "" then [Section(Some(TextHeading), Split(x.text, '\n'), "trafilatura_text")] else [])
      + (if x.markdown != "" then [Section(Some(MarkdownHeading), Split(x.markdown, '\n'), "trafilatura_markdown")] else [])
  }

  /** `extract_content_sections`: `mainContent` holds the headings of the main
      content element, when the page has one. */
  method ExtractContentSections(extracted: Option<Extracted>, mainContent: Option<seq<HeadingBlock>>)
    returns (content: seq<Section>)
    ensures content == TrafilaturaSections(extracted)
      + (if mainContent.Some? then HeadingSections(mainContent.value, "beautifulsoup_section") else [])
  {
    content := [];
    if extracted.Some? {
      if extracted.value.text != "" {
        content := content + [Section(Some(TextHeading), Split(extracted.value.text, '\n'), "trafilatura_text")];
      }
      if extracted.value.markdown != "" {
        content := content + [Section(Some(MarkdownHeading), Split(extracted.value.markdown, '\n'), "trafilatura_markdown")];
      }
    }
    if mainContent.Some? {
      var soupSections := ExtractHeadingSections(mainContent.value, "beautifulsoup_section");
      content := content + soupSections;
    }
  }

  /** The content sections come in the order text, markdown, page sections; the
      Trafilatura ones split their output into lines, and every page section has
      non-empty content. */
  lemma ContentSectionsOrder(extracted: Option<Extracted>, headings: seq<HeadingBlock>)
    ensures var ts := TrafilaturaSections(extracted);
      |ts| <= 2
      && (forall k :: 0 <= k < |ts| ==> ts[k].kind in {"trafilatura_text", "trafilatura_markdown"})
      && (|ts| == 2 ==> ts[0].kind == "trafilatura_text" && ts[1].kind == "trafilatura_markdown")
      && (extracted.Some? && extracted.value.text != "" ==>
            ts[0] == Section(Some(TextHeading), Split(extracted.value.text, '\n'), "trafilatura_text"))
    ensures forall k :: 0 <= k < |HeadingSections(headings, "beautifulsoup_section")| ==>
      HeadingSections(headings, "beautifulsoup_section")[k].content != []
      && HeadingSections(headings, "beautifulsoup_section")[k].kind == "beautifulsoup_section"
  {
    HeadingSectionsShape(headings, "beautifulsoup_section");
  }

  // ---------------------------------------------------------------------------
  // Relevant links

  const StatsKeywords: seq<string> :=
    ["recycling", "waste", "environment", "sustainability", "green", "statistics", "report"]

  /** `extract_relevant_links`: the anchors with an `href`, filtered and resolved. */
  method ExtractRelevantLinks(page: seq<PageAnchor>, urljoin: (string, string) -> string)
    returns (links: seq<LinkEntry>)
    ensures links == RelevantEntries(KeywordLinks(AnchorsWithHref(page), StatsKeywords), urljoin, BaseUrl)
  {
    var allLinks := AnchorsWithHref(page);
    links := [];
    for i := 0 to |allLinks|
      invariant links == RelevantEntries(KeywordLinks(allLinks[..i], StatsKeywords), urljoin, BaseUrl)
    {
      assert allLinks[..i + 1][..i] == allLinks[..i];
      var href := allLinks[i].href;
      var text := allLinks[i].text;
      if href != "" && text != "" {
        if HasKeyword(href, text, StatsKeywords) {
          var fullUrl := urljoin(BaseUrl, href);
          links := links + [RelevantLink(text, fullUrl)];
        }
      }
    }
    assert allLinks[..|allLinks|] == allLinks;
  }
}
