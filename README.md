# RecycleBot-Lite, modelled in Dafny

RecycleBot-Lite scrapes Singapore NEA recycling and waste-statistics pages. It
turns the scraped record into a knowledge base of Markdown snippets. It answers
questions over that knowledge base through a FastAPI service and a Flask web
page. This project models the deterministic core of those steps and proves what
each step promises:

- `simple_scraper.dfy`: `scrape_simple.py`. It models the event-driven
  `SimpleHTMLParser` as a class whose handlers update its fields. It also
  models the four text-based extractors that feed it: heading grouping, FAQ
  detection over lines, and relevant and press links.
- `stats_scraper.dfy`: `scripts/scrape.py`. Statistics tables, annual data
  (a year-keyed dictionary updated in place), key statistics, content
  sections and relevant links.
- `recycling_scraper.dfy`: `scrape.py`. The CSS-selector loops with their
  fallbacks for FAQs and press releases, general content, and links.
- `dom.dfy`: the two rules both BeautifulSoup scrapers share. One collects
  block texts up to the next heading; the other keeps links whose text or
  address names a keyword.
- `knowledge_base.dfy`: `scripts/generate_rag_kb.py`. The snippet builders,
  the knowledge-base assembly, the index file and the combined file.
- `chat_api.dfy`: `scripts/fastapi_rag.py`. The `/chat` handler, the
  append-only CRM log and `/metrics`.
- `web_app.dfy`: `web_interface.py`. The `/api/ask`, `/api/status` and
  `/api/similar` handlers, and start-up.
- `text.dfy`: the Python string operations the code relies on, restricted to
  ASCII: `strip`, `lower`, `title`, `split`, `join`, `split()` into words,
  substring search and decimal rendering.
- `dict.dfy`: an insertion-ordered dictionary.
- `wrappers.dfy`: `Option` and `Result`.
- `scraped_data.dfy`: the scraped record.

Foreign code and effects are parameters; nothing is performed:

- `urllib.parse.urljoin` is a function `urljoin`.
- `soup.select` is a function giving the number of matches.
- `re.findall` is a function `findall`.
- The retrieval system is a function from a question to an answer. It catches its own exceptions and answers with an apology; a failure of the function stands for an exception raised elsewhere inside a handler's `try`.
- Clocks and `uuid` values are given as inputs: the latency, the timestamp,
  the request id and the fresh session id.

A parsed page enters as the sequence of HTML parser events, or as the lists of
elements each BeautifulSoup query returns.

The retrieval score is not clamped. It is `len(sources) / 3.0`, so it
exceeds 1 when there are more than three sources. This is stated in
`ChatApi.RetrievalScoreAboveOne`.

## Model

| member | source | states |
|---|---|---|
| SimpleScraper.SimpleHtmlParser.constructor | scrape_simple.py:17-24 | a new parser has no texts, links, headings or paragraphs, and no current tag or attributes |
| SimpleScraper.SimpleHtmlParser.HandleStartTag | scrape_simple.py:26-35 | the tag and its attributes become current; an `a` tag with an `href` appends one link with that address and empty text; the texts, headings and paragraphs are unchanged |
| SimpleScraper.SimpleHtmlParser.HandleEndTag | scrape_simple.py:37-39 | any end tag clears the current tag and attributes and changes nothing else |
| SimpleScraper.SimpleHtmlParser.HandleData | scrape_simple.py:41-59 | the new state is the data step of the old state: the stripped chunk, when non-empty, is added to the texts and to the heading list, the paragraph list or the last link's text, depending on the current tag |
| SimpleScraper.SimpleHtmlParser.Feed | scrape_simple.py:15-59 | feeding events leaves the parser in the state the handlers reach one event at a time |
| SimpleScraper.AttrMapKeys | scrape_simple.py:28 | `dict(attrs)` has a key exactly when some attribute has that name |
| SimpleScraper.AttrMapLast | scrape_simple.py:28 | for a repeated attribute name, `dict(attrs)` keeps the last value |
| SimpleScraper.TextContentIsData | scrape_simple.py:41-44 | the collected texts are exactly the non-empty stripped data chunks, in event order |
| SimpleScraper.DataTextsStripped | scrape_simple.py:42-44 | every collected text is non-empty and already stripped |
| SimpleScraper.LinkCount | scrape_simple.py:31-35 | the number of links equals the number of `a` start tags that carry an `href` |
| SimpleScraper.NewLinkStartsEmpty | scrape_simple.py:31-35 | an `a` tag with an `href` appends exactly one link, with the last `href` value and empty text, and keeps the earlier links |
| SimpleScraper.EndTagResets | scrape_simple.py:37-39 | an end-tag step resets only the current tag and attributes |
| SimpleScraper.DataRecordedOnce | scrape_simple.py:46-59 | a data chunk goes to at most one of headings, paragraphs or link text: a heading only under h1-h6, a paragraph only under `p`, a link text only under `a` when a link exists, where it replaces the last link's text |
| SimpleScraper.RecordedBound | scrape_simple.py:41-59 | headings plus paragraphs never outnumber the collected texts, and every heading level is h1-h6 |
| SimpleScraper.DataOverwritesEarlierLink | scrape_simple.py:58-59 | text inside an `a` without `href` overwrites the text of the link opened by an earlier anchor |
| SimpleScraper.ExtractContentSections | scrape_simple.py:101-125 | the sections are those the grouping loop builds over the parser's collected texts |
| SimpleScraper.SectionsFlattenToSuffix | scrape_simple.py:109-123 | reading the sections back (each heading, then its content) gives every text from the first heading-like one on: nothing after it is dropped or reordered, and everything before it is dropped |
| SimpleScraper.SectionsHeadingLike | scrape_simple.py:112-120 | every section heading is a capitalised run of letters and whitespace of 2 to 99 characters, and no content item is |
| SimpleScraper.ExtractRelevantLinks | scrape_simple.py:127-147 | the result is one `relevant_link` per parsed link with non-empty text and address naming one of the five keywords in either, in page order, with the address resolved against the base URL |
| SimpleScraper.ScanAnswers | scrape_simple.py:159-166 | for a question on line i, the inner loop collects the first two non-empty, non-question lines among the next four stripped lines, then stops |
| SimpleScraper.AnswerLines | scrape_simple.py:161-166 | an answer has at most two lines |
| SimpleScraper.CandidatesFromWindow | scrape_simple.py:161-164 | a line is an answer candidate exactly when it is a non-empty line of the window that does not end in `?` |
| SimpleScraper.AnswerAfterTwo | scrape_simple.py:165-166 | once two candidates are found, later lines of the window are not read |
| SimpleScraper.ExtractFaqs | scrape_simple.py:149-175 | the FAQs are those found line by line over the stripped lines of the page, in line order |
| SimpleScraper.FaqsShape | scrape_simple.py:155-173 | every FAQ comes from a stripped line ending in `?` and longer than 10 characters; its answer is its answer lines joined by spaces; its source is `text_analysis` |
| SimpleScraper.QuestionKeptIff | scrape_simple.py:158-173 | a question line yields an FAQ exactly when one of the next four lines is an answer candidate |
| SimpleScraper.ExtractPressReleases | scrape_simple.py:177-198 | the same filter as the relevant links, with the five news keywords, gives press releases titled by the link text with source `link_analysis` |
| StatsScraper.ExtractStatisticsTables | scripts/scrape.py:65-102 | the result is the table records of the tables that have data rows, in page order |
| StatsScraper.ExtractTable | scripts/scrape.py:73-97 | one table's record: its position, header cells, non-empty data rows and caption or heading title |
| StatsScraper.CollectDataRows | scripts/scrape.py:92-97 | the data rows kept are exactly the rows with at least one cell, in order |
| StatsScraper.NonEmptyRowsIff | scripts/scrape.py:93-97 | a row is kept exactly when it is one of the data rows and has a cell |
| StatsScraper.TablesShape | scripts/scrape.py:72-100 | each returned table has data rows and is the record of the table at its `table_index`: headers from the first row, the later non-empty rows, and the preceding heading's text or `''` |
| StatsScraper.TableIndicesIncrease | scripts/scrape.py:72-100 | table indices strictly increase along the result |
| StatsScraper.TablesComplete | scripts/scrape.py:99-100 | the record of every table with a data row (its position, headers, non-empty rows and title) is among those returned |
| StatsScraper.UntitledTableTitle | scripts/scrape.py:77-83 | a table with no preceding heading or caption gets the empty title, not an absent one |
| StatsScraper.YearFrom | scripts/scrape.py:167 | the search finds the leftmost position holding four consecutive digits, or reports that none exists |
| StatsScraper.FirstYearSpec | scripts/scrape.py:167-169 | a year is found exactly when the first cell has four consecutive digits; the year is the leftmost such run |
| StatsScraper.ExtractAnnualData | scripts/scrape.py:153-183 | the in-place dictionary updates over all tables and rows produce the row-by-row annual data |
| StatsScraper.StoreRow | scripts/scrape.py:163-181 | a row of two cells or more whose first cell holds a year gets an entry for that year, and its loop over the other cells stores the row's rate and value cells under its year |
| StatsScraper.AddRowYear | scripts/scrape.py:164-171 | a row with a year ensures that year is a key; a row without one leaves the data unchanged; keys are never removed |
| StatsScraper.CellKey | scripts/scrape.py:176-181 | a cell gets a key only when it is non-empty |
| StatsScraper.CellKeyInjective | scripts/scrape.py:174-181 | different columns never share a key |
| StatsScraper.AddCellsGet | scripts/scrape.py:174-181 | a classified cell is stored under its `rate_i` or `value_i` key |
| StatsScraper.AddCellsOther | scripts/scrape.py:174-181 | keys that no cell produces keep their earlier value |
| StatsScraper.LaterRowOverwrites | scripts/scrape.py:170-181 | a later row for the same year overwrites the value under the same key (`rate_i` or `value_i`), whatever was stored under it before |
| StatsScraper.AnnualYearsAreDigits | scripts/scrape.py:167-171 | every year key of the result is four digits |
| StatsScraper.StatsOf | scripts/scrape.py:121-127 | one figure per regular-expression match |
| StatsScraper.ExtractKeyStatistics | scripts/scrape.py:104-151 | with no text all lists are empty; otherwise waste trends, recycling rates and highlights are the matches of their own patterns, with fixed metric names and units; the annual data is always empty |
| StatsScraper.ExtractContentSections | scripts/scrape.py:185-230 | the Trafilatura text section, then the markdown section, each when non-empty and split into lines, then one `beautifulsoup_section` per heading of the main content that has content |
| StatsScraper.ContentSectionsOrder | scripts/scrape.py:190-228 | at most two Trafilatura sections, text before markdown; every page section has non-empty content |
| StatsScraper.ExtractRelevantLinks | scripts/scrape.py:232-254 | the anchors with an `href`, filtered by the seven keywords and resolved |
| Dom.CollectSection | scripts/scrape.py:211-221 | the sibling walk collects the non-empty texts of p/div/ul/ol siblings up to the next heading |
| Dom.SectionTextsIff | scripts/scrape.py:216-220 | a text is collected exactly when it is the non-empty text of a block sibling before the next heading |
| Dom.SectionStopsAtHeading | scripts/scrape.py:216 | nothing after the next heading contributes |
| Dom.ExtractHeadingSections | scripts/scrape.py:210-228 | one section per heading with content, in heading order |
| Dom.HeadingSectionsShape | scripts/scrape.py:223-228 | every section has non-empty content, the given type, and the heading text and collected texts of one of the headings |
| Dom.HeadingSectionsComplete | scripts/scrape.py:223-228 | conversely, every heading with collected texts gives its section |
| Dom.KeywordLinksIff | scripts/scrape.py:243-246 | a link is kept exactly when it is on the page, both its text and address are non-empty, and a keyword occurs in either, ignoring case |
| Dom.KeywordLinksAppend | scripts/scrape.py:239-252 | filtering distributes over concatenation, so kept links keep page order |
| Dom.KeywordLinksIdempotent | scripts/scrape.py:243-246 | filtering twice keeps the same links |
| Dom.RelevantEntriesIff | scripts/scrape.py:239-252 | an entry is a `relevant_link` result exactly when some page link with non-empty text and address names a keyword and gives that entry: its text, and its address resolved against the base |
| Dom.PressEntriesIff | scrape_simple.py:187-196 | an entry is a press-release result exactly when some page link with non-empty text and address names a news keyword and gives that entry: titled by its text, its address resolved, with the given source |
| RecyclingScraper.SelectFirst | scrape.py:49-53 | the result is zero exactly when no selector matches; otherwise it is the count of the first selector that matches |
| RecyclingScraper.ExtractFaqs | scrape.py:35-71 | if any selector matches, there are no FAQs, because matched elements are never read; otherwise the fallback FAQs of the content sections, in order |
| RecyclingScraper.SectionFaqsIff | scrape.py:61-69 | a fallback FAQ is exactly a question-like element with a p/div sibling; its text is the question, the sibling's the answer, and the source is `content_section` |
| RecyclingScraper.SectionFaqsCount | scrape.py:62-69 | one FAQ per answered question-like element, each tagged `content_section` |
| RecyclingScraper.ExtractPressReleases | scrape.py:73-108 | if any selector matches there are none; otherwise one `news_link` entry per anchor whose address names press, news, media or release |
| RecyclingScraper.NewsAnchorsIff | scrape.py:96 | an anchor is visited exactly when it is on the page and its address matches the pattern in any case |
| RecyclingScraper.NewsHrefNonEmpty | scrape.py:100 | a matching address is never empty, so the `if href` guard never skips a link |
| RecyclingScraper.NewsAnchorsMatch | scrape.py:96-100 | every anchor visited has a matching address |
| RecyclingScraper.ExtractGeneralContent | scrape.py:110-139 | the heading sections of the main content, typed `section`, or none without a main content element |
| RecyclingScraper.ExtractLinks | scrape.py:141-163 | the anchors with an `href`, filtered by the five keywords and resolved |
| KnowledgeBase.BuildStatSnippet | scripts/generate_rag_kb.py:46-49 | the text is the lines heading, blank, one bullet per figure, blank, footer |
| KnowledgeBase.CreateStatisticsSnippets | scripts/generate_rag_kb.py:39-70 | the statistics snippets for the record |
| KnowledgeBase.StatisticsSnippetsShape | scripts/generate_rag_kb.py:44-68 | at most three snippets, each present exactly when its list is non-empty, in the order highlights, rates, trends |
| KnowledgeBase.StatSnippetLines | scripts/generate_rag_kb.py:46-49 | split at newlines, the text is its heading, a blank line, the bullets in order, a blank line and the footer |
| KnowledgeBase.BuildTableText | scripts/generate_rag_kb.py:87-97 | the table text's lines: heading, blank, header and separator rows when there are headers, one row line per row, blank, footer |
| KnowledgeBase.CreateTableSnippets | scripts/generate_rag_kb.py:72-100 | the table snippets for the record |
| KnowledgeBase.TableSnippetsIndexed | scripts/generate_rag_kb.py:79-98 | the snippets are those of the tables with rows, in order, each numbered by its position among all tables |
| KnowledgeBase.TableKeptIff | scripts/generate_rag_kb.py:84-85 | a table has a snippet exactly when it has rows |
| KnowledgeBase.TableIdsDistinct | scripts/generate_rag_kb.py:98 | no two table snippets share an id |
| KnowledgeBase.TableLinesLayout | scripts/generate_rag_kb.py:87-97 | the line layout, with a separator of one `---` per header |
| KnowledgeBase.TableSnippetLines | scripts/generate_rag_kb.py:87-97 | with newline-free cells, splitting the table text at newlines gives back exactly its lines |
| KnowledgeBase.BuildContentText | scripts/generate_rag_kb.py:116-121 | heading, blank line, each non-blank paragraph followed by a blank line, footer |
| KnowledgeBase.CreateContentSnippets | scripts/generate_rag_kb.py:102-124 | the content snippets for the record |
| KnowledgeBase.ContentSnippetsIndexed | scripts/generate_rag_kb.py:109-122 | one snippet per section with content, in order, numbered by position |
| KnowledgeBase.ContentIdsDistinct | scripts/generate_rag_kb.py:122 | no two content snippets share an id |
| KnowledgeBase.NonBlank | scripts/generate_rag_kb.py:117-119 | the kept paragraphs are non-blank after `strip()` and come from the content |
| KnowledgeBase.ParagraphLinesSpec | scripts/generate_rag_kb.py:117-119 | each kept paragraph is followed by one empty line, in order |
| KnowledgeBase.NonBlankComplete | scripts/generate_rag_kb.py:118 | every non-blank paragraph is kept |
| KnowledgeBase.BuildAnnualText | scripts/generate_rag_kb.py:137-147 | heading with the year, blank, one bullet per key in dictionary order, blank, footer |
| KnowledgeBase.CreateAnnualDataSnippets | scripts/generate_rag_kb.py:126-150 | the annual snippets for the record |
| KnowledgeBase.AnnualSnippetsShape | scripts/generate_rag_kb.py:136-148 | one snippet per year in dictionary order, with id `annual_data_{year}` |
| KnowledgeBase.AnnualSnippetLines | scripts/generate_rag_kb.py:137-147 | split at newlines, the annual text is its heading, a blank line, its bullets, a blank line and the footer |
| KnowledgeBase.AnnualLabelCases | scripts/generate_rag_kb.py:140-145 | `rate_*` keys read "Recycling Rate", other `value_*` keys "Waste Generated"; any other key keeps its length and has a space exactly where the key has `_` or a space |
| KnowledgeBase.CreateMetadataSnippet | scripts/generate_rag_kb.py:152-172 | the single metadata snippet |
| KnowledgeBase.MetadataSnippetShape | scripts/generate_rag_kb.py:158-169 | exactly one `metadata` snippet; it always gives the URL and scrape time, and each optional field appears exactly when it is non-empty |
| KnowledgeBase.FieldPresence | scripts/generate_rag_kb.py:162-169 | one optional field line appears exactly when its value is non-empty |
| KnowledgeBase.GenerateKnowledgeBase | scripts/generate_rag_kb.py:174-212 | no scraped file, or a falsy JSON value such as `{}`, gives no output; otherwise the snippets of the record, their count, the index file stamped with the first clock reading and the combined file stamped with the second |
| KnowledgeBase.KnowledgeBaseOrder | scripts/generate_rag_kb.py:186-190 | metadata first, then statistics, tables, content and annual snippets in that order |
| KnowledgeBase.KnowledgeBaseFooters | scripts/generate_rag_kb.py:186-190 | every snippet ends with the source footer line |
| KnowledgeBase.KnowledgeBaseIdsDistinct | scripts/generate_rag_kb.py:186-199 | no two snippets share an id, so no snippet file is written twice, given the years are distinct dictionary keys |
| KnowledgeBase.FirstTitleLine | scripts/generate_rag_kb.py:222 | no title exactly when no line is `# ` followed by text; otherwise the title is non-empty and is the rest of the first such line |
| KnowledgeBase.CreateIndexFile | scripts/generate_rag_kb.py:214-229 | the index text is its header lines plus one entry line per snippet |
| KnowledgeBase.IndexFileLines | scripts/generate_rag_kb.py:216-225 | the index has six header lines, then one `- **{id}**: {title}` line per snippet in order |
| KnowledgeBase.HeadingIsIndexTitle | scripts/generate_rag_kb.py:222-223 | a snippet whose first line is a non-empty `# ` heading is listed under that heading |
| KnowledgeBase.TableIndexTitle | scripts/generate_rag_kb.py:80 | a table with a non-empty title is listed under that title |
| KnowledgeBase.EmptyTitleIndexFallback | scripts/generate_rag_kb.py:222-223 | a present empty title is kept, so the index falls back to the title-cased id |
| KnowledgeBase.IndexTitleNoNewline | scripts/generate_rag_kb.py:223 | an index title never contains a line break when the id does not |
| KnowledgeBase.CreateCombinedKb | scripts/generate_rag_kb.py:231-238 | the combined file is its header followed by every snippet's text and a rule |
| KnowledgeBase.CombinedBlockAt | scripts/generate_rag_kb.py:237-238 | each snippet's text sits, followed by the rule, right after the blocks of the snippets before it |
| KnowledgeBase.BlocksLength | scripts/generate_rag_kb.py:237-238 | the blocks take the snippet texts plus seven characters per snippet |
| ChatApi.RetrievalScore | scripts/fastapi_rag.py:131 | three times the score is the number of sources, and it is never negative |
| ChatApi.RetrievalScoreAboveOne | scripts/fastapi_rag.py:131 | the score exceeds 1 exactly when there are more than three sources |
| ChatApi.TokenCountJoined | scripts/fastapi_rag.py:128 | the token count is the word count of question and answer joined by a space |
| ChatApi.CrmAgreesWithResponse | scripts/fastapi_rag.py:134-159 | the CRM record agrees with the response on every shared field; the user defaults to `anonymous` and the metadata to `{}` |
| ChatApi.ChatServer.constructor | scripts/fastapi_rag.py:65 | before start-up the system is not ready and no record has been written |
| ChatApi.ChatServer.Startup | scripts/fastapi_rag.py:67-76 | the system is ready exactly when building it succeeded; the log and the records are untouched |
| ChatApi.ChatServer.LogToCrm | scripts/fastapi_rag.py:78-85 | the record is appended to the written records, and as one line to the log; earlier ones are kept |
| ChatApi.ChatServer.Chat | scripts/fastapi_rag.py:110-169 | not ready gives 500 and no log line; an exception inside the handler's `try` gives 500 with its text and no log line; otherwise the response, and exactly one record is written: `CrmOf` of the request and the response, so its user is `anonymous` and its metadata `{}` when the request gives none (`CrmAgreesWithResponse` gives the shared fields); a non-empty requested session id is echoed, otherwise the fresh one is used |
| ChatApi.ChatServer.GetMetrics | scripts/fastapi_rag.py:180-217 | the metrics of the current log, and the log is unchanged |
| ChatApi.MalformedFails | scripts/fastapi_rag.py:199-200 | a line that does not parse anywhere in the log makes `/metrics` fail |
| ChatApi.FieldsCountNonBlank | scripts/fastapi_rag.py:198-208 | the interactions counted are the non-blank lines |
| ChatApi.BlankLogZeros | scripts/fastapi_rag.py:185-190 | an empty or blank-only log gives all-zero metrics |
| ChatApi.AppendOneInteraction | scripts/fastapi_rag.py:81-82 | appending one logged interaction adds exactly one interaction and keeps the earlier ones |
| ChatApi.SumBounds | scripts/fastapi_rag.py:209 | a sum of values within bounds lies within the count times those bounds |
| ChatApi.AverageLatencyBounds | scripts/fastapi_rag.py:209 | the average latency lies between the smallest and the largest latency read |
| WebApp.AskQuestion | web_interface.py:45-69 | not ready gives 500; a blank question gives 400; otherwise the result of asking the stripped question with the history defaulting to empty, a failure becoming a 500 with its text |
| WebApp.BlankQuestionAsksNothing | web_interface.py:55-58 | a whitespace-only question gives 400 whatever the retrieval system would answer |
| WebApp.AskForwardsStripped | web_interface.py:55-64 | whitespace around a question makes no difference to what is asked |
| WebApp.Status | web_interface.py:71-89 | `ready` exactly when Ollama runs and the system is ready, `not_ready` otherwise, `error` when the probe raises |
| WebApp.Preview | web_interface.py:111 | at most 503 characters; unchanged up to 500; otherwise the first 500 characters then `...` |
| WebApp.PreviewIdempotent | web_interface.py:111 | a preview is its own preview |
| WebApp.FormattedSource | web_interface.py:112 | the source is the `source` metadata, or `Unknown` exactly when there is none |
| WebApp.GetSimilar | web_interface.py:91-118 | not ready gives 500; a blank query gives 400; `k` defaults to 3; an exception inside the handler's `try` gives 500 with its text; otherwise the formatted documents |
| WebApp.FormatAll | web_interface.py:108-113 | the formatting loop builds the formatted documents |
| WebApp.WebServer.InitializeRagSystem | web_interface.py:27-38 | succeeds exactly when Ollama answers and the build succeeds; a failure leaves the system as it was |
| Text.Strip | scripts/generate_rag_kb.py:118 | the stripped string is no longer and has no whitespace at either end |
| Text.StripPadded | web_interface.py:55 | `strip()` removes exactly the whitespace around a stripped string |
| Text.JoinSplit | scripts/scrape.py:194 | joining the lines of a split with the separator gives the text back |
| Text.SplitJoin | scrape_simple.py:154 | splitting newline-free lines joined by newlines gives the lines back |
| Text.WordsConcat | scripts/fastapi_rag.py:128 | the words of two strings joined by a space are the words of each |
| Dict.GetPutSame | scripts/scrape.py:179-181 | a stored value is read back |
| Dict.GetPutOther | scripts/scrape.py:179-181 | storing under one key leaves the others |
| Dict.PutPut | scripts/scrape.py:179-181 | storing twice under a key keeps the second value |

## Left out

- Fetching pages, files and directories (`requests`, `open`, `glob`, `os.makedirs`): page content, the loaded record and the CRM log file are inputs, and written files are outputs.
- The HTML parsing and CSS/regex matching of BeautifulSoup, `html.parser` and Trafilatura: the parser events, the element lists and the selector counts are inputs.
- Valueless HTML attributes: an attribute without a value, which `html.parser` reports as `None`, carries the empty string; the scraper only tests an `href` for truthiness, and both are falsy.
- The three key-statistics regular expressions are not interpreted: `re.findall` is a parameter.
- Nested tables and nested sections: rows found by `find_all('tr')` inside a nested table, and content elements counted twice, are not modelled.
- `rag_system.py`, Ollama, embeddings, the vector index and chat history content: the retrieval system is a function parameter.
- MLflow tracking, logging and `print`: no effect on results.
- `uuid`, `time` and `datetime`: the ids, latency and timestamps are inputs.
- Unicode: whitespace, case mapping, `title()` and the digits matched by `\d` are ASCII only.
- The `/health` and `/test-questions` endpoints and the HTML template: they return constants.
- `scrape_page`, `save_data`, `print_summary` and `main` of the three scrapers: orchestration and output only.
- ChatApi.GetMetrics: the text of the exception raised for a malformed log line is not modelled; the failure is a fixed 500 error.
- ChatApi.ChatServer.LogToCrm: a write failure, which the code logs and ignores, is not modelled. A log line keeps only the three metric fields `/metrics` reads; the whole record is kept in the ghost field `records`.
- ChatApi.Fields: a log line that is valid JSON but not an object is treated like a malformed one; keys holding non-numbers are not modelled.
- ChatApi.ChatServer.Startup: a failing build aborts the server; the model only records that the system is not ready.
- WebApp.AskQuestion: a request body that is not a JSON object, or a non-string question, is not modelled; both make the handler answer 500.
- JSON values in scraped records are strings; the annual-data dictionary keeps insertion order as Python does.
- GenerateKnowledgeBase: a loaded JSON value that is truthy but not an object (a non-empty list, say) is not modelled; the generator would raise on it.
- Integer widths are not an issue: all counts are unbounded; averages are reals, not floating point.
