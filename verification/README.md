# Employee-table scraper: a Dafny model

This project models the table-shaping and pagination logic of the payroll
scraper in `app/services/workers.py`. The scraper opens a government payroll
site built with a grid generator and reads its employee table. It can do this
in three ways:

- the single-page extractor `extract`, which tries the site's own grid layout
  and falls back to a generic `table` reader;
- the local-file extractor `extract_from_local_html`;
- the multi-page extractor `extract_all_pages`, driven by `scrape_with_config`.

The multi-page extractor works in four steps:

1. It optionally changes the number of records per page.
2. It reads the headers once.
3. It walks the pages with a bounded loop. Each page's rows go into one list.
   It moves on through a toolbar link addressed by record offset, or through
   the forward button.
4. It reshapes every row to the header width and builds one table. That table
   is then coerced column by column: the currency columns lose their thousands
   separators and become Float64, the identifier column becomes Int64, and
   text that does not parse becomes null.

The browser is replaced by values (module `PageModel`). A site is a sequence
of rendered pages plus the index of the page on screen. A page holds:

- its label texts;
- its grid rows;
- whether reading the grid raises;
- its toolbar links, keyed by record offset;
- its forward button;
- its records-per-page options;
- its first `table`.

Clicking, selecting and waiting become moves between page indices. A move
succeeds only when the page it loads shows grid rows.

The page loop is written once, over any page source (`Pagination.PageSource`).
It is then used with the browser model (`Pagination.Browse`). It appears both
as a recursive function (`CrawlFrom`) and as the counted loop with `break` that
the source writes (`CollectPages`); the two are proved to agree.

Module layout, following the program's stages:

| module | contents |
|---|---|
| `Text` | Python's `str.strip()` and `in`, the dataframe library's `str.replace_all(",", "")`, and decimal digit strings |
| `Rows` | the row normalizer |
| `PageModel` | pages, sessions, sites |
| `Locate` | `extract_headers`, `extract_page_data` |
| `Navigation` | `navigate_to_next_page`, the records-per-page step |
| `Dataset`, `Coercion`, `Aggregate` | the table and `clean_and_convert_data` |
| `Pagination` | the page loop |
| `Strategies` | `extract`, `extract_css_table_structure`, `extract_generic_table_structure`, `extract_from_local_html` |
| `Scraper` | `extract_all_pages`, `scrape_with_config` |
| `OffsetFault` | the navigation offset fault |
| `Scenarios` | worked cases |

The navigation step looks for the toolbar link at record offset
`current_page * 10 + 1` (line 289), whatever the page size. The surrounding
code shows that the link to the next page is meant. It computes
`next_page = current_page + 1` (286), and its comment says it looks for the
link of the next page (288). The extractor also accepts 10, 20 or 50 records
per page (129), yet only at 10 records per page is the next page's first
record at `current_page * 10 + 1`. The model follows the code:
`scrape_with_config` runs the extractor as written
(`Scraper.ScrapeWithConfig`, `Scraper.ExtractAllPagesAsWritten`,
`OffsetFault.AsWrittenRereadsPage`). The corrected extractor is modelled next
to it (`Scraper.ExtractAllPages`); see "Findings".

## Model

| member | source | states |
|---|---|---|
| Rows.Normalize | app/services/workers.py:222-230 | The result has exactly the header width. A long row keeps its first cells in order; a short row is followed by exactly the missing number of empty strings. |
| Rows.NormalizeAll | app/services/workers.py:225-230 | No row is dropped or reordered: there is one normalized row per input row, each of the header width. |
| Rows.NormalizeIdempotent | app/services/workers.py:226-229 | A row already of the header width is left unchanged, so normalizing twice is normalizing once. |
| Rows.PadThenCutIsNormalize | app/services/workers.py:501-503 | The generic strategy's pad-then-slice expression reshapes rows exactly as the site strategy's truncate-or-pad does, for rows of every length. |
| Text.Strip | app/services/workers.py:252 | The result has no whitespace at either end, is no longer than the input, and is empty exactly when the input is all whitespace. |
| Text.StripSlice | app/services/workers.py:252 | Stripping removes only whitespace, and only at the two ends: the input is whitespace, then the result, then whitespace. |
| Text.StripCharacterization | app/services/workers.py:252 | Any split of a string into whitespace, a stripped core and whitespace has that core as its strip, so the split is unique. |
| Text.StripIdempotent | app/services/workers.py:252 | Stripping twice is stripping once. |
| Text.ContainsAt | app/services/workers.py:305 | The substring test finds the substring wherever it occurs. |
| Text.ContainsOccurs | app/services/workers.py:305 | The substring test finds the substring only where it occurs, so with `ContainsAt` it is exactly Python's `in`. |
| Text.RemoveAll | app/services/workers.py:339 | No comma is left, a text without commas is unchanged, and every other character keeps its count. |
| Text.RemoveAllAppend | app/services/workers.py:339 | Removing commas works piecewise over concatenation, so the kept characters stay in order. |
| Text.ShowNatRoundTrip | app/services/workers.py:505 | Reading back the decimal rendering of a number gives the number. |
| Locate.ExtractHeaders | app/services/workers.py:246-256 | Every header is non-empty and stripped, and there are never more headers than labels. |
| Locate.ExtractHeadersMembers | app/services/workers.py:251-254 | A string is a header exactly when it is non-empty and is the stripped text of some label. |
| Locate.ExtractHeadersAppend | app/services/workers.py:248-256 | Extraction works label by label, so document order is kept. |
| Locate.DataRows | app/services/workers.py:264-269 | Every data row is non-empty, and there are never more data rows than grid rows. |
| Locate.DataRowsMembers | app/services/workers.py:264-269 | A data row is exactly the stripped cells of a grid row that has cells. |
| Locate.DataRowsAppend | app/services/workers.py:261-271 | Extraction works row by row, so page order is kept. |
| Locate.ExtractPageData | app/services/workers.py:259-271 | Page data is present exactly when the grid can be read, and it is then the page's data rows, at most one per grid row. |
| Navigation.Choose | app/services/workers.py:289-315 | The toolbar link for the computed offset is followed exactly when the page has one, and otherwise the forward button is pressed exactly when it exists with an image whose `src` is present and does not contain "disabled", and in every other case navigation gives up. |
| Navigation.Navigate | app/services/workers.py:285-319 | Navigation succeeds exactly when something is clicked and the page it loads shows grid rows. On success the site is unchanged and the page on screen is the click's target. |
| Navigation.DisabledForwardStops | app/services/workers.py:303-315 | With no matching link, a forward icon whose `src` mentions "disabled" ends pagination. |
| Navigation.ChangePageSize | app/services/workers.py:161-187 | The step is skipped for the default size of 10. It takes effect exactly when the size is offered and the reloaded page shows rows. A size that is not offered leaves the session as it was. It never changes the site. |
| Pagination.CrawlFrom | app/services/workers.py:194-215 | The loop never reads more pages than the cap allows, even when the site always reports a next page. It reads all of them when it stops at the cap. It yields one batch per page read, except a page whose reading raised. It starts on the page on screen. |
| Pagination.CrawlBatches | app/services/workers.py:199-202 | Each batch is exactly what its page gave, empty pages included. |
| Pagination.CrawlSteps | app/services/workers.py:207-211 | Every move between read pages is a successful navigation, attempted only while the page number is below the cap. |
| Pagination.CrawlHalts | app/services/workers.py:207-215 | The loop stops early only on a page whose reading raised, or after a readable page from which navigation failed below the cap. |
| Pagination.CrawlStep | app/services/workers.py:199-211 | One turn on a readable page puts that page's rows first, followed by everything collected from the next page on. |
| Pagination.CrawlLastStep | app/services/workers.py:199-211 | A readable page at the cap, or with no next page, contributes the last batch. |
| Pagination.CollectPages | app/services/workers.py:194-215 | The counted loop with `break` collects exactly the rows of the recursive description and reads as many pages, never more than the cap. |
| Pagination.FaultKeepsEarlierPages | app/services/workers.py:213-215 | A page that raises ends the loop. What was collected is exactly the rows of the pages read before it, in order. |
| Pagination.EmptyPageContinues | app/services/workers.py:201-211 | A readable page without data rows does not stop the loop. |
| Aggregate.ConcatAppend | app/services/workers.py:202 | Aggregating two runs of pages is aggregating each and concatenating. |
| Aggregate.AggregationOrder | app/services/workers.py:194-202 | Row `i` of page `p` sits at its page's offset in the aggregate. Every row of an earlier page comes before every row of a later one. |
| Aggregate.Placement | app/services/workers.py:202 | Each row of a batch is found at that batch's offset in the aggregate. |
| Aggregate.BuildDataset | app/services/workers.py:218-236 | There is no table exactly when there are no rows or no headers. Otherwise the columns are the headers, there is one row per collected row, and each cell is the coerced value of the normalized cell. |
| Coercion.CoerceCell | app/services/workers.py:334-346 | Cells of non-target columns stay text. A currency cell is Float exactly when its comma-free text parses, holding the parsed value, and null otherwise. An identifier cell is Int exactly when the Int64 cast succeeds, holding the cast value, and null otherwise. |
| Coercion.IdentifierRoundTrip | app/services/workers.py:343-346 | Every Int64 identifier written out in decimal comes back from the identifier column as that number. |
| Coercion.CleanAndConvert | app/services/workers.py:322-353 | The columns and the row count are unchanged, and every cell is converted according to its column's name. |
| Coercion.OtherColumnsUnchanged | app/services/workers.py:336-346 | Every column other than the five named ones keeps its text, cell by cell. |
| Coercion.CurrencyIgnoresCommas | app/services/workers.py:339 | A currency cell converts the same with or without its thousands separators. |
| Coercion.ParseDecimal | app/services/workers.py:339 | The Float64 cast succeeds only on text made of digits and decimal points, with at most a leading sign, and never on text with a comma. |
| Coercion.ParseDecimalSigns | app/services/workers.py:339 | A leading minus negates the value of an unsigned numeral, a leading plus leaves it unchanged, and neither makes a failed parse succeed. |
| Coercion.ParseDecimalFraction | app/services/workers.py:339 | `whole.frac` parses to exactly whole + frac / 10^len(frac). |
| Coercion.ParseDecimalWhole | app/services/workers.py:339 | A whole number parses to itself. |
| Coercion.ParseInt64 | app/services/workers.py:345 | The Int64 cast succeeds only on non-empty text of digits with at most a leading sign and no decimal point, and its value is within the 64-bit range. |
| Coercion.ParseInt64Limits | app/services/workers.py:345 | Unsigned digits cast exactly when their value is at most 2^63 - 1, negated digits exactly when it is at most 2^63, and a plus sign changes nothing. |
| Coercion.ParseInt64RoundTrip | app/services/workers.py:343-346 | Every Int64 value, written out in decimal, survives the non-strict Int64 cast. |
| Strategies.SiteStrategy | app/services/workers.py:411-459 | The site-specific strategy succeeds exactly when there are grid rows, they can be read, and there are headers and data rows. It misses with "no rows" exactly when there are no grid rows. On success the table is the one built from the headers and the data rows: header columns, one row per data row, each cell coerced by its column. |
| Strategies.FoundIsNotEmpty | app/services/workers.py:445-457 | A table found by the site-specific strategy is never the empty table. |
| Strategies.GenericHeaders | app/services/workers.py:470-477 | The headers are non-empty stripped texts: those of the `th` cells when there are any, else those of the first row's `td` cells. |
| Strategies.GenericData | app/services/workers.py:482-493 | Every kept row has at least one cell. |
| Strategies.GenericDataMembers | app/services/workers.py:489-493 | A data row of the generic strategy is exactly the stripped `td` texts of some row after the first that has `td` cells. |
| Strategies.GenericDataSkipsFirstRow | app/services/workers.py:489 | Replacing the first row by any other row never changes the data rows. |
| Strategies.MaxWidth | app/services/workers.py:499 | The width is at least every row's length and equal to some row's length. |
| Strategies.ColNamesDistinct | app/services/workers.py:505 | The placeholder column names `col_i` are pairwise distinct. |
| Strategies.TextFrame | app/services/workers.py:498-512 | Every row is padded to the longest row and kept as text. The columns are the headers when their count equals that width, and `col_0 ...` otherwise. |
| Strategies.GenericStrategy | app/services/workers.py:462-514 | The generic reader gives a non-empty table exactly when there is a table with rows, headers and data; that table is the padded text frame. |
| Strategies.Extract | app/services/workers.py:376-405 | A page that never loaded gives the empty table. A loaded page in the site's layout, with headers and data rows, gives the table built from them. Any other loaded page gives the generic reader's table. The result is empty exactly when the page never loaded or both strategies fail. |
| Strategies.ExtractRefinesLocal | app/services/workers.py:393-394 | Whenever the local-file extractor finds a table on a page, the URL extractor finds the same table on that page once it has loaded. |
| Strategies.ExtractPrefersSiteLayout | app/services/workers.py:393-394 | A page in the site's own layout is read with its label headers, never by the generic reader. |
| Strategies.ExtractFallsBack | app/services/workers.py:393-398 | A page without grid rows goes to the generic reader. |
| Strategies.ExtractFromLocalHtml | app/services/workers.py:54-117 | The local-file extractor gives the empty table exactly when the site-specific strategy misses. Otherwise it gives the table built from the label headers and the data rows. |
| Scraper.Assemble | app/services/workers.py:189-236 | The result is the empty table exactly when nothing was collected or the page had no headers. Otherwise it is the table built from the headers of the page shown after the resize and the collected rows. |
| Scraper.AssembleKeepsRows | app/services/workers.py:218-233 | Every collected row ends up in the table in collection order, each cell coerced by its column. |
| Scraper.ExtractAllPagesAsWritten | app/services/workers.py:123-240 | A site that never loads gives the empty table. Otherwise the result is empty exactly when the loop, looking for links at `page * 10 + 1`, collects no row, or the page shown after the resize has no headers. Else it is the table built from those headers and the collected rows. |
| Scraper.ExtractAllPages | app/services/workers.py:123-240 | A site that never loads gives the empty table. Otherwise the result is empty exactly when the loop, looking for links at `page * size + 1` with the page size in effect after the resize, collects no row, or the page shown after the resize has no headers. Else it is the table built from those headers and the collected rows. |
| Scraper.DefaultSizeAgrees | app/services/workers.py:162 | With the default page size, the as-written extractor and the corrected one agree. |
| Scraper.UnofferedSizeAgrees | app/services/workers.py:172-187 | A page size the site does not offer leaves the default in place, and the two versions agree. |
| Scraper.Merge | app/services/workers.py:581-590 | Each of the four keys the caller sets replaces its default, and each absent key keeps it. |
| Scraper.MergeDefaults | app/services/workers.py:581-590 | No configuration gives the defaults: 50 records per page, 10 pages, headless, a wait of 3. A configuration that sets every key is taken as it is. |
| Scraper.ScrapeWithConfig | app/services/workers.py:581-599 | The result is the as-written multi-page extractor's, run with the caller's records per page and page cap, or the defaults 50 and 10 for the keys the caller leaves out. |
| Scraper.DisplaySettingsIgnored | app/services/workers.py:594-599 | `headless` and `wait_time` never change the result. |
| Scraper.ScrapeDefaults | app/services/workers.py:582-599 | Without a configuration, the as-written extractor runs with 50 records per page and at most 10 pages. |
| OffsetFault.NextInRun | app/services/workers.py:286-301 | On a well-formed run of pages, navigation with the right page size moves to the next page, or reports no next page after the last one. |
| OffsetFault.CrawlInOrder | app/services/workers.py:194-211 | Corrected offsets: the loop reads a well-formed run in page order, from the page on screen up to the cap or the last page. |
| OffsetFault.InOrderNoRepeats | app/services/workers.py:194-211 | A run read in order never reads a page twice. |
| OffsetFault.AsWrittenRereadsPage | app/services/workers.py:289 | As written, on four pages of twenty records with a cap of five, the loop reads the third page twice and collects its rows twice. |
| OffsetFault.AsWrittenMove | app/services/workers.py:289-313 | The as-written moves on that run: three forward clicks, then the stray link back to the third page. |
| OffsetFault.CorrectedReadsEachPageOnce | app/services/workers.py:289 | With the corrected offsets, the same run is read once per page. |
| Scenarios.SalaryRowCoerced | app/services/workers.py:334-346 | A row `8-123, Ana Pérez, 1,200.50` under `Cédula, Nombre completo, Salario` keeps the first two cells as text and turns the salary into 1200.5. |
| Scenarios.SalaryCell | app/services/workers.py:339 | "1,200.50" in a currency column becomes the number 1200.5. |
| Scenarios.ShortRowPadded | app/services/workers.py:229 | A two-cell row under three headers gains one empty cell. |
| Scenarios.LongRowCut | app/services/workers.py:227 | A five-cell row under three headers keeps its first three cells. |
| Scenarios.NothingToCollect | app/services/workers.py:218-236 | A site none of whose pages has a data row gives the empty table, whatever the page size and the cap, both as written and corrected. |
| Scenarios.NothingCollected | app/services/workers.py:194-205 | On a site without data rows the page loop collects nothing, from any starting page and with any link stride. |
| Scenarios.CrawlStaysOnSite | app/services/workers.py:285-313 | Every page the loop reads belongs to the site it started on. |
| Scenarios.SecondPageFails | app/services/workers.py:213-215 | When the second page raises, the loop stops on the fault and keeps the first page's rows. |

## Left out

- Browser I/O is not modelled: driver set-up and teardown, `driver.get`, the
  fixed sleeps and the bounded waits. A wait is modelled only by its outcome:
  whether the page it waits for shows grid rows, and `Site.loads` for the
  initial 20-second wait.
- Logging is not modelled.
- `save_data` and `print_data_summary` are file and console output.
- The `headers` argument of `extract` and `extract_generic_table_structure`
  is not modelled; the code never reads it.
- Building the table assumes the row-oriented reading of the nested lists.
  The model does not cover the library's orientation inference or its error
  on duplicate column names.
- An exception while reading the label texts is not modelled. In the
  multi-page extractor it would end as the empty table. Only raising while
  reading the grid is modelled.
- Coercion.ParseDecimal: reads only plain decimal numerals, exactly, as
  reals. The Float64 cast also accepts exponents, `inf` and `nan`, and rounds
  to binary floating point. The model reads those forms as null, because
  floating point is not modelled.
- Scraper.Merge: takes typed values. A configuration value of the wrong type,
  which the source would pass on unchecked, is not modelled. An empty
  dictionary counts as no configuration in both.
- `headless` and `wait_time` are carried in the configuration, but the source
  never passes them on, so they have no effect in the model either.
- The repository's other files (the web health endpoint and the database
  ping) are not part of this model.

## Findings

| source | as written | input that shows it | evidently intended | confidence | as-written member | corrected member |
|---|---|---|---|---|---|---|
| app/services/workers.py:289 | the next-page link is looked up at record offset `current_page * 10 + 1`, whatever the records-per-page setting | `records_per_page = 20` on a site of four pages whose toolbars link offsets 1, 21, 41, 61, cap 5: from page 4 the lookup for offset 41 finds the link to page 3, so page 3 is read twice | look up offset `current_page * page_size + 1`, using the page size in effect | not executed; the input is a model of the site's toolbar | OffsetFault.AsWrittenRereadsPage | OffsetFault.CrawlInOrder |
