/** The multi-page extractor and its configuration front end: resize the
    pages, take the headers once, run the page loop, then aggregate and
    coerce everything collected. */
module Scraper {

  import opened Wrappers
  import opened Rows
  import opened PageModel
  import opened Locate
  import opened Navigation
  import opened Dataset
  import opened Coercion
  import opened Aggregate
  import opened Pagination

  /** The final stage of `extract_all_pages`: the headers of the page on
      screen, taken once, and the rows the page loop collects with the given
      page size, built into one coerced table; the empty frame when either is
      missing. */
  function Assemble(s: Session, maxPages: int, pageSize: int): (f: Frame)
    ensures f == EmptyFrame <==> Collected(Browse(pageSize), s, maxPages) == [] || ExtractHeaders(Current(s).labels) == []
    ensures f != EmptyFrame ==>
      && f.columns == ExtractHeaders(Current(s).labels)
      && |f.rows| == |Collected(Browse(pageSize), s, maxPages)|
      && Rectangular(f)
    ensures f != EmptyFrame ==> BuildDataset(ExtractHeaders(Current(s).labels), Collected(Browse(pageSize), s, maxPages)) == Some(f)
  {
    var headers := ExtractHeaders(Current(s).labels);
    match BuildDataset(headers, Collected(Browse(pageSize), s, maxPages))
    case Some(f) => f
    case None => EmptyFrame
  }

  /** Every collected row ends up in the table in collection order, under
      the headers of the first page, each cell coerced by its column. */
  lemma AssembleKeepsRows(s: Session, maxPages: int, pageSize: int, i: nat, j: nat)
    ensures var rows := Collected(Browse(pageSize), s, maxPages);
      var headers := ExtractHeaders(Current(s).labels);
      i < |rows| && j < |headers| ==>
        Assemble(s, maxPages, pageSize).rows[i][j]
          == CoerceCell(headers[j], if j < |rows[i]| then rows[i][j] else "")
  {
  }

  /** The page size the site is showing after the records-per-page step:
      the requested one when the step took effect, the default otherwise. */
  function PageSizeInEffect(r: Resize, recordsPerPage: int): (size: int)
    ensures r.applied ==> size == recordsPerPage
    ensures !r.applied ==> size == DefaultPageSize
  {
    if r.applied then recordsPerPage else DefaultPageSize
  }

  /** `extract_all_pages` as written: the page loop looks for toolbar links
      as if every page held the default ten records, whatever size the
      records-per-page step set. */
  function ExtractAllPagesAsWritten(site: Site, recordsPerPage: int, maxPages: int): (f: Frame)
    ensures !site.loads ==> f == EmptyFrame
    // empty exactly when the loop, striding by ten, collects nothing, or the
    // page shown after the resize has no headers
    ensures site.loads ==>
      var s := ChangePageSize(site.session, recordsPerPage).session;
      var rows := Collected(Browse(DefaultPageSize), s, maxPages);
      var headers := ExtractHeaders(Current(s).labels);
      && (f == EmptyFrame <==> rows == [] || headers == [])
      && (f != EmptyFrame ==> f.columns == headers && |f.rows| == |rows| && BuildDataset(headers, rows) == Some(f))
  {
    if !site.loads then EmptyFrame
    else Assemble(ChangePageSize(site.session, recordsPerPage).session, maxPages, DefaultPageSize)
  }

  /** `extract_all_pages` with the navigation offsets computed from the page
      size in effect. A site that never became ready gives the empty frame;
      otherwise the headers come from the page shown after the resize. */
  function ExtractAllPages(site: Site, recordsPerPage: int, maxPages: int): (f: Frame)
    ensures !site.loads ==> f == EmptyFrame
    // as above, with the loop striding by the page size in effect
    ensures site.loads ==>
      var r := ChangePageSize(site.session, recordsPerPage);
      var rows := Collected(Browse(PageSizeInEffect(r, recordsPerPage)), r.session, maxPages);
      var headers := ExtractHeaders(Current(r.session).labels);
      && (f == EmptyFrame <==> rows == [] || headers == [])
      && (f != EmptyFrame ==> f.columns == headers && |f.rows| == |rows| && BuildDataset(headers, rows) == Some(f))
  {
    if !site.loads then EmptyFrame
    else
      var r := ChangePageSize(site.session, recordsPerPage);
      Assemble(r.session, maxPages, PageSizeInEffect(r, recordsPerPage))
  }

  /** With the default page size the two versions agree: the fault only
      shows once the page size has been changed. */
  lemma DefaultSizeAgrees(site: Site, maxPages: int)
    ensures ExtractAllPages(site, DefaultPageSize, maxPages) == ExtractAllPagesAsWritten(site, DefaultPageSize, maxPages)
  {
  }

  /** A request for a size the site does not offer leaves the site at the
      default size, so the as-written offsets are right and the versions
      agree. */
  lemma UnofferedSizeAgrees(site: Site, recordsPerPage: int, maxPages: int)
    requires recordsPerPage !in Current(site.session).sizes
    ensures ExtractAllPages(site, recordsPerPage, maxPages) == ExtractAllPagesAsWritten(site, recordsPerPage, maxPages)
  {
  }

  /** The settings `scrape_with_config` runs with. */
  datatype Settings = Settings(recordsPerPage: int, maxPages: int, headless: bool, waitTime: int)

  const Defaults: Settings := Settings(50, 10, true, 3)

  /** The keys a caller's configuration may set; an absent key keeps its
      default. */
  datatype Overrides = Overrides(recordsPerPage: Option<int>, maxPages: Option<int>, headless: Option<bool>, waitTime: Option<int>)

  const NoOverrides: Overrides := Overrides(None, None, None, None)

  /** The configuration that sets every key to the value `s` holds. */
  function Spelled(s: Settings): Overrides {
    Overrides(Some(s.recordsPerPage), Some(s.maxPages), Some(s.headless), Some(s.waitTime))
  }

  /** `default_config.update(config)`: each key the caller sets replaces its
      default, and no other key changes. */
  function Merge(config: Overrides): (s: Settings)
    ensures config.recordsPerPage.None? ==> s.recordsPerPage == Defaults.recordsPerPage
    ensures config.recordsPerPage.Some? ==> s.recordsPerPage == config.recordsPerPage.value
    ensures config.maxPages.None? ==> s.maxPages == Defaults.maxPages
    ensures config.maxPages.Some? ==> s.maxPages == config.maxPages.value
    ensures config.headless.None? ==> s.headless == Defaults.headless
    ensures config.headless.Some? ==> s.headless == config.headless.value
    ensures config.waitTime.None? ==> s.waitTime == Defaults.waitTime
    ensures config.waitTime.Some? ==> s.waitTime == config.waitTime.value
  {
    Settings(
      config.recordsPerPage.GetOr(Defaults.recordsPerPage),
      config.maxPages.GetOr(Defaults.maxPages),
      config.headless.GetOr(Defaults.headless),
      config.waitTime.GetOr(Defaults.waitTime))
  }

  /** No configuration means the defaults, and a configuration that spells
      out every key is taken as it is. */
  lemma MergeDefaults(s: Settings)
    ensures Merge(NoOverrides) == Defaults
    ensures Merge(Spelled(s)) == s
  {
  }

  /** `scrape_with_config`: the merged page size and page cap passed to the
      multi-page extractor as the source writes it. */
  function ScrapeWithConfig(site: Site, config: Overrides): (f: Frame)
    // each of the two keys the extractor receives is the caller's value, or
    // its default of 50 records per page and 10 pages
    ensures f == ExtractAllPagesAsWritten(site, config.recordsPerPage.GetOr(50), config.maxPages.GetOr(10))
  {
    var s := Merge(config);
    ExtractAllPagesAsWritten(site, s.recordsPerPage, s.maxPages)
  }

  /** Only the page size and the page cap reach the extractor: `headless`
      and `wait_time` never change the result. */
  lemma DisplaySettingsIgnored(site: Site, a: Overrides, b: Overrides)
    requires a.recordsPerPage == b.recordsPerPage && a.maxPages == b.maxPages
    ensures ScrapeWithConfig(site, a) == ScrapeWithConfig(site, b)
  {
  }

  /** Without a configuration, fifty records per page and at most ten
      pages are asked for. */
  lemma ScrapeDefaults(site: Site)
    ensures ScrapeWithConfig(site, NoOverrides) == ExtractAllPagesAsWritten(site, 50, 10)
  {
  }
}
