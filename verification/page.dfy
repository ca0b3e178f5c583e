/** The rendered pages the scraper reads, as values. The browser session is
    replaced by the sequence of pages a site can show and the index of the one
    on screen; clicking, selecting and waiting become moves between indices. */
module PageModel {

  import opened Wrappers

  /** The image inside the grid toolbar's forward button. `src` is None when
      the image has no `src` attribute. */
  datatype Icon = NoImage | Image(src: Option<string>)

  /** The `forward_bot` element, if present, and the page its click loads.
      A target that is not a page of the site stands for a click that never
      shows data rows (including a click that raises). */
  datatype Forward = NoForward | ForwardButton(icon: Icon, target: nat)

  /** One `tr` of a generic `table`: the texts of its `th` and of its `td`
      cells, in document order. */
  datatype HtmlRow = HtmlRow(headerCells: seq<string>, dataCells: seq<string>)

  /** The first `table` element of a page. */
  datatype HtmlTable = HtmlTable(rows: seq<HtmlRow>)

  /** What one rendered page offers the scraper.
      - labels: texts of the anchors inside the `.scGridLabelFont` label cells;
      - grid: one entry per `.scGridFieldOdd` / `.scGridFieldEven` row, holding
        the raw texts of its `span[id^='id_sc_field_']` cells (the first,
        action-button cell of a row has no such span);
      - readable: false when reading the grid cells raises;
      - links: `a.scGridToolbarNav` links, keyed by the record offset named in
        their `nm_gp_submit_rec(...)` target, with the page each one loads;
      - forward: the toolbar's forward button;
      - sizes: options of the records-per-page selector, with the page each
        selection reloads to (empty when the selector is absent);
      - table: the first `table` element, for the generic strategy. */
  datatype Page = Page(
    labels: seq<string>,
    grid: seq<seq<string>>,
    readable: bool,
    links: map<int, nat>,
    forward: Forward,
    sizes: map<int, nat>,
    table: Option<HtmlTable>)

  /** A page with nothing on it. */
  const Blank: Page := Page([], [], true, map[], NoForward, map[], None)

  /** The pages a site can show, and which one is on screen. */
  datatype Browser = Browser(pages: seq<Page>, at: nat)

  /** A browser session always has a page on screen. */
  type Session = b: Browser | b.at < |b.pages| witness Browser([Blank], 0)

  function Current(s: Session): Page {
    s.pages[s.at]
  }

  /** Loading page `t` is observed as the appearance of grid row markers;
      this is what every wait after a click or a selection checks. */
  predicate Shows(pages: seq<Page>, t: int) {
    0 <= t < |pages| && |pages[t].grid| > 0
  }

  /** A scrape target: the session opened on its URL, and whether the page
      reached a ready state (a label cell or a `table`) within the initial
      wait. */
  datatype Site = Site(session: Session, loads: bool)
}
