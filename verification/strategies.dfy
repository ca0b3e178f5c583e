/** The two table-location strategies of the single-page extractors: the
    site-specific layout (label cells, odd/even grid rows, field spans) first,
    and a generic `table` reader as the fallback. */
module Strategies {

  import opened Wrappers
  import opened Text
  import opened Rows
  import opened PageModel
  import opened Locate
  import opened Dataset
  import opened Aggregate

  /** Why the site-specific strategy gave up; each of these is raised in the
      source and sends the caller to its fallback. */
  datatype Miss = NoDataRows | Unreadable | NoValidData

  datatype Located = Found(frame: Frame) | NotFound(miss: Miss)

  /** `extract_css_table_structure`: no grid rows, or a grid whose cells
      cannot be read, or no headers or no non-empty data rows, is a miss;
      otherwise the rows are reshaped to the header width and coerced. */
  function SiteStrategy(p: Page): (r: Located)
    ensures r.Found? <==> && p.grid != [] && p.readable
                          && ExtractHeaders(p.labels) != [] && DataRows(p.grid) != []
    ensures r == NotFound(NoDataRows) <==> p.grid == []
    ensures r == NotFound(Unreadable) <==> p.grid != [] && !p.readable
    ensures r.Found? ==> r.frame.columns == ExtractHeaders(p.labels)
                         && |r.frame.rows| == |DataRows(p.grid)|
                         && Rectangular(r.frame)
    ensures r.Found? ==> BuildDataset(ExtractHeaders(p.labels), DataRows(p.grid)) == Some(r.frame)
  {
    if p.grid == [] then NotFound(NoDataRows)
    else if !p.readable then NotFound(Unreadable)
    else
      match BuildDataset(ExtractHeaders(p.labels), DataRows(p.grid))
      case Some(f) => Found(f)
      case None => NotFound(NoValidData)
  }

  /** A frame found by the site-specific strategy is never the empty frame:
      it always has the page's headers as columns. */
  lemma FoundIsNotEmpty(p: Page)
    ensures SiteStrategy(p).Found? ==>
              && SiteStrategy(p).frame != EmptyFrame
              && |SiteStrategy(p).frame.columns| >= 1 && |SiteStrategy(p).frame.rows| >= 1
  {
  }

  /** The `th` texts of a table's rows, in document order. */
  function HeaderCells(rows: seq<HtmlRow>): seq<string> {
    if rows == [] then [] else rows[0].headerCells + HeaderCells(rows[1..])
  }

  /** The `td` texts of each row, in document order. */
  function DataCells(rows: seq<HtmlRow>): (cells: seq<seq<string>>)
    ensures |cells| == |rows|
    ensures forall i :: 0 <= i < |rows| ==> cells[i] == rows[i].dataCells
  {
    seq(|rows|, i requires 0 <= i < |rows| => rows[i].dataCells)
  }

  /** The generic strategy's headers: the non-empty `th` texts, or failing
      those the non-empty `td` texts of the first row. */
  function GenericHeaders(t: HtmlTable): (hs: seq<string>)
    requires t.rows != []
    ensures forall i :: 0 <= i < |hs| ==> hs[i] != "" && Stripped(hs[i])
    ensures ExtractHeaders(HeaderCells(t.rows)) != [] ==> hs == ExtractHeaders(HeaderCells(t.rows))
    ensures ExtractHeaders(HeaderCells(t.rows)) == [] ==> hs == ExtractHeaders(t.rows[0].dataCells)
  {
    var ths := ExtractHeaders(HeaderCells(t.rows));
    if ths != [] then ths else ExtractHeaders(t.rows[0].dataCells)
  }

  /** The generic strategy's data: every row after the first with at least
      one `td`, its texts stripped. */
  function GenericData(t: HtmlTable): (rows: seq<Row>)
    requires t.rows != []
    ensures forall i :: 0 <= i < |rows| ==> rows[i] != []
  {
    DataRows(DataCells(t.rows[1..]))
  }

  /** A data row of the generic strategy is exactly the stripped `td` texts
      of a row after the first that has `td` cells. */
  lemma GenericDataMembers(t: HtmlTable, r: Row)
    requires t.rows != []
    ensures r in GenericData(t) <==>
              exists i :: 1 <= i < |t.rows| && t.rows[i].dataCells != [] && StripAll(t.rows[i].dataCells) == r
  {
    var raw := DataCells(t.rows[1..]);
    DataRowsMembers(raw, r);
    if r in GenericData(t) {
      var k :| 0 <= k < |raw| && raw[k] != [] && StripAll(raw[k]) == r;
      assert raw[k] == t.rows[k + 1].dataCells;
    }
    if exists i :: 1 <= i < |t.rows| && t.rows[i].dataCells != [] && StripAll(t.rows[i].dataCells) == r {
      var i :| 1 <= i < |t.rows| && t.rows[i].dataCells != [] && StripAll(t.rows[i].dataCells) == r;
      assert raw[i - 1] == t.rows[i].dataCells;
    }
  }

  /** The first row never contributes data, whatever it holds. */
  lemma GenericDataSkipsFirstRow(t: HtmlTable, first: HtmlRow)
    requires t.rows != []
    ensures GenericData(HtmlTable([first] + t.rows[1..])) == GenericData(t)
  {
    assert ([first] + t.rows[1..])[1..] == t.rows[1..];
  }

  /** The longest row: the width the generic strategy pads to. */
  function MaxWidth(rows: seq<Row>): (w: nat)
    ensures forall i :: 0 <= i < |rows| ==> |rows[i]| <= w
    ensures rows != [] ==> exists i :: 0 <= i < |rows| && |rows[i]| == w
    ensures rows == [] ==> w == 0
  {
    if rows == [] then 0
    else
      var rest := MaxWidth(rows[1..]);
      if |rows[0]| >= rest then |rows[0]| else rest
  }

  /** The placeholder column names `col_0`, `col_1`, ... */
  function ColNames(n: nat): (names: seq<string>)
    ensures |names| == n
    ensures forall i :: 0 <= i < n ==> names[i] == "col_" + ShowNat(i)
  {
    seq(n, i requires 0 <= i < n => "col_" + ShowNat(i))
  }

  /** The placeholder column names are pairwise distinct, so the fallback
      frame never has two columns of the same name. */
  lemma ColNamesDistinct(n: nat, i: nat, j: nat)
    requires i < n && j < n && i != j
    ensures ColNames(n)[i] != ColNames(n)[j]
  {
    var a := ColNames(n)[i];
    var b := ColNames(n)[j];
    if a == b {
      assert a[4..] == ShowNat(i) && b[4..] == ShowNat(j);
      ShowNatInjective(i, j);
      assert false;
    }
  }

  /** The generic strategy's frame from its headers and data: every row is
      padded to the longest one and kept as text, and the columns are the
      headers when they match that width and placeholder names otherwise. */
  function TextFrame(headers: seq<string>, data: seq<Row>): (f: Frame)
    requires headers != [] && data != [] && data[0] != []
    ensures |f.rows| == |data| && Rectangular(f)
    ensures |f.columns| >= 1
    ensures forall i :: 0 <= i < |data| ==> |data[i]| <= |f.columns|
    ensures forall i, j :: 0 <= i < |data| && 0 <= j < |f.columns| ==>
              f.rows[i][j] == Text(if j < |data[i]| then data[i][j] else "")
    ensures f.columns == if |headers| == MaxWidth(data) then headers else ColNames(MaxWidth(data))
  {
    var w := MaxWidth(data);
    var columns := if |headers| == w then headers else ColNames(w);
    Frame(columns, TextCells(NormalizeAll(data, w)))
  }

  /** `extract_generic_table_structure`: the empty frame when the page has
      no table or the table has no rows (both raise in the source and end as
      the empty frame), or when headers or data are missing; otherwise the
      padded text frame. */
  function GenericStrategy(table: Option<HtmlTable>): (f: Frame)
    ensures f != EmptyFrame <==> && table.Some? && table.value.rows != []
                                 && GenericHeaders(table.value) != [] && GenericData(table.value) != []
    ensures f != EmptyFrame ==> f == TextFrame(GenericHeaders(table.value), GenericData(table.value))
  {
    match table
    case None => EmptyFrame
    case Some(t) =>
      if t.rows == [] then EmptyFrame
      else
        var headers := GenericHeaders(t);
        var data := GenericData(t);
        if data != [] && headers != [] then TextFrame(headers, data)
        else EmptyFrame
  }

  /** `extract`'s choice between the strategies on the page it loaded: the
      empty frame when the page never became ready, the site-specific result
      when it succeeds, and the generic reader's otherwise. */
  function Extract(site: Site): (f: Frame)
    ensures !site.loads ==> f == EmptyFrame
    // a page in the site's layout, with headers and data rows, is read by
    // the site-specific strategy
    ensures var p := Current(site.session);
      site.loads && p.grid != [] && p.readable && ExtractHeaders(p.labels) != [] && DataRows(p.grid) != [] ==>
        BuildDataset(ExtractHeaders(p.labels), DataRows(p.grid)) == Some(f)
    // any other page that loaded is read by the generic strategy
    ensures var p := Current(site.session);
      site.loads && (p.grid == [] || !p.readable || ExtractHeaders(p.labels) == [] || DataRows(p.grid) == []) ==>
        f == GenericStrategy(p.table)
    // the result is empty only when the page never loaded or both strategies fail
    ensures f == EmptyFrame <==>
              !site.loads || (SiteStrategy(Current(site.session)).NotFound? && GenericStrategy(Current(site.session).table) == EmptyFrame)
  {
    if !site.loads then EmptyFrame
    else
      match SiteStrategy(Current(site.session))
      case Found(f) => FoundIsNotEmpty(Current(site.session)); f
      case NotFound(_) => GenericStrategy(Current(site.session).table)
  }

  /** A page in the site's own layout is never read by the generic
      strategy: its columns are its label headers. */
  lemma ExtractPrefersSiteLayout(site: Site)
    ensures var p := Current(site.session);
      site.loads && p.grid != [] && p.readable && ExtractHeaders(p.labels) != [] && DataRows(p.grid) != [] ==>
        && Extract(site).columns == ExtractHeaders(p.labels)
        && |Extract(site).rows| == |DataRows(p.grid)|
  {
  }

  /** A page without grid rows falls back to the generic reader, whatever its
      labels say. */
  lemma ExtractFallsBack(site: Site)
    requires site.loads && Current(site.session).grid == []
    ensures Extract(site) == GenericStrategy(Current(site.session).table)
  {
  }

  /** `extract_from_local_html`: the site-specific layout only, with every
      miss (no grid rows, an unreadable grid, no valid data) ending as the
      empty frame. */
  function ExtractFromLocalHtml(p: Page): (f: Frame)
    ensures f == EmptyFrame <==> SiteStrategy(p).NotFound?
    ensures f != EmptyFrame ==> f.columns == ExtractHeaders(p.labels) && |f.rows| == |DataRows(p.grid)|
    ensures f != EmptyFrame ==> BuildDataset(ExtractHeaders(p.labels), DataRows(p.grid)) == Some(f)
  {
    match SiteStrategy(p)
    case Found(frame) => FoundIsNotEmpty(p); frame
    case NotFound(_) => EmptyFrame
  }

  /** The URL extractor refines the local-file one: whenever the local-file
      extractor finds a table on a page, the URL extractor finds the same
      table on that page once it has loaded. */
  lemma ExtractRefinesLocal(site: Site)
    ensures site.loads && ExtractFromLocalHtml(Current(site.session)) != EmptyFrame ==>
              Extract(site) == ExtractFromLocalHtml(Current(site.session))
  {
    var p := Current(site.session);
    if site.loads && ExtractFromLocalHtml(p) != EmptyFrame {
      assert SiteStrategy(p).Found?;
    }
  }
}
