/** Header and data-row extraction filters of the site-specific table locator,
    shared with the generic strategy where it applies the same filters. */
module Locate {

  import opened Wrappers
  import opened Text
  import opened Rows
  import opened PageModel

  /** The header set: the stripped label texts in document order, with the
      empty ones dropped. */
  function ExtractHeaders(labels: seq<string>): (hs: seq<string>)
    ensures |hs| <= |labels|
    ensures forall i :: 0 <= i < |hs| ==> hs[i] != "" && Stripped(hs[i])
    ensures labels == [] ==> hs == []
  {
    if labels == [] then []
    else
      var h := HeaderOf(labels[0]);
      var rest := ExtractHeaders(labels[1..]);
      assert forall i :: 0 <= i < |rest| ==> (h + rest)[|h| + i] == rest[i];
      h + rest
  }

  /** The header one label contributes: its stripped text, unless empty. */
  function HeaderOf(text: string): (hs: seq<string>)
    ensures |hs| <= 1
    ensures forall i :: 0 <= i < |hs| ==> hs[i] == Strip(text) && hs[i] != "" && Stripped(hs[i])
    ensures hs == [] <==> Strip(text) == ""
  {
    var h := Strip(text);
    if h == "" then [] else [h]
  }

  /** Header extraction works label by label: extracting from two runs of
      labels is extracting from each and concatenating, so document order is
      kept. */
  lemma {:induction false} ExtractHeadersAppend(a: seq<string>, b: seq<string>)
    ensures ExtractHeaders(a + b) == ExtractHeaders(a) + ExtractHeaders(b)
  {
    if a == [] {
      assert a + b == b;
    } else {
      assert (a + b)[0] == a[0];
      assert (a + b)[1..] == a[1..] + b;
      ExtractHeadersAppend(a[1..], b);
    }
  }

  /** A header is exactly a non-empty stripped label. */
  lemma {:induction false} ExtractHeadersMembers(labels: seq<string>, h: string)
    ensures h in ExtractHeaders(labels) <==> h != "" && exists i :: 0 <= i < |labels| && Strip(labels[i]) == h
  {
    if labels != [] {
      ExtractHeadersMembers(labels[1..], h);
      if h != "" && Strip(labels[0]) != h {
        if exists i :: 0 <= i < |labels| && Strip(labels[i]) == h {
          var i :| 0 <= i < |labels| && Strip(labels[i]) == h;
          assert Strip(labels[1..][i - 1]) == h;
        }
      }
    }
  }

  /** The stripped text of every cell of a row. */
  function StripAll(cells: seq<string>): (r: Row)
    ensures |r| == |cells|
    ensures forall i :: 0 <= i < |r| ==> r[i] == Strip(cells[i])
  {
    seq(|cells|, i requires 0 <= i < |cells| => Strip(cells[i]))
  }

  /** The data rows of a list of raw rows: rows without any matching cell are
      dropped, the others become their stripped cell texts. */
  function DataRows(raw: seq<seq<string>>): (rows: seq<Row>)
    ensures |rows| <= |raw|
    ensures forall i :: 0 <= i < |rows| ==> rows[i] != []
  {
    if raw == [] then []
    else (if raw[0] == [] then [] else [StripAll(raw[0])]) + DataRows(raw[1..])
  }

  /** Data-row extraction works row by row and keeps page order. */
  lemma {:induction false} DataRowsAppend(a: seq<seq<string>>, b: seq<seq<string>>)
    ensures DataRows(a + b) == DataRows(a) + DataRows(b)
  {
    if a == [] {
      assert a + b == b;
    } else {
      var first: seq<Row> := if a[0] == [] then [] else [StripAll(a[0])];
      assert (a + b)[0] == a[0];
      assert (a + b)[1..] == a[1..] + b;
      assert DataRows(a + b) == first + DataRows(a[1..] + b);
      DataRowsAppend(a[1..], b);
    }
  }

  /** A data row is exactly the stripped cells of a raw row that has cells. */
  lemma {:induction false} DataRowsMembers(raw: seq<seq<string>>, row: Row)
    ensures row in DataRows(raw) <==> exists i :: 0 <= i < |raw| && raw[i] != [] && StripAll(raw[i]) == row
  {
    if raw != [] {
      DataRowsMembers(raw[1..], row);
      if !(raw[0] != [] && StripAll(raw[0]) == row) {
        if exists i :: 0 <= i < |raw| && raw[i] != [] && StripAll(raw[i]) == row {
          var i :| 0 <= i < |raw| && raw[i] != [] && StripAll(raw[i]) == row;
          assert raw[1..][i - 1] == raw[i];
        }
      }
    }
  }

  /** `extract_page_data`: the data rows of the page on screen, or None when
      reading the grid raises. */
  function ExtractPageData(p: Page): (r: Option<seq<Row>>)
    ensures r.Some? <==> p.readable
    ensures r.Some? ==> |r.value| <= |p.grid|
    ensures r.Some? ==> r.value == DataRows(p.grid)
  {
    if p.readable then Some(DataRows(p.grid)) else None
  }
}
