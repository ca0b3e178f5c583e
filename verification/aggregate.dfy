/** The result aggregator: per-page row batches are concatenated in page order
    under the single header set, then normalized and coerced into one table. */
module Aggregate {

  import opened Wrappers
  import opened Rows
  import opened Dataset
  import opened Coercion

  /** The batches of successive pages, one after the other (`all_data.extend`). */
  function Concat(batches: seq<seq<Row>>): seq<Row> {
    if batches == [] then [] else batches[0] + Concat(batches[1..])
  }

  /** Aggregating two runs of pages is aggregating each and concatenating. */
  lemma {:induction false} ConcatAppend(a: seq<seq<Row>>, b: seq<seq<Row>>)
    ensures Concat(a + b) == Concat(a) + Concat(b)
  {
    if a == [] {
      assert a + b == b;
    } else {
      assert (a + b)[0] == a[0];
      assert (a + b)[1..] == a[1..] + b;
      ConcatAppend(a[1..], b);
    }
  }

  /** Where the rows of batch `p` start in the aggregate. */
  function Offset(batches: seq<seq<Row>>, p: nat): nat
    requires p <= |batches|
  {
    |Concat(batches[..p])|
  }

  /** Aggregation keeps page order: row `i` of page `p` sits at its page's
      offset, and every row of an earlier page precedes every row of a later
      one. No row is lost, duplicated or moved across pages. */
  lemma AggregationOrder(batches: seq<seq<Row>>, p: nat, i: nat, q: nat, j: nat)
    requires p < q < |batches| && i < |batches[p]| && j < |batches[q]|
    ensures Offset(batches, p) + i < |Concat(batches)| && Concat(batches)[Offset(batches, p) + i] == batches[p][i]
    ensures Offset(batches, q) + j < |Concat(batches)| && Concat(batches)[Offset(batches, q) + j] == batches[q][j]
    ensures Offset(batches, p) + i < Offset(batches, q) + j
  {
    Placement(batches, p, i);
    Placement(batches, q, j);
    assert batches[..q] == batches[..p] + [batches[p]] + batches[p + 1..q];
    ConcatAppend(batches[..p] + [batches[p]], batches[p + 1..q]);
    ConcatAppend(batches[..p], [batches[p]]);
    assert Concat([batches[p]]) == batches[p] + Concat([]);
  }

  /** Row `i` of batch `p` is found at the batch's offset. */
  lemma Placement(batches: seq<seq<Row>>, p: nat, i: nat)
    requires p < |batches| && i < |batches[p]|
    ensures Offset(batches, p) + i < |Concat(batches)|
    ensures Concat(batches)[Offset(batches, p) + i] == batches[p][i]
  {
    assert batches == batches[..p] + batches[p..];
    ConcatAppend(batches[..p], batches[p..]);
    assert Concat(batches[p..]) == batches[p] + Concat(batches[p + 1..]) by {
      assert batches[p..][0] == batches[p];
      assert batches[p..][1..] == batches[p + 1..];
    }
  }

  /** The dataset built from the collected headers and rows, or None when
      either is empty (no valid data). Rows are reshaped to the header width
      and every cell is coerced by its column. */
  function BuildDataset(headers: seq<string>, rows: seq<Row>): (r: Option<Frame>)
    ensures r.None? <==> rows == [] || headers == []
    ensures r.Some? ==> r.value.columns == headers && |r.value.rows| == |rows| && Rectangular(r.value)
    ensures r.Some? ==> forall i, j :: 0 <= i < |rows| && 0 <= j < |headers| ==>
      r.value.rows[i][j] == CoerceCell(headers[j], if j < |rows[i]| then rows[i][j] else "")
  {
    if rows != [] && headers != [] then
      Some(CleanAndConvert(headers, NormalizeAll(rows, |headers|)))
    else None
  }
}
