/** The row normalizer: every raw row is reshaped to the width of the header
    set before the dataset is built, truncating long rows and padding short
    ones with empty cells. */
module Rows {

  /** One table row: its cell texts in column order. */
  type Row = seq<string>

  /** Python's `[''] * k`. */
  function Blanks(k: nat): (r: Row)
    ensures |r| == k
    ensures forall i :: 0 <= i < k ==> r[i] == ""
  {
    seq(k, _ => "")
  }

  /** The reshaping applied to every collected row: a row longer than `width`
      keeps its first `width` cells, a shorter one is followed by empty cells. */
  function Normalize(row: Row, width: nat): (r: Row)
    ensures |r| == width
    ensures forall i :: 0 <= i < width && i < |row| ==> r[i] == row[i]
    ensures forall i :: |row| <= i < width ==> r[i] == ""
  {
    if |row| > width then row[..width] else row + Blanks(width - |row|)
  }

  /** Normalizing every row: nothing is dropped or reordered. */
  function NormalizeAll(rows: seq<Row>, width: nat): (r: seq<Row>)
    ensures |r| == |rows|
    ensures forall i :: 0 <= i < |r| ==> |r[i]| == width && r[i] == Normalize(rows[i], width)
  {
    seq(|rows|, i requires 0 <= i < |rows| => Normalize(rows[i], width))
  }

  /** A row that already has the header width is left as it is; in
      particular normalizing twice is normalizing once. */
  lemma NormalizeIdempotent(row: Row, width: nat)
    ensures |row| == width ==> Normalize(row, width) == row
    ensures Normalize(Normalize(row, width), width) == Normalize(row, width)
  {
  }

  /** Python's `(row + [''] * (width - len(row)))[:width]`, the padding written
      in the generic table strategy; a negative repeat count gives no cells. */
  function PadThenCut(row: Row, width: nat): Row {
    var padded := row + Blanks(if width >= |row| then width - |row| else 0);
    padded[..width]
  }

  /** The generic strategy's padding expression is the same reshaping as
      `Normalize`, for rows of every length. */
  lemma PadThenCutIsNormalize(row: Row, width: nat)
    ensures PadThenCut(row, width) == Normalize(row, width)
  {
    var p := PadThenCut(row, width);
    var n := Normalize(row, width);
    assert |p| == |n|;
    forall i | 0 <= i < width
      ensures p[i] == n[i]
    {
    }
  }
}
