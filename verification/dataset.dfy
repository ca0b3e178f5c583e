/** The tabular result: named columns and rows of cells. Cells start as text
    and the coercion stage turns some of them into numbers or nulls. */
module Dataset {

  import opened Rows

  /** One cell of the result: text, a Float64 value (kept exact, as a real),
      an Int64 value, or a null left by a failed conversion. */
  datatype Cell = Text(text: string) | Float(x: real) | Int(i: int) | Null

  datatype Frame = Frame(columns: seq<string>, rows: seq<seq<Cell>>)

  /** `pl.DataFrame()`: no columns, no rows. */
  const EmptyFrame: Frame := Frame([], [])

  /** Every row has one cell per column. */
  predicate Rectangular(f: Frame) {
    forall i :: 0 <= i < |f.rows| ==> |f.rows[i]| == |f.columns|
  }

  /** Text rows as cells, unconverted. */
  function TextCells(rows: seq<Row>): (r: seq<seq<Cell>>)
    ensures |r| == |rows|
    ensures forall i :: 0 <= i < |r| ==> |r[i]| == |rows[i]|
    ensures forall i, j :: 0 <= i < |r| && 0 <= j < |rows[i]| ==> r[i][j] == Text(rows[i][j])
  {
    seq(|rows|, i requires 0 <= i < |rows| => seq(|rows[i]|, j requires 0 <= j < |rows[i]| => Text(rows[i][j])))
  }
}
