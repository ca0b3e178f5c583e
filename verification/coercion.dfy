/** The type coercion stage, run once over the aggregated table: currency
    columns lose their thousands separators and become Float64, the
    identifier column becomes Int64, and text that does not parse becomes
    null instead of raising. */
module Coercion {

  import opened Wrappers
  import opened Text
  import opened Rows
  import opened Dataset

  /** The currency-like columns converted to Float64. */
  const CurrencyColumns: seq<string> := ["Salario", "Gastos", "Sobre sueldo", "Total"]

  /** The identifier column converted to Int64. */
  const IdColumn: string := "Identificacion / Posicion"

  const MinInt64: int := -0x8000_0000_0000_0000
  const MaxInt64: int := 0x7FFF_FFFF_FFFF_FFFF

  /** Every character is a digit or a decimal point, except that the first
      may be a sign. */
  predicate NumeralChars(s: string) {
    forall i :: 0 <= i < |s| ==> IsDigit(s[i]) || s[i] == '.' || (i == 0 && (s[i] == '-' || s[i] == '+'))
  }

  /** An optional leading sign and the rest of the numeral. */
  datatype Signed = Signed(negative: bool, digits: string)

  function SplitSign(s: string): (r: Signed)
    ensures |r.digits| <= |s| && r.digits == s[|s| - |r.digits|..]
    ensures |r.digits| < |s| ==> |r.digits| == |s| - 1 && (s[0] == '-' || s[0] == '+')
    ensures r.negative <==> s != [] && s[0] == '-'
  {
    if s != [] && (s[0] == '-' || s[0] == '+') then Signed(s[0] == '-', s[1..]) else Signed(false, s)
  }

  /** A plain decimal numeral: `[sign] digits [. digits]` with at least one
      digit, read exactly. This is the part of the non-strict Float64 cast
      the salary columns need. */
  function ParseDecimal(s: string): (r: Option<real>)
    ensures r.Some? ==> NumeralChars(s) && ',' !in s
  {
    var sg := SplitSign(s);
    match ParseMagnitude(sg.digits)
    case None => None
    case Some(m) => Some(if sg.negative then -m else m)
  }

  /** A leading minus negates the value of an unsigned numeral, and a
      leading plus leaves it as it is; neither makes a failed parse succeed. */
  lemma ParseDecimalSigns(s: string)
    requires s == [] || (s[0] != '-' && s[0] != '+')
    ensures ParseDecimal("-" + s) == if ParseDecimal(s).Some? then Some(-ParseDecimal(s).value) else None
    ensures ParseDecimal("+" + s) == ParseDecimal(s)
  {
    assert SplitSign(s) == Signed(false, s);
    assert ("-" + s)[1..] == s && ("+" + s)[1..] == s;
    assert SplitSign("-" + s) == Signed(true, s);
    assert SplitSign("+" + s) == Signed(false, s);
  }

  /** An unsigned decimal numeral: digits, optionally a point and more
      digits, at least one digit in all. */
  function ParseMagnitude(body: string): (r: Option<real>)
    ensures r.Some? ==> forall i :: 0 <= i < |body| ==> IsDigit(body[i]) || body[i] == '.'
  {
    match IndexOf(body, '.')
    case None =>
      if body != [] && AllDigits(body) then Some(DigitsValue(body) as real) else None
    case Some(k) =>
      var whole := body[..k];
      var frac := body[k + 1..];
      if |whole| + |frac| > 0 && AllDigits(whole) && AllDigits(frac) then
        assert forall i :: 0 <= i < |body| ==> IsDigit(body[i]) || body[i] == '.' by {
          forall i | 0 <= i < |body|
            ensures IsDigit(body[i]) || body[i] == '.'
          {
            if i < k {
              assert body[i] == whole[i];
            } else if i > k {
              assert body[i] == frac[i - k - 1];
            }
          }
        }
        Some(DigitsValue(whole) as real + DigitsValue(frac) as real / Pow10(|frac|) as real)
      else None
  }

  /** The exact value of `whole.frac`. */
  function DecimalValue(whole: string, frac: string): real
    requires AllDigits(whole) && AllDigits(frac)
  {
    DigitsValue(whole) as real + DigitsValue(frac) as real / Pow10(|frac|) as real
  }

  /** The non-strict Int64 cast of a string: an optionally signed run of
      digits whose value fits in 64 bits, otherwise null. */
  function ParseInt64(s: string): (r: Option<int>)
    ensures r.Some? ==> MinInt64 <= r.value <= MaxInt64
    ensures r.Some? ==> s != [] && NumeralChars(s) && '.' !in s
  {
    var sg := SplitSign(s);
    if sg.digits != [] && AllDigits(sg.digits) then
      var v: int := if sg.negative then 0 - DigitsValue(sg.digits) else DigitsValue(sg.digits);
      if MinInt64 <= v <= MaxInt64 then Some(v) else None
    else None
  }

  /** The 64-bit edges of the cast: unsigned digits fit up to 2^63 - 1,
      negated digits down to -2^63, and a plus sign changes nothing. */
  lemma ParseInt64Limits(d: string)
    requires d != [] && AllDigits(d)
    ensures ParseInt64(d).Some? <==> DigitsValue(d) <= MaxInt64
    ensures ParseInt64("-" + d).Some? <==> DigitsValue(d) <= -MinInt64
    ensures ParseInt64("+" + d) == ParseInt64(d)
  {
    assert IsDigit(d[0]);
    assert SplitSign(d) == Signed(false, d);
    assert ("-" + d)[1..] == d && ("+" + d)[1..] == d;
    assert SplitSign("-" + d) == Signed(true, d);
    assert SplitSign("+" + d) == Signed(false, d);
  }

  /** Python's `str(i)` for an integer. */
  function ShowInt(i: int): string {
    if i < 0 then "-" + ShowNat(-i) else ShowNat(i)
  }

  /** Every Int64 value survives being written out and cast back. */
  lemma ParseInt64RoundTrip(i: int)
    requires MinInt64 <= i <= MaxInt64
    ensures ParseInt64(ShowInt(i)) == Some(i)
  {
    var d := ShowNat(if i < 0 then -i else i);
    ShowNatRoundTrip(if i < 0 then -i else i);
    var sg := SplitSign(ShowInt(i));
    if i < 0 {
      assert ShowInt(i) == "-" + d;
      assert sg == Signed(true, d);
    } else {
      assert ShowInt(i) == d && IsDigit(d[0]);
      assert sg == Signed(false, d);
    }
    assert sg.digits != [] && AllDigits(sg.digits);
    var v: int := if sg.negative then 0 - DigitsValue(sg.digits) else DigitsValue(sg.digits);
    assert v == i;
  }

  /** A whole number with a fractional part parses to its exact value. */
  lemma ParseDecimalFraction(whole: nat, frac: string)
    requires AllDigits(frac)
    ensures ParseDecimal(ShowNat(whole) + "." + frac)
            == Some(DecimalValue(ShowNat(whole), frac))
    ensures DecimalValue(ShowNat(whole), frac) == whole as real + DigitsValue(frac) as real / Pow10(|frac|) as real
  {
    var w := ShowNat(whole);
    ShowNatRoundTrip(whole);
    UnsignedPointed(w, frac);
    MagnitudeOfPointed(w, frac);
  }

  /** A numeral that starts with a digit carries no sign. */
  lemma UnsignedPointed(w: string, frac: string)
    requires w != [] && AllDigits(w)
    ensures SplitSign(w + "." + frac) == Signed(false, w + "." + frac)
  {
    var s := w + "." + frac;
    assert s[0] == w[0];
    assert IsDigit(s[0]);
  }

  lemma MagnitudeOfPointed(w: string, frac: string)
    requires w != [] && AllDigits(w) && AllDigits(frac)
    ensures ParseMagnitude(w + "." + frac) == Some(DecimalValue(w, frac))
  {
    var s := w + "." + frac;
    FirstPointAfterDigits(w, frac);
    assert s[..|w|] == w;
    assert s[|w| + 1..] == frac;
  }

  lemma FirstPointAfterDigits(w: string, rest: string)
    requires AllDigits(w)
    ensures IndexOf(w + "." + rest, '.') == Some(|w|)
  {
    var s := w + "." + rest;
    assert s[|w|] == '.' && s[..|w|] == w;
    assert '.' !in w;
  }

  /** A whole number parses to itself. */
  lemma ParseDecimalWhole(n: nat)
    ensures ParseDecimal(ShowNat(n)) == Some(n as real)
  {
    var s := ShowNat(n);
    ShowNatRoundTrip(n);
    assert IsDigit(s[0]);
    assert SplitSign(s) == Signed(false, s);
    assert '.' !in s;
  }

  /** The conversion of one cell of column `column`. */
  function CoerceCell(column: string, text: string): (c: Cell)
    ensures column !in CurrencyColumns && column != IdColumn ==> c == Text(text)
    ensures column in CurrencyColumns ==> (c.Float? || c.Null?)
    ensures column in CurrencyColumns ==> (c.Float? <==> ParseDecimal(RemoveAll(text, ',')).Some?)
    ensures column in CurrencyColumns && ParseDecimal(RemoveAll(text, ',')).Some? ==>
              c == Float(ParseDecimal(RemoveAll(text, ',')).value)
    ensures column !in CurrencyColumns && column == IdColumn ==> (c.Int? || c.Null?)
    ensures column !in CurrencyColumns && column == IdColumn ==> (c.Int? <==> ParseInt64(text).Some?)
    ensures column !in CurrencyColumns && column == IdColumn && c.Int? ==> c.i == ParseInt64(text).value
    ensures c.Int? ==> MinInt64 <= c.i <= MaxInt64
  {
    if column in CurrencyColumns then
      match ParseDecimal(RemoveAll(text, ','))
      case Some(x) => Float(x)
      case None => Null
    else if column == IdColumn then
      match ParseInt64(text)
      case Some(i) => Int(i)
      case None => Null
    else Text(text)
  }

  /** Every Int64 identifier, written out in decimal, comes back from the
      identifier column as that number. */
  lemma IdentifierRoundTrip(i: int)
    requires MinInt64 <= i <= MaxInt64
    ensures CoerceCell(IdColumn, ShowInt(i)) == Int(i)
  {
    assert IdColumn !in CurrencyColumns;
    ParseInt64RoundTrip(i);
  }

  /** Thousands separators never change a currency value: the cell converts
      the same whether or not its commas are there. */
  lemma CurrencyIgnoresCommas(column: string, text: string)
    requires column in CurrencyColumns
    ensures CoerceCell(column, text) == CoerceCell(column, RemoveAll(text, ','))
  {
  }

  /** `clean_and_convert_data`: every cell converted according to its
      column's name. Columns that are absent are simply never met; the stage
      has no failure of its own, so it never raises. */
  function CleanAndConvert(columns: seq<string>, rows: seq<Row>): (f: Frame)
    requires forall i :: 0 <= i < |rows| ==> |rows[i]| == |columns|
    ensures f.columns == columns && |f.rows| == |rows| && Rectangular(f)
    ensures forall i, j :: 0 <= i < |rows| && 0 <= j < |columns| ==> f.rows[i][j] == CoerceCell(columns[j], rows[i][j])
  {
    Frame(columns, seq(|rows|, i requires 0 <= i < |rows| =>
      seq(|columns|, j requires 0 <= j < |columns| => CoerceCell(columns[j], rows[i][j]))))
  }

  /** Only the five named columns can change: every other column keeps its
      text, cell by cell. */
  lemma OtherColumnsUnchanged(columns: seq<string>, rows: seq<Row>, j: nat)
    requires forall i :: 0 <= i < |rows| ==> |rows[i]| == |columns|
    requires j < |columns| && columns[j] !in CurrencyColumns && columns[j] != IdColumn
    ensures forall i :: 0 <= i < |rows| ==> CleanAndConvert(columns, rows).rows[i][j] == Text(rows[i][j])
  {
  }
}
