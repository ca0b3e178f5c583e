/** Worked end-to-end cases: a salary table coerced, rows reshaped to the
    header width, a site with nothing to collect, and a run cut short by a
    page that raises. */
module Scenarios {

  import opened Wrappers
  import opened Text
  import opened Rows
  import opened PageModel
  import opened Locate
  import opened Navigation
  import opened Dataset
  import opened Coercion
  import opened Aggregate
  import opened Pagination
  import opened Scraper

  /** Removing the separator of `a,b` leaves `a` and `b` side by side. */
  lemma CommaDropped(a: string, b: string)
    requires ',' !in a && ',' !in b
    ensures RemoveAll(a + "," + b, ',') == a + b
  {
    RemoveAllAppend(a + ",", b, ',');
    RemoveAllAppend(a, ",", ',');
    RemoveOnly(',');
  }

  lemma RemoveOnly(c: char)
    ensures RemoveAll([c], c) == []
  {
    assert [c][1..] == [];
  }

  lemma FiftyCents(f: string)
    requires f == "50"
    ensures DigitsValue(f) == 50
  {
    assert f[..1] == "5";
  }

  lemma Half(a: nat, b: nat)
    requires b == 2 * a && b > 0
    ensures a as real / b as real == 0.5
  {
  }

  /** A fraction worth one half, after any whole number, reads as that
      number and a half. */
  lemma HalfFraction(w: nat, f: string)
    requires AllDigits(f) && Pow10(|f|) == 2 * DigitsValue(f)
    ensures ParseDecimal(ShowNat(w) + "." + f) == Some(w as real + 0.5)
  {
    ParseDecimalFraction(w, f);
    Half(DigitsValue(f), Pow10(|f|));
  }

  /** "1200.50" reads as 1200.5. */
  lemma SalaryParsed(w: nat, f: string)
    requires w == 1200 && f == "50"
    ensures ParseDecimal(ShowNat(w) + "." + f) == Some(1200.5)
  {
    FiftyCents(f);
    assert Pow10(|f|) == 100;
    HalfFraction(w, f);
  }

  /** The columns of the worked example: a currency column and two text
      columns. */
  lemma ExampleColumns(headers: seq<string>)
    requires headers == ["Cédula", "Nombre completo", "Salario"]
    ensures headers[0] !in CurrencyColumns && headers[0] != IdColumn
    ensures headers[1] !in CurrencyColumns && headers[1] != IdColumn
    ensures headers[2] in CurrencyColumns
  {
  }

  lemma SalaryDigits(a: string, b: string)
    requires a == "1" && b == "200.50"
    ensures a + b == ShowNat(1200) + "." + "50"
  {
  }

  /** "1,200.50" in a currency column becomes the number 1200.5. */
  lemma SalaryCell(column: string, salary: string, a: string, b: string)
    requires column in CurrencyColumns && a == "1" && b == "200.50" && salary == a + "," + b
    ensures CoerceCell(column, salary) == Float(1200.5)
  {
    CommaDropped(a, b);
    SalaryDigits(a, b);
    SalaryParsed(1200, "50");
  }

  /** A one-row, three-column table holds the row's cells, each coerced by
      its column. */
  lemma OneRow(headers: seq<string>, row: Row)
    requires |headers| == 3 && |row| == 3
    ensures BuildDataset(headers, [row])
            == Some(Frame(headers, [[CoerceCell(headers[0], row[0]), CoerceCell(headers[1], row[1]), CoerceCell(headers[2], row[2])]]))
  {
    var r := BuildDataset(headers, [row]);
    assert r.Some?;
    var f := r.value;
    var cells := [CoerceCell(headers[0], row[0]), CoerceCell(headers[1], row[1]), CoerceCell(headers[2], row[2])];
    forall j | 0 <= j < 3
      ensures f.rows[0][j] == cells[j]
    {
      assert f.rows[0][j] == CoerceCell(headers[j], if j < |row| then row[j] else "");
    }
    SingleRowFrame(f, headers, cells);
  }

  /** A frame is determined by its columns and its cells. */
  lemma SingleRowFrame(f: Frame, headers: seq<string>, cells: seq<Cell>)
    requires f.columns == headers && |f.rows| == 1 && |f.rows[0]| == |cells|
    requires forall j :: 0 <= j < |cells| ==> f.rows[0][j] == cells[j]
    ensures f == Frame(headers, [cells])
  {
    assert f.rows[0] == cells;
    assert f.rows == [cells];
  }

  /** A one-row table with a salary column: the salary becomes the number
      1200.5 and the identity-card number stays text. */
  lemma SalaryRowCoerced(headers: seq<string>, cedula: string, name: string, salary: string)
    requires headers == ["Cédula", "Nombre completo", "Salario"]
    requires cedula == "8-123" && name == "Ana Pérez" && salary == "1,200.50"
    ensures BuildDataset(headers, [[cedula, name, salary]])
            == Some(Frame(headers, [[Text(cedula), Text(name), Float(1200.5)]]))
  {
    ExampleColumns(headers);
    SalaryCell(headers[2], salary, "1", "200.50");
    OneRow(headers, [cedula, name, salary]);
  }

  /** A row shorter than the headers is padded with empty cells. */
  lemma ShortRowPadded()
    ensures Normalize(["8-123", "Ana Pérez"], 3) == ["8-123", "Ana Pérez", ""]
  {
  }

  /** A row longer than the headers keeps only its first cells. */
  lemma LongRowCut()
    ensures Normalize(["a", "b", "c", "d", "e"], 3) == ["a", "b", "c"]
  {
  }

  /** A state property the page source keeps: the site of a session. */
  lemma {:induction false} CrawlStaysOnSite(size: int, s: Session, pageNum: int, maxPages: int)
    decreases maxPages - pageNum
    ensures forall k :: 0 <= k < |CrawlFrom(Browse(size), s, pageNum, maxPages).visited| ==>
              CrawlFrom(Browse(size), s, pageNum, maxPages).visited[k].pages == s.pages
  {
    var src := Browse(size);
    if pageNum < maxPages && src.read(s).Some? && src.advance(s, pageNum).Some? {
      var next := src.advance(s, pageNum).value;
      CrawlStaysOnSite(size, next, pageNum + 1, maxPages);
      CrawlStep(src, s, pageNum, maxPages, src.read(s).value);
    }
  }

  /** A site none of whose pages has a data row yields the empty frame,
      whatever the page size and the cap, both as written and corrected. */
  lemma NothingToCollect(site: Site, recordsPerPage: int, maxPages: int)
    requires forall i :: 0 <= i < |site.session.pages| ==> DataRows(site.session.pages[i].grid) == []
    ensures ExtractAllPagesAsWritten(site, recordsPerPage, maxPages) == EmptyFrame
    ensures ExtractAllPages(site, recordsPerPage, maxPages) == EmptyFrame
  {
    if site.loads {
      var r := ChangePageSize(site.session, recordsPerPage);
      NothingCollected(site.session, r.session, DefaultPageSize, maxPages);
      NothingCollected(site.session, r.session, PageSizeInEffect(r, recordsPerPage), maxPages);
    }
  }

  /** On a site without data rows the page loop collects nothing, whatever
      page it starts on and whatever its stride. */
  lemma NothingCollected(site: Session, s: Session, size: int, maxPages: int)
    requires s.pages == site.pages
    requires forall i :: 0 <= i < |site.pages| ==> DataRows(site.pages[i].grid) == []
    ensures Collected(Browse(size), s, maxPages) == []
  {
    var c := CrawlFrom(Browse(size), s, 1, maxPages);
    CrawlBatches(Browse(size), s, 1, maxPages);
    CrawlStaysOnSite(size, s, 1, maxPages);
    AllEmpty(c.batches);
  }

  lemma {:induction false} AllEmpty(batches: seq<seq<Row>>)
    requires forall k :: 0 <= k < |batches| ==> batches[k] == []
    ensures Concat(batches) == []
  {
    if batches != [] {
      AllEmpty(batches[1..]);
    }
  }

  /** A run whose first page gives `rows` and whose second page raises
      collects exactly `rows`, and stops on the fault. */
  lemma SecondPageFails<S>(src: PageSource<S>, a: S, b: S, rows: seq<Row>, maxPages: int)
    requires maxPages >= 2
    requires src.read(a) == Some(rows) && src.advance(a, 1) == Some(b) && src.read(b) == None
    ensures CrawlFrom(src, a, 1, maxPages).halt == PageFault
    ensures Collected(src, a, maxPages) == rows
  {
    CrawlStep(src, a, 1, maxPages, rows);
    assert CrawlFrom(src, b, 2, maxPages).batches == [];
  }
}
