/** The pagination controller: read the page on screen, then, while below the
    page cap, advance to the next page; stop at the cap, when there is no next
    page, or when reading a page raises, keeping what was collected. */
module Pagination {

  import opened Wrappers
  import opened Rows
  import opened PageModel
  import opened Locate
  import opened Navigation
  import opened Aggregate

  /** Why the page loop ended. */
  datatype Halt = PageCap | NoNextPage | PageFault

  /** The two things the page loop asks of the browser: the data rows of the
      page on screen (None when reading raises), and an attempt to advance
      from a given page number (None for "no next page"). */
  datatype PageSource<!S> = PageSource(read: S -> Option<seq<Row>>, advance: (S, int) -> Option<S>)

  /** A browser session as a page source: `extract_page_data`, and
      `navigate_to_next_page` with pages of `pageSize` records. */
  function Browse(pageSize: int): PageSource<Session> {
    PageSource(s => ExtractPageData(Current(s)), (s, n) => Navigate(s, n, pageSize))
  }

  /** What one run of the page loop did: the states whose pages it read, in
      order; the rows each readable page gave (possibly none); and why it
      stopped. A page whose reading raised is visited but yields no batch. */
  datatype CrawlLog<S> = CrawlLog(visited: seq<S>, batches: seq<seq<Row>>, halt: Halt)

  /** The number of pages the loop may read starting at `pageNum`. */
  function Budget(pageNum: int, maxPages: int): nat {
    if maxPages >= pageNum then maxPages - pageNum + 1 else 0
  }

  function Last<T>(xs: seq<T>): T
    requires xs != []
  {
    xs[|xs| - 1]
  }

  /** The page loop of `extract_all_pages` from page number `pageNum` (the
      Python loop starts at 1) with the state `s` on screen. */
  function CrawlFrom<S>(src: PageSource<S>, s: S, pageNum: int, maxPages: int): (c: CrawlLog<S>)
    decreases maxPages - pageNum
    // never more pages than the cap allows, whatever the site reports
    ensures |c.visited| <= Budget(pageNum, maxPages)
    ensures c.halt == PageCap ==> |c.visited| == Budget(pageNum, maxPages)
    // one batch per page read, except a page whose reading raised
    ensures |c.visited| == |c.batches| + (if c.halt == PageFault then 1 else 0)
    // the loop starts on the page on screen and stays within the site
    ensures |c.visited| > 0 ==> c.visited[0] == s
    ensures c.halt != PageCap ==> |c.visited| > 0
  {
    if pageNum > maxPages then CrawlLog([], [], PageCap)
    else
      match src.read(s)
      case None => CrawlLog([s], [], PageFault)
      case Some(rows) =>
        if pageNum < maxPages then
          match src.advance(s, pageNum)
          case None => CrawlLog([s], [rows], NoNextPage)
          case Some(next) =>
            var rest := CrawlFrom(src, next, pageNum + 1, maxPages);
            CrawlLog([s] + rest.visited, [rows] + rest.batches, rest.halt)
        else
          CrawlLog([s], [rows], PageCap)
  }

  /** Step `k` of a visit sequence is a successful navigation from page
      number `pageNum + k`, taken below the cap. */
  ghost predicate Advanced<S>(src: PageSource<S>, visited: seq<S>, k: nat, pageNum: int, maxPages: int)
    requires k + 1 < |visited|
  {
    pageNum + k < maxPages && src.advance(visited[k], pageNum + k) == Some(visited[k + 1])
  }

  /** Every move of a log starting at page number `pageNum` is a step of the
      page source. */
  ghost predicate AllAdvanced<S>(src: PageSource<S>, c: CrawlLog<S>, pageNum: int, maxPages: int) {
    forall k :: 0 <= k < |c.visited| - 1 ==> Advanced(src, c.visited, k, pageNum, maxPages)
  }

  /** Every batch of a log is what its page gave. */
  ghost predicate AllRead<S>(src: PageSource<S>, c: CrawlLog<S>) {
    |c.batches| <= |c.visited| && forall k :: 0 <= k < |c.batches| ==> src.read(c.visited[k]) == Some(c.batches[k])
  }

  /** Batch `k` of the log is exactly what page `k` gave, empty pages
      included. */
  lemma {:induction false} CrawlBatches<S>(src: PageSource<S>, s: S, pageNum: int, maxPages: int)
    decreases maxPages - pageNum
    ensures AllRead(src, CrawlFrom(src, s, pageNum, maxPages))
  {
    var c := CrawlFrom(src, s, pageNum, maxPages);
    if pageNum < maxPages && src.read(s).Some? && src.advance(s, pageNum).Some? {
      var next := src.advance(s, pageNum).value;
      var rest := CrawlFrom(src, next, pageNum + 1, maxPages);
      CrawlBatches(src, next, pageNum + 1, maxPages);
      assert c == CrawlLog([s] + rest.visited, [src.read(s).value] + rest.batches, rest.halt);
      forall k | 0 <= k < |c.batches|
        ensures src.read(c.visited[k]) == Some(c.batches[k])
      {
        if k > 0 {
          assert c.visited[k] == rest.visited[k - 1];
          assert c.batches[k] == rest.batches[k - 1];
        }
      }
    }
  }

  /** Every move to the next page is a successful navigation, attempted
      only below the cap. */
  lemma {:induction false} CrawlSteps<S>(src: PageSource<S>, s: S, pageNum: int, maxPages: int)
    decreases maxPages - pageNum
    ensures AllAdvanced(src, CrawlFrom(src, s, pageNum, maxPages), pageNum, maxPages)
  {
    var c := CrawlFrom(src, s, pageNum, maxPages);
    if pageNum < maxPages && src.read(s).Some? && src.advance(s, pageNum).Some? {
      var next := src.advance(s, pageNum).value;
      var rest := CrawlFrom(src, next, pageNum + 1, maxPages);
      CrawlSteps(src, next, pageNum + 1, maxPages);
      assert c.visited == [s] + rest.visited;
      forall k | 0 <= k < |c.visited| - 1
        ensures Advanced(src, c.visited, k, pageNum, maxPages)
      {
        if k > 0 {
          assert Advanced(src, rest.visited, k - 1, pageNum + 1, maxPages);
          assert c.visited[k] == rest.visited[k - 1] && c.visited[k + 1] == rest.visited[k];
        }
      }
    }
  }

  /** The loop stops before the cap only on a page whose reading raised, or
      when navigation from a readable page reports no next page. */
  lemma {:induction false} CrawlHalts<S>(src: PageSource<S>, s: S, pageNum: int, maxPages: int)
    decreases maxPages - pageNum
    ensures var c := CrawlFrom(src, s, pageNum, maxPages);
      && (c.halt == PageFault ==> src.read(Last(c.visited)) == None)
      && (c.halt == NoNextPage ==>
            pageNum + |c.visited| - 1 < maxPages
            && src.read(Last(c.visited)).Some?
            && src.advance(Last(c.visited), pageNum + |c.visited| - 1).None?)
  {
    var c := CrawlFrom(src, s, pageNum, maxPages);
    if pageNum < maxPages && src.read(s).Some? && src.advance(s, pageNum).Some? {
      var next := src.advance(s, pageNum).value;
      var rest := CrawlFrom(src, next, pageNum + 1, maxPages);
      CrawlHalts(src, next, pageNum + 1, maxPages);
      if c.halt != PageCap {
        assert Last(c.visited) == Last(rest.visited);
      }
    }
  }

  /** One turn of the loop on a readable page that is not the last one read:
      its batch comes first, then whatever the loop collects from the next
      page on. */
  lemma CrawlStep<S>(src: PageSource<S>, s: S, pageNum: int, maxPages: int, rows: seq<Row>)
    requires pageNum < maxPages
    requires src.read(s) == Some(rows)
    requires src.advance(s, pageNum).Some?
    ensures var next := src.advance(s, pageNum).value;
      Concat(CrawlFrom(src, s, pageNum, maxPages).batches)
            == rows + Concat(CrawlFrom(src, next, pageNum + 1, maxPages).batches)
    ensures CrawlFrom(src, s, pageNum, maxPages).visited
            == [s] + CrawlFrom(src, src.advance(s, pageNum).value, pageNum + 1, maxPages).visited
  {
    var next := src.advance(s, pageNum).value;
    var rest := CrawlFrom(src, next, pageNum + 1, maxPages);
    assert CrawlFrom(src, s, pageNum, maxPages).batches == [rows] + rest.batches;
    assert ([rows] + rest.batches)[1..] == rest.batches;
  }

  /** The last turn of the loop on a readable page: its batch is all that is
      left to collect. */
  lemma CrawlLastStep<S>(src: PageSource<S>, s: S, pageNum: int, maxPages: int, rows: seq<Row>)
    requires pageNum <= maxPages
    requires src.read(s) == Some(rows)
    requires pageNum == maxPages || src.advance(s, pageNum).None?
    ensures Concat(CrawlFrom(src, s, pageNum, maxPages).batches) == rows
    ensures CrawlFrom(src, s, pageNum, maxPages).visited == [s]
  {
    assert CrawlFrom(src, s, pageNum, maxPages).batches == [rows];
    assert [rows][1..] == [];
  }

  /** The rows the page loop collects: the batches of the pages read, in
      page order. */
  function Collected<S>(src: PageSource<S>, s: S, maxPages: int): seq<Row> {
    Concat(CrawlFrom(src, s, 1, maxPages).batches)
  }

  /** The page loop as the source writes it: a counted loop over page numbers
      with `break` on a failed navigation or a raised error. It collects
      exactly the rows of the functional description and reads as many pages. */
  method CollectPages<S>(src: PageSource<S>, s0: S, maxPages: int) returns (allData: seq<Row>, pagesRead: nat)
    ensures allData == Collected(src, s0, maxPages)
    ensures pagesRead == |CrawlFrom(src, s0, 1, maxPages).visited|
    ensures pagesRead <= Budget(1, maxPages)
  {
    allData := [];
    pagesRead := 0;
    var s := s0;
    var pageNum := 1;
    while pageNum <= maxPages
      invariant 1 <= pageNum
      invariant Collected(src, s0, maxPages) == allData + Concat(CrawlFrom(src, s, pageNum, maxPages).batches)
      invariant |CrawlFrom(src, s0, 1, maxPages).visited| == pagesRead + |CrawlFrom(src, s, pageNum, maxPages).visited|
      decreases maxPages - pageNum
    {
      var data := src.read(s);
      pagesRead := pagesRead + 1;
      if data.None? {
        break;
      }
      if pageNum < maxPages {
        var next := src.advance(s, pageNum);
        if next.None? {
          CrawlLastStep(src, s, pageNum, maxPages, data.value);
          allData := allData + data.value;
          break;
        }
        CrawlStep(src, s, pageNum, maxPages, data.value);
        s := next.value;
      } else {
        CrawlLastStep(src, s, pageNum, maxPages, data.value);
      }
      allData := allData + data.value;
      pageNum := pageNum + 1;
    }
  }

  /** A page that raises ends the loop without losing anything: the rows
      collected are exactly those of the pages read before it, in order. */
  lemma FaultKeepsEarlierPages<S>(src: PageSource<S>, s: S, maxPages: int)
    requires CrawlFrom(src, s, 1, maxPages).halt == PageFault
    ensures var c := CrawlFrom(src, s, 1, maxPages);
      && |c.batches| == |c.visited| - 1
      && (forall k :: 0 <= k < |c.batches| ==> src.read(c.visited[k]) == Some(c.batches[k]))
      && src.read(Last(c.visited)) == None
      && Collected(src, s, maxPages) == Concat(c.batches)
  {
    CrawlBatches(src, s, 1, maxPages);
    CrawlHalts(src, s, 1, maxPages);
  }

  /** A readable page without data rows does not stop the loop: below the
      cap, and with a next page available, the loop goes on to it. */
  lemma EmptyPageContinues<S>(src: PageSource<S>, s: S, pageNum: int, maxPages: int)
    requires pageNum < maxPages
    requires src.read(s) == Some([])
    requires src.advance(s, pageNum).Some?
    ensures var c := CrawlFrom(src, s, pageNum, maxPages);
      |c.visited| >= 2 && c.visited[1] == src.advance(s, pageNum).value
  {
  }
}
