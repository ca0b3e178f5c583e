/** The navigation offset fault. The toolbar link to page `n + 1` carries the
    record offset `n * size + 1`, where `size` is the number of records per
    page; the scraper always looks for `n * 10 + 1`. Once the page size has
    been changed, the link it finds belongs to another page, and the loop
    reads a page again. */
module OffsetFault {

  import opened Wrappers
  import opened Text
  import opened Rows
  import opened PageModel
  import opened Locate
  import opened Navigation
  import opened Aggregate
  import opened Pagination

  /** Page `i` of a well-formed run of pages of `size` records: it shows
      data rows, its toolbar links every other page by that page's first
      record offset and links nothing else, and its forward button is
      enabled exactly when a later page exists, loading the next one. */
  predicate RunPage(pages: seq<Page>, size: int, i: nat)
    requires i < |pages|
  {
    var p := pages[i];
    && p.readable && p.grid != []
    && (forall j: nat :: j < |pages| && j != i ==>
          NextLinkOffset(j, size) in p.links && p.links[NextLinkOffset(j, size)] == j)
    && (forall k :: k in p.links ==>
          p.links[k] < |pages| && p.links[k] != i && k == NextLinkOffset(p.links[k], size))
    && (ForwardEnabled(p.forward) <==> i + 1 < |pages|)
    && (ForwardEnabled(p.forward) ==> p.forward.target == i + 1)
  }

  /** A site showing its records `size` to a page, in page order. */
  predicate Paged(pages: seq<Page>, size: int) {
    && size >= 1
    && forall i: nat :: i < |pages| ==> RunPage(pages, size, i)
  }

  /** The visit sequence reads page indices `from`, `from + 1`, ... in turn. */
  predicate InOrder(visited: seq<Session>, from: int) {
    forall k :: 0 <= k < |visited| ==> visited[k].at == from + k
  }

  lemma MulStrict(x: nat, n: nat, size: int)
    requires x < n && size >= 1
    ensures x * size < n * size
  {
    assert n * size - x * size == (n - x) * size;
  }

  /** On a well-formed run, navigating from page index `at` with page number
      `at + 1` and the right page size moves to the next index, or reports no
      next page after the last one. */
  lemma NextInRun(s: Session, size: int)
    requires Paged(s.pages, size)
    ensures Navigate(s, s.at + 1, size)
            == if s.at + 1 < |s.pages| then Some(Browser(s.pages, s.at + 1)) else None
  {
    var p := Current(s);
    var key := NextLinkOffset(s.at + 1, size);
    assert RunPage(s.pages, size, s.at);
    if s.at + 1 < |s.pages| {
      assert key in p.links && p.links[key] == s.at + 1;
      assert RunPage(s.pages, size, s.at + 1);
    } else if key in p.links {
      var t := p.links[key];
      assert t < |s.pages| && key == NextLinkOffset(t, size);
      MulStrict(t, s.at + 1, size);
      assert false;
    }
  }

  /** Corrected: with navigation offsets computed from the page size in
      effect, the loop reads a well-formed run in page order, from the page
      on screen to the cap or the last page, each page once. */
  lemma {:induction false} CrawlInOrder(s: Session, pageNum: int, maxPages: int, size: int)
    requires Paged(s.pages, size) && s.at == pageNum - 1
    decreases maxPages - pageNum
    ensures InOrder(CrawlFrom(Browse(size), s, pageNum, maxPages).visited, s.at)
    ensures |CrawlFrom(Browse(size), s, pageNum, maxPages).visited|
            == if Budget(pageNum, maxPages) <= |s.pages| - s.at then Budget(pageNum, maxPages) else |s.pages| - s.at
  {
    var src := Browse(size);
    if pageNum <= maxPages {
      var rows := DataRows(Current(s).grid);
      assert RunPage(s.pages, size, s.at);
      assert src.read(s) == Some(rows);
      if pageNum < maxPages {
        NextInRun(s, size);
        if s.at + 1 < |s.pages| {
          var next: Session := Browser(s.pages, s.at + 1);
          CrawlStep(src, s, pageNum, maxPages, rows);
          CrawlInOrder(next, pageNum + 1, maxPages, size);
          var rest := CrawlFrom(src, next, pageNum + 1, maxPages).visited;
          forall k | 1 <= k < 1 + |rest|
            ensures ([s] + rest)[k].at == s.at + k
          {
            assert ([s] + rest)[k] == rest[k - 1];
          }
        } else {
          CrawlLastStep(src, s, pageNum, maxPages, rows);
        }
      } else {
        CrawlLastStep(src, s, pageNum, maxPages, rows);
      }
    }
  }

  /** Every page of a run read in order is a different page. */
  lemma InOrderNoRepeats(visited: seq<Session>, from: int, k: nat, l: nat)
    requires InOrder(visited, from) && k < l < |visited|
    ensures visited[k] != visited[l]
  {
    assert visited[k].at != visited[l].at;
  }

  /** A page of the example run: one data row, the toolbar given, and a
      forward button that is enabled unless it is the last page. */
  function ExamplePage(links: map<int, nat>, last: bool, next: nat): Page {
    var icon := if last then "bforward_disabled.gif" else "fwd.gif";
    Page(["Nombre"], [["x"]], true, links, ForwardButton(Image(Some(icon)), next), map[], None)
  }

  /** Four pages of twenty records: the toolbar links offsets 1, 21, 41 and
      61, except the page's own. */
  const ExampleRun: seq<Page> := [
    ExamplePage(map[21 := 1, 41 := 2, 61 := 3], false, 1),
    ExamplePage(map[1 := 0, 41 := 2, 61 := 3], false, 2),
    ExamplePage(map[1 := 0, 21 := 1, 61 := 3], false, 3),
    ExamplePage(map[1 := 0, 21 := 1, 41 := 2], true, 3)]

  lemma ExampleIconsRead(t: nat)
    ensures ForwardEnabled(ForwardButton(Image(Some("fwd.gif")), t))
    ensures !ForwardEnabled(ForwardButton(Image(Some("bforward_disabled.gif")), t))
  {
    ContainsAt("bforward_disabled.gif", "disabled", 9);
    ContainsFits("fwd.gif", "disabled");
  }

  /** Page `i` of the example links every other page by its offset. */
  lemma ExampleLinksComplete(i: nat, j: nat)
    requires i < 4 && j < 4 && j != i
    ensures NextLinkOffset(j, 20) in ExampleRun[i].links && ExampleRun[i].links[NextLinkOffset(j, 20)] == j
  {
    assert NextLinkOffset(j, 20) == [1, 21, 41, 61][j];
  }

  /** Page `i` of the example links nothing else. */
  lemma ExampleLinksSound(i: nat, k: int)
    requires i < 4 && k in ExampleRun[i].links
    ensures ExampleRun[i].links[k] < 4 && ExampleRun[i].links[k] != i
    ensures k == NextLinkOffset(ExampleRun[i].links[k], 20)
  {
  }

  lemma ExamplePageIsRunPage(i: nat)
    requires i < 4
    ensures RunPage(ExampleRun, 20, i)
  {
    ExampleIconsRead(i + 1);
    ExampleIconsRead(3);
    forall j: nat | j < 4 && j != i
      ensures NextLinkOffset(j, 20) in ExampleRun[i].links && ExampleRun[i].links[NextLinkOffset(j, 20)] == j
    {
      ExampleLinksComplete(i, j);
    }
    forall k | k in ExampleRun[i].links
      ensures ExampleRun[i].links[k] < 4 && ExampleRun[i].links[k] != i
      ensures k == NextLinkOffset(ExampleRun[i].links[k], 20)
    {
      ExampleLinksSound(i, k);
    }
  }

  lemma ExampleIsPaged()
    ensures Paged(ExampleRun, 20)
  {
    forall i: nat | i < |ExampleRun|
      ensures RunPage(ExampleRun, 20, i)
    {
      ExamplePageIsRunPage(i);
    }
  }

  /** As written: on the example run, with twenty records to a page and a
      cap of five pages, the loop reads page indices 0, 1, 2, 3 and then 2
      again. On index 3 (page number 4) it looks for offset 41, which is the
      link to index 2; the rows of that page are collected twice. */
  lemma AsWrittenRereadsPage()
    ensures Paged(ExampleRun, 20)
    ensures var visited := CrawlFrom(Browse(DefaultPageSize), Browser(ExampleRun, 0), 1, 5).visited;
      |visited| == 5 && visited[2] == visited[4]
    ensures var rows := DataRows([["x"]]);
      Collected(Browse(DefaultPageSize), Browser(ExampleRun, 0), 5) == rows + rows + rows + rows + rows
  {
    ExampleIsPaged();
    AsWrittenMove(0);
    AsWrittenMove(1);
    AsWrittenMove(2);
    AsWrittenMove(3);
    BackAndForth(Browse(DefaultPageSize), Browser(ExampleRun, 0), Browser(ExampleRun, 1),
                 Browser(ExampleRun, 2), Browser(ExampleRun, 3), DataRows([["x"]]));
  }

  /** A loop capped at five pages whose fourth page leads back to the
      third reads the third page twice. */
  lemma BackAndForth<S>(src: PageSource<S>, a: S, b: S, c: S, d: S, rows: seq<Row>)
    requires src.read(a) == Some(rows) && src.read(b) == Some(rows)
    requires src.read(c) == Some(rows) && src.read(d) == Some(rows)
    requires src.advance(a, 1) == Some(b) && src.advance(b, 2) == Some(c)
    requires src.advance(c, 3) == Some(d) && src.advance(d, 4) == Some(c)
    ensures CrawlFrom(src, a, 1, 5).visited == [a, b, c, d, c]
    ensures Concat(CrawlFrom(src, a, 1, 5).batches) == rows + rows + rows + rows + rows
  {
    CrawlLastStep(src, c, 5, 5, rows);
    CrawlStep(src, d, 4, 5, rows);
    CrawlStep(src, c, 3, 5, rows);
    CrawlStep(src, b, 2, 5, rows);
    CrawlStep(src, a, 1, 5, rows);
  }

  /** The moves of the as-written loop on the example run: from index `i`,
      with page number `i + 1`, it looks for offset `(i + 1) * 10 + 1`.
      Offsets 11, 21 and 31 are not on the toolbar of indices 0, 1 and 2, so
      the forward button moves on; offset 41 on index 3 is the link back to
      index 2. */
  lemma AsWrittenMove(i: nat)
    requires i < 4
    ensures ExampleRun[i].grid == [["x"]] && ExampleRun[i].readable
    ensures Browse(DefaultPageSize).advance(Browser(ExampleRun, i), i + 1)
            == Some(Browser(ExampleRun, if i < 3 then i + 1 else 2))
  {
    var p := ExampleRun[i];
    var t := if i < 3 then i + 1 else 2;
    assert Shows(ExampleRun, t);
    if i < 3 {
      ForwardMove(p, i);
    } else {
      assert NextLinkOffset(4, DefaultPageSize) == 41;
    }
  }

  /** On indices 0, 1 and 2 the as-written offset is missing from the
      toolbar and the enabled forward button is pressed. */
  lemma ForwardMove(p: Page, i: nat)
    requires i < 3 && p == ExampleRun[i]
    ensures Choose(p, i + 1, DefaultPageSize) == PressForward(i + 1)
  {
    ExampleIconsRead(i + 1);
    assert NextLinkOffset(i + 1, DefaultPageSize) == [11, 21, 31][i];
  }

  /** Corrected: on the same run and cap, the loop reads the four pages once
      each, in order. */
  lemma CorrectedReadsEachPageOnce()
    ensures var visited := CrawlFrom(Browse(20), Browser(ExampleRun, 0), 1, 5).visited;
      |visited| == 4 && forall k, l :: 0 <= k < l < |visited| ==> visited[k] != visited[l]
  {
    ExampleIsPaged();
    var visited := CrawlFrom(Browse(20), Browser(ExampleRun, 0), 1, 5).visited;
    CrawlInOrder(Browser(ExampleRun, 0), 1, 5, 20);
    forall k, l | 0 <= k < l < |visited|
      ensures visited[k] != visited[l]
    {
      InOrderNoRepeats(visited, 0, k, l);
    }
  }
}
