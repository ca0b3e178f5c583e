/** Page-boundary detection and advancing: the next-page decision taken on the
    page on screen, and the records-per-page selector step run before the
    first page is read. */
module Navigation {

  import opened Wrappers
  import opened Text
  import opened PageModel

  /** The record offset the toolbar link to the page after `currentPage`
      (1-based) carries when each page holds `pageSize` records. */
  function NextLinkOffset(currentPage: int, pageSize: int): int {
    currentPage * pageSize + 1
  }

  /** The forward button may be clicked: it exists, holds an image with a
      `src`, and that `src` does not mention "disabled". A missing image or a
      missing `src` makes the check raise, which counts as not available. */
  predicate ForwardEnabled(f: Forward) {
    && f.ForwardButton?
    && f.icon.Image?
    && f.icon.src.Some?
    && !Contains(f.icon.src.value, "disabled")
  }

  /** What the navigation step decides to click. */
  datatype Choice = FollowLink(target: nat) | PressForward(target: nat) | GiveUp

  /** The decision of `navigate_to_next_page`: the toolbar link for the next
      offset wins; failing that, the forward button if it is enabled;
      otherwise there is no next page. */
  function Choose(p: Page, currentPage: int, pageSize: int): (c: Choice)
    ensures c.FollowLink? <==> NextLinkOffset(currentPage, pageSize) in p.links
    ensures c.FollowLink? ==> c.target == p.links[NextLinkOffset(currentPage, pageSize)]
    ensures c.PressForward? <==> NextLinkOffset(currentPage, pageSize) !in p.links && ForwardEnabled(p.forward)
    ensures c.PressForward? ==> c.target == p.forward.target
  {
    var offset := NextLinkOffset(currentPage, pageSize);
    if offset in p.links then FollowLink(p.links[offset])
    else if ForwardEnabled(p.forward) then PressForward(p.forward.target)
    else GiveUp
  }

  /** `navigate_to_next_page`: Some(next session) for True, None for False.
      A click succeeds only when the page it loads shows data rows within
      the wait; every failure is absorbed into None. */
  function Navigate(s: Session, currentPage: int, pageSize: int): (r: Option<Session>)
    ensures r.Some? <==> !Choose(Current(s), currentPage, pageSize).GiveUp?
                         && Shows(s.pages, Choose(Current(s), currentPage, pageSize).target)
    ensures r.Some? ==> r.value.pages == s.pages
                        && r.value.at == Choose(Current(s), currentPage, pageSize).target
  {
    match Choose(Current(s), currentPage, pageSize)
    case GiveUp => None
    case FollowLink(t) => if Shows(s.pages, t) then Some(Browser(s.pages, t)) else None
    case PressForward(t) => if Shows(s.pages, t) then Some(Browser(s.pages, t)) else None
  }

  /** With no link for the next offset, a forward icon whose `src` mentions
      "disabled" ends pagination. */
  lemma DisabledForwardStops(s: Session, currentPage: int, pageSize: int, src: string, target: nat)
    requires NextLinkOffset(currentPage, pageSize) !in Current(s).links
    requires Current(s).forward == ForwardButton(Image(Some(src)), target)
    requires Contains(src, "disabled")
    ensures Navigate(s, currentPage, pageSize) == None
  {
  }

  /** The page size the site starts with; the selector step is skipped for it. */
  const DefaultPageSize: int := 10

  /** The session after the records-per-page step, and whether the new size
      took effect (its reload showed data rows). */
  datatype Resize = Resize(session: Session, applied: bool)

  /** The records-per-page step: only attempted for a size other than the
      default; a missing selector or option leaves the session as it was, a
      selection reloads to the page it names, and a reload without data rows
      is a failure that is logged and ignored. */
  function ChangePageSize(s: Session, recordsPerPage: int): (r: Resize)
    ensures r.session.pages == s.pages
    ensures recordsPerPage == DefaultPageSize ==> r == Resize(s, false)
    ensures r.applied <==> recordsPerPage != DefaultPageSize
                           && recordsPerPage in Current(s).sizes
                           && Shows(s.pages, Current(s).sizes[recordsPerPage])
    ensures r.applied ==> r.session.at == Current(s).sizes[recordsPerPage]
    ensures recordsPerPage !in Current(s).sizes ==> r.session == s
  {
    if recordsPerPage == DefaultPageSize then Resize(s, false)
    else
      var p := Current(s);
      if recordsPerPage in p.sizes && p.sizes[recordsPerPage] < |s.pages| then
        var t := p.sizes[recordsPerPage];
        Resize(Browser(s.pages, t), Shows(s.pages, t))
      else
        Resize(s, false)
  }
}
