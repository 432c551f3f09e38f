/** The pagination bar: a sliding window of at most five page numbers, and the page links. */
module Pagination {
  import opened Wrappers
  import Strings

  function Min(a: int, b: int): int { if a < b then a else b }
  function Max(a: int, b: int): int { if a > b then a else b }

  /** `visibleCount = Math.min(5, totalPages)`. */
  function VisibleCount(totalPages: int): int {
    Min(5, totalPages)
  }

  /** The pages `start, start + 1, ..., end` (empty when `end < start`). */
  function Range(start: int, end: int): (r: seq<int>)
    ensures |r| == Max(0, end - start + 1)
    ensures forall i | 0 <= i < |r| :: r[i] == start + i
    ensures forall k :: k in r <==> start <= k <= end
    ensures forall i, j | 0 <= i < j < |r| :: r[i] < r[j]
  {
    var r := seq(Max(0, end - start + 1), i requires 0 <= i < Max(0, end - start + 1) => start + i);
    forall k | start <= k <= end ensures k in r {
      assert r[k - start] == k;
    }
    r
  }

  /**
   * `getWindowPages(visibleCount)`: centre the current page in a window of `count` pages,
   * then shift the window right past page 1 and left below `totalPages`.
   */
  function WindowPages(totalPages: int, currentPage: int): (pages: seq<int>)
    ensures totalPages <= 0 ==> pages == []
    ensures totalPages >= 1 ==> |pages| == Max(1, Min(5, totalPages))
    ensures forall i | 0 <= i < |pages| :: pages[i] == pages[0] + i
    ensures forall i | 0 <= i < |pages| :: 1 <= pages[i] <= totalPages
    ensures 1 <= currentPage <= totalPages ==> currentPage in pages
    ensures var count := Max(1, Min(5, totalPages));
      currentPage - count / 2 >= 1 && currentPage + (count - count / 2 - 1) <= totalPages ==>
        pages[0] == currentPage - count / 2
  {
    var (start, end) := WindowBounds(totalPages, currentPage);
    var pages := Range(start, end);
    assert 1 <= currentPage <= totalPages ==> pages[currentPage - start] == currentPage;
    pages
  }

  /** The first and last page of the window; the window is empty when `end < start`. */
  function WindowBounds(totalPages: int, currentPage: int): (b: (int, int))
    ensures totalPages <= 0 ==> b.1 < b.0
    ensures totalPages >= 1 ==> 1 <= b.0 && b.1 <= totalPages && b.1 - b.0 + 1 == Max(1, Min(5, totalPages))
    ensures 1 <= currentPage <= totalPages ==> b.0 <= currentPage <= b.1
    ensures var count := Max(1, Min(5, totalPages));
      currentPage - count / 2 >= 1 && currentPage + (count - count / 2 - 1) <= totalPages ==>
        b.0 == currentPage - count / 2
  {
    var count := Max(1, Min(VisibleCount(totalPages), totalPages));
    var half := count / 2;
    var start0 := currentPage - half;
    var end0 := currentPage + (count - half - 1);
    var start1 := if start0 < 1 then 1 else start0;
    var end1 := if start0 < 1 then end0 + (1 - start0) else end0;
    var start2 := if end1 > totalPages then start1 - (end1 - totalPages) else start1;
    var end2 := if end1 > totalPages then totalPages else end1;
    var start3 := if start2 < 1 then 1 else start2;
    (start3, end2)
  }

  /** A link target: a pathname and the query string's parameters. */
  datatype Link = Link(pathname: string, query: map<string, string>)

  /** `getPageLink(page)`: page 1 is the root, page `n` is `/page/n`; `page` leaves the query, the rest stays. */
  function PageLink(page: int, query: map<string, string>): (l: Link)
    ensures l.query.Keys == query.Keys - {"page"}
    ensures forall k | k in l.query :: l.query[k] == query[k]
    ensures page == 1 <==> l.pathname == "/"
    ensures page != 1 ==> Strings.StartsWith(l.pathname, "/page/")
  {
    var rest := map k | k in query && k != "page" :: query[k];
    if page == 1 then Link("/", rest) else Link("/page/" + Strings.IntToString(page), rest)
  }

  /** The page number a pathname produced by `PageLink` routes to (`/` or `/page/<digits>`). */
  function PageOfPath(pathname: string): Option<int> {
    if pathname == "/" then Some(1)
    else if Strings.StartsWith(pathname, "/page/") && |pathname| > 6 && Strings.AllDigits(pathname[6..]) then
      Some(Strings.DigitsToNat(pathname[6..]))
    else None
  }

  /** Following the link of any page number from 1 on lands on that page. */
  lemma PageLinkRoundTrip(page: nat, query: map<string, string>)
    requires page >= 1
    ensures PageOfPath(PageLink(page, query).pathname) == Some(page)
  {
    if page != 1 {
      var digits := Strings.NatToString(page);
      var path := "/page/" + digits;
      assert path[6..] == digits;
      Strings.NatToStringRoundTrip(page);
    }
  }

  /** A control's target: `"#"` when it is disabled. */
  datatype Href = Hash | To(link: Link)

  datatype PageButton = PageButton(page: int, link: Link, active: bool)

  datatype Bar = Bar(first: Href, prev: Href, buttons: seq<PageButton>, next: Href, last: Href)

  /** The rendered bar: first/previous are off on page 1, next/last are off on the last page. */
  function NavBar(totalPages: int, currentPage: int, query: map<string, string>): (b: Bar)
    ensures b.first.Hash? <==> currentPage == 1
    ensures b.prev.Hash? <==> currentPage == 1
    ensures b.next.Hash? <==> currentPage == totalPages
    ensures b.last.Hash? <==> currentPage == totalPages
    ensures b.first.To? ==> b.first.link.pathname == "/"
    ensures b.prev.To? ==> b.prev.link == PageLink(currentPage - 1, query)
    ensures b.next.To? ==> b.next.link == PageLink(currentPage + 1, query)
    ensures b.last.To? ==> b.last.link == PageLink(totalPages, query)
    ensures |b.buttons| == |WindowPages(totalPages, currentPage)|
    ensures forall i | 0 <= i < |b.buttons| ::
      b.buttons[i].page == WindowPages(totalPages, currentPage)[i]
      && (b.buttons[i].active <==> b.buttons[i].page == currentPage)
  {
    var isFirstPage := currentPage == 1;
    var isLastPage := currentPage == totalPages;
    var pages := WindowPages(totalPages, currentPage);
    Bar(
      if isFirstPage then Hash else To(PageLink(1, query)),
      if isFirstPage then Hash else To(PageLink(currentPage - 1, query)),
      seq(|pages|, i requires 0 <= i < |pages| =>
        PageButton(pages[i], PageLink(pages[i], query), currentPage == pages[i])),
      if isLastPage then Hash else To(PageLink(currentPage + 1, query)),
      if isLastPage then Hash else To(PageLink(totalPages, query)))
  }
}
