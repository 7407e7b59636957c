/** The pagination bar: a previous link, one entry per page (a link, an
    ellipsis or nothing) and a next link.  Page 1 lives at the base path and
    every other page under `/page/{n}`. */
module Pagination {
  import opened Wrappers
  import opened Text

  /** `currentPage - 1 > 0`. */
  predicate HasPrevious(currentPage: int)
  {
    currentPage - 1 > 0
  }

  /** `currentPage + 1 <= totalPages`. */
  predicate HasNext(totalPages: nat, currentPage: int)
  {
    currentPage + 1 <= totalPages
  }

  /** `pageNumber === 1 ? `/${basePath}/` : `/${basePath}/page/${pageNumber}``. */
  function PageHref(basePath: string, pageNumber: int): string
  {
    if pageNumber == 1 then "/" + basePath + "/" else "/" + basePath + "/page/" + IntToString(pageNumber)
  }

  /** The previous link's target, when there is one. */
  function PreviousHref(basePath: string, currentPage: int): (href: Option<string>)
    ensures href.Some? <==> currentPage > 1
    ensures href.Some? ==> href.value == PageHref(basePath, currentPage - 1)
  {
    if HasPrevious(currentPage) then Some(PageHref(basePath, currentPage - 1)) else None
  }

  /** The next link's target, always under `/page/`. */
  function NextHref(basePath: string, totalPages: nat, currentPage: int): (href: Option<string>)
    ensures href.Some? <==> currentPage + 1 <= totalPages
  {
    if HasNext(totalPages, currentPage) then Some("/" + basePath + "/page/" + IntToString(currentPage + 1)) else None
  }

  /** From a real page the next link targets the next page's own address. */
  lemma NextIsNextPage(basePath: string, totalPages: nat, currentPage: int)
    requires currentPage >= 1 && HasNext(totalPages, currentPage)
    ensures NextHref(basePath, totalPages, currentPage) == Some(PageHref(basePath, currentPage + 1))
  {
  }

  /** Before the first page the next link and page 1's link disagree. */
  lemma NextFromPageZero(basePath: string, totalPages: nat)
    requires totalPages >= 1
    ensures NextHref(basePath, totalPages, 0) == Some("/" + basePath + "/page/1")
    ensures NextHref(basePath, totalPages, 0) != Some(PageHref(basePath, 1))
  {
    assert DigitChar(1) == '1';
    assert IntToString(0 + 1) == NatToString(1) == "1";
    assert "/" + basePath + "/page/" + "1" == "/" + basePath + "/page/1";
    var a, b := "/" + basePath + "/page/1", "/" + basePath + "/";
    assert |a| != |b|;
  }

  /** Different pages have different addresses. */
  lemma PageHrefInjective(basePath: string, m: int, n: int)
    requires m >= 1 && n >= 1
    ensures PageHref(basePath, m) == PageHref(basePath, n) <==> m == n
  {
    var prefix := "/" + basePath + "/page/";
    if m != 1 && n != 1 && PageHref(basePath, m) == PageHref(basePath, n) {
      assert (prefix + IntToString(m))[|prefix|..] == IntToString(m);
      assert (prefix + IntToString(n))[|prefix|..] == IntToString(n);
      NatToStringInjective(m, n);
    } else if m == 1 && n != 1 {
      assert |PageHref(basePath, m)| < |PageHref(basePath, n)|;
    } else if m != 1 && n == 1 {
      assert |PageHref(basePath, m)| > |PageHref(basePath, n)|;
    }
  }

  /** What the map over page indices returns for one page. */
  datatype PageEntry = PageLink(number: int, href: string, ariaLabel: string, isCurrent: bool) | Ellipsis(number: int) | Nothing

  datatype PageKind = LinkKind | EllipsisKind | NothingKind

  /** Page 1, the last page and the pages next to the current one are
      links; the two pages just beyond those neighbours are ellipses. */
  function KindOf(pageNumber: int, totalPages: nat, currentPage: int): PageKind
  {
    if pageNumber == 1 || pageNumber == totalPages || (pageNumber >= currentPage - 1 && pageNumber <= currentPage + 1) then LinkKind
    else if pageNumber == currentPage - 2 || pageNumber == currentPage + 2 then EllipsisKind
    else NothingKind
  }

  function EntryOf(basePath: string, pageNumber: int, totalPages: nat, currentPage: int): (e: PageEntry)
    ensures e.PageLink? <==> KindOf(pageNumber, totalPages, currentPage) == LinkKind
    ensures e.Ellipsis? <==> KindOf(pageNumber, totalPages, currentPage) == EllipsisKind
    ensures e.PageLink? ==> e.number == pageNumber && e.href == PageHref(basePath, pageNumber)
                            && (e.isCurrent <==> pageNumber == currentPage)
  {
    match KindOf(pageNumber, totalPages, currentPage)
    case LinkKind =>
      PageLink(pageNumber, PageHref(basePath, pageNumber),
               (if pageNumber == currentPage then "Current Page, page " else "Go to page ") + IntToString(pageNumber),
               pageNumber == currentPage)
    case EllipsisKind => Ellipsis(pageNumber)
    case NothingKind => Nothing
  }

  /** The whole bar. */
  datatype PaginationView = PaginationView(previous: Option<string>, entries: seq<PageEntry>, next: Option<string>)

  function PaginationOf(totalPages: nat, currentPage: int, basePath: string): (v: PaginationView)
    ensures |v.entries| == totalPages
    ensures forall i :: 0 <= i < totalPages ==> v.entries[i] == EntryOf(basePath, i + 1, totalPages, currentPage)
    ensures v.previous == PreviousHref(basePath, currentPage) && v.next == NextHref(basePath, totalPages, currentPage)
  {
    PaginationView(PreviousHref(basePath, currentPage),
                   seq(totalPages, i requires 0 <= i < totalPages => EntryOf(basePath, i + 1, totalPages, currentPage)),
                   NextHref(basePath, totalPages, currentPage))
  }

  /** Exactly the link of the current page is marked current, and a page in
      range always is a link, as are the first and last pages. */
  lemma CurrentMarkedOnce(totalPages: nat, currentPage: int, basePath: string)
    ensures var es := PaginationOf(totalPages, currentPage, basePath).entries;
      (forall i :: 0 <= i < |es| ==> (es[i].PageLink? && es[i].isCurrent <==> i + 1 == currentPage))
      && (1 <= currentPage <= totalPages ==> es[currentPage - 1].PageLink?)
      && (totalPages >= 1 ==> es[0].PageLink? && es[totalPages - 1].PageLink?)
  {
  }

  /** An ellipsis is never next to the current page: it is two pages away
      from it and is not the first or last page. */
  lemma EllipsisPlacement(totalPages: nat, currentPage: int, p: int)
    requires KindOf(p, totalPages, currentPage) == EllipsisKind
    ensures p == currentPage - 2 || p == currentPage + 2
    ensures p != 1 && p != totalPages
  {
  }

  /** With the current page in range, each run of pages skipped between two
      consecutive links holds exactly one ellipsis. */
  lemma GapHasOneEllipsis(totalPages: nat, currentPage: int, a: int, b: int)
    requires 1 <= currentPage <= totalPages && 1 <= a < b <= totalPages && b > a + 1
    requires KindOf(a, totalPages, currentPage) == LinkKind && KindOf(b, totalPages, currentPage) == LinkKind
    requires forall p :: a < p < b ==> KindOf(p, totalPages, currentPage) != LinkKind
    ensures exists e :: a < e < b && KindOf(e, totalPages, currentPage) == EllipsisKind
    ensures forall e, f ::
      (a < e < b && a < f < b && KindOf(e, totalPages, currentPage) == EllipsisKind
       && KindOf(f, totalPages, currentPage) == EllipsisKind) ==> e == f
  {
    var c := currentPage;
    assert KindOf(c - 1, totalPages, c) == LinkKind && KindOf(c, totalPages, c) == LinkKind
        && KindOf(c + 1, totalPages, c) == LinkKind;
    if b <= currentPage - 1 {
      assert a == 1 && b == currentPage - 1;
      assert KindOf(currentPage - 2, totalPages, currentPage) == EllipsisKind;
    } else {
      assert a >= currentPage + 1;
      assert a == currentPage + 1 && b == totalPages;
      assert KindOf(currentPage + 2, totalPages, currentPage) == EllipsisKind;
    }
  }
}
