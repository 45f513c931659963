/** components/global/GlobalPagination.tsx: the pager under every list. Its state is the
    current page and the page size; the page count, the "Showing x to y" range, the
    Previous/Next targets and the row of page buttons and ellipses are derived from it. */
module GlobalPagination {
  import opened Lists
  import opened OffsetPaging

  /** What `renderPageNumbers` pushes for page `page`: a button (marked when it is the current
      page, which makes it inert) or an ellipsis. */
  datatype PageItem = Button(page: int, current: bool) | Ellipsis(page: int)

  predicate IsButtonPage(i: int, cp: int, tp: int)
  {
    i == 1 || i == tp || (cp - 1 <= i && i <= cp + 1)
  }

  predicate IsEllipsisPage(i: int, cp: int, tp: int)
  {
    !IsButtonPage(i, cp, tp) && (i == cp - 2 || i == cp + 2)
  }

  /** The item (if any) that one turn of the loop pushes for page `i`. */
  function ItemAt(i: int, cp: int, tp: int): (r: seq<PageItem>)
    ensures |r| <= 1
    ensures forall k :: 0 <= k < |r| ==> r[k].page == i
  {
    if IsButtonPage(i, cp, tp) then [Button(i, cp == i)]
    else if i == cp - 2 || i == cp + 2 then [Ellipsis(i)]
    else []
  }

  /** The items the loop has pushed after pages 1..n. */
  function ItemsUpTo(n: nat, cp: int, tp: int): seq<PageItem>
  {
    if n == 0 then [] else ItemsUpTo(n - 1, cp, tp) + ItemAt(n, cp, tp)
  }

  /** `renderPageNumbers()` for current page `cp` and page count `tp`. */
  function PageItems(cp: int, tp: nat): seq<PageItem>
  {
    ItemsUpTo(tp, cp, tp)
  }

  /** Items come out in strictly ascending page order, all within 1..n. */
  lemma {:induction false} ItemsAscending(n: nat, cp: int, tp: int)
    ensures forall a :: 0 <= a < |ItemsUpTo(n, cp, tp)| ==> 1 <= ItemsUpTo(n, cp, tp)[a].page <= n
    ensures forall a, b :: 0 <= a < b < |ItemsUpTo(n, cp, tp)| ==> ItemsUpTo(n, cp, tp)[a].page < ItemsUpTo(n, cp, tp)[b].page
  {
    if n > 0 {
      ItemsAscending(n - 1, cp, tp);
      var p, t := ItemsUpTo(n - 1, cp, tp), ItemAt(n, cp, tp);
      var r := p + t;
      assert r == ItemsUpTo(n, cp, tp);
      forall a | 0 <= a < |r| ensures 1 <= r[a].page <= n && (a >= |p| ==> r[a].page == n) {
        if a >= |p| {
          assert r[a] == t[a - |p|];
          assert t[a - |p|].page == n;
        } else {
          assert r[a] == p[a];
          assert 1 <= p[a].page <= n - 1;
        }
      }
      forall a, b | 0 <= a < b < |r| ensures r[a].page < r[b].page {
        if b >= |p| { assert r[a] == p[a]; } else { assert r[a] == p[a] && r[b] == p[b]; }
      }
    }
  }

  lemma {:induction false} ItemsMember(n: nat, cp: int, tp: int, x: PageItem)
    ensures x in ItemsUpTo(n, cp, tp) <==> 1 <= x.page <= n && x in ItemAt(x.page, cp, tp)
  {
    if n > 0 {
      ItemsMember(n - 1, cp, tp, x);
      assert x in ItemsUpTo(n, cp, tp) <==> x in ItemsUpTo(n - 1, cp, tp) || x in ItemAt(n, cp, tp);
    }
  }

  /** Page `i` gets a button, marked current exactly when it is `cp`, iff it lies in
      1..totalPages and is the first page, the last page, or next to the current page. */
  lemma ButtonIff(cp: int, tp: nat, i: int)
    ensures Button(i, i == cp) in PageItems(cp, tp) <==> 1 <= i <= tp && IsButtonPage(i, cp, tp)
    ensures Button(i, i != cp) !in PageItems(cp, tp)
  {
    ItemsMember(tp, cp, tp, Button(i, i == cp));
    ItemsMember(tp, cp, tp, Button(i, i != cp));
  }

  /** An ellipsis stands at page `i` iff `i` lies in 1..totalPages, is two away from the
      current page, and does not get a button. */
  lemma EllipsisIff(cp: int, tp: nat, i: int)
    ensures Ellipsis(i) in PageItems(cp, tp) <==> 1 <= i <= tp && IsEllipsisPage(i, cp, tp)
  {
    ItemsMember(tp, cp, tp, Ellipsis(i));
  }

  function Buttons(r: seq<PageItem>): nat
  {
    if r == [] then 0 else Buttons(r[..|r| - 1]) + (if r[|r| - 1].Button? then 1 else 0)
  }

  function Ellipses(r: seq<PageItem>): nat
  {
    if r == [] then 0 else Ellipses(r[..|r| - 1]) + (if r[|r| - 1].Ellipsis? then 1 else 0)
  }

  lemma CountAppend(r: seq<PageItem>, t: seq<PageItem>)
    requires |t| <= 1
    ensures Buttons(r + t) == Buttons(r) + Buttons(t)
    ensures Ellipses(r + t) == Ellipses(r) + Ellipses(t)
  {
    if t != [] {
      assert (r + t)[..|r + t| - 1] == r;
    } else {
      assert r + t == r;
    }
  }

  /** How many of the pages cp-1, cp, cp+1 are at most n. */
  function Window(n: int, cp: int): int
  {
    Max(0, Min(3, n - cp + 2))
  }

  lemma ItemAtCounts(i: int, cp: int, tp: int)
    ensures Buttons(ItemAt(i, cp, tp)) == (if IsButtonPage(i, cp, tp) then 1 else 0)
    ensures Ellipses(ItemAt(i, cp, tp)) == (if IsEllipsisPage(i, cp, tp) then 1 else 0)
  {
    var t := ItemAt(i, cp, tp);
    if t != [] {
      assert t[..0] == [];
    }
  }

  /** Pages 1 and `tp` and the window around `cp` that are at most n: a bound on the buttons. */
  function ButtonBound(n: int, cp: int, tp: int): int
  {
    (if n >= 1 then 1 else 0) + (if n >= tp then 1 else 0) + Window(n, cp)
  }

  function EllipsisBound(n: int, cp: int): int
  {
    (if n >= cp - 2 then 1 else 0) + (if n >= cp + 2 then 1 else 0)
  }

  lemma BoundSteps(n: int, cp: int, tp: int)
    requires n >= 1
    ensures ButtonBound(n - 1, cp, tp) + (if IsButtonPage(n, cp, tp) then 1 else 0) <= ButtonBound(n, cp, tp)
    ensures EllipsisBound(n - 1, cp) + (if IsEllipsisPage(n, cp, tp) then 1 else 0) <= EllipsisBound(n, cp)
  {
  }

  lemma {:induction false} ButtonsBound(n: nat, cp: int, tp: int)
    ensures Buttons(ItemsUpTo(n, cp, tp)) <= ButtonBound(n, cp, tp)
  {
    if n > 0 {
      ButtonsBound(n - 1, cp, tp);
      var p, t := ItemsUpTo(n - 1, cp, tp), ItemAt(n, cp, tp);
      assert ItemsUpTo(n, cp, tp) == p + t;
      CountAppend(p, t);
      ItemAtCounts(n, cp, tp);
      BoundSteps(n, cp, tp);
    }
  }

  lemma {:induction false} EllipsesBound(n: nat, cp: int, tp: int)
    ensures Ellipses(ItemsUpTo(n, cp, tp)) <= EllipsisBound(n, cp)
  {
    if n > 0 {
      EllipsesBound(n - 1, cp, tp);
      var p, t := ItemsUpTo(n - 1, cp, tp), ItemAt(n, cp, tp);
      assert ItemsUpTo(n, cp, tp) == p + t;
      CountAppend(p, t);
      ItemAtCounts(n, cp, tp);
      BoundSteps(n, cp, tp);
    }
  }

  /** The row never holds more than five buttons and two ellipses, however many pages there are. */
  lemma PageItemsBounded(cp: int, tp: nat)
    ensures Buttons(PageItems(cp, tp)) <= 5
    ensures Ellipses(PageItems(cp, tp)) <= 2
  {
    ButtonsBound(tp, cp, tp);
    EllipsesBound(tp, cp, tp);
  }

  /** `startRange`: the 1-based position of the first item on page `cp`. */
  function StartRange(cp: int, limit: int): int
  {
    (cp - 1) * limit + 1
  }

  /** `endRange`: the position of the last item on page `cp`, capped at the item count. */
  function EndRange(cp: int, limit: int, totalItems: nat): int
  {
    if cp * limit < totalItems then cp * limit else totalItems
  }

  /** On an existing page the "Showing x to y" range lies within the items, and it counts exactly
      the items the offset-paging handlers return for that page. */
  lemma RangeMatchesPage<T>(items: seq<T>, cp: int, limit: int)
    requires limit >= 1 && 1 <= cp <= CeilDiv(|items|, limit)
    ensures 1 <= StartRange(cp, limit) <= EndRange(cp, limit, |items|) <= |items|
    ensures EndRange(cp, limit, |items|) - StartRange(cp, limit) + 1 == |Paginate(items, cp, limit).data|
    ensures Paginate(items, cp, limit).data == items[StartRange(cp, limit) - 1..EndRange(cp, limit, |items|)]
  {
    PaginateShape(items, cp, limit);
    MulNonNegative(cp - 1, limit);
    assert (cp - 1) * limit + limit == cp * limit;
    MulMonotone(cp - 1, CeilDiv(|items|, limit) - 1, limit);
  }

  /** The component's state. `totalItems` is a prop the parent passes on every render (0 while its
      query loads, then the response's total); `currentPage` and `limit` are the component's own. */
  class Pager {
    var totalItems: nat
    var currentPage: int
    var limit: int

    predicate Valid()
      reads this
    {
      limit >= 1
    }

    constructor(totalItems: nat, itemsPerPage: int, page: int)
      requires itemsPerPage >= 1
      ensures Valid()
      ensures this.totalItems == totalItems && currentPage == page && limit == itemsPerPage
    {
      this.totalItems := totalItems;
      currentPage := page;
      limit := itemsPerPage;
    }

    /** A re-render with a new `totalItems` prop: the page count follows it, while the page and
        the limit held in component state stay as they were (the component does not clamp them). */
    method SetTotalItems(n: nat)
      requires Valid()
      modifies this
      ensures Valid()
      ensures totalItems == n && currentPage == old(currentPage) && limit == old(limit)
      ensures TotalPages() == CeilDiv(n, limit)
    {
      totalItems := n;
    }

    /** `Math.ceil(totalItems / limit)`. */
    function TotalPages(): (r: nat)
      reads this
      requires Valid()
      ensures r * limit >= totalItems && (r == 0 || (r - 1) * limit < totalItems)
    {
      CeilDiv(totalItems, limit)
    }

    function PreviousTarget(): (r: int)
      reads this
      ensures r >= 1 && r >= currentPage - 1
      ensures currentPage > 1 ==> r == currentPage - 1
      ensures currentPage <= 1 ==> r == 1
    {
      Max(1, currentPage - 1)
    }

    function NextTarget(): (r: int)
      reads this
      requires Valid()
      ensures r <= TotalPages() && r <= currentPage + 1
      ensures currentPage < TotalPages() ==> r == currentPage + 1
      ensures currentPage >= TotalPages() ==> r == TotalPages()
    {
      Min(TotalPages(), currentPage + 1)
    }

    /** `handlePageChange`: move to `page` and report (page, limit) to the parent. */
    method HandlePageChange(page: int) returns (notifiedPage: int, notifiedLimit: int)
      requires Valid()
      modifies this
      ensures Valid()
      ensures currentPage == page && limit == old(limit) && totalItems == old(totalItems)
      ensures notifiedPage == page && notifiedLimit == limit
    {
      currentPage := page;
      notifiedPage, notifiedLimit := page, limit;
    }

    /** `handleLimitChange`: the page is pulled back to the last page of the new page count
        (to 0 when there are no items). */
    method HandleLimitChange(newLimit: int) returns (notifiedPage: int, notifiedLimit: int)
      requires newLimit >= 1
      modifies this
      ensures Valid() && limit == newLimit && totalItems == old(totalItems)
      ensures currentPage == Min(old(currentPage), CeilDiv(totalItems, newLimit))
      ensures currentPage <= TotalPages()
      ensures notifiedPage == currentPage && notifiedLimit == newLimit
    {
      var newTotalPages := CeilDiv(totalItems, newLimit);
      var newCurrentPage := Min(currentPage, newTotalPages);
      limit := newLimit;
      currentPage := newCurrentPage;
      notifiedPage, notifiedLimit := newCurrentPage, newLimit;
    }

    /** A click on the Previous button, which is disabled (fires nothing) on page 1. */
    method Previous() returns (notifiedPage: int, notifiedLimit: int)
      requires Valid()
      requires currentPage != 1
      modifies this
      ensures Valid()
      ensures currentPage == Max(1, old(currentPage) - 1) && limit == old(limit) && totalItems == old(totalItems)
      ensures notifiedPage == currentPage && notifiedLimit == limit
    {
      notifiedPage, notifiedLimit := HandlePageChange(PreviousTarget());
    }

    /** A click on the Next button, which is disabled (fires nothing) on page `totalPages`. */
    method Next() returns (notifiedPage: int, notifiedLimit: int)
      requires Valid()
      requires currentPage != TotalPages()
      modifies this
      ensures Valid() && limit == old(limit) && totalItems == old(totalItems)
      ensures currentPage == Min(CeilDiv(totalItems, limit), old(currentPage) + 1)
      ensures notifiedPage == currentPage && notifiedLimit == limit
    {
      notifiedPage, notifiedLimit := HandlePageChange(NextTarget());
    }

    /** `renderPageNumbers`: the loop over pages 1..totalPages. */
    method RenderPageNumbers() returns (items: seq<PageItem>)
      requires Valid()
      ensures items == PageItems(currentPage, TotalPages())
    {
      var tp := TotalPages();
      items := [];
      var i := 1;
      while i <= tp
        invariant 1 <= i <= tp + 1
        invariant items == ItemsUpTo(i - 1, currentPage, tp)
      {
        if i == 1 || i == tp || (i >= currentPage - 1 && i <= currentPage + 1) {
          items := items + [Button(i, currentPage == i)];
        } else if i == currentPage - 2 || i == currentPage + 2 {
          items := items + [Ellipsis(i)];
        }
        i := i + 1;
      }
    }
  }
}
