/** The offset pagination shared by the faculty, courses and grades handlers:
    `items.slice((page - 1) * limit, (page - 1) * limit + limit)` and
    `totalPages = Math.ceil(total / limit)`. */
module OffsetPaging {
  import opened Wrappers
  import opened Lists

  /** A `page` or `limit` query parameter after `parseInt(... || default)`: None when absent. */
  function ParamOr(p: Option<int>, default: int): (r: int)
    ensures p.None? ==> r == default
    ensures p.Some? ==> r == p.value
  {
    match p
    case Some(v) => v
    case None => default
  }

  /** Where `Array.prototype.slice` puts a bound: a negative one counts from the end, and
      every bound is clamped to [0, n]. */
  function SliceBound(n: nat, k: int): (r: nat)
    ensures r <= n
    ensures 0 <= k <= n ==> r == k
    ensures k > n ==> r == n
  {
    if k < 0 then Max(n + k, 0) else Min(k, n)
  }

  /** `s.slice(start, end)`. */
  function JsSlice<T>(s: seq<T>, start: int, end: int): seq<T>
  {
    var from, to := SliceBound(|s|, start), SliceBound(|s|, end);
    if from < to then s[from..to] else []
  }

  /** `Math.ceil(total / limit)` for a positive limit. */
  function CeilDiv(total: nat, limit: int): (r: nat)
    requires limit >= 1
    ensures r * limit >= total
    ensures r == 0 || (r - 1) * limit < total
  {
    (total + limit - 1) / limit
  }

  /** `Math.ceil(total / limit)` as the JSON response carries it: a zero limit gives
      `Infinity` or `NaN`, which `JSON.stringify` writes as `null` (None). */
  function TotalPages(total: nat, limit: int): (r: Option<int>)
    ensures r.None? <==> limit == 0
    ensures limit >= 1 ==> r == Some(CeilDiv(total, limit))
    ensures limit < 0 ==> r.Some? && r.value <= 0 && r.value * limit <= total && (r.value - 1) * limit > total
  {
    if limit == 0 then None
    else if limit > 0 then Some(CeilDiv(total, limit))
    else Some(-(total / -limit))
  }

  datatype Pagination = Pagination(page: int, limit: int, total: nat, totalPages: Option<int>)

  datatype Page<T> = Page(data: seq<T>, pagination: Pagination)

  /** `startIndex`: where page `page` starts. */
  function PageStart(page: int, limit: int): (r: int)
    ensures page >= 1 && limit >= 0 ==> r >= 0
  {
    MulNonNegativeIf(page - 1, limit);
    (page - 1) * limit
  }

  function Paginate<T>(items: seq<T>, page: int, limit: int): Page<T>
  {
    var startIndex := PageStart(page, limit);
    var endIndex := startIndex + limit;
    Page(JsSlice(items, startIndex, endIndex), Pagination(page, limit, |items|, TotalPages(|items|, limit)))
  }

  /** Whatever the parameters, a page holds only items of the list. */
  lemma PaginateMembers<T>(items: seq<T>, page: int, limit: int)
    ensures forall i :: 0 <= i < |Paginate(items, page, limit).data| ==> Paginate(items, page, limit).data[i] in items
  {
    var from, to := SliceBound(|items|, PageStart(page, limit)), SliceBound(|items|, PageStart(page, limit) + limit);
    var d := Paginate(items, page, limit).data;
    forall i | 0 <= i < |d| ensures d[i] in items {
      assert d[i] == items[from + i];
    }
  }

  /** A zero limit (`?limit=0`) gives an empty page and no page count. */
  lemma PaginateZeroLimit<T>(items: seq<T>, page: int)
    ensures Paginate(items, page, 0).data == []
    ensures Paginate(items, page, 0).pagination.totalPages.None?
  {
  }

  /** `total` counts every item (before slicing), `page` and `limit` are echoed, and page `p`
      (from 1 on) is the run of at most `limit` items that starts at index (p-1)*limit. */
  lemma PaginateShape<T>(items: seq<T>, page: int, limit: int)
    requires limit >= 1 && page >= 1
    ensures var r := Paginate(items, page, limit);
      var start := Min(PageStart(page, limit), |items|);
      var end := Min(PageStart(page, limit) + limit, |items|);
      var tp := CeilDiv(|items|, limit);
      r.pagination == Pagination(page, limit, |items|, Some(tp)) &&
      r.data == items[start..end] && |r.data| <= limit &&
      (page <= tp ==> |r.data| > 0) &&
      (page > tp ==> |r.data| == 0)
  {
    SliceFrom(items, PageStart(page, limit), limit);
    PageExists(|items|, page, limit);
  }

  /** Page `page` starts inside the list exactly when it is at most the page count. */
  lemma PageExists(n: nat, page: int, limit: int)
    requires limit >= 1 && page >= 1
    ensures PageStart(page, limit) < n <==> page <= CeilDiv(n, limit)
  {
    var tp := CeilDiv(n, limit);
    if page <= tp {
      MulMonotone(page - 1, tp - 1, limit);
    } else {
      MulMonotone(tp, page - 1, limit);
    }
  }

  lemma MulNonNegative(a: int, b: int)
    requires a >= 0 && b >= 0
    ensures a * b >= 0
  {
  }

  lemma MulNonNegativeIf(a: int, b: int)
    ensures a >= 0 && b >= 0 ==> a * b >= 0
  {
    if a >= 0 && b >= 0 {
      MulNonNegative(a, b);
    }
  }

  lemma MulMonotone(a: int, b: int, l: int)
    requires a <= b && l >= 0
    ensures a * l <= b * l
  {
    MulNonNegative(b - a, l);
    assert b * l - a * l == (b - a) * l;
  }

  lemma SliceFrom<T>(items: seq<T>, start: int, limit: int)
    requires start >= 0 && limit >= 1
    ensures JsSlice(items, start, start + limit) == items[Min(start, |items|)..Min(start + limit, |items|)]
    ensures |JsSlice(items, start, start + limit)| <= limit
    ensures |JsSlice(items, start, start + limit)| > 0 <==> start < |items|
  {
  }

  /** Pages 1..k, one after the other. */
  function PagesUpTo<T>(items: seq<T>, limit: int, k: nat): seq<T>
    requires limit >= 1
  {
    if k == 0 then [] else PagesUpTo(items, limit, k - 1) + Paginate(items, k, limit).data
  }

  /** Pages 1..k are the first k*limit items (all of them, once k*limit passes the end). */
  lemma {:induction false} PagesUpToPrefix<T>(items: seq<T>, limit: int, k: nat)
    requires limit >= 1
    ensures PagesUpTo(items, limit, k) == items[..Min(PageStart(k + 1, limit), |items|)]
  {
    if k > 0 {
      PagesUpToPrefix(items, limit, k - 1);
      PaginateShape(items, k, limit);
      PageStartNext(k, limit);
      var a, b := Min(PageStart(k, limit), |items|), Min(PageStart(k + 1, limit), |items|);
      assert PagesUpTo(items, limit, k) == items[..a] + items[a..b];
      assert items[..a] + items[a..b] == items[..b];
    }
  }

  lemma PageStartNext(k: int, limit: int)
    requires k >= 1 && limit >= 1
    ensures 0 <= PageStart(k, limit)
    ensures PageStart(k, limit) + limit == PageStart(k + 1, limit)
  {
  }

  /** Reading pages 1 to totalPages in turn gives back every item exactly once and in order. */
  lemma PagesCoverAll<T>(items: seq<T>, limit: int)
    requires limit >= 1
    ensures PagesUpTo(items, limit, CeilDiv(|items|, limit)) == items
  {
    PagesUpToPrefix(items, limit, CeilDiv(|items|, limit));
  }
}
