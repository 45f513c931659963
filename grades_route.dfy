/** app/api/grades/route.ts: one page of the grade list, with no search. */
module GradesRoute {
  import opened Wrappers
  import opened Lists
  import opened Records
  import opened OffsetPaging
  import opened ApiUtils

  /** `GET`: `page` defaults to 1 and `limit` to 10 (None is an absent parameter). */
  function Get(fetched: Option<seq<Grade>>, page: Option<int>, limit: Option<int>): (r: Result<Page<Grade>, ErrorResponse>)
    ensures fetched.None? <==> r.Err?
    ensures r.Err? ==> r.error == InternalError(Some(UnexpectedMessage))
    ensures r.Ok? ==> r.value.pagination.total == |fetched.value|
    ensures r.Ok? ==> r.value.pagination.page == ParamOr(page, 1) && r.value.pagination.limit == ParamOr(limit, 10)
  {
    match fetched
    case None => Err(InternalError(Some(UnexpectedMessage)))
    case Some(grades) => Ok(Paginate(grades, ParamOr(page, 1), ParamOr(limit, 10)))
  }

  /** Page `p` is the run of grades from index (p-1)*limit, and pages 1 to `totalPages` together
      are the whole list, in order. */
  lemma GetPages(grades: seq<Grade>, page: int, limit: int)
    requires page >= 1 && limit >= 1
    ensures var r := Get(Some(grades), Some(page), Some(limit)).value;
      var start := Min(PageStart(page, limit), |grades|);
      var end := Min(PageStart(page, limit) + limit, |grades|);
      r.data == grades[start..end] &&
      r.pagination.totalPages == Some(CeilDiv(|grades|, limit)) &&
      PagesUpTo(grades, limit, CeilDiv(|grades|, limit)) == grades
  {
    PaginateShape(grades, page, limit);
    PagesCoverAll(grades, limit);
  }
}
