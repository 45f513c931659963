/** app/api/faculty/route.ts: a case-insensitive search over the faculty list, then one page
    of the result. The list the backend returns is a parameter; None stands for a request that
    threw. */
module FacultyRoute {
  import opened Wrappers
  import opened Lists
  import opened Text
  import opened Records
  import opened OffsetPaging
  import opened ApiUtils

  /** The name, e-mail or department contains the lower-cased search text, ignoring case. */
  predicate Matches(f: Faculty, searchLower: string)
  {
    Includes(Lower(f.name), searchLower) || Includes(Lower(f.email), searchLower) ||
    Includes(Lower(f.department), searchLower)
  }

  /** The `if (search)` filter: an absent or empty search keeps every member. */
  function Search(faculty: seq<Faculty>, search: Option<string>): (r: seq<Faculty>)
    ensures Given(search) ==> forall i :: 0 <= i < |r| ==> r[i] in faculty && Matches(r[i], Lower(search.value))
    ensures Given(search) ==> forall i :: 0 <= i < |faculty| && Matches(faculty[i], Lower(search.value)) ==> faculty[i] in r
    ensures !Given(search) ==> r == faculty
  {
    if Given(search) then Filter(faculty, (f: Faculty) => Matches(f, Lower(search.value))) else faculty
  }

  /** `GET`: `page` defaults to 1 and `limit` to 10 (None is an absent parameter). */
  function Get(fetched: Option<seq<Faculty>>, search: Option<string>, page: Option<int>, limit: Option<int>): (r: Result<Page<Faculty>, ErrorResponse>)
    ensures fetched.None? <==> r.Err?
    ensures r.Err? ==> r.error == InternalError(Some(UnexpectedMessage))
    ensures r.Ok? ==> r.value.pagination.page == ParamOr(page, 1) && r.value.pagination.limit == ParamOr(limit, 10)
    ensures r.Ok? ==> r.value.pagination.total == |Search(fetched.value, search)|
  {
    match fetched
    case None => Err(InternalError(Some(UnexpectedMessage)))
    case Some(faculty) => Ok(Paginate(Search(faculty, search), ParamOr(page, 1), ParamOr(limit, 10)))
  }

  /** Every member on a page is a member of the list that matches the search (or the search is
      absent), whatever the paging parameters. */
  lemma GetMatches(faculty: seq<Faculty>, search: Option<string>, page: Option<int>, limit: Option<int>)
    ensures var d := Get(Some(faculty), search, page, limit).value.data;
      forall i :: 0 <= i < |d| ==> d[i] in faculty && (Given(search) ==> Matches(d[i], Lower(search.value)))
  {
    PaginateMembers(Search(faculty, search), ParamOr(page, 1), ParamOr(limit, 10));
  }

  /** Page `p` is the run of at most `limit` matching members that starts at index (p-1)*limit,
      and reading pages 1, 2, ... up to `totalPages` in turn yields exactly the matching members,
      in order. */
  lemma GetPages(faculty: seq<Faculty>, search: Option<string>, page: int, limit: int)
    requires page >= 1 && limit >= 1
    ensures var r := Get(Some(faculty), search, Some(page), Some(limit)).value;
      var matching := Search(faculty, search);
      r.data == matching[Min(PageStart(page, limit), |matching|)..Min(PageStart(page, limit) + limit, |matching|)] &&
      |r.data| <= limit &&
      r.pagination.totalPages == Some(CeilDiv(|matching|, limit)) &&
      PagesUpTo(matching, limit, CeilDiv(|matching|, limit)) == matching
  {
    var matching := Search(faculty, search);
    PaginateShape(matching, page, limit);
    PagesCoverAll(matching, limit);
  }

  /** With no search text and default paging the response is the first ten members. */
  lemma DefaultFirstTen(faculty: seq<Faculty>)
    ensures Get(Some(faculty), None, None, None).value.data == faculty[..Min(10, |faculty|)]
    ensures Get(Some(faculty), None, None, None).value.pagination.total == |faculty|
  {
    PaginateShape(faculty, 1, 10);
  }
}
