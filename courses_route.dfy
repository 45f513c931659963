/** app/api/courses/route.ts: a case-insensitive search over the course list, then one page of
    the result. The handler tests `name`, `email` and `department`, but a course has only a
    name among these (the other two are `undefined`), so only the name can match. */
module CoursesRoute {
  import opened Wrappers
  import opened Lists
  import opened Text
  import opened Records
  import opened OffsetPaging
  import opened ApiUtils

  predicate Matches(c: Course, searchLower: string)
  {
    Includes(Lower(c.name), searchLower)
  }

  /** The `if (search)` filter: an absent or empty search keeps every course. */
  function Search(courses: seq<Course>, search: Option<string>): (r: seq<Course>)
    ensures Given(search) ==> forall i :: 0 <= i < |r| ==> r[i] in courses && Matches(r[i], Lower(search.value))
    ensures Given(search) ==> forall i :: 0 <= i < |courses| && Matches(courses[i], Lower(search.value)) ==> courses[i] in r
    ensures !Given(search) ==> r == courses
  {
    if Given(search) then Filter(courses, (c: Course) => Matches(c, Lower(search.value))) else courses
  }

  /** `GET`: `page` defaults to 1 and `limit` to 10 (None is an absent parameter). */
  function Get(fetched: Option<seq<Course>>, search: Option<string>, page: Option<int>, limit: Option<int>): (r: Result<Page<Course>, ErrorResponse>)
    ensures fetched.None? <==> r.Err?
    ensures r.Err? ==> r.error == InternalError(Some(UnexpectedMessage))
    ensures r.Ok? ==> r.value.pagination.page == ParamOr(page, 1) && r.value.pagination.limit == ParamOr(limit, 10)
    ensures r.Ok? ==> r.value.pagination.total == |Search(fetched.value, search)|
  {
    match fetched
    case None => Err(InternalError(Some(UnexpectedMessage)))
    case Some(courses) => Ok(Paginate(Search(courses, search), ParamOr(page, 1), ParamOr(limit, 10)))
  }

  /** Every course on a page is a listed course whose name contains the search text. */
  lemma GetMatches(courses: seq<Course>, search: Option<string>, page: Option<int>, limit: Option<int>)
    ensures var d := Get(Some(courses), search, page, limit).value.data;
      forall i :: 0 <= i < |d| ==> d[i] in courses && (Given(search) ==> Matches(d[i], Lower(search.value)))
  {
    PaginateMembers(Search(courses, search), ParamOr(page, 1), ParamOr(limit, 10));
  }

  /** Page `p` is the run of at most `limit` matching courses that starts at index (p-1)*limit,
      and pages 1 to `totalPages` together are exactly the
      matching courses, in order. */
  lemma GetPages(courses: seq<Course>, search: Option<string>, page: int, limit: int)
    requires page >= 1 && limit >= 1
    ensures var r := Get(Some(courses), search, Some(page), Some(limit)).value;
      var matching := Search(courses, search);
      r.data == matching[Min(PageStart(page, limit), |matching|)..Min(PageStart(page, limit) + limit, |matching|)] &&
      |r.data| <= limit &&
      r.pagination.totalPages == Some(CeilDiv(|matching|, limit)) &&
      PagesUpTo(matching, limit, CeilDiv(|matching|, limit)) == matching
  {
    var matching := Search(courses, search);
    PaginateShape(matching, page, limit);
    PagesCoverAll(matching, limit);
  }

  /** A course whose name does not contain the search text is never listed, even when its code
      or faculty does. */
  lemma CodeDoesNotMatch(courses: seq<Course>, s: string, page: Option<int>, limit: Option<int>, c: Course)
    requires s != "" && !Includes(Lower(c.name), Lower(s))
    ensures c !in Get(Some(courses), Some(s), page, limit).value.data
  {
    GetMatches(courses, Some(s), page, limit);
  }
}
