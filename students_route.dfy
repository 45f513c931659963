/** app/api/students/route.ts: search, filter, sort by GPA and populate the enrolled courses.
    The handler fetches the students and the courses; the model takes both as parameters
    (a students request that threw, or answered not ok, is a `StudentsFetch` case of its own;
    the handler catches a failed courses request itself and goes on with an empty course list,
    which the caller passes as `[]`). */
module StudentsRoute {
  import opened Wrappers
  import opened Lists
  import opened Text
  import opened Records
  import opened StableSort
  import opened ApiUtils

  /** A student as the handler returns it: every enrolled course reference replaced by the first
      course with that code, or `undefined` (None) when no course has it. */
  datatype PopulatedStudent = PopulatedStudent(
    id: string,
    name: string,
    email: string,
    enrollmentYear: int,
    enrollmentDate: string,
    year: string,
    gpa: real,
    enrolledCourses: seq<Option<Course>>)

  predicate MatchesSearch(s: Student, search: string)
  {
    Includes(Lower(s.name), Lower(search)) || Includes(Lower(s.email), Lower(search))
  }

  /** The three filters, each applied only when its parameter is given. */
  predicate Keep(s: Student, search: string, year: Option<string>, course: Option<string>)
  {
    (search != "" ==> MatchesSearch(s, search)) &&
    (Given(year) ==> s.year == year.value) &&
    (Given(course) ==> course.value in s.enrolledCourses)
  }

  function Filtered(students: seq<Student>, search: string, year: Option<string>, course: Option<string>): (r: seq<Student>)
    ensures forall i :: 0 <= i < |r| ==> r[i] in students && Keep(r[i], search, year, course)
    ensures forall i :: 0 <= i < |students| && Keep(students[i], search, year, course) ==> students[i] in r
  {
    var bySearch := if search != "" then Filter(students, (s: Student) => MatchesSearch(s, search)) else students;
    var byYear := if Given(year) then Filter(bySearch, (s: Student) => s.year == year.value) else bySearch;
    if Given(course) then Filter(byYear, (s: Student) => course.value in s.enrolledCourses) else byYear
  }

  function Gpa(s: Student): real
  {
    s.gpa
  }

  function CourseByCode(courses: seq<Course>, code: string): Option<Course>
  {
    Find(courses, (c: Course) => c.code == code)
  }

  function Populate(s: Student, courses: seq<Course>): (p: PopulatedStudent)
    ensures |p.enrolledCourses| == |s.enrolledCourses|
    ensures forall k :: 0 <= k < |s.enrolledCourses| ==>
      match p.enrolledCourses[k]
      case Some(c) => exists i :: 0 <= i < |courses| && courses[i] == c && c.code == s.enrolledCourses[k] &&
                                  forall j :: 0 <= j < i ==> courses[j].code != s.enrolledCourses[k]
      case None => forall c :: c in courses ==> c.code != s.enrolledCourses[k]
  {
    PopulatedStudent(s.id, s.name, s.email, s.enrollmentYear, s.enrollmentDate, s.year, s.gpa,
                     Map(s.enrolledCourses, (code: string) => CourseByCode(courses, code)))
  }

  /** The response body: the filtered students in descending GPA order, populated. */
  function Listing(students: seq<Student>, courses: seq<Course>, search: string,
                   year: Option<string>, course: Option<string>): seq<PopulatedStudent>
  {
    var sorted := SortDesc(Filtered(students, search, year, course), Gpa);
    Map(sorted, (s: Student) => Populate(s, courses))
  }

  const FetchFailedMessage := "Failed to fetch students"

  /** The outcome of the students request: it threw (network failure, unreadable body), it
      answered with a status that is not ok, or it delivered the student list. */
  datatype StudentsFetch = Threw | NotOk | Fetched(students: seq<Student>)

  /** `GET`: `search` is `searchParams.get("search") || ""`. A response that is not ok gives the
      500 "Failed to fetch students"; a request that throws lands in the catch-all 500. */
  method Get(fetched: StudentsFetch, courses: seq<Course>, search: string,
             year: Option<string>, course: Option<string>)
    returns (r: Result<seq<PopulatedStudent>, ErrorResponse>)
    ensures fetched.NotOk? ==> r == Err(InternalError(Some(FetchFailedMessage)))
    ensures fetched.Threw? ==> r == Err(InternalError(Some(UnexpectedMessage)))
    ensures fetched.Fetched? ==> r == Ok(Listing(fetched.students, courses, search, year, course))
  {
    match fetched {
      case Threw =>
        return Err(InternalError(Some(UnexpectedMessage)));
      case NotOk =>
        return Err(InternalError(Some(FetchFailedMessage)));
      case Fetched(students) =>
        var filtered := Filtered(students, search, year, course);
        var a := new Student[|filtered|](i requires 0 <= i < |filtered| => filtered[i]);
        assert a[..] == filtered;
        SortDescending(a, Gpa);
        var sorted := a[..];
        var populated := Map(sorted, (s: Student) => Populate(s, courses));
        return Ok(populated);
    }
  }

  /** The listing holds exactly the students that pass every given filter (none is dropped by
      truncation), ordered by non-increasing GPA, ties in store order, each populated from
      the course list. */
  lemma ListingShape(students: seq<Student>, courses: seq<Course>, search: string,
                     year: Option<string>, course: Option<string>)
    ensures var filtered := Filtered(students, search, year, course);
            var sorted := SortDesc(filtered, Gpa);
            var out := Listing(students, courses, search, year, course);
            |out| == |filtered| &&
            multiset(sorted) == multiset(filtered) &&
            (forall i :: 0 <= i < |out| ==> out[i] == Populate(sorted[i], courses)) &&
            (forall i :: 0 <= i < |out| ==> sorted[i] in students && Keep(sorted[i], search, year, course)) &&
            (forall i, j :: 0 <= i < j < |out| ==> out[i].gpa >= out[j].gpa) &&
            (forall g :: WithKey(sorted, Gpa, g) == WithKey(filtered, Gpa, g))
  {
    var filtered := Filtered(students, search, year, course);
    var sorted := SortDesc(filtered, Gpa);
    SortDescCorrect(filtered, Gpa);
    SortDescMembers(filtered, Gpa);
    forall i, j | 0 <= i < j < |sorted| ensures Gpa(sorted[i]) >= Gpa(sorted[j]) {
    }
  }

  /** Each result matches the search in its lower-cased name or email, has the requested year
      and is enrolled in the requested course; an empty search or a missing year or course
      filters nothing. */
  lemma ListingFilters(students: seq<Student>, courses: seq<Course>, search: string,
                       year: Option<string>, course: Option<string>)
    ensures forall p :: p in Listing(students, courses, search, year, course) ==>
      (search != "" ==> Includes(Lower(p.name), Lower(search)) || Includes(Lower(p.email), Lower(search))) &&
      (Given(year) ==> p.year == year.value)
    ensures search == "" && !Given(year) && !Given(course) ==>
      |Listing(students, courses, search, year, course)| == |students|
  {
    ListingShape(students, courses, search, year, course);
    if search == "" && !Given(year) && !Given(course) {
      assert Filtered(students, search, year, course) == students;
    }
  }
}
