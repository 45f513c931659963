/** app/api/dashboard/route.ts: totals, the five best students, the five most popular courses
    and the per-course enrollment chart data. The three fetched collections are parameters
    (None for a request that threw). */
module DashboardRoute {
  import opened Wrappers
  import opened Lists
  import opened Records
  import opened StableSort
  import opened ApiUtils

  /** One bar of the enrollment chart: the course code (or "Unknown") and its enrollment. */
  datatype CourseEnrollment = CourseEnrollment(name: string, enrollment: int)

  datatype Statistics = Statistics(
    totalStudents: nat,
    totalCourses: nat,
    totalFaculty: nat,
    topStudents: seq<Student>,
    popularCourses: seq<Course>,
    courseEnrollmentData: seq<CourseEnrollment>)

  function Gpa(s: Student): real
  {
    s.gpa
  }

  function Enrollment(c: Course): real
  {
    c.enrollment as real
  }

  function ChartEntry(c: Course): CourseEnrollment
  {
    CourseEnrollment(if c.code == "" then "Unknown" else c.code, c.enrollment)
  }

  const TopCount := 5

  /** The statistics as one expression. `courses.sort` reorders the fetched array itself, so the
      chart data that maps over `courses` afterwards follows the sorted order. */
  function DashboardOf(students: seq<Student>, courses: seq<Course>, faculty: seq<Faculty>): Statistics
  {
    var byGpa := SortDesc(students, Gpa);
    var byEnrollment := SortDesc(courses, Enrollment);
    Statistics(|students|, |courses|, |faculty|,
               byGpa[..Min(TopCount, |byGpa|)],
               byEnrollment[..Min(TopCount, |byEnrollment|)],
               Map(byEnrollment, ChartEntry))
  }

  /** `GET`: sorts the fetched students and courses in place, then slices and maps them. The
      three requests run under one `Promise.all`; one that throws (None) gives the catch-all 500. */
  method Get(studentsRes: Option<seq<Student>>, coursesRes: Option<seq<Course>>, facultyRes: Option<seq<Faculty>>)
    returns (r: Result<Statistics, ErrorResponse>)
    ensures r.Err? <==> studentsRes.None? || coursesRes.None? || facultyRes.None?
    ensures r.Err? ==> r.error == InternalError(Some(UnexpectedMessage))
    ensures r.Ok? ==> r.value == DashboardOf(studentsRes.value, coursesRes.value, facultyRes.value)
  {
    if studentsRes.None? || coursesRes.None? || facultyRes.None? {
      return Err(InternalError(Some(UnexpectedMessage)));
    }
    var students, courses, faculty := studentsRes.value, coursesRes.value, facultyRes.value;
    var sa := new Student[|students|](i requires 0 <= i < |students| => students[i]);
    var ca := new Course[|courses|](i requires 0 <= i < |courses| => courses[i]);
    assert sa[..] == students && ca[..] == courses;
    SortDescending(sa, Gpa);
    SortDescending(ca, Enrollment);
    var topStudents := sa[..Min(TopCount, sa.Length)];
    var popularCourses := ca[..Min(TopCount, ca.Length)];
    var courseEnrollmentData := Map(ca[..], ChartEntry);
    return Ok(Statistics(sa.Length, ca.Length, |faculty|, topStudents, popularCourses, courseEnrollmentData));
  }

  /** The totals are the collection sizes; the top lists hold min(5, n) entries in non-increasing
      order, each of them from the input. */
  lemma {:induction false} DashboardShape(students: seq<Student>, courses: seq<Course>, faculty: seq<Faculty>)
    ensures var st := DashboardOf(students, courses, faculty);
      st.totalStudents == |students| && st.totalCourses == |courses| && st.totalFaculty == |faculty| &&
      |st.topStudents| == Min(TopCount, |students|) &&
      |st.popularCourses| == Min(TopCount, |courses|) &&
      (forall i, j :: 0 <= i < j < |st.topStudents| ==> st.topStudents[i].gpa >= st.topStudents[j].gpa) &&
      (forall i, j :: 0 <= i < j < |st.popularCourses| ==>
         st.popularCourses[i].enrollment >= st.popularCourses[j].enrollment) &&
      (forall i :: 0 <= i < |st.topStudents| ==> st.topStudents[i] in students) &&
      (forall i :: 0 <= i < |st.popularCourses| ==> st.popularCourses[i] in courses)
  {
    var byGpa := SortDesc(students, Gpa);
    var byEnrollment := SortDesc(courses, Enrollment);
    SortDescCorrect(students, Gpa);
    SortDescCorrect(courses, Enrollment);
    SortDescMembers(students, Gpa);
    SortDescMembers(courses, Enrollment);
    var st := DashboardOf(students, courses, faculty);
    forall i, j | 0 <= i < j < |st.topStudents| ensures st.topStudents[i].gpa >= st.topStudents[j].gpa {
      assert st.topStudents[i] == byGpa[i] && st.topStudents[j] == byGpa[j];
    }
    forall i, j | 0 <= i < j < |st.popularCourses|
      ensures st.popularCourses[i].enrollment >= st.popularCourses[j].enrollment
    {
      assert st.popularCourses[i] == byEnrollment[i] && st.popularCourses[j] == byEnrollment[j];
    }
  }

  /** A student left out of the top five has a GPA no higher than every one of the five. */
  lemma {:induction false} TopStudentsAreBest(students: seq<Student>, courses: seq<Course>, faculty: seq<Faculty>)
    ensures var top := DashboardOf(students, courses, faculty).topStudents;
      forall s :: s in students && s !in top ==> forall i :: 0 <= i < |top| ==> s.gpa <= top[i].gpa
  {
    var byGpa := SortDesc(students, Gpa);
    SortDescCorrect(students, Gpa);
    var top := DashboardOf(students, courses, faculty).topStudents;
    forall s | s in students && s !in top ensures forall i :: 0 <= i < |top| ==> s.gpa <= top[i].gpa {
      assert s in multiset(students);
      assert s in multiset(byGpa);
      var j :| 0 <= j < |byGpa| && byGpa[j] == s;
      forall i | 0 <= i < |top| ensures s.gpa <= top[i].gpa {
        assert top[i] == byGpa[i];
      }
    }
  }

  /** The chart has one entry per course, in descending enrollment order (the sorted order of
      `courses`), named by the code or "Unknown" for an empty code; and the popular courses are
      its first five. */
  lemma {:induction false} ChartFollowsSortedCourses(courses: seq<Course>, students: seq<Student>, faculty: seq<Faculty>)
    ensures var st := DashboardOf(students, courses, faculty);
      |st.courseEnrollmentData| == |courses| &&
      (forall i, j :: 0 <= i < j < |courses| ==>
         st.courseEnrollmentData[i].enrollment >= st.courseEnrollmentData[j].enrollment) &&
      (forall i :: 0 <= i < |courses| ==>
         st.courseEnrollmentData[i].name == (if SortDesc(courses, Enrollment)[i].code == "" then "Unknown"
                                             else SortDesc(courses, Enrollment)[i].code)) &&
      (forall i :: 0 <= i < |st.popularCourses| ==> ChartEntry(st.popularCourses[i]) == st.courseEnrollmentData[i])
  {
    var byEnrollment := SortDesc(courses, Enrollment);
    SortDescCorrect(courses, Enrollment);
    var st := DashboardOf(students, courses, faculty);
    forall i, j | 0 <= i < j < |courses|
      ensures st.courseEnrollmentData[i].enrollment >= st.courseEnrollmentData[j].enrollment
    {
      assert Enrollment(byEnrollment[i]) >= Enrollment(byEnrollment[j]);
    }
  }
}
