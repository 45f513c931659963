/** app/api/analytics/top-students/route.ts: the leaderboard. The handler fetches students,
    courses and grades; the model takes the three fetched collections as parameters (None for
    a request that threw). */
module TopStudentsRoute {
  import opened Wrappers
  import opened Lists
  import opened Records
  import opened Derived
  import opened StableSort
  import opened ApiUtils

  /** A grade joined with its student and course, before ranking. */
  datatype Row = Row(
    id: string,
    name: string,
    email: string,
    courseName: string,
    courseCode: string,
    grade: string,
    score: real)

  function StudentById(students: seq<Student>, id: string): Option<Student>
  {
    Find(students, (s: Student) => s.id == id)
  }

  function CourseById(courses: seq<Course>, id: string): Option<Course>
  {
    Find(courses, (c: Course) => c.id == id)
  }

  /** The row a grade contributes, or None when its student or its course is unknown. */
  function JoinOne(g: Grade, students: seq<Student>, courses: seq<Course>): Option<Row>
  {
    match (StudentById(students, g.studentId), CourseById(courses, g.courseId))
    case (Some(s), Some(c)) => Some(Row(s.id, s.name, s.email, c.name, c.code, g.grade, g.score))
    case _ => None
  }

  /** `grades.map(...).filter(Boolean)`: one row per grade whose student and course both exist. */
  function JoinGrades(grades: seq<Grade>, students: seq<Student>, courses: seq<Course>): (r: seq<Row>)
    ensures |r| <= |grades|
  {
    if |grades| == 0 then []
    else
      var rest := JoinGrades(grades[1..], students, courses);
      match JoinOne(grades[0], students, courses)
      case Some(row) => [row] + rest
      case None => rest
  }

  /** A row is in the join exactly when some grade has a known student and a known course and
      the row copies the student's id, name and email, the course's name and code, and the
      grade's letter and score unchanged. */
  lemma {:induction false} JoinGradesMembers(grades: seq<Grade>, students: seq<Student>, courses: seq<Course>, row: Row)
    ensures row in JoinGrades(grades, students, courses) <==>
      exists i :: 0 <= i < |grades| && JoinOne(grades[i], students, courses) == Some(row)
  {
    if |grades| > 0 {
      JoinGradesMembers(grades[1..], students, courses, row);
      if JoinOne(grades[0], students, courses) != Some(row) {
        if exists i :: 0 <= i < |grades| && JoinOne(grades[i], students, courses) == Some(row) {
          var i :| 0 <= i < |grades| && JoinOne(grades[i], students, courses) == Some(row);
          assert grades[1..][i - 1] == grades[i];
        }
      }
    }
  }

  lemma JoinOneCopies(g: Grade, students: seq<Student>, courses: seq<Course>)
    ensures JoinOne(g, students, courses).Some? <==>
      (exists i :: 0 <= i < |students| && students[i].id == g.studentId) &&
      (exists j :: 0 <= j < |courses| && courses[j].id == g.courseId)
    ensures JoinOne(g, students, courses).Some? ==>
      var row := JoinOne(g, students, courses).value;
      row.grade == g.grade && row.score == g.score && row.id == g.studentId
  {
    var ps := (s: Student) => s.id == g.studentId;
    var pc := (c: Course) => c.id == g.courseId;
    if JoinOne(g, students, courses).None? {
      assert Find(students, ps).None? || Find(courses, pc).None?;
    }
  }

  /** The course filter applies when the `course` parameter is given and is not "all". */
  predicate FilterApplies(course: Option<string>)
  {
    Given(course) && course.value != "all"
  }

  function ByCourse(rows: seq<Row>, course: Option<string>): (r: seq<Row>)
    ensures FilterApplies(course) ==> forall i :: 0 <= i < |r| ==> r[i].courseCode == course.value
    ensures FilterApplies(course) ==>
      forall i :: 0 <= i < |rows| && rows[i].courseCode == course.value ==> rows[i] in r
    ensures !FilterApplies(course) ==> r == rows
  {
    if FilterApplies(course) then Filter(rows, (g: Row) => g.courseCode == course.value) else rows
  }

  function Score(r: Row): real
  {
    r.score
  }

  function Ranked(rows: seq<Row>): (r: seq<TopStudent>)
    ensures |r| == |rows|
  {
    seq(|rows|, i requires 0 <= i < |rows| =>
      var g := rows[i];
      TopStudent(g.id, g.name, g.email, g.courseName, g.courseCode, g.grade, g.score, i + 1))
  }

  const LeaderboardSize := 20

  /** The leaderboard the handler returns, as one expression over the fetched collections. */
  function Leaderboard(grades: seq<Grade>, students: seq<Student>, courses: seq<Course>, course: Option<string>): seq<TopStudent>
  {
    var rows := ByCourse(JoinGrades(grades, students, courses), course);
    var ranked := Ranked(SortDesc(rows, Score));
    ranked[..Min(LeaderboardSize, |ranked|)]
  }

  /** The row a leaderboard entry was built from. */
  function Unrank(t: TopStudent): Row
  {
    Row(t.id, t.name, t.email, t.courseName, t.courseCode, t.grade, t.score)
  }

  /** `GET`: joins, filters, sorts in place (stable, by descending score), ranks and keeps 20.
      The three backend requests run under one `Promise.all`, so a request that throws (None)
      sends the handler to its catch-all 500. */
  method Get(studentsRes: Option<seq<Student>>, coursesRes: Option<seq<Course>>, gradesRes: Option<seq<Grade>>,
             course: Option<string>)
    returns (r: Result<seq<TopStudent>, ErrorResponse>)
    ensures r.Err? <==> studentsRes.None? || coursesRes.None? || gradesRes.None?
    ensures r.Err? ==> r.error == InternalError(Some(UnexpectedMessage))
    ensures r.Ok? ==> r.value == Leaderboard(gradesRes.value, studentsRes.value, coursesRes.value, course)
  {
    if studentsRes.None? || coursesRes.None? || gradesRes.None? {
      return Err(InternalError(Some(UnexpectedMessage)));
    }
    var students, courses, grades := studentsRes.value, coursesRes.value, gradesRes.value;
    var details := JoinGrades(grades, students, courses);
    if FilterApplies(course) {
      details := Filter(details, (g: Row) => g.courseCode == course.value);
    }
    var a := new Row[|details|](i requires 0 <= i < |details| => details[i]);
    assert a[..] == details;
    SortDescending(a, Score);
    var withRank := Ranked(a[..]);
    return Ok(withRank[..Min(LeaderboardSize, |withRank|)]);
  }

  /** What the leaderboard promises: at most 20 entries, each from the filtered join; scores do
      not increase down the list; ranks are 1, 2, 3, ... with no gap; and it is the top of the
      whole ranked list. */
  lemma LeaderboardShape(grades: seq<Grade>, students: seq<Student>, courses: seq<Course>, course: Option<string>)
    ensures var rows := ByCourse(JoinGrades(grades, students, courses), course);
            var out := Leaderboard(grades, students, courses, course);
            |out| == Min(LeaderboardSize, |rows|) &&
            (forall i :: 0 <= i < |out| ==> out[i].rank == i + 1) &&
            (forall i, j :: 0 <= i < j < |out| ==> out[i].score >= out[j].score) &&
            (forall i :: 0 <= i < |out| ==> Unrank(out[i]) in rows) &&
            (forall i :: 0 <= i < |out| ==> Unrank(out[i]) == SortDesc(rows, Score)[i])
  {
    var rows := ByCourse(JoinGrades(grades, students, courses), course);
    var sorted := SortDesc(rows, Score);
    var out := Leaderboard(grades, students, courses, course);
    SortDescCorrect(rows, Score);
    SortDescMembers(rows, Score);
    TopOfRanked(sorted);
    assert out == Ranked(sorted)[..Min(LeaderboardSize, |sorted|)];
    forall i | 0 <= i < |out| ensures Unrank(out[i]) in rows {
      assert Unrank(out[i]) == sorted[i];
    }
    forall i, j | 0 <= i < j < |out| ensures out[i].score >= out[j].score {
      assert out[i].score == Score(sorted[i]) && out[j].score == Score(sorted[j]);
    }
  }

  lemma TopOfRanked(sorted: seq<Row>)
    ensures var out := Ranked(sorted)[..Min(LeaderboardSize, |sorted|)];
            |out| == Min(LeaderboardSize, |sorted|) &&
            (forall i :: 0 <= i < |out| ==> out[i].rank == i + 1 && Unrank(out[i]) == sorted[i])
  {
  }

  /** With the course filter on, every entry is of that course; with it off, nothing is filtered. */
  lemma LeaderboardCourse(grades: seq<Grade>, students: seq<Student>, courses: seq<Course>, course: Option<string>)
    ensures FilterApplies(course) ==>
      forall t :: t in Leaderboard(grades, students, courses, course) ==> t.courseCode == course.value
    ensures !FilterApplies(course) ==>
      |Leaderboard(grades, students, courses, course)| == Min(LeaderboardSize, |JoinGrades(grades, students, courses)|)
  {
    LeaderboardShape(grades, students, courses, course);
  }

  /** Every entry comes from a grade whose student and course exist, with that grade's
      letter and score copied unchanged. */
  lemma LeaderboardFromGrades(grades: seq<Grade>, students: seq<Student>, courses: seq<Course>, course: Option<string>)
    ensures forall t :: t in Leaderboard(grades, students, courses, course) ==>
      exists i :: 0 <= i < |grades| && JoinOne(grades[i], students, courses) == Some(Unrank(t)) &&
                  grades[i].grade == t.grade && grades[i].score == t.score
  {
    LeaderboardShape(grades, students, courses, course);
    var joined := JoinGrades(grades, students, courses);
    forall t | t in Leaderboard(grades, students, courses, course)
      ensures exists i :: 0 <= i < |grades| && JoinOne(grades[i], students, courses) == Some(Unrank(t)) &&
                          grades[i].grade == t.grade && grades[i].score == t.score
    {
      assert Unrank(t) in joined;
      JoinGradesMembers(grades, students, courses, Unrank(t));
      var i :| 0 <= i < |grades| && JoinOne(grades[i], students, courses) == Some(Unrank(t));
      JoinOneCopies(grades[i], students, courses);
    }
  }

  /** Ties keep join order: for any score, the entries of the full ranked list with that score
      are, in order, the filtered join rows with that score. */
  lemma LeaderboardStable(grades: seq<Grade>, students: seq<Student>, courses: seq<Course>, course: Option<string>, k: real)
    ensures var rows := ByCourse(JoinGrades(grades, students, courses), course);
            WithKey(SortDesc(rows, Score), Score, k) == WithKey(rows, Score, k)
  {
    SortDescCorrect(ByCourse(JoinGrades(grades, students, courses), course), Score);
  }
}
