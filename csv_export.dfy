/** The CSV text built by the `export*` functions of lib/utils.ts (the browser download itself is
    not modelled). Fields are joined by ",", rows by "\r\n"; names are written as RFC 4180
    quoted fields (section 2, rules 5 to 7 of RFC 4180): the text in double quotes, with every
    double quote inside it doubled. */
module CsvExport {
  import opened Wrappers
  import opened Text
  import opened Records
  import opened Derived

  // ---------------------------------------------------------------------------------------------
  // Quoted fields

  /** `s.replace(/"/g, '""')`. */
  function EscapeQuotes(s: string): (r: string)
    ensures |r| >= |s|
  {
    if |s| == 0 then ""
    else (if s[0] == '"' then "\"\"" else [s[0]]) + EscapeQuotes(s[1..])
  }

  /** `"${s.replace(/"/g, '""')}"`. */
  function Quote(s: string): string
  {
    "\"" + EscapeQuotes(s) + "\""
  }

  /** Reads the body of a quoted field: a pair of double quotes stands for one double quote; a
      double quote on its own would end the field, so the body is rejected. */
  function UnescapeBody(u: string): Option<string>
  {
    if |u| == 0 then Some("")
    else if u[0] == '"' then
      if |u| >= 2 && u[1] == '"' then
        match UnescapeBody(u[2..])
        case Some(rest) => Some("\"" + rest)
        case None => None
      else None
    else
      match UnescapeBody(u[1..])
      case Some(rest) => Some([u[0]] + rest)
      case None => None
  }

  /** RFC 4180 reading of one quoted field: it must open and close with a double quote. */
  function UnquoteField(t: string): Option<string>
  {
    if |t| >= 2 && t[0] == '"' && t[|t| - 1] == '"' then UnescapeBody(t[1..|t| - 1]) else None
  }

  lemma {:induction false} UnescapeEscape(s: string)
    ensures UnescapeBody(EscapeQuotes(s)) == Some(s)
  {
    if |s| > 0 {
      UnescapeEscape(s[1..]);
      var e := EscapeQuotes(s);
      if s[0] == '"' {
        assert e[2..] == EscapeQuotes(s[1..]);
      } else {
        assert e[1..] == EscapeQuotes(s[1..]);
      }
      assert s == [s[0]] + s[1..];
    }
  }

  /** A quoted name reads back, under RFC 4180, as exactly the original name. */
  lemma QuoteRoundTrip(s: string)
    ensures UnquoteField(Quote(s)) == Some(s)
  {
    var q := Quote(s);
    assert q[1..|q| - 1] == EscapeQuotes(s);
    UnescapeEscape(s);
  }

  lemma {:induction false} EscapeQuotesNoBreak(s: string)
    requires NoBreak(s)
    ensures NoBreak(EscapeQuotes(s))
  {
    if |s| > 0 {
      assert s[0] in s;
      assert forall c :: c in s[1..] ==> c in s;
      EscapeQuotesNoBreak(s[1..]);
    }
  }

  lemma QuoteNoBreak(s: string)
    requires NoBreak(s)
    ensures NoBreak(Quote(s))
  {
    EscapeQuotesNoBreak(s);
  }

  // ---------------------------------------------------------------------------------------------
  // Rows and lines

  /** `row.join(",")`. */
  function Line(fields: seq<string>): string
  {
    Join(fields, ",")
  }

  function Lines(table: seq<seq<string>>): (r: seq<string>)
    ensures |r| == |table|
    ensures forall i :: 0 <= i < |table| ==> r[i] == Line(table[i])
  {
    seq(|table|, i requires 0 <= i < |table| => Line(table[i]))
  }

  /** `[headers, ...rows].map((row) => row.join(",")).join("\r\n")`. */
  function CsvText(table: seq<seq<string>>): string
  {
    Join(Lines(table), "\r\n")
  }

  /** Splits a text at every "\r\n", as a CSV reader does in a file without quoted line breaks. */
  function SplitCrlf(t: string): (r: seq<string>)
    ensures |r| >= 1
    decreases |t|
  {
    if |t| == 0 then [""]
    else if |t| >= 2 && t[0] == '\r' && t[1] == '\n' then [""] + SplitCrlf(t[2..])
    else
      var rest := SplitCrlf(t[1..]);
      [[t[0]] + rest[0]] + rest[1..]
  }

  lemma {:induction false} SplitCrlfSingle(x: string)
    requires '\r' !in x
    ensures SplitCrlf(x) == [x]
    decreases |x|
  {
    if |x| > 0 {
      assert x[0] in x;
      assert forall c :: c in x[1..] ==> c in x;
      SplitCrlfSingle(x[1..]);
      assert x == [x[0]] + x[1..];
    }
  }

  lemma {:induction false} SplitCrlfCons(x: string, y: string)
    requires '\r' !in x
    ensures SplitCrlf(x + "\r\n" + y) == [x] + SplitCrlf(y)
    decreases |x|
  {
    var t := x + "\r\n" + y;
    if |x| == 0 {
      assert t == "\r\n" + y;
      assert t[2..] == y;
    } else {
      assert x[0] in x;
      assert forall c :: c in x[1..] ==> c in x;
      SplitCrlfCons(x[1..], y);
      assert t[1..] == x[1..] + "\r\n" + y;
      assert x == [x[0]] + x[1..];
    }
  }

  lemma {:induction false} SplitJoin(lines: seq<string>)
    requires |lines| > 0
    requires forall i :: 0 <= i < |lines| ==> '\r' !in lines[i]
    ensures SplitCrlf(Join(lines, "\r\n")) == lines
    decreases |lines|
  {
    if |lines| == 1 {
      SplitCrlfSingle(lines[0]);
    } else {
      SplitJoin(lines[1..]);
      SplitCrlfCons(lines[0], Join(lines[1..], "\r\n"));
      assert lines == [lines[0]] + lines[1..];
    }
  }

  /** When no field holds a line break, a reader that splits the text at "\r\n" gets back exactly
      one line per row of the table, each the row's fields joined by ",". */
  lemma CsvTextLines(table: seq<seq<string>>)
    requires |table| > 0
    requires forall i, j :: 0 <= i < |table| && 0 <= j < |table[i]| ==> NoBreak(table[i][j])
    ensures SplitCrlf(CsvText(table)) == Lines(table)
  {
    var ls := Lines(table);
    forall i | 0 <= i < |ls| ensures '\r' !in ls[i] {
      JoinNoBreak(table[i], ",");
    }
    SplitJoin(ls);
  }

  // ---------------------------------------------------------------------------------------------
  // The exports

  /** "Enrollement Date" is spelt as in the source. */
  const StudentHeader: seq<string> :=
    ["Student ID", "Name", "Email", "Academic Year", "Enrolled Courses", "Enrollement Date"]

  /** `formatDate` is dayjs's `format("MMMM D, YYYY")` of the stored date text. */
  function StudentFields(s: Student, formatDate: string -> string): (r: seq<string>)
    ensures |r| == |StudentHeader|
    ensures r[1] == Quote(s.name)
  {
    [s.id, Quote(s.name), s.email, if s.year == "" then "N/A" else s.year,
     IntToString(|s.enrolledCourses|), formatDate(s.enrollmentDate)]
  }

  function StudentTable(students: seq<Student>, formatDate: string -> string): (r: seq<seq<string>>)
    ensures |r| == |students| + 1 && r[0] == StudentHeader
    ensures forall i :: 0 <= i < |students| ==> r[i + 1] == StudentFields(students[i], formatDate)
  {
    [StudentHeader] + seq(|students|, i requires 0 <= i < |students| => StudentFields(students[i], formatDate))
  }

  /** `exportStudentsToCsv`: no CSV at all for an empty list (the source alerts instead). */
  function ExportStudents(students: seq<Student>, formatDate: string -> string): (r: Option<string>)
    ensures r.None? <==> |students| == 0
    ensures r.Some? ==> r.value == CsvText(StudentTable(students, formatDate))
  {
    if |students| == 0 then None else Some(CsvText(StudentTable(students, formatDate)))
  }

  predicate StudentPlain(s: Student, formatDate: string -> string)
  {
    NoBreak(s.id) && NoBreak(s.name) && NoBreak(s.email) && NoBreak(s.year) &&
    NoBreak(formatDate(s.enrollmentDate))
  }

  /** The student CSV is the header line and then one line per student, in input order. */
  lemma ExportStudentsLines(students: seq<Student>, formatDate: string -> string)
    requires |students| > 0
    requires forall i :: 0 <= i < |students| ==> StudentPlain(students[i], formatDate)
    ensures ExportStudents(students, formatDate).Some?
    ensures var lines := SplitCrlf(ExportStudents(students, formatDate).value);
            |lines| == |students| + 1 && lines[0] == Line(StudentHeader) &&
            forall i :: 0 <= i < |students| ==> lines[i + 1] == Line(StudentFields(students[i], formatDate))
  {
    var table := StudentTable(students, formatDate);
    forall i, j | 0 <= i < |table| && 0 <= j < |table[i]| ensures NoBreak(table[i][j]) {
      if i > 0 {
        var s := students[i - 1];
        QuoteNoBreak(s.name);
        IntToStringNoBreak(|s.enrolledCourses|);
      }
    }
    CsvTextLines(table);
  }

  const CourseHeader: seq<string> := ["Code", "Course Name", "Credits", "Enrolled Students", "Faculty Assigned"]

  function CourseFields(c: Course): (r: seq<string>)
    ensures |r| == |CourseHeader|
    ensures r[1] == Quote(c.name)
  {
    [c.code, Quote(c.name), IntToString(c.credits), IntToString(c.enrollment), Join(c.faculty, ",")]
  }

  function CourseTable(courses: seq<Course>): (r: seq<seq<string>>)
    ensures |r| == |courses| + 1 && r[0] == CourseHeader
    ensures forall i :: 0 <= i < |courses| ==> r[i + 1] == CourseFields(courses[i])
  {
    [CourseHeader] + seq(|courses|, i requires 0 <= i < |courses| => CourseFields(courses[i]))
  }

  /** `exportCoursesToCsv`: an empty list still gives the header line. */
  function ExportCourses(courses: seq<Course>): (r: string)
    ensures |courses| == 0 ==> r == Line(CourseHeader)
  {
    CsvText(CourseTable(courses))
  }

  predicate CoursePlain(c: Course)
  {
    NoBreak(c.code) && NoBreak(c.name) && forall k :: 0 <= k < |c.faculty| ==> NoBreak(c.faculty[k])
  }

  lemma ExportCoursesLines(courses: seq<Course>)
    requires forall i :: 0 <= i < |courses| ==> CoursePlain(courses[i])
    ensures var lines := SplitCrlf(ExportCourses(courses));
            |lines| == |courses| + 1 && lines[0] == Line(CourseHeader) &&
            forall i :: 0 <= i < |courses| ==> lines[i + 1] == Line(CourseFields(courses[i]))
  {
    var table := CourseTable(courses);
    forall i, j | 0 <= i < |table| && 0 <= j < |table[i]| ensures NoBreak(table[i][j]) {
      if i > 0 {
        var c := courses[i - 1];
        QuoteNoBreak(c.name);
        IntToStringNoBreak(c.credits);
        IntToStringNoBreak(c.enrollment);
        JoinNoBreak(c.faculty, ",");
      }
    }
    CsvTextLines(table);
  }

  const FacultyHeader: seq<string> := ["Faculty Name", "Email", "Department", "Courses"]

  /** The row `exportFacultyToCsv` writes: the name appears twice, unquoted and then quoted. */
  function FacultyFields(f: Faculty): seq<string>
  {
    [f.name, Quote(f.name), f.email, f.department, Join(f.courses, ", ")]
  }

  function FacultyTable(faculty: seq<Faculty>): (r: seq<seq<string>>)
    ensures |r| == |faculty| + 1 && r[0] == FacultyHeader
    ensures forall i :: 0 <= i < |faculty| ==> r[i + 1] == FacultyFields(faculty[i])
  {
    [FacultyHeader] + seq(|faculty|, i requires 0 <= i < |faculty| => FacultyFields(faculty[i]))
  }

  /** `exportFacultyToCsv`, as written. */
  function ExportFaculty(faculty: seq<Faculty>): (r: string)
    ensures |faculty| == 0 ==> r == Line(FacultyHeader)
  {
    CsvText(FacultyTable(faculty))
  }

  predicate FacultyPlain(f: Faculty)
  {
    NoBreak(f.name) && NoBreak(f.email) && NoBreak(f.department) &&
    forall k :: 0 <= k < |f.courses| ==> NoBreak(f.courses[k])
  }

  /** The faculty CSV, as written, is the 4-name header line and then one line per member, in
      input order, each line holding the member's 5 fields. */
  lemma ExportFacultyLines(faculty: seq<Faculty>)
    requires forall i :: 0 <= i < |faculty| ==> FacultyPlain(faculty[i])
    ensures var lines := SplitCrlf(ExportFaculty(faculty));
            |lines| == |faculty| + 1 && lines[0] == Line(FacultyHeader) &&
            forall i :: 0 <= i < |faculty| ==>
              lines[i + 1] == Line(FacultyFields(faculty[i])) &&
              |FacultyFields(faculty[i])| == |FacultyHeader| + 1
  {
    var table := FacultyTable(faculty);
    forall i, j | 0 <= i < |table| && 0 <= j < |table[i]| ensures NoBreak(table[i][j]) {
      if i > 0 {
        var f := faculty[i - 1];
        QuoteNoBreak(f.name);
        JoinNoBreak(f.courses, ", ");
      }
    }
    CsvTextLines(table);
  }

  /** Every faculty row carries one field more than the header names, and its first two fields
      are the same name twice. */
  lemma FacultyRowMisaligned(f: Faculty)
    ensures |FacultyFields(f)| == |FacultyHeader| + 1
    ensures FacultyFields(f)[0] == f.name && UnquoteField(FacultyFields(f)[1]) == Some(f.name)
    ensures FacultyFields(f)[2] == f.email && FacultyHeader[1] == "Email"
  {
    QuoteRoundTrip(f.name);
  }

  /** The row the header describes: quoted name, email, department, courses. */
  function FacultyFieldsCorrected(f: Faculty): seq<string>
  {
    [Quote(f.name), f.email, f.department, Join(f.courses, ", ")]
  }

  function FacultyTableCorrected(faculty: seq<Faculty>): (r: seq<seq<string>>)
    ensures |r| == |faculty| + 1 && r[0] == FacultyHeader
    ensures forall i :: 0 <= i < |faculty| ==> r[i + 1] == FacultyFieldsCorrected(faculty[i])
  {
    [FacultyHeader] + seq(|faculty|, i requires 0 <= i < |faculty| => FacultyFieldsCorrected(faculty[i]))
  }

  function ExportFacultyCorrected(faculty: seq<Faculty>): (r: string)
    ensures |faculty| == 0 ==> r == Line(FacultyHeader)
  {
    CsvText(FacultyTableCorrected(faculty))
  }

  /** The corrected faculty CSV is the header line and then one line per member, in input
      order, each line holding exactly as many fields as the header. */
  lemma ExportFacultyCorrectedLines(faculty: seq<Faculty>)
    requires forall i :: 0 <= i < |faculty| ==> FacultyPlain(faculty[i])
    ensures var lines := SplitCrlf(ExportFacultyCorrected(faculty));
            |lines| == |faculty| + 1 && lines[0] == Line(FacultyHeader) &&
            forall i :: 0 <= i < |faculty| ==>
              lines[i + 1] == Line(FacultyFieldsCorrected(faculty[i])) &&
              |FacultyFieldsCorrected(faculty[i])| == |FacultyHeader|
  {
    var table := FacultyTableCorrected(faculty);
    forall i, j | 0 <= i < |table| && 0 <= j < |table[i]| ensures NoBreak(table[i][j]) {
      if i > 0 {
        var f := faculty[i - 1];
        QuoteNoBreak(f.name);
        JoinNoBreak(f.courses, ", ");
      }
    }
    CsvTextLines(table);
  }

  /** In the corrected export every row has as many fields as the header, and each field is
      the one that header names. */
  lemma FacultyRowAligned(f: Faculty)
    ensures |FacultyFieldsCorrected(f)| == |FacultyHeader|
    ensures UnquoteField(FacultyFieldsCorrected(f)[0]) == Some(f.name)
    ensures FacultyFieldsCorrected(f)[1] == f.email && FacultyFieldsCorrected(f)[2] == f.department
  {
    QuoteRoundTrip(f.name);
  }

  const TrendHeader: seq<string> := ["Month", "Total Enrollments"]

  function TrendFields(t: EnrollmentTrend): seq<string>
  {
    [t.month, IntToString(t.enrollments)]
  }

  function TrendTable(trends: seq<EnrollmentTrend>): (r: seq<seq<string>>)
    ensures |r| == |trends| + 1 && r[0] == TrendHeader
    ensures forall i :: 0 <= i < |trends| ==> r[i + 1] == TrendFields(trends[i])
  {
    [TrendHeader] + seq(|trends|, i requires 0 <= i < |trends| => TrendFields(trends[i]))
  }

  /** `exportEnrollmentTrends`: nothing for missing (`undefined`) or empty trends. */
  function ExportEnrollmentTrends(trends: Option<seq<EnrollmentTrend>>): (r: Option<string>)
    ensures r.None? <==> trends.None? || |trends.value| == 0
    ensures r.Some? ==> r.value == CsvText(TrendTable(trends.value))
  {
    if trends.None? || |trends.value| == 0 then None else Some(CsvText(TrendTable(trends.value)))
  }

  lemma ExportTrendsLines(trends: seq<EnrollmentTrend>)
    requires |trends| > 0
    requires forall i :: 0 <= i < |trends| ==> NoBreak(trends[i].month)
    ensures ExportEnrollmentTrends(Some(trends)).Some?
    ensures var lines := SplitCrlf(ExportEnrollmentTrends(Some(trends)).value);
            |lines| == |trends| + 1 && lines[0] == Line(TrendHeader) &&
            forall i :: 0 <= i < |trends| ==>
              lines[i + 1] == trends[i].month + "," + IntToString(trends[i].enrollments)
  {
    var table := TrendTable(trends);
    forall i, j | 0 <= i < |table| && 0 <= j < |table[i]| ensures NoBreak(table[i][j]) {
      if i > 0 {
        IntToStringNoBreak(trends[i - 1].enrollments);
      }
    }
    CsvTextLines(table);
    forall i | 0 <= i < |trends|
      ensures Line(table[i + 1]) == trends[i].month + "," + IntToString(trends[i].enrollments)
    {
      PairLine(trends[i].month, IntToString(trends[i].enrollments));
    }
  }

  /** The header line of the trends export. */
  lemma TrendHeaderLine()
    ensures Line(TrendHeader) == "Month,Total Enrollments"
  {
    PairLine("Month", "Total Enrollments");
  }

  lemma PairLine(a: string, b: string)
    ensures Line([a, b]) == a + "," + b
  {
    assert [a, b][1..] == [b];
  }

  const TopHeader: seq<string> := ["Rank", "Name", "Email", "Course", "Code", "Grade", "Score"]

  /** `showNumber` is JavaScript's rendering of a number as text. */
  function TopFields(s: TopStudent, showNumber: real -> string): (r: seq<string>)
    ensures |r| == |TopHeader|
    ensures r[1] == Quote(s.name) && r[3] == Quote(s.courseName)
  {
    [IntToString(s.rank), Quote(s.name), s.email, Quote(s.courseName), s.courseCode, s.grade,
     showNumber(s.score)]
  }

  function TopTable(top: seq<TopStudent>, showNumber: real -> string): (r: seq<seq<string>>)
    ensures |r| == |top| + 1 && r[0] == TopHeader
    ensures forall i :: 0 <= i < |top| ==> r[i + 1] == TopFields(top[i], showNumber)
  {
    [TopHeader] + seq(|top|, i requires 0 <= i < |top| => TopFields(top[i], showNumber))
  }

  /** `exportTopStudents`: nothing for an empty leaderboard. */
  function ExportTopStudents(top: seq<TopStudent>, showNumber: real -> string): (r: Option<string>)
    ensures r.None? <==> |top| == 0
    ensures r.Some? ==> r.value == CsvText(TopTable(top, showNumber))
  {
    if |top| == 0 then None else Some(CsvText(TopTable(top, showNumber)))
  }

  predicate TopPlain(s: TopStudent, showNumber: real -> string)
  {
    NoBreak(s.name) && NoBreak(s.email) && NoBreak(s.courseName) && NoBreak(s.courseCode) &&
    NoBreak(s.grade) && NoBreak(showNumber(s.score))
  }

  lemma ExportTopStudentsLines(top: seq<TopStudent>, showNumber: real -> string)
    requires |top| > 0
    requires forall i :: 0 <= i < |top| ==> TopPlain(top[i], showNumber)
    ensures ExportTopStudents(top, showNumber).Some?
    ensures var lines := SplitCrlf(ExportTopStudents(top, showNumber).value);
            |lines| == |top| + 1 && lines[0] == Line(TopHeader) &&
            forall i :: 0 <= i < |top| ==> lines[i + 1] == Line(TopFields(top[i], showNumber))
  {
    var table := TopTable(top, showNumber);
    forall i, j | 0 <= i < |table| && 0 <= j < |table[i]| ensures NoBreak(table[i][j]) {
      if i > 0 {
        var s := top[i - 1];
        QuoteNoBreak(s.name);
        QuoteNoBreak(s.courseName);
        IntToStringNoBreak(s.rank);
      }
    }
    CsvTextLines(table);
  }
}
