/** app/api/analytics/enrollments/route.ts: students enrolled per month of a target year.
    Date handling is a parameter: `calendar(text)` is the year and month that
    `new Date(text)` falls in (`None` for a date JavaScript cannot read, whose year is NaN). */
module EnrollmentsRoute {
  import opened Wrappers
  import opened Lists
  import opened Records
  import opened Derived
  import opened ApiUtils

  /** The `year` query parameter after `Number(...)`: absent (or empty), NaN, or a number. */
  datatype YearParam = Absent | NotANumber | Number(value: real)

  const MonthNames: seq<string> :=
    ["Jan", "Feb", "Mar", "Apr", "May", "Jun", "Jul", "Aug", "Sep", "Oct", "Nov", "Dec"]

  const InvalidYearMessage := "Invalid year. Use a valid year (e.g., 2023)"

  /** The year to report on: the parameter, or the current year when it is absent; a NaN or a
      year outside 2000..2100 is a bad request. */
  function TargetYear(param: YearParam, currentYear: int): (r: Result<real, ErrorResponse>)
    ensures r.Ok? <==> match param
                       case Absent => 2000 <= currentYear <= 2100
                       case NotANumber => false
                       case Number(y) => 2000.0 <= y <= 2100.0
    ensures r.Ok? && param.Absent? ==> r.value == currentYear as real
    ensures r.Ok? && param.Number? ==> r.value == param.value
    ensures r.Err? ==> r.error == BadRequest(InvalidYearMessage)
  {
    var y := match param
             case Absent => Some(currentYear as real)
             case NotANumber => None
             case Number(v) => Some(v);
    if y.None? || y.value < 2000.0 || y.value > 2100.0 then Err(BadRequest(InvalidYearMessage))
    else Ok(y.value)
  }

  /** A student's enrollment month when the enrollment falls in `year`. */
  function MonthIn(s: Student, year: real, calendar: string -> Option<YearMonth>): Option<Month>
  {
    match calendar(s.enrollmentDate)
    case Some(ym) => if ym.year as real == year then Some(ym.month) else None
    case None => None
  }

  /** `studentsInYear`, each given by its month index. */
  function MonthsInYear(students: seq<Student>, year: real, calendar: string -> Option<YearMonth>): (r: seq<Month>)
    ensures |r| <= |students|
  {
    if |students| == 0 then []
    else
      var rest := MonthsInYear(students[1..], year, calendar);
      match MonthIn(students[0], year, calendar)
      case Some(m) => [m] + rest
      case None => rest
  }

  /** How many entries of `months` are month `m`. */
  function CountOf(months: seq<Month>, m: Month): nat
  {
    if |months| == 0 then 0 else (if months[0] == m then 1 else 0) + CountOf(months[1..], m)
  }

  lemma CountOfSnoc(months: seq<Month>, x: Month, m: Month)
    ensures CountOf(months + [x], m) == CountOf(months, m) + (if x == m then 1 else 0)
  {
    if |months| > 0 {
      assert (months + [x])[1..] == months[1..] + [x];
      CountOfSnoc(months[1..], x, m);
    }
  }

  /** `monthlyCount = Array(12).fill(0)` and the `forEach` that increments one slot per student. */
  method MonthlyCount(months: seq<Month>) returns (counts: seq<nat>)
    ensures |counts| == 12
    ensures forall m: Month :: counts[m] == CountOf(months, m)
  {
    var a := new nat[12](_ => 0);
    var k := 0;
    while k < |months|
      invariant 0 <= k <= |months|
      invariant forall m: Month :: a[m] == CountOf(months[..k], m)
    {
      assert months[..k + 1] == months[..k] + [months[k]];
      forall m: Month ensures CountOf(months[..k + 1], m) == CountOf(months[..k], m) + (if months[k] == m then 1 else 0) {
        CountOfSnoc(months[..k], months[k], m);
      }
      a[months[k]] := a[months[k]] + 1;
      k := k + 1;
    }
    assert months[..|months|] == months;
    counts := a[..];
  }

  /** The chart label of month `m`: "<abbreviation> <year>"; `showNumber` is JavaScript's
      rendering of a number as text. */
  function Label(m: Month, year: real, showNumber: real -> string): string
  {
    MonthNames[m] + " " + showNumber(year)
  }

  /** `GET`: a bad request for an invalid year, checked before the students are fetched; the
      catch-all 500 when that fetch throws (None); otherwise twelve entries, January first, each
      labelled with its month and the year and counting the students enrolled in that month of
      that year. */
  method Get(param: YearParam, currentYear: int, fetched: Option<seq<Student>>,
             calendar: string -> Option<YearMonth>, showNumber: real -> string)
    returns (r: Result<seq<EnrollmentTrend>, ErrorResponse>)
    ensures TargetYear(param, currentYear).Err? ==> r == Err(BadRequest(InvalidYearMessage))
    ensures TargetYear(param, currentYear).Ok? && fetched.None? ==> r == Err(InternalError(Some(UnexpectedMessage)))
    ensures r.Ok? <==> TargetYear(param, currentYear).Ok? && fetched.Some?
    ensures r.Ok? ==>
      var year := TargetYear(param, currentYear).value;
      |r.value| == 12 &&
      forall m: Month :: r.value[m] == EnrollmentTrend(Label(m, year, showNumber),
                                                       CountOf(MonthsInYear(fetched.value, year, calendar), m))
  {
    var target := TargetYear(param, currentYear);
    if target.Err? {
      return Err(target.error);
    }
    if fetched.None? {
      return Err(InternalError(Some(UnexpectedMessage)));
    }
    var year := target.value;
    var inYear := MonthsInYear(fetched.value, year, calendar);
    var counts := MonthlyCount(inYear);
    var trends := seq(12, i requires 0 <= i < 12 => EnrollmentTrend(Label(i, year, showNumber), counts[i]));
    return Ok(trends);
  }

  // ---------------------------------------------------------------------------------------------
  // Properties of the histogram

  function Sum(c: seq<nat>): nat
  {
    if |c| == 0 then 0 else Sum(c[..|c| - 1]) + c[|c| - 1]
  }

  /** The number of entries of `months` whose month index is below `n`. */
  function CountBelow(months: seq<Month>, n: int): nat
  {
    if |months| == 0 then 0 else (if months[0] < n then 1 else 0) + CountBelow(months[1..], n)
  }

  lemma {:induction false} CountBelowStep(months: seq<Month>, n: Month)
    ensures CountBelow(months, n + 1) == CountBelow(months, n) + CountOf(months, n)
    decreases |months|
  {
    if |months| > 0 {
      CountBelowStep(months[1..], n);
    }
  }

  lemma {:induction false} CountBelowAll(months: seq<Month>)
    ensures CountBelow(months, 12) == |months|
    decreases |months|
  {
    if |months| > 0 {
      CountBelowAll(months[1..]);
    }
  }

  lemma {:induction false} SumPrefix(months: seq<Month>, c: seq<nat>, n: nat)
    requires |c| == 12 && n <= 12
    requires forall m: Month :: c[m] == CountOf(months, m)
    ensures Sum(c[..n]) == CountBelow(months, n)
    decreases n
  {
    if n == 0 {
      CountBelowZero(months);
    } else {
      SumPrefix(months, c, n - 1);
      assert c[..n][..n - 1] == c[..n - 1];
      CountBelowStep(months, n - 1);
    }
  }

  lemma {:induction false} CountBelowZero(months: seq<Month>)
    ensures CountBelow(months, 0) == 0
    decreases |months|
  {
    if |months| > 0 {
      CountBelowZero(months[1..]);
    }
  }

  /** The twelve counts add up to the number of students enrolled in the target year. */
  lemma {:induction false} CountsSumToYearTotal(months: seq<Month>, c: seq<nat>)
    requires |c| == 12
    requires forall m: Month :: c[m] == CountOf(months, m)
    ensures Sum(c) == |months|
  {
    SumPrefix(months, c, 12);
    assert c[..12] == c;
    CountBelowAll(months);
  }

  /** The student was enrolled in month `m` of `year`, read straight from its enrollment date. */
  predicate EnrolledInMonth(s: Student, year: real, calendar: string -> Option<YearMonth>, m: Month)
  {
    calendar(s.enrollmentDate).Some? && calendar(s.enrollmentDate).value.year as real == year &&
    calendar(s.enrollmentDate).value.month == m
  }

  /** The positions of the students enrolled in month `m` of `year`. */
  ghost function EnrolledIndices(students: seq<Student>, year: real, calendar: string -> Option<YearMonth>, m: Month): set<int>
  {
    set i | 0 <= i < |students| && EnrolledInMonth(students[i], year, calendar, m)
  }

  lemma {:induction false} MonthsInYearSnoc(students: seq<Student>, x: Student, year: real, calendar: string -> Option<YearMonth>)
    ensures MonthsInYear(students + [x], year, calendar) ==
            MonthsInYear(students, year, calendar) + (match MonthIn(x, year, calendar) case Some(m) => [m] case None => [])
    decreases |students|
  {
    if |students| == 0 {
      assert [x][1..] == [];
    } else {
      assert (students + [x])[1..] == students[1..] + [x];
      MonthsInYearSnoc(students[1..], x, year, calendar);
    }
  }

  /** The in-year month list holds month `m` exactly once per student enrolled in month `m` of the
      target year: students of other years, and dates that cannot be read, count nowhere. */
  lemma {:induction false} CountInMonth(students: seq<Student>, year: real, calendar: string -> Option<YearMonth>, m: Month)
    ensures CountOf(MonthsInYear(students, year, calendar), m) == |EnrolledIndices(students, year, calendar, m)|
    decreases |students|
  {
    if |students| == 0 {
      assert EnrolledIndices(students, year, calendar, m) == {};
    } else {
      var n := |students| - 1;
      var prefix, x := students[..n], students[n];
      assert students == prefix + [x];
      CountInMonth(prefix, year, calendar, m);
      MonthsInYearSnoc(prefix, x, year, calendar);
      var before := MonthsInYear(prefix, year, calendar);
      match MonthIn(x, year, calendar) {
        case Some(k) => CountOfSnoc(before, k, m);
        case None => assert before + [] == before;
      }
      var indices := EnrolledIndices(prefix, year, calendar, m);
      assert n !in indices;
      if EnrolledInMonth(x, year, calendar, m) {
        assert EnrolledIndices(students, year, calendar, m) == indices + {n};
      } else {
        assert EnrolledIndices(students, year, calendar, m) == indices;
      }
    }
  }

  /** With no students every month counts zero. */
  lemma NoStudentsNoEnrollments(year: real, calendar: string -> Option<YearMonth>, m: Month)
    ensures CountOf(MonthsInYear([], year, calendar), m) == 0
  {
  }
}
