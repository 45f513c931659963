/** The records the data store serves (interface/index.ts), as immutable values. */
module Records {

  /** A student. `year` is the academic-year band ("Freshman" .. "Senior"), kept as the string the
      store holds; `enrollmentYear` is a stored number that the handlers modelled here copy but never
      read; `enrollmentDate` is the raw date text; `enrolledCourses` holds course references. */
  datatype Student = Student(
    id: string,
    name: string,
    email: string,
    enrollmentYear: int,
    enrollmentDate: string,
    year: string,
    gpa: real,
    enrolledCourses: seq<string>)

  /** A course. `faculty` is the list of assigned faculty ids. */
  datatype Course = Course(
    id: string,
    name: string,
    code: string,
    faculty: seq<string>,
    enrollment: int,
    credits: int)

  datatype Faculty = Faculty(
    id: string,
    name: string,
    email: string,
    courses: seq<string>,
    department: string)

  /** One (student, course) grade: the recorded letter and numeric score. */
  datatype Grade = Grade(studentId: string, courseId: string, grade: string, score: real)

  /** A calendar month index, 0 = January .. 11 = December (`Date.prototype.getMonth`). */
  type Month = m: int | 0 <= m < 12

  /** The year and month a date falls in, in the server's time zone. */
  datatype YearMonth = YearMonth(year: int, month: Month)
}

/** The records the analytics handlers produce and the CSV exports consume. */
module Derived {

  /** One month of the enrollment histogram: a label such as "Jan 2024" and its count. */
  datatype EnrollmentTrend = EnrollmentTrend(month: string, enrollments: int)

  /** One leaderboard entry: a grade joined with its student and course, and its rank. */
  datatype TopStudent = TopStudent(
    id: string,
    name: string,
    email: string,
    courseName: string,
    courseCode: string,
    grade: string,
    score: real,
    rank: int)
}
