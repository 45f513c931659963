# Academic management dashboard — a Dafny model of its core

The academic management dashboard is a Next.js application. Its API route handlers read
students, courses, faculty and grades from a JSON backend and derive the following from them:

- paged and searched listings;
- a score leaderboard;
- monthly enrollment counts;
- dashboard statistics;
- course assignment.

Its front end grades scores, exports tables as CSV text, and has three small interactive
widgets: a pager, a year picker and a combobox.

This project models the logic of those parts in Dafny and proves what each of them promises.
The code is modelled as written, branch by branch. Where the code and its documentation
disagree, the code is followed. For example, `Course.faculty` is a string in the entity
interface, but the code joins it as an array (app/courses/page.tsx types it `string[]`), so
it is a sequence here.

## Module layout

There is one module per source file, plus shared helpers.

Shared helpers:

| module | what it holds |
|---|---|
| `Wrappers` | `Option` and `Result` |
| `Lists` | `find` and `filter` |
| `Text` | ASCII `toLowerCase`, `includes`, `join` and decimal rendering |
| `Records` | the entities of `interface/index.ts` |
| `StableSort` | the stable descending sort that `Array.prototype.sort` performs. It is an in-place insertion sort on an `array`, proved equal to a functional `SortDesc`. |

Per source file:

| module | models |
|---|---|
| `Grading` | `lib/utils.ts`: grading |
| `CsvExport` | `lib/utils.ts`: CSV text |
| `ApiUtils` | `lib/api-utils.ts` |
| `OffsetPaging` | the `slice` and page arithmetic shared by three routes |
| `FacultyRoute`, `CoursesRoute`, `GradesRoute` | the three paged listing routes |
| `TopStudentsRoute` | the leaderboard |
| `EnrollmentsRoute` | monthly enrollment counts |
| `StudentsRoute` | the student listing |
| `DashboardRoute` | dashboard statistics |
| `CourseAssignRoute` | course assignment; the store is a class with maps that the method updates |
| `GlobalPagination` | the pager; a class for its state, plus the page-button loop as a method |
| `YearPicker` | the year picker; a class for its state, plus pure transition functions for the proofs |
| `Combobox` | the combobox; the de-duplication loop is a method over a `seen` set |

Stand-in parameters replace what the model cannot see:

- `Option<...>` parameters are the collections the backend requests return (None: the request threw, which sends the handler to its catch-all 500 "An unexpected error occurred"). The students listing tells a thrown request (`Threw`) from a response that is not ok (`NotOk`).
- `showNumber` renders a JavaScript number as text.
- `formatDate` is dayjs formatting.
- `calendar` gives the year and month of `new Date(s)`.
- `currentYear` is `new Date().getFullYear()`.

Some behaviours across files do not match. They are modelled as each file writes them:

- The grading dialog's label says "Passing score: 42", but `scoreToGrade` passes from 52
  (components/faculty/AddGraderDialog.tsx:225). This is proved by `Grading.ScoreToGrade`.
- The leaderboard filters on the course code, but the analytics page sends a course id.
- A course assignment appends course ids to students, but the student listing resolves
  `enrolledCourses` by course code.

## Model

| member | source | states |
|---|---|---|
| `Grading.ScoreToGrade` | lib/utils.ts:35-57 | The result is `{Invalid, 0, false}` exactly when the score is NaN or outside [0,100]. Otherwise the letter is one of the thirteen letters A+ to F, passing holds iff 52 ≤ s ≤ 100, and the GPA lies in [0,4]. |
| `Grading.ScoreToGradeIsFirstMatch` | lib/utils.ts:40-56 | For 0 ≤ s ≤ 100 the result is that of the first rung of the threshold table whose bound s reaches, or F/0.0 below all of them. |
| `Grading.LadderDescending` | lib/utils.ts:40-54 | The thresholds strictly decrease, so "first match" is "highest band reached". |
| `Grading.GpaMonotone` | lib/utils.ts:40-56 | GPA never decreases as the score grows within [0,100]. |
| `Grading.FailingBand` | lib/utils.ts:40-56 | s ≥ 90 iff A+/4.0; 42 ≤ s < 47 iff D-/0.7; s < 42 iff F/0.0. |
| `Grading.AutoSuggestGrade` | lib/utils.ts:59-63 | The result is "" iff parsing fails; otherwise it is the letter of `scoreToGrade`. It is "Invalid" iff the number is outside [0,100]. |
| `CsvExport.UnescapeEscape` | lib/utils.ts:82 | Undoubling the quotes of the escaped text gives back the original text. |
| `CsvExport.QuoteRoundTrip` | lib/utils.ts:82 | Reading a quoted field as RFC 4180 section 2 defines (outer quotes removed, `""` read as `"`) gives back the original name. |
| `CsvExport.SplitJoin` | lib/utils.ts:89-91 | Splitting the `"\r\n"`-joined lines at CRLF gives back the lines, if none of them contains a carriage return. |
| `CsvExport.CsvTextLines` | lib/utils.ts:89-91 | CSV text is one line per row: each row's fields joined by ",", and the rows joined by CRLF. |
| `CsvExport.StudentFields` | lib/utils.ts:80-87 | A student row has one field per header, and its name field is the quoted name. |
| `CsvExport.StudentTable` | lib/utils.ts:71-89 | The table is the header followed by one row per student, in order. |
| `CsvExport.ExportStudents` | lib/utils.ts:65-91 | There is no output iff there are no students; otherwise the output is the CSV text of the table. |
| `CsvExport.ExportStudentsLines` | lib/utils.ts:65-91 | For students whose fields hold no line breaks, the text splits into the header line and one line per student. |
| `CsvExport.CourseFields` | lib/utils.ts:107-113 | A course row has one field per header, and its name field is the quoted name. |
| `CsvExport.CourseTable` | lib/utils.ts:100-115 | The table is the header followed by one row per course. |
| `CsvExport.ExportCourses` | lib/utils.ts:99-117 | An empty course list still exports the header line. |
| `CsvExport.ExportCoursesLines` | lib/utils.ts:99-117 | For courses without line breaks in their fields, the text is the header line and one line per course. |
| `CsvExport.FacultyTable` | lib/utils.ts:126-135 | The table is the header followed by one row per faculty member, as written. |
| `CsvExport.ExportFaculty` | lib/utils.ts:125-137 | An empty list exports the header line. |
| `CsvExport.ExportFacultyLines` | lib/utils.ts:125-137 | For members without line breaks, the text is the 4-name header line and then one line per member, in order, each line holding that member's 5 fields. |
| `CsvExport.FacultyRowMisaligned` | lib/utils.ts:126-133 | As written, a faculty row has 5 fields against a 4-field header. The plain name comes first, then the quoted name under "Email", then the e-mail. |
| `CsvExport.FacultyTableCorrected` | lib/utils.ts:126-135 | The corrected table is the header and one corrected row per member. |
| `CsvExport.ExportFacultyCorrected` | lib/utils.ts:125-137 | The corrected export of an empty list is the header line. |
| `CsvExport.ExportFacultyCorrectedLines` | lib/utils.ts:125-137 | For members without line breaks, the corrected text is the header line and then one line per member, each holding exactly as many fields as the header. |
| `CsvExport.FacultyRowAligned` | lib/utils.ts:126-133 | A corrected row has 4 fields: the quoted name, e-mail, department and courses, each under its own header. |
| `CsvExport.TrendTable` | lib/utils.ts:155-158 | The table is the "Month,Total Enrollments" header and one row per trend. |
| `CsvExport.ExportEnrollmentTrends` | lib/utils.ts:153-160 | Undefined or empty trends give no output; otherwise the output is the CSV text of the table. |
| `CsvExport.ExportTrendsLines` | lib/utils.ts:153-160 | Each trend becomes the line `month,count`, after the header line. |
| `CsvExport.TopFields` | lib/utils.ts:175-183 | A leaderboard row has 7 fields, with the student name and course name quoted. |
| `CsvExport.TopTable` | lib/utils.ts:173-184 | The table is the header and one row per leaderboard entry. |
| `CsvExport.ExportTopStudents` | lib/utils.ts:168-186 | There is no output iff the leaderboard is empty; otherwise the output is the CSV text. |
| `CsvExport.ExportTopStudentsLines` | lib/utils.ts:172-186 | For entries without line breaks, the text is the header line and one line per entry. |
| `ApiUtils.BadRequest` | lib/api-utils.ts:10-21 | The response is BAD_REQUEST with status 400 and carries the given message. |
| `ApiUtils.NotFound` | lib/api-utils.ts:23-33 | The response is NOT_FOUND with status 404; the message defaults to "Resource not found". |
| `ApiUtils.Unauthorized` | lib/api-utils.ts:35-45 | The response is UNAUTHORIZED with status 401; the message defaults to "Unauthorized". |
| `ApiUtils.Forbidden` | lib/api-utils.ts:47-57 | The response is FORBIDDEN with status 403; the message defaults to "Forbidden". |
| `ApiUtils.InternalError` | lib/api-utils.ts:59-70 | The response is INTERNAL_ERROR with status 500; the message defaults to "Internal server error". |
| `ApiUtils.MethodNotAllowed` | lib/api-utils.ts:72-82 | The response is METHOD_NOT_ALLOWED with status 405 and the fixed message. |
| `ApiUtils.StatusTableInjective` | lib/api-utils.ts:10-82 | No two codes share a status, and only INTERNAL_ERROR has a status outside 4xx. |
| `ApiUtils.FirstMissing` | lib/api-utils.ts:89-96 | The result is the index of the first required name whose value is falsy, or none iff every value is truthy. |
| `ApiUtils.ValidateQueryParams` | lib/api-utils.ts:85-98 | The result is null iff every required parameter is truthy. Otherwise it is MISSING_PARAM naming the first falsy one. |
| `ApiUtils.ValidateNothingRequired` | lib/api-utils.ts:87-97 | With the default empty `required` list, validation always passes. |
| `OffsetPaging.ParamOr` | app/api/faculty/route.ts:9-10 | An absent `page` or `limit` takes its default; a given one is kept. |
| `OffsetPaging.CeilDiv` | app/api/faculty/route.ts:36 | For a positive limit, the value is the least page count whose pages hold every item. |
| `OffsetPaging.TotalPages` | app/api/faculty/route.ts:36 | The page count is null iff the limit is 0. It is the ceiling for a positive limit, and the JavaScript ceiling of a negative quotient for a negative limit. |
| `OffsetPaging.PaginateShape` | app/api/faculty/route.ts:26-39 | For page, limit ≥ 1: `total` counts every item, and page p is items[(p-1)·limit .. p·limit] clamped to the list. The page is non-empty iff p ≤ totalPages. |
| `OffsetPaging.PaginateMembers` | app/api/faculty/route.ts:29 | For any parameters, including negative slice bounds, a page holds only items of the list. |
| `OffsetPaging.PaginateZeroLimit` | app/api/faculty/route.ts:26-36 | With `limit=0` the page is empty and the page count is null. |
| `OffsetPaging.PagesCoverAll` | app/api/faculty/route.ts:26-39 | Pages 1 to totalPages, read in turn, give back every item once and in order. |
| `FacultyRoute.Search` | app/api/faculty/route.ts:16-24 | With a non-empty search, a member is kept iff its lower-cased name, e-mail or department contains the lower-cased search. Otherwise the list is unchanged. |
| `FacultyRoute.Get` | app/api/faculty/route.ts:6-43 | A failed request gives the 500 "An unexpected error occurred". Otherwise page and limit default to 1 and 10, and `total` is the number of matching members. |
| `FacultyRoute.GetMatches` | app/api/faculty/route.ts:16-29 | Every member on a page is a listed member that matches the search. |
| `FacultyRoute.GetPages` | app/api/faculty/route.ts:26-39 | Page p is the run of at most `limit` matching members starting at index (p-1)·limit, clipped at the end; the page count is ceil(total/limit), and the pages together are exactly the matching members. |
| `FacultyRoute.DefaultFirstTen` | app/api/faculty/route.ts:9-39 | With no parameters the response is the first ten members, and `total` is the list length. |
| `CoursesRoute.Search` | app/api/courses/route.ts:16-24 | With a non-empty search, a course is kept iff its lower-cased name contains it. Courses have neither e-mail nor department. |
| `CoursesRoute.Get` | app/api/courses/route.ts:6-43 | A failed request gives the 500 error. Otherwise page and limit take their defaults, and `total` counts the matching courses. |
| `CoursesRoute.GetMatches` | app/api/courses/route.ts:16-29 | Every course on a page is a listed course whose name matches. |
| `CoursesRoute.GetPages` | app/api/courses/route.ts:26-39 | Page p is the run of at most `limit` matching courses starting at index (p-1)·limit, clipped at the end; the page count is ceil(total/limit), and the pages together are exactly the matching courses. |
| `CoursesRoute.CodeDoesNotMatch` | app/api/courses/route.ts:16-24 | A course whose name does not contain the search is never returned, even if its code does. |
| `GradesRoute.Get` | app/api/grades/route.ts:6-33 | A failed request gives the 500 error. Otherwise `total` is the number of grades and page and limit take their defaults. |
| `GradesRoute.GetPages` | app/api/grades/route.ts:15-28 | Page p is the run of grades from index (p-1)·limit, and the pages together are the whole list. |
| `StableSort.SortDescCorrect` | app/api/analytics/top-students/route.ts:48 | The sort is non-increasing in the key and a permutation. It is stable: for every key, the elements with that key keep their order. |
| `StableSort.SortDescending` | app/api/analytics/top-students/route.ts:48 | The in-place array sort leaves the array equal to `SortDesc` of its old contents. |
| `TopStudentsRoute.JoinGrades` | app/api/analytics/top-students/route.ts:23-39 | The join yields no more rows than there are grades. |
| `TopStudentsRoute.JoinGradesMembers` | app/api/analytics/top-students/route.ts:23-39 | A row is in the join iff some grade joins to exactly that row. |
| `TopStudentsRoute.JoinOneCopies` | app/api/analytics/top-students/route.ts:25-37 | A grade joins iff both its student and its course exist. The row copies the grade, the score and the student id. |
| `TopStudentsRoute.ByCourse` | app/api/analytics/top-students/route.ts:41-45 | With a course other than "all", exactly the rows with that course code are kept. Otherwise all rows are kept. |
| `TopStudentsRoute.Get` | app/api/analytics/top-students/route.ts:6-60 | If any of the three requests throws, the result is the 500 "An unexpected error occurred". Otherwise the handler, built on the in-place sort, returns `Leaderboard` of the fetched collections. |
| `TopStudentsRoute.LeaderboardShape` | app/api/analytics/top-students/route.ts:48-56 | The leaderboard has min(20, n) entries, ranked 1, 2, … and non-increasing in score. It is the prefix of the stably sorted rows. |
| `TopStudentsRoute.TopOfRanked` | app/api/analytics/top-students/route.ts:51-56 | Entry i of the first 20 has rank i+1 and is sorted row i. |
| `TopStudentsRoute.LeaderboardCourse` | app/api/analytics/top-students/route.ts:41-56 | With a course filter every entry has that course code; without one the leaderboard is min(20, joined rows) long. |
| `TopStudentsRoute.LeaderboardFromGrades` | app/api/analytics/top-students/route.ts:23-56 | Every entry comes from a grade, with that grade's letter and score. |
| `TopStudentsRoute.LeaderboardStable` | app/api/analytics/top-students/route.ts:48 | Entries with equal scores keep their order from the grade list. |
| `EnrollmentsRoute.TargetYear` | app/api/analytics/enrollments/route.ts:9-16 | The year is the parameter if one is given, else the current year. It is accepted iff it is a number within [2000, 2100]; otherwise the result is the 400 "Invalid year" response. |
| `EnrollmentsRoute.MonthsInYear` | app/api/analytics/enrollments/route.ts:22-25 | There are no more in-year months than students. |
| `EnrollmentsRoute.CountInMonth` | app/api/analytics/enrollments/route.ts:22-33 | Month m occurs in the in-year list exactly as often as there are students whose enrollment date falls in month m of the target year; students of other years and unreadable dates count nowhere. With `MonthlyCount`, slot m counts exactly those students. |
| `EnrollmentsRoute.MonthlyCount` | app/api/analytics/enrollments/route.ts:28-33 | The 12-slot counter ends with slot m holding the number of in-year students enrolled in month m. |
| `EnrollmentsRoute.CountsSumToYearTotal` | app/api/analytics/enrollments/route.ts:28-33 | The twelve counts add up to the number of in-year students. |
| `EnrollmentsRoute.NoStudentsNoEnrollments` | app/api/analytics/enrollments/route.ts:19-33 | An empty student list gives all-zero counts. |
| `EnrollmentsRoute.Get` | app/api/analytics/enrollments/route.ts:6-62 | An invalid year gives the 400 error before any fetch. A students request that throws gives the 500 "An unexpected error occurred". Otherwise there are 12 trends, one per month in order, labelled "Mon year" and carrying that month's count. |
| `StudentsRoute.Filtered` | app/api/students/route.ts:22-36 | A student is kept iff it passes every given filter: the search on name or e-mail ignoring case, the academic year, and the enrolled course. |
| `StudentsRoute.Populate` | app/api/students/route.ts:51-56 | Each enrolled code becomes the first course in the list with that code (no earlier course has it), or undefined when there is none; the list keeps its length. |
| `StudentsRoute.Get` | app/api/students/route.ts:6-63 | A response that is not ok gives the 500 "Failed to fetch students". A request that throws gives the 500 "An unexpected error occurred". Otherwise the result is `Listing`. |
| `StudentsRoute.ListingShape` | app/api/students/route.ts:22-58 | The listing is the filtered students, stably sorted by GPA descending and populated. Nothing is lost or added. |
| `StudentsRoute.ListingFilters` | app/api/students/route.ts:22-36 | Every listed student matches the search and the academic year; with no filters everyone is listed. |
| `DashboardRoute.Get` | app/api/dashboard/route.ts:6-44 | If any of the three requests throws, the result is the 500 "An unexpected error occurred". Otherwise the handler, built on the in-place sorts, returns `DashboardOf` of the fetched collections. |
| `DashboardRoute.DashboardShape` | app/api/dashboard/route.ts:18-37 | The totals count the lists. The top-5 students and courses have min(5, n) entries, are ordered by GPA and by enrollment, and are taken from the inputs. |
| `DashboardRoute.TopStudentsAreBest` | app/api/dashboard/route.ts:18-20 | No student left out of the top 5 has a higher GPA than one of them. |
| `DashboardRoute.ChartFollowsSortedCourses` | app/api/dashboard/route.ts:21-28 | The chart data follows the sorted course array: one entry per course, non-increasing enrollment, and a "" code shown as "Unknown". Its first entries are the popular courses. |
| `CourseAssignRoute.CheckRequest` | app/api/courses/assign/route.ts:16-20 | The request passes iff courseId is truthy and studentIds is a non-empty array; otherwise the result is the 400 error. |
| `CourseAssignRoute.AssignedEffect` | app/api/courses/assign/route.ts:32-39 | Each listed student gets courseId appended, with every other field kept. Unlisted students are unchanged. |
| `CourseAssignRoute.Store.Assign` | app/api/courses/assign/route.ts:14-61 | A bad request gives 400 and an unknown course or student gives 500; both leave the store unchanged. On success, students get the course appended, the course's enrollment grows by the number of ids, and the reply counts the ids. Every patched record is the one filed under its id, which is the record `find` matched. |
| `GlobalPagination.Pager.SetTotalItems` | components/global/GlobalPagination.tsx:22-30 | A new `totalItems` prop replaces the old one and the page count follows it; the page and the limit in component state are kept. |
| `GlobalPagination.Pager.TotalPages` | components/global/GlobalPagination.tsx:30 | The page count is the least number of `limit`-sized pages holding all items. |
| `GlobalPagination.Pager.HandlePageChange` | components/global/GlobalPagination.tsx:32-36 | The new page is set, the limit is kept, and (page, limit) is reported. |
| `GlobalPagination.Pager.HandleLimitChange` | components/global/GlobalPagination.tsx:38-44 | The new limit is set, and the page becomes min(page, ceil(total/newLimit)), so it never exceeds the new page count. |
| `GlobalPagination.Pager.PreviousTarget` | components/global/GlobalPagination.tsx:142 | The Previous target is max(1, page-1). |
| `GlobalPagination.Pager.NextTarget` | components/global/GlobalPagination.tsx:167 | The Next target is min(totalPages, page+1). |
| `GlobalPagination.Pager.Previous` | components/global/GlobalPagination.tsx:142-143 | A click on the enabled Previous button (not on page 1) moves to max(1, page-1) and reports it. |
| `GlobalPagination.Pager.Next` | components/global/GlobalPagination.tsx:166-169 | A click on the enabled Next button (not on page totalPages) moves to min(totalPages, page+1) and reports it. |
| `GlobalPagination.Pager.RenderPageNumbers` | components/global/GlobalPagination.tsx:46-77 | The loop over pages 1..totalPages produces `PageItems`. |
| `GlobalPagination.ItemsAscending` | components/global/GlobalPagination.tsx:48-75 | The items come out in strictly ascending page order within 1..totalPages. |
| `GlobalPagination.ButtonIff` | components/global/GlobalPagination.tsx:49-67 | Page i has a button iff it is in range and is the first page, the last page, or within one of the current page. It is marked current iff it is the current page. |
| `GlobalPagination.EllipsisIff` | components/global/GlobalPagination.tsx:68-74 | An ellipsis is at page i iff i is in range, is the current page ± 2, and has no button. |
| `GlobalPagination.PageItemsBounded` | components/global/GlobalPagination.tsx:46-77 | There are at most 5 buttons and at most 2 ellipses, whatever the page count. |
| `GlobalPagination.RangeMatchesPage` | components/global/GlobalPagination.tsx:79-81 | On an existing page, 1 ≤ startRange ≤ endRange ≤ totalItems. The range covers exactly the items the paged routes return for that page. |
| `YearPicker.Years` | components/ui/year-picker.tsx:51 | The shown years are 12 consecutive years starting at `displayRange`. |
| `YearPicker.YearsContain` | components/ui/year-picker.tsx:51 | A year is shown iff displayRange ≤ y ≤ displayRange + 11. |
| `YearPicker.SelectableWindow` | components/ui/year-picker.tsx:102-106 | A shown year can be picked iff it lies within [minYear, maxYear]. |
| `YearPicker.Bounds` | components/ui/year-picker.tsx:24-25 | minYear defaults to 1900 and maxYear to the current year + 10. |
| `YearPicker.Initial` | components/ui/year-picker.tsx:28-32 | The picker starts closed with `value || currentYear` selected, and the window starts 6 years before the selection. |
| `YearPicker.Previous` | components/ui/year-picker.tsx:40-43 | The window moves to max(minYear, start-12), so it never starts before minYear and moves back while enabled. |
| `YearPicker.Next` | components/ui/year-picker.tsx:45-48 | The window moves to min(maxYear-11, start+12), so it never ends after maxYear. |
| `YearPicker.SelectYear` | components/ui/year-picker.tsx:34-38 | Selecting a year selects it and closes the picker, leaving the window alone. |
| `YearPicker.Recentre` | components/ui/year-picker.tsx:54-61 | While the picker is open, a selection outside the window moves the window to start at selectedYear - 6, so that it shows the selection. Otherwise nothing changes. |
| `YearPicker.RecentreIdempotent` | components/ui/year-picker.tsx:54-61 | Running the effect again changes nothing. |
| `YearPicker.PreviousUndoneWhileOpen` | components/ui/year-picker.tsx:40-61 | As written, Previous on the open picker is undone by the effect: the window returns to the one centred on the selection. |
| `YearPicker.PreviousUndoneExample` | components/ui/year-picker.tsx:40-61 | With 2026 selected in the window 2020..2031, Previous leaves the window at 2020. |
| `YearPicker.CorrectedNavigation` | components/ui/year-picker.tsx:53-61 | With the effect keyed on opening, Previous and Next move the window by one page, and opening shows the selection. |
| `YearPicker.NextDisabledTooEarly` | components/ui/year-picker.tsx:124 | As written, with maxYear 2036 and 2030 selected, Next is disabled while the selectable year 2036 is off screen. |
| `YearPicker.NextDisabledCorrectedIff` | components/ui/year-picker.tsx:124 | The corrected condition disables Next iff maxYear is on screen, matching the Previous condition for minYear. |
| `YearPicker.Picker.HandlePrevious` | components/ui/year-picker.tsx:40-43 | The component state moves as `Previous` says. |
| `YearPicker.Picker.HandleNext` | components/ui/year-picker.tsx:45-48 | The component state moves as `Next` says. |
| `YearPicker.Picker.HandleYearSelect` | components/ui/year-picker.tsx:34-38 | The state moves as `SelectYear` says, and the year is reported. |
| `YearPicker.Picker.SetOpen` | components/ui/year-picker.tsx:64 | `onOpenChange={setOpen}`: the popover's open flag becomes the given value, and the selection and the window stay as they were. |
| `YearPicker.Picker.Effect` | components/ui/year-picker.tsx:54-61 | The state moves as `Recentre` says. |
| `YearPicker.Picker.constructor` | components/ui/year-picker.tsx:21-32 | The state starts as `Initial`, with the default bounds. |
| `Combobox.UniqueOptions` | components/ui/combobox.tsx:52-61 | The `seen`-set loop returns `Dedup` of the options. |
| `Combobox.DedupDistinct` | components/ui/combobox.tsx:52-61 | No two kept options share a value, and every value of the input is kept. |
| `Combobox.DedupSubsequence` | components/ui/combobox.tsx:54 | The kept options are an order-preserving subsequence of the input. |
| `Combobox.DedupIdempotent` | components/ui/combobox.tsx:54-60 | De-duplicating twice equals de-duplicating once. |
| `Combobox.DedupKeepsFirst` | components/ui/combobox.tsx:55-59 | For every value, the kept option is the input's first option with that value. |
| `Combobox.TriggerLabel` | components/ui/combobox.tsx:75-77 | An empty value shows the placeholder, or "Select Value" when the placeholder is absent or empty. Otherwise the trigger shows the label of the first option with that value, and nothing iff there is none. |
| `Combobox.TriggerAgreesWithList` | components/ui/combobox.tsx:75-77 | Looking the value up in the de-duplicated list gives the same label as looking it up in the raw options. |
| `Combobox.AtMostOneChecked` | components/ui/combobox.tsx:117 | At most one listed option carries the check mark. |

## Left out

- Backend and HTTP I/O are left out: `instance.get`/`patch`, `fetch`, `NextResponse.json` and environment variables. Fetched collections are parameters; a request that throws is `None` (for the students listing, `Threw`), and the handler answers with its catch-all 500.
- A body-less reply (`res.data || []`) is not told apart from an empty list.
- `StudentsRoute.Get` leaves out the failure of the course fetch: the caller passes the course list, empty if that fetch failed.
- Date parsing and the clock are parameters (`calendar`, `currentYear`), because time zones and the parsing of date strings are not modelled.
- dayjs formatting is the parameter `formatDate`, and the rendering of JavaScript numbers as text (scores, years, GPA) is the parameter `showNumber`.
- String-to-number parsing (`parseFloat`, `parseInt`, `Number`) is left out: inputs arrive already parsed, as `Option`s. A NaN `page` or `limit` is not modelled.
- Infinite scores are not modelled: `Grading.ScoreToGrade` takes a real or NaN (None), so the `Infinity` case is missing.
- `toLowerCase` is ASCII lowering; Unicode case mapping is not modelled.
- `DashboardRoute.Get`: the `|| 0` fallback for a missing or NaN `gpa` or `enrollment` is not modelled. Both are numbers in the model, on which the fallback does nothing (a 0 stays 0).
- `ApiUtils.BadRequest`: the optional `details` argument is not modelled, because no caller in the core passes it.
- `ApiUtils.ValidateQueryParams` reads `params[name]` as a map lookup. Keys inherited from the object prototype (such as `constructor`) are not modelled.
- `CourseAssignRoute.Store.Assign` does not model partial commit or concurrency. The patches sent before an unknown student is reached, and the `Promise.all` ordering, are left out; the store either takes the whole update or none of it.
- `CourseAssignRoute.Store.Assign`: a student id listed twice gets the course id appended once, because both patches write the same snapshot plus the id. The enrollment still grows by the full count; this follows the code.
- The CSV course `faculty` and faculty `courses` columns are joined with "," or ", " without quoting, so a join of several names spreads over several columns. The line-level lemmas are stated for rows without line breaks, and the field split inside a line is not modelled.
- The CSV download (`downloadCSV`), `alert`, toasts and file names are left out: only the CSV text is modelled.
- `GlobalPagination.Pager.HandleLimitChange` requires a positive limit. The select offers only 5 to 50, and a zero `itemsPerPage` from the parent is not modelled.
- `GlobalPagination.Pager`: the `currentPage` and `itemsPerPage` props are read only at mount (they seed `useState`), which the constructor models; later changes to them are ignored, as in the component. The `totalItems` prop is read on every render, which `SetTotalItems` models.
- The rendering of the widgets is left out: class names, the popover, the `Select` component, and the search filtering of `CommandItem`.
- Combobox labels that are React nodes rather than text, and an `options` prop left undefined, are not modelled.
- Logging (`console.log`/`console.error`) is left out.

## Findings

| source | as written | input that shows it | evidently intended | confidence | as-written member | corrected member |
|---|---|---|---|---|---|---|
| lib/utils.ts:126-133 | each faculty row emits the name twice, so 5 fields stand under 4 headers and the quoted name lands in the "Email" column | any faculty member, e.g. name `Ann`, e-mail `a@x`: row `Ann,"Ann",a@x,…` under `Faculty Name,Email,Department,Courses` | one quoted name field, then e-mail, department and courses | high (not executed) | `CsvExport.FacultyRowMisaligned` | `CsvExport.FacultyRowAligned` |
| components/ui/year-picker.tsx:54-61 | the recentre effect depends on `displayRange`, so it runs after every Previous/Next. Any page move that takes the selection off screen is undone. | open picker, 2026 selected, window 2020..2031, press Previous: the window is 2020..2031 again | recentre only when the popover opens, as the comment on the effect says | high (not executed) | `YearPicker.PreviousUndoneWhileOpen` | `YearPicker.CorrectedNavigation` |
| components/ui/year-picker.tsx:124 | Next is disabled once `displayRange + 12 >= maxYear`, that is, while the window still ends at maxYear - 1, so the selectable year maxYear can be out of reach | maxYear 2036 (the default for 2026), 2030 selected: the window opens on 2024..2035 with Next disabled | `displayRange + 11 >= maxYear`, matching `handleNext`'s clamp to maxYear - 11 and the Previous condition | medium (not executed) | `YearPicker.NextDisabledTooEarly` | `YearPicker.NextDisabledCorrectedIff` |
