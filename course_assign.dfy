/** app/api/courses/assign/route.ts: enrolls a list of students in a course. The data store is a
    `Store` object holding the student and course records by id; the handler's per-student
    patches and its course patch become one method that updates both maps. */
module CourseAssignRoute {
  import opened Wrappers
  import opened Text
  import opened Records
  import opened ApiUtils

  /** The request body: `courseId` is None when missing; `studentIds` is None when it is not an
      array. */
  datatype AssignRequest = AssignRequest(courseId: Option<string>, studentIds: Option<seq<string>>)

  /** The `data` part of a success response, with its message. */
  datatype AssignResult = AssignResult(courseId: string, assignedTo: nat, message: string)

  const BadRequestMessage := "courseId and non-empty studentIds array are required"
  const FailedMessage := "Failed to assign course"

  /** The request check: a truthy `courseId` and a non-empty `studentIds` array. */
  predicate WellFormedRequest(req: AssignRequest)
  {
    Given(req.courseId) && req.studentIds.Some? && |req.studentIds.value| > 0
  }

  function CheckRequest(req: AssignRequest): (r: Option<ErrorResponse>)
    ensures r.None? <==> Given(req.courseId) && req.studentIds.Some? && |req.studentIds.value| > 0
    ensures r.Some? ==> r.value.status == 400 && r.value.error.message == BadRequestMessage
  {
    if !Given(req.courseId) || req.studentIds.None? || |req.studentIds.value| == 0 then
      Some(BadRequest(BadRequestMessage))
    else None
  }

  /** The students after the patches: every listed student's courses are its stored courses with
      `courseId` appended; a student listed twice is patched twice with the same new list. */
  function Assigned(students: map<string, Student>, ids: seq<string>, courseId: string): map<string, Student>
  {
    map id | id in students ::
      if id in ids then students[id].(enrolledCourses := students[id].enrolledCourses + [courseId])
      else students[id]
  }

  /** The listed students gain `courseId` at the end of their course list, even if they already
      had it; every other student, and the set of students, stays as it was. */
  lemma AssignedEffect(students: map<string, Student>, ids: seq<string>, courseId: string)
    requires forall k :: 0 <= k < |ids| ==> ids[k] in students
    ensures var after := Assigned(students, ids, courseId);
      after.Keys == students.Keys &&
      (forall k :: 0 <= k < |ids| ==>
         after[ids[k]].enrolledCourses == students[ids[k]].enrolledCourses + [courseId] &&
         |after[ids[k]].enrolledCourses| == |students[ids[k]].enrolledCourses| + 1 &&
         after[ids[k]].(enrolledCourses := students[ids[k]].enrolledCourses) == students[ids[k]]) &&
      (forall id :: id in students && id !in ids ==> after[id] == students[id])
  {
  }

  /** `Course assigned to ${n} student(s) successfully`. */
  function SuccessMessage(n: nat): string
  {
    "Course assigned to " + IntToString(n) + " student(s) successfully"
  }

  class Store {
    var students: map<string, Student>
    var courses: map<string, Course>

    /** Every record is filed under its own id, so the record `students.find(s => s.id === id)`
        returns is the one `PATCH /students/${id}` updates. */
    ghost predicate Valid()
      reads this
    {
      (forall id :: id in students ==> students[id].id == id) &&
      (forall id :: id in courses ==> courses[id].id == id)
    }

    constructor (students: map<string, Student>, courses: map<string, Course>)
      requires (forall id :: id in students ==> students[id].id == id)
      requires (forall id :: id in courses ==> courses[id].id == id)
      ensures Valid()
      ensures this.students == students && this.courses == courses
    {
      this.students := students;
      this.courses := courses;
    }

    /** `POST`. A malformed request is a bad request and touches nothing. A course or a student
        the store does not hold is an internal error. On success every listed student gets the
        course appended, the course's enrollment grows by the number of ids sent (duplicates
        included), and the response echoes the course id and that number. */
    method Assign(req: AssignRequest) returns (r: Result<AssignResult, ErrorResponse>)
      requires Valid()
      modifies this
      ensures Valid()
      ensures !WellFormedRequest(req) ==>
        r == Err(BadRequest(BadRequestMessage)) && students == old(students) && courses == old(courses)
      ensures WellFormedRequest(req) &&
              (req.courseId.value !in old(courses) ||
               exists k :: 0 <= k < |req.studentIds.value| && req.studentIds.value[k] !in old(students)) ==>
        r == Err(InternalError(Some(FailedMessage))) && students == old(students) && courses == old(courses)
      ensures WellFormedRequest(req) && req.courseId.value in old(courses) &&
              (forall k :: 0 <= k < |req.studentIds.value| ==> req.studentIds.value[k] in old(students)) ==>
        var courseId, ids := req.courseId.value, req.studentIds.value;
        var course := old(courses)[courseId];
        r == Ok(AssignResult(courseId, |ids|, SuccessMessage(|ids|))) &&
        students == Assigned(old(students), ids, courseId) &&
        (forall k :: 0 <= k < |ids| ==> students[ids[k]].id == ids[k]) &&
        courses == old(courses)[courseId := course.(enrollment := course.enrollment + |ids|)] &&
        courses[courseId].id == courseId
    {
      var check := CheckRequest(req);
      if check.Some? {
        return Err(check.value);
      }
      var courseId, ids := req.courseId.value, req.studentIds.value;
      var studentsCount := |ids|;
      if courseId !in courses {
        return Err(InternalError(Some(FailedMessage)));
      }
      var course := courses[courseId];
      var snapshot := students;
      var updated := snapshot;
      var k := 0;
      while k < |ids|
        invariant 0 <= k <= |ids|
        invariant forall j :: 0 <= j < k ==> ids[j] in snapshot
        invariant updated == Assigned(snapshot, ids[..k], courseId)
      {
        var id := ids[k];
        if id !in snapshot {
          return Err(InternalError(Some(FailedMessage)));
        }
        assert ids[..k + 1] == ids[..k] + [id];
        updated := updated[id := snapshot[id].(enrolledCourses := snapshot[id].enrolledCourses + [courseId])];
        k := k + 1;
      }
      assert ids[..k] == ids;
      students := updated;
      courses := courses[courseId := course.(enrollment := studentsCount + course.enrollment)];
      return Ok(AssignResult(courseId, studentsCount, SuccessMessage(studentsCount)));
    }
  }
}
