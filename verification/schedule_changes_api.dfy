/** The schedule-change route (`/api/schedule-changes`): a listing filtered by the
    session's role, newest first, and the creation of a PENDING request for one
    enrollment by an administrator or the student's parent. */
module ScheduleChangesApi {
  import opened Common
  import opened Sorting
  import opened Schema
  import opened EnrollmentsApi

  /** Whether a user of a recognised role sees a request: an administrator every one,
      a teacher those on enrollments in their own classes, a parent those on their own
      children's enrollments. */
  predicate ChangeVisible(a: Actor, ch: ScheduleChange, enrollments: seq<Enrollment>, classes: seq<ClassSlot>,
                          teachers: seq<TeacherProfile>, students: seq<Student>)
  {
    match a.role
    case Admin => true
    case Teacher =>
      exists e :: e in enrollments && e.id == ch.enrollmentId && EnrollmentTaughtBy(classes, teachers, e, a.id)
    case Parent =>
      exists e :: e in enrollments && e.id == ch.enrollmentId && ChildOf(students, e.studentId, a.id)
    case OtherRole => false
  }

  /** The `where` clause of the role's query. */
  function VisibleChanges(a: Actor, changes: seq<ScheduleChange>, enrollments: seq<Enrollment>, classes: seq<ClassSlot>,
                          teachers: seq<TeacherProfile>, students: seq<Student>): (r: seq<ScheduleChange>)
    ensures forall ch :: ch in r <==> ch in changes && ChangeVisible(a, ch, enrollments, classes, teachers, students)
    ensures multiset(r) <= multiset(changes)
    ensures a.role == Admin ==> r == changes
  {
    var p := (ch: ScheduleChange) => ChangeVisible(a, ch, enrollments, classes, teachers, students);
    if a.role == Admin then
      FilterAll(changes, p);
      Filter(changes, p)
    else Filter(changes, p)
  }

  /** `orderBy: { createdAt: 'desc' }`. */
  function ChangesNewestFirst(s: seq<ScheduleChange>): (r: seq<ScheduleChange>)
    ensures multiset(r) == multiset(s)
    ensures forall i, j :: 0 <= i < j < |r| ==> r[i].createdAt >= r[j].createdAt
  {
    var r := SortByKey(s, (ch: ScheduleChange) => -ch.createdAt);
    assert forall i, j :: 0 <= i < j < |r| ==> -r[i].createdAt <= -r[j].createdAt;
    r
  }

  /** `GET`: 401 without a session, 403 for an unrecognised role, otherwise the requests
      the role may see, newest first. */
  function ListChanges(session: Option<Actor>, changes: seq<ScheduleChange>, enrollments: seq<Enrollment>,
                       classes: seq<ClassSlot>, teachers: seq<TeacherProfile>, students: seq<Student>): (r: Reply<seq<ScheduleChange>>)
    ensures r == Fail(Unauthorized) <==> session.None?
    ensures r == Fail(Forbidden) <==> session.Some? && session.value.role == OtherRole
    ensures r.Fail? || r.Ok?
    ensures r.Ok? ==>
      multiset(r.body) == multiset(VisibleChanges(session.value, changes, enrollments, classes, teachers, students))
    ensures r.Ok? ==> forall i, j :: 0 <= i < j < |r.body| ==> r.body[i].createdAt >= r.body[j].createdAt
  {
    if session.None? then Fail(Unauthorized)
    else if session.value.role == OtherRole then Fail(Forbidden)
    else Ok(ChangesNewestFirst(VisibleChanges(session.value, changes, enrollments, classes, teachers, students)))
  }

  /** What each role receives from `GET`: an administrator every request, a teacher
      exactly those on enrollments in their classes, a parent exactly those on their
      children's enrollments. */
  lemma ListedChangesByRole(session: Option<Actor>, changes: seq<ScheduleChange>, enrollments: seq<Enrollment>,
                            classes: seq<ClassSlot>, teachers: seq<TeacherProfile>, students: seq<Student>,
                            ch: ScheduleChange)
    requires session.Some? && session.value.role != OtherRole
    ensures ListChanges(session, changes, enrollments, classes, teachers, students).Ok?
    ensures ch in ListChanges(session, changes, enrollments, classes, teachers, students).body <==>
      ch in changes && ChangeVisible(session.value, ch, enrollments, classes, teachers, students)
  {
    var visible := VisibleChanges(session.value, changes, enrollments, classes, teachers, students);
    var body := ListChanges(session, changes, enrollments, classes, teachers, students).body;
    assert multiset(body) == multiset(visible);
    assert ch in body <==> ch in multiset(body);
    assert ch in visible <==> ch in multiset(visible);
  }

  /** The body of `POST`, its instants already converted by `new Date(...)`. */
  datatype ChangeBody = ChangeBody(
    enrollmentId: Id, requestedDate: int, oldStartTime: int, oldEndTime: int,
    newStartTime: int, newEndTime: int, reason: string)

  /** `enrollment.findUnique({ where: { id } })`. */
  function EnrollmentById(enrollments: seq<Enrollment>, id: Id): (r: Option<Enrollment>)
    ensures r.Some? ==> r.value in enrollments && r.value.id == id
    ensures r.None? <==> forall e :: e in enrollments ==> e.id != id
  {
    FirstWhere(enrollments, (e: Enrollment) => e.id == id)
  }

  /** The guards of `POST`, in order: session (401), enrollment exists (404), the caller
      is an administrator or the parent of the enrolled student (403). Reading the
      parent of an enrollment whose student row is gone throws (500). */
  function RequestCheck(session: Option<Actor>, enrollments: seq<Enrollment>, students: seq<Student>,
                        b: ChangeBody): (r: Option<Reason>)
    ensures r.Some? ==> r.value in {Unauthorized, NotFound, Forbidden, ServerError}
    ensures r == Some(Unauthorized) <==> session.None?
    ensures r == Some(NotFound) <==> session.Some? && EnrollmentById(enrollments, b.enrollmentId).None?
    ensures r == Some(Forbidden) <==>
      && session.Some? && EnrollmentById(enrollments, b.enrollmentId).Some?
      && session.value.role != Admin
      && var s := StudentById(students, EnrollmentById(enrollments, b.enrollmentId).value.studentId);
         s.Some? && s.value.parentId != session.value.id
    ensures r == Some(ServerError) <==>
      && session.Some? && EnrollmentById(enrollments, b.enrollmentId).Some?
      && session.value.role != Admin
      && StudentById(students, EnrollmentById(enrollments, b.enrollmentId).value.studentId).None?
    ensures r == None <==>
      && session.Some? && EnrollmentById(enrollments, b.enrollmentId).Some?
      && var s := StudentById(students, EnrollmentById(enrollments, b.enrollmentId).value.studentId);
         (session.value.role == Admin || (s.Some? && s.value.parentId == session.value.id))
  {
    if session.None? then Some(Unauthorized)
    else match EnrollmentById(enrollments, b.enrollmentId)
      case None => Some(NotFound)
      case Some(e) =>
        if session.value.role == Admin then None
        else match StudentById(students, e.studentId)
          case None => Some(ServerError)
          case Some(s) => if s.parentId != session.value.id then Some(Forbidden) else None
  }

  /** The request the store holds after `POST`: every field from the body, the status
      PENDING, stamped `now`. */
  function NewRequest(id: Id, b: ChangeBody, now: int): (ch: ScheduleChange)
    ensures ch.status == Pending && ch.enrollmentId == b.enrollmentId && ch.reason == b.reason
    ensures ch.requestedDate == b.requestedDate
    ensures ch.oldStartTime == b.oldStartTime && ch.oldEndTime == b.oldEndTime
    ensures ch.newStartTime == b.newStartTime && ch.newEndTime == b.newEndTime
  {
    ScheduleChange(id, b.enrollmentId, b.requestedDate, b.oldStartTime, b.oldEndTime,
                   b.newStartTime, b.newEndTime, b.reason, Pending, now)
  }

  /** `POST`: store a PENDING request copied from the body, or refuse and store nothing. */
  method PostChange(db: Database, session: Option<Actor>, b: ChangeBody, now: int) returns (reply: Reply<ScheduleChange>)
    requires db.Valid()
    modifies db`changes, db`nextId
    ensures db.Valid()
    ensures RequestCheck(session, old(db.enrollments), old(db.students), b).Some? ==>
      && reply == Fail(RequestCheck(session, old(db.enrollments), old(db.students), b).value)
      && db.changes == old(db.changes) && db.nextId == old(db.nextId)
    ensures RequestCheck(session, old(db.enrollments), old(db.students), b) == None ==>
      && reply == Created(NewRequest(old(db.nextId), b, now))
      && db.changes == old(db.changes) + [reply.body]
      && db.nextId == old(db.nextId) + 1
  {
    var failure := RequestCheck(session, db.enrollments, db.students, b);
    if failure.Some? {
      return Fail(failure.value);
    }
    var row := NewRequest(db.nextId, b, now);
    db.changes := db.changes + [row];
    db.nextId := db.nextId + 1;
    reply := Created(row);
  }

  /** Only the session, the enrollment and the caller decide admission: the dates, the
      old and new times and the reason are never checked, so a new end before the new
      start, an empty reason or a date in the past are all stored, and the old times
      are whatever the client sent. */
  lemma RequestIgnoresTimesAndReason(session: Option<Actor>, enrollments: seq<Enrollment>, students: seq<Student>,
                                     b: ChangeBody, date: int, oldStart: int, oldEnd: int,
                                     newStart: int, newEnd: int, reason: string)
    ensures RequestCheck(session, enrollments, students, b) ==
      RequestCheck(session, enrollments, students,
                   ChangeBody(b.enrollmentId, date, oldStart, oldEnd, newStart, newEnd, reason))
  {
  }
}
