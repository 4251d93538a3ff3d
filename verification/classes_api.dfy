/** The class route (`/api/classes`): a listing filtered by the session's role and
    ordered by day, and an administrator-only creation that stores the body as given. */
module ClassesApi {
  import opened Common
  import opened Sorting
  import opened Schema

  /** Whether a user of a recognised role sees a class: an administrator sees every
      class, a teacher the classes of their own teacher profile, a parent the classes
      in which one of their children is enrolled. */
  predicate Visible(a: Actor, c: ClassSlot, teachers: seq<TeacherProfile>,
                    enrollments: seq<Enrollment>, students: seq<Student>)
  {
    match a.role
    case Admin => true
    case Teacher => TaughtBy(teachers, c, a.id)
    case Parent => HasChildEnrolled(enrollments, students, c, a.id)
    case OtherRole => false
  }

  /** The `where` clause of the role's query. */
  function VisibleClasses(a: Actor, classes: seq<ClassSlot>, teachers: seq<TeacherProfile>,
                          enrollments: seq<Enrollment>, students: seq<Student>): (r: seq<ClassSlot>)
    ensures forall c :: c in r <==> c in classes && Visible(a, c, teachers, enrollments, students)
    ensures multiset(r) <= multiset(classes)
    ensures a.role == Admin ==> r == classes
  {
    var p := (c: ClassSlot) => Visible(a, c, teachers, enrollments, students);
    if a.role == Admin then
      FilterAll(classes, p);
      Filter(classes, p)
    else Filter(classes, p)
  }

  /** `GET`: 401 without a session, 403 for an unrecognised role, otherwise the
      visible classes ordered by `dayOfWeek`. */
  function ListClasses(session: Option<Actor>, classes: seq<ClassSlot>, teachers: seq<TeacherProfile>,
                       enrollments: seq<Enrollment>, students: seq<Student>): (r: Reply<seq<ClassSlot>>)
    ensures r == Fail(Unauthorized) <==> session.None?
    ensures r == Fail(Forbidden) <==> session.Some? && session.value.role == OtherRole
    ensures r.Fail? || r.Ok?
    ensures r.Ok? ==> multiset(r.body) == multiset(VisibleClasses(session.value, classes, teachers, enrollments, students))
    ensures r.Ok? ==> SortedByKey(r.body, (c: ClassSlot) => c.dayOfWeek)
  {
    if session.None? then Fail(Unauthorized)
    else if session.value.role == OtherRole then Fail(Forbidden)
    else Ok(SortByKey(VisibleClasses(session.value, classes, teachers, enrollments, students),
                      (c: ClassSlot) => c.dayOfWeek))
  }

  /** What each role receives from `GET`: an administrator every class, a teacher
      exactly the classes of their own profile, a parent exactly the classes one of
      their children is enrolled in. */
  lemma ListedClassesByRole(session: Option<Actor>, classes: seq<ClassSlot>, teachers: seq<TeacherProfile>,
                            enrollments: seq<Enrollment>, students: seq<Student>, c: ClassSlot)
    requires session.Some? && session.value.role != OtherRole
    ensures ListClasses(session, classes, teachers, enrollments, students).Ok?
    ensures c in ListClasses(session, classes, teachers, enrollments, students).body <==>
      c in classes && Visible(session.value, c, teachers, enrollments, students)
  {
    var visible := VisibleClasses(session.value, classes, teachers, enrollments, students);
    var body := ListClasses(session, classes, teachers, enrollments, students).body;
    assert multiset(body) == multiset(visible);
    assert c in body <==> c in multiset(body);
    assert c in visible <==> c in multiset(visible);
  }

  /** The body of `POST`; the instants are the `new Date(...)` of the submitted strings. */
  datatype ClassBody = ClassBody(
    subject: string, teacherId: Id, dayOfWeek: int, startTime: int, endTime: int, maxStudents: int)

  /** The guards of `POST`: 401 unless the session's role is ADMIN; the store refuses
      (500) a `teacherId` that names no teacher profile. Nothing else is checked. */
  function PostCheck(session: Option<Actor>, teachers: seq<TeacherProfile>, b: ClassBody): (r: Option<Reason>)
    ensures r == Some(Unauthorized) <==> !HasAdminRole(session)
    ensures r == Some(ServerError) <==> HasAdminRole(session) && forall t :: t in teachers ==> t.id != b.teacherId
    ensures r == None <==> HasAdminRole(session) && exists t :: t in teachers && t.id == b.teacherId
    ensures r.Some? ==> r.value in {Unauthorized, ServerError}
  {
    if !HasAdminRole(session) then Some(Unauthorized)
    else if FirstWhere(teachers, (t: TeacherProfile) => t.id == b.teacherId).None? then Some(ServerError)
    else None
  }

  /** Creation looks only at the role and the teacher: the day, the times and the
      capacity are never validated, so overlapping slots, an end before the start or
      a capacity below one are all stored. */
  lemma PostIgnoresSchedule(session: Option<Actor>, teachers: seq<TeacherProfile>, b: ClassBody,
                            day: int, start: int, end: int, capacity: int)
    ensures PostCheck(session, teachers, b) ==
      PostCheck(session, teachers, b.(dayOfWeek := day, startTime := start, endTime := end, maxStudents := capacity))
  {
  }

  /** `POST`: store the class exactly as submitted. */
  method PostClass(db: Database, session: Option<Actor>, b: ClassBody) returns (reply: Reply<ClassSlot>)
    requires db.Valid()
    modifies db`classes, db`nextId
    ensures db.Valid()
    ensures PostCheck(session, old(db.teachers), b).Some? ==>
      && reply == Fail(PostCheck(session, old(db.teachers), b).value)
      && db.classes == old(db.classes) && db.nextId == old(db.nextId)
    ensures PostCheck(session, old(db.teachers), b) == None ==>
      && reply == Created(ClassSlot(old(db.nextId), b.subject, b.teacherId, b.dayOfWeek,
                                    b.startTime, b.endTime, b.maxStudents))
      && db.classes == old(db.classes) + [reply.body]
      && db.nextId == old(db.nextId) + 1
  {
    var failure := PostCheck(session, db.teachers, b);
    if failure.Some? {
      return Fail(failure.value);
    }
    var row := ClassSlot(db.nextId, b.subject, b.teacherId, b.dayOfWeek, b.startTime, b.endTime, b.maxStudents);
    NothingEnrolledInFreshClass(db.enrollments, db.nextId);
    db.classes := db.classes + [row];
    db.nextId := db.nextId + 1;
    reply := Created(row);
  }

  /** A class id not yet handed out has no enrollments. */
  lemma {:induction false} NothingEnrolledInFreshClass(enrollments: seq<Enrollment>, id: Id)
    requires forall e :: e in enrollments ==> e.classId < id
    ensures Enrolled(enrollments, id) == 0
  {
    if |enrollments| > 0 {
      assert enrollments[0] in enrollments;
      NothingEnrolledInFreshClass(enrollments[1..], id);
    }
  }
}
