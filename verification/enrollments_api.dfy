/** The enrollment route (`/api/enrollments`): a listing filtered by the session's role,
    newest first, and an admission that checks, in order, the session, the student,
    the caller's right to enrol that student, the class and its capacity. */
module EnrollmentsApi {
  import opened Common
  import opened Sorting
  import opened Schema

  /** Whether a user of a recognised role sees an enrollment: an administrator every
      one, a teacher those in their own classes, a parent those of their own children. */
  predicate EnrollmentVisible(a: Actor, e: Enrollment, classes: seq<ClassSlot>,
                              teachers: seq<TeacherProfile>, students: seq<Student>)
  {
    match a.role
    case Admin => true
    case Teacher => EnrollmentTaughtBy(classes, teachers, e, a.id)
    case Parent => ChildOf(students, e.studentId, a.id)
    case OtherRole => false
  }

  /** The `where` clause of the role's query. */
  function VisibleEnrollments(a: Actor, enrollments: seq<Enrollment>, classes: seq<ClassSlot>,
                              teachers: seq<TeacherProfile>, students: seq<Student>): (r: seq<Enrollment>)
    ensures forall e :: e in r <==> e in enrollments && EnrollmentVisible(a, e, classes, teachers, students)
    ensures multiset(r) <= multiset(enrollments)
    ensures a.role == Admin ==> r == enrollments
  {
    var p := (e: Enrollment) => EnrollmentVisible(a, e, classes, teachers, students);
    if a.role == Admin then
      FilterAll(enrollments, p);
      Filter(enrollments, p)
    else Filter(enrollments, p)
  }

  /** `orderBy: { createdAt: 'desc' }`. */
  function NewestFirst(s: seq<Enrollment>): (r: seq<Enrollment>)
    ensures multiset(r) == multiset(s)
    ensures forall i, j :: 0 <= i < j < |r| ==> r[i].createdAt >= r[j].createdAt
  {
    var r := SortByKey(s, (e: Enrollment) => -e.createdAt);
    assert forall i, j :: 0 <= i < j < |r| ==> -r[i].createdAt <= -r[j].createdAt;
    r
  }

  /** `GET`: 401 without a session, 403 for an unrecognised role, otherwise the
      enrollments the role may see, newest first. */
  function ListEnrollments(session: Option<Actor>, enrollments: seq<Enrollment>, classes: seq<ClassSlot>,
                           teachers: seq<TeacherProfile>, students: seq<Student>): (r: Reply<seq<Enrollment>>)
    ensures r == Fail(Unauthorized) <==> session.None?
    ensures r == Fail(Forbidden) <==> session.Some? && session.value.role == OtherRole
    ensures r.Fail? || r.Ok?
    ensures r.Ok? ==> multiset(r.body) == multiset(VisibleEnrollments(session.value, enrollments, classes, teachers, students))
    ensures r.Ok? ==> forall i, j :: 0 <= i < j < |r.body| ==> r.body[i].createdAt >= r.body[j].createdAt
  {
    if session.None? then Fail(Unauthorized)
    else if session.value.role == OtherRole then Fail(Forbidden)
    else Ok(NewestFirst(VisibleEnrollments(session.value, enrollments, classes, teachers, students)))
  }

  /** What each role receives from `GET`: an administrator every enrollment, a teacher
      exactly those in classes of their own profile, a parent exactly those of their
      own children. */
  lemma ListedEnrollmentsByRole(session: Option<Actor>, enrollments: seq<Enrollment>, classes: seq<ClassSlot>,
                                teachers: seq<TeacherProfile>, students: seq<Student>, e: Enrollment)
    requires session.Some? && session.value.role != OtherRole
    ensures ListEnrollments(session, enrollments, classes, teachers, students).Ok?
    ensures e in ListEnrollments(session, enrollments, classes, teachers, students).body <==>
      e in enrollments && EnrollmentVisible(session.value, e, classes, teachers, students)
  {
    var visible := VisibleEnrollments(session.value, enrollments, classes, teachers, students);
    var body := ListEnrollments(session, enrollments, classes, teachers, students).body;
    assert multiset(body) == multiset(visible);
    assert e in body <==> e in multiset(body);
    assert e in visible <==> e in multiset(visible);
  }

  /** `student.findUnique({ where: { id } })`. */
  function StudentById(students: seq<Student>, id: Id): (r: Option<Student>)
    ensures r.Some? ==> r.value in students && r.value.id == id
    ensures r.None? <==> forall s :: s in students ==> s.id != id
  {
    FirstWhere(students, (s: Student) => s.id == id)
  }

  /** `class.findUnique({ where: { id } })`. */
  function ClassById(classes: seq<ClassSlot>, id: Id): (r: Option<ClassSlot>)
    ensures r.Some? ==> r.value in classes && r.value.id == id
    ensures r.None? <==> forall c :: c in classes ==> c.id != id
  {
    FirstWhere(classes, (c: ClassSlot) => c.id == id)
  }

  /** The body `{ studentId, classId }`. */
  datatype EnrollBody = EnrollBody(studentId: Id, classId: Id)

  /** The guards of `POST`, in order: session (401), student exists (404), the caller is
      an administrator or the student's parent (403), class exists (404), the class
      holds fewer enrollments than its capacity (400). */
  function EnrollCheck(session: Option<Actor>, students: seq<Student>, classes: seq<ClassSlot>,
                       enrollments: seq<Enrollment>, b: EnrollBody): (r: Option<Reason>)
    ensures r.Some? ==> r.value in {Unauthorized, NotFound, Forbidden, ClassFull}
    ensures r == Some(Unauthorized) <==> session.None?
    ensures session.Some? && StudentById(students, b.studentId).None? ==> r == Some(NotFound)
    ensures r == Some(NotFound) <==>
      && session.Some?
      && (|| StudentById(students, b.studentId).None?
          || (&& (session.value.role == Admin || StudentById(students, b.studentId).value.parentId == session.value.id)
              && ClassById(classes, b.classId).None?))
    ensures r == Some(Forbidden) <==>
      && session.Some? && StudentById(students, b.studentId).Some?
      && session.value.role != Admin && StudentById(students, b.studentId).value.parentId != session.value.id
    ensures r == Some(ClassFull) <==>
      && session.Some? && StudentById(students, b.studentId).Some?
      && (session.value.role == Admin || StudentById(students, b.studentId).value.parentId == session.value.id)
      && ClassById(classes, b.classId).Some?
      && Enrolled(enrollments, b.classId) >= ClassById(classes, b.classId).value.maxStudents
    ensures r == None <==>
      && session.Some? && StudentById(students, b.studentId).Some?
      && (session.value.role == Admin || StudentById(students, b.studentId).value.parentId == session.value.id)
      && ClassById(classes, b.classId).Some?
      && Enrolled(enrollments, b.classId) < ClassById(classes, b.classId).value.maxStudents
  {
    if session.None? then Some(Unauthorized)
    else match StudentById(students, b.studentId)
      case None => Some(NotFound)
      case Some(student) =>
        if session.value.role != Admin && student.parentId != session.value.id then Some(Forbidden)
        else match ClassById(classes, b.classId)
          case None => Some(NotFound)
          case Some(c) =>
            if Enrolled(enrollments, c.id) >= c.maxStudents then Some(ClassFull) else None
  }

  /** `POST`: add one enrollment of the student in the class, stamped `now`, or refuse
      and add nothing. */
  method PostEnrollment(db: Database, session: Option<Actor>, b: EnrollBody, now: int) returns (reply: Reply<Enrollment>)
    requires db.Valid()
    modifies db`enrollments, db`nextId
    ensures db.Valid()
    ensures EnrollCheck(session, old(db.students), old(db.classes), old(db.enrollments), b).Some? ==>
      && reply == Fail(EnrollCheck(session, old(db.students), old(db.classes), old(db.enrollments), b).value)
      && db.enrollments == old(db.enrollments) && db.nextId == old(db.nextId)
    ensures EnrollCheck(session, old(db.students), old(db.classes), old(db.enrollments), b) == None ==>
      && reply == Created(Enrollment(old(db.nextId), b.studentId, b.classId, now))
      && db.enrollments == old(db.enrollments) + [reply.body]
      && db.nextId == old(db.nextId) + 1
  {
    var failure := EnrollCheck(session, db.students, db.classes, db.enrollments, b);
    if failure.Some? {
      return Fail(failure.value);
    }
    var c := ClassById(db.classes, b.classId).value;
    var k :| 0 <= k < |db.classes| && db.classes[k] == c;
    reply := Admit(db, Enrollment(db.nextId, b.studentId, b.classId, now), k);
  }

  /** The insert itself: the row takes the next id and goes at the end of the table. */
  method Admit(db: Database, row: Enrollment, k: nat) returns (reply: Reply<Enrollment>)
    requires db.Valid() && row.id == db.nextId
    requires k < |db.classes| && row.classId == db.classes[k].id
    requires Enrolled(db.enrollments, row.classId) < db.classes[k].maxStudents
    modifies db`enrollments, db`nextId
    ensures db.Valid()
    ensures reply == Created(row)
    ensures db.enrollments == old(db.enrollments) + [row] && db.nextId == old(db.nextId) + 1
  {
    AdmissionKeepsCapacity(db.classes, db.enrollments, k, row);
    assert db.classes[k] in db.classes;
    db.enrollments := db.enrollments + [row];
    db.nextId := db.nextId + 1;
    reply := Created(row);
  }

  /** An admitted enrollment raises its class's count by exactly one, and the count
      stays within the capacity. */
  lemma AdmissionRaisesCountWithinCapacity(session: Option<Actor>, students: seq<Student>, classes: seq<ClassSlot>,
                                           enrollments: seq<Enrollment>, b: EnrollBody, row: Enrollment)
    requires EnrollCheck(session, students, classes, enrollments, b) == None
    requires row.classId == b.classId
    ensures Enrolled(enrollments + [row], b.classId) == Enrolled(enrollments, b.classId) + 1
    ensures Enrolled(enrollments + [row], b.classId) <= ClassById(classes, b.classId).value.maxStudents
  {
    EnrolledAppend(enrollments, row, b.classId);
  }

  /** There is no duplicate check: once a student is enrolled in a class, the same
      request is admitted again as long as the class still has room. */
  lemma DuplicateEnrollmentAdmitted(session: Option<Actor>, students: seq<Student>, classes: seq<ClassSlot>,
                                    enrollments: seq<Enrollment>, b: EnrollBody, row: Enrollment)
    requires EnrollCheck(session, students, classes, enrollments, b) == None
    requires row.studentId == b.studentId && row.classId == b.classId
    requires Enrolled(enrollments, b.classId) + 1 < ClassById(classes, b.classId).value.maxStudents
    ensures EnrollCheck(session, students, classes, enrollments + [row], b) == None
  {
    EnrolledAppend(enrollments, row, b.classId);
  }

  /** When the store's ids are unique, a caller other than an administrator is only
      admitted for a student who is their own child. */
  lemma AdmittedOnlyForOwnChild(session: Option<Actor>, students: seq<Student>, classes: seq<ClassSlot>,
                                enrollments: seq<Enrollment>, b: EnrollBody)
    requires EnrollCheck(session, students, classes, enrollments, b) == None
    requires session.value.role != Admin
    ensures ChildOf(students, b.studentId, session.value.id)
  {
    var s := StudentById(students, b.studentId).value;
    assert s in students && s.id == b.studentId && s.parentId == session.value.id;
  }
}
