/** The store's tables as the route handlers and scripts use them. Every table is a
    sequence of rows in storage order (the order an unordered `findMany` returns), and
    `nextId` stands for the store's identifier generator: a created row takes
    `nextId`, which then advances, so a new id never collides with an existing one. */
module Schema {
  import opened Common
  import opened TimeOfDay

  /** `UserStatus`: the column default, or `ACTIVE` as the conversion script sets it. */
  datatype AccountStatus = DefaultStatus | Active

  /** `user`. `password` holds the bcrypt hash, which is not modelled beyond being a string. */
  datatype User = User(
    id: Id, name: string, email: string, phone: string, password: string,
    role: Role, isVerified: bool, status: AccountStatus)

  /** `admin`: the administrator profile of a user. */
  datatype AdminProfile = AdminProfile(
    id: Id, userId: Id, permissions: seq<string>, createdBy: Id, createdAt: int)

  /** `teacher`: the teacher profile of a user. */
  datatype TeacherProfile = TeacherProfile(
    id: Id, userId: Id, subjects: seq<string>, verificationStatus: string)

  /** `student`: a child belonging to a parent user (the enrollment and
      schedule-change routes reach it as `enrollment.student`). */
  datatype Student = Student(id: Id, name: string, grade: string, parentId: Id)

  /** `parentStudent`: the child record the conversion script creates (the schedule
      pages reach it as `enrollment.parentStudent`). */
  datatype ParentStudent = ParentStudent(id: Id, parentId: Id, studentName: string, grade: string)

  /** `class` as the class, enrollment and schedule routes see it: a subject taught by a
      teacher profile, a numeric day (Sunday = 0), start and end instants in
      milliseconds, and a capacity. */
  datatype ClassSlot = ClassSlot(
    id: Id, subject: string, teacherId: Id, dayOfWeek: int,
    startTime: int, endTime: int, maxStudents: int)

  /** `class` as the administrator class route sees it: a name, a day name and
      "HH:mm" times. */
  datatype NamedClass = NamedClass(
    id: Id, name: string, dayOfWeek: string, startTime: string, endTime: string)

  /** `enrollment`: a student in a class. */
  datatype Enrollment = Enrollment(id: Id, studentId: Id, classId: Id, createdAt: int)

  datatype ChangeStatus = Pending | Approved | Rejected | Cancelled

  /** `scheduleChange`: a request to move one enrollment's lesson. */
  datatype ScheduleChange = ScheduleChange(
    id: Id, enrollmentId: Id, requestedDate: int,
    oldStartTime: int, oldEndTime: int, newStartTime: int, newEndTime: int,
    reason: string, status: ChangeStatus, createdAt: int)

  /** `authorizedStudent`: a child the centre has enrolled, waiting for the parent to
      register. `parentId` points at an authorised parent when one created it. */
  datatype AuthorizedStudent = AuthorizedStudent(
    id: Id, studentName: string, grade: string, enrolledClass: string,
    parentName: string, parentEmail: string, parentPhone: string,
    parentId: Option<Id>, isRegistered: bool, registeredUserId: Option<Id>, createdAt: int)

  /** One element of an authorised parent's decoded `studentsJson`. */
  datatype ChildInfo = ChildInfo(name: string, grade: string)

  /** `authorizedParent`, with `studentsJson` and `enrolledClassesJson` already decoded. */
  datatype AuthorizedParent = AuthorizedParent(
    id: Id, name: string, email: string, phone: string,
    students: seq<ChildInfo>, enrolledClasses: seq<string>,
    isRegistered: bool, registeredUserId: Option<Id>, createdAt: int)

  /** `teacher: { userId }`: the class's teacher profile belongs to the user. */
  predicate TaughtBy(teachers: seq<TeacherProfile>, c: ClassSlot, userId: Id) {
    exists t :: t in teachers && t.id == c.teacherId && t.userId == userId
  }

  /** `student: { parentId }`: the student exists and belongs to the parent. */
  predicate ChildOf(students: seq<Student>, studentId: Id, parentId: Id) {
    exists s :: s in students && s.id == studentId && s.parentId == parentId
  }

  /** `class: { teacher: { userId } }` on an enrollment. */
  predicate EnrollmentTaughtBy(classes: seq<ClassSlot>, teachers: seq<TeacherProfile>, e: Enrollment, userId: Id) {
    exists c :: c in classes && c.id == e.classId && TaughtBy(teachers, c, userId)
  }

  /** `enrollments: { some: { student: { parentId } } }` on a class. */
  predicate HasChildEnrolled(enrollments: seq<Enrollment>, students: seq<Student>, c: ClassSlot, parentId: Id) {
    exists e :: e in enrollments && e.classId == c.id && ChildOf(students, e.studentId, parentId)
  }

  /** A row the administrator class route writes: non-empty name, a day name and two
      valid "HH:mm" times. */
  predicate WellFormedNamedClass(c: NamedClass) {
    c.name != "" && IsDayName(c.dayOfWeek) && IsTimeString(c.startTime) && IsTimeString(c.endTime)
  }

  /** `classData.enrollments.length`: the enrollments of one class. */
  function Enrolled(enrollments: seq<Enrollment>, classId: Id): nat {
    Count(enrollments, (e: Enrollment) => e.classId == classId)
  }

  /** Appending one enrollment raises exactly its own class's count, by one. */
  lemma {:induction false} EnrolledAppend(enrollments: seq<Enrollment>, e: Enrollment, classId: Id)
    ensures Enrolled(enrollments + [e], classId) == Enrolled(enrollments, classId) + (if e.classId == classId then 1 else 0)
  {
    if |enrollments| == 0 {
      assert enrollments + [e] == [e];
    } else {
      assert (enrollments + [e])[0] == enrollments[0];
      assert (enrollments + [e])[1..] == enrollments[1..] + [e];
      EnrolledAppend(enrollments[1..], e, classId);
    }
  }

  /** No class holds more enrollments than its capacity (a class with a capacity
      below zero can still exist, as long as it is empty). */
  ghost predicate WithinCapacity(classes: seq<ClassSlot>, enrollments: seq<Enrollment>) {
    forall c :: c in classes ==> Enrolled(enrollments, c.id) == 0 || Enrolled(enrollments, c.id) <= c.maxStudents
  }

  /** Enrolling into an existing class that still has room keeps every class within
      its capacity, when class ids are distinct. */
  lemma AdmissionKeepsCapacity(classes: seq<ClassSlot>, enrollments: seq<Enrollment>, k: nat, e: Enrollment)
    requires WithinCapacity(classes, enrollments)
    requires forall i, j :: 0 <= i < j < |classes| ==> classes[i].id != classes[j].id
    requires k < |classes| && e.classId == classes[k].id
    requires Enrolled(enrollments, e.classId) < classes[k].maxStudents
    ensures WithinCapacity(classes, enrollments + [e])
  {
    forall c | c in classes
      ensures Enrolled(enrollments + [e], c.id) == 0 || Enrolled(enrollments + [e], c.id) <= c.maxStudents
    {
      EnrolledAppend(enrollments, e, c.id);
      if c.id == e.classId {
        var i :| 0 <= i < |classes| && classes[i] == c;
        assert i == k;
      }
    }
  }

  class Database {
    var users: seq<User>
    var admins: seq<AdminProfile>
    var teachers: seq<TeacherProfile>
    var students: seq<Student>
    var parentStudents: seq<ParentStudent>
    var classes: seq<ClassSlot>
    var namedClasses: seq<NamedClass>
    var enrollments: seq<Enrollment>
    var changes: seq<ScheduleChange>
    var authorizedStudents: seq<AuthorizedStudent>
    var authorizedParents: seq<AuthorizedParent>
    var nextId: nat

    /** Every id is below `nextId`; class ids are distinct and every enrollment names
        an id already handed out; no class is over capacity; every row of the
        administrator class table is well formed. */
    ghost predicate Valid()
      reads this
    {
      && (forall r :: r in users ==> r.id < nextId)
      && (forall r :: r in admins ==> r.id < nextId)
      && (forall r :: r in teachers ==> r.id < nextId)
      && (forall r :: r in students ==> r.id < nextId)
      && (forall r :: r in parentStudents ==> r.id < nextId)
      && (forall r :: r in classes ==> r.id < nextId)
      && (forall r :: r in namedClasses ==> r.id < nextId)
      && (forall r :: r in enrollments ==> r.id < nextId && r.classId < nextId)
      && (forall r :: r in changes ==> r.id < nextId)
      && (forall r :: r in authorizedStudents ==> r.id < nextId)
      && (forall r :: r in authorizedParents ==> r.id < nextId)
      && (forall i, j :: 0 <= i < j < |classes| ==> classes[i].id != classes[j].id)
      && WithinCapacity(classes, enrollments)
      && (forall c :: c in namedClasses ==> WellFormedNamedClass(c))
    }

    /** An empty store. */
    constructor ()
      ensures Valid() && nextId == 0
      ensures users == [] && admins == [] && teachers == [] && students == []
      ensures parentStudents == [] && classes == [] && namedClasses == [] && enrollments == []
      ensures changes == [] && authorizedStudents == [] && authorizedParents == []
    {
      users, admins, teachers, students := [], [], [], [];
      parentStudents, classes, namedClasses, enrollments := [], [], [], [];
      changes, authorizedStudents, authorizedParents := [], [], [];
      nextId := 0;
    }
  }

  /** `user.create`: the row takes the next id. */
  method AddUser(db: Database, u: User)
    requires db.Valid() && u.id == db.nextId
    modifies db`users, db`nextId
    ensures db.Valid()
    ensures db.users == old(db.users) + [u] && db.nextId == old(db.nextId) + 1
  {
    db.users, db.nextId := db.users + [u], db.nextId + 1;
  }
}
