/** The dashboard counters (`/api/dashboard/stats`): totals over the whole store for an
    administrator, over their own classes for a teacher, over their own children for
    a parent; every pending count counts only PENDING requests. */
module DashboardStats {
  import opened Common
  import opened Schema

  /** The JSON object returned: `{}` (no counters), the three totals of an
      administrator or teacher, or the parent's counters. */
  datatype Stats =
    | NoStats
    | Totals(totalClasses: nat, totalStudents: nat, pendingRequests: nat)
    | ParentTotals(totalClasses: nat, upcomingClasses: nat, pendingRequests: nat)

  predicate IsPending(ch: ScheduleChange) {
    ch.status == Pending
  }

  /** `where: { teacherId }` on a class. */
  function OfTeacher(profileId: Id): ClassSlot -> bool {
    (c: ClassSlot) => c.teacherId == profileId
  }

  /** `where: { class: { teacherId } }` on an enrollment. */
  function InClassOf(classes: seq<ClassSlot>, profileId: Id): Enrollment -> bool {
    (e: Enrollment) => exists c :: c in classes && c.id == e.classId && c.teacherId == profileId
  }

  /** `where: { student: { parentId } }` on an enrollment. */
  function OfChildOf(students: seq<Student>, parentId: Id): Enrollment -> bool {
    (e: Enrollment) => ChildOf(students, e.studentId, parentId)
  }

  /** `where: { enrollment: <on the enrollment>, status: 'PENDING' }` on a request. */
  function PendingOn(enrollments: seq<Enrollment>, onEnrollment: Enrollment -> bool): ScheduleChange -> bool {
    (ch: ScheduleChange) => ch.status == Pending &&
      exists e :: e in enrollments && e.id == ch.enrollmentId && onEnrollment(e)
  }

  /** `where: { enrollments: { some: <child of the parent> }, startTime: { gte: now } }`. */
  function UpcomingFor(enrollments: seq<Enrollment>, students: seq<Student>, parentId: Id, now: int): ClassSlot -> bool {
    (c: ClassSlot) => HasChildEnrolled(enrollments, students, c, parentId) && c.startTime >= now
  }

  /** `teacher.findUnique({ where: { userId } })`. */
  function TeacherProfileOf(teachers: seq<TeacherProfile>, userId: Id): (r: Option<TeacherProfile>)
    ensures r.Some? ==> r.value in teachers && r.value.userId == userId
    ensures r.None? <==> forall t :: t in teachers ==> t.userId != userId
  {
    FirstWhere(teachers, (t: TeacherProfile) => t.userId == userId)
  }

  /** `GET`, with the clock reading `now` passed in. */
  function ComputeStats(session: Option<Actor>, classes: seq<ClassSlot>, students: seq<Student>,
                        enrollments: seq<Enrollment>, changes: seq<ScheduleChange>,
                        teachers: seq<TeacherProfile>, now: int): (r: Reply<Stats>)
    ensures r == Fail(Unauthorized) <==> session.None?
    ensures session.Some? ==> r.Ok?
    ensures HasAdminRole(session) ==> r.body == Totals(|classes|, |students|, Count(changes, IsPending))
    ensures session.Some? && session.value.role == OtherRole ==> r.body == NoStats
    ensures session.Some? && session.value.role == Teacher ==>
      match TeacherProfileOf(teachers, session.value.id)
      case None => r.body == NoStats
      case Some(p) => r.body == Totals(Count(classes, OfTeacher(p.id)),
                                       Count(enrollments, InClassOf(classes, p.id)),
                                       Count(changes, PendingOn(enrollments, InClassOf(classes, p.id))))
    ensures session.Some? && session.value.role == Parent ==>
      r.body == ParentTotals(Count(enrollments, OfChildOf(students, session.value.id)),
                             Count(classes, UpcomingFor(enrollments, students, session.value.id, now)),
                             Count(changes, PendingOn(enrollments, OfChildOf(students, session.value.id))))
  {
    if session.None? then Fail(Unauthorized)
    else
      var a := session.value;
      match a.role
      case Admin => Ok(Totals(|classes|, |students|, Count(changes, IsPending)))
      case Teacher =>
        (match TeacherProfileOf(teachers, a.id)
         case None => Ok(NoStats)
         case Some(p) =>
           Ok(Totals(Count(classes, OfTeacher(p.id)),
                     Count(enrollments, InClassOf(classes, p.id)),
                     Count(changes, PendingOn(enrollments, InClassOf(classes, p.id))))))
      case Parent =>
        Ok(ParentTotals(Count(enrollments, OfChildOf(students, a.id)),
                        Count(classes, UpcomingFor(enrollments, students, a.id, now)),
                        Count(changes, PendingOn(enrollments, OfChildOf(students, a.id)))))
      case OtherRole => Ok(NoStats)
  }

  /** The pending count a reply carries, if any. */
  function PendingOf(r: Reply<Stats>): (n: Option<nat>)
    ensures n.Some? <==> !r.Fail? && !r.body.NoStats?
  {
    if r.Fail? || r.body.NoStats? then None else Some(r.body.pendingRequests)
  }

  /** A teacher's or a parent's pending count never exceeds the administrator's over the
      same store, and a teacher never has more classes than the store. */
  lemma OwnCountsWithinTotals(session: Option<Actor>, admin: Actor, classes: seq<ClassSlot>, students: seq<Student>,
                              enrollments: seq<Enrollment>, changes: seq<ScheduleChange>,
                              teachers: seq<TeacherProfile>, now: int)
    requires admin.role == Admin
    requires PendingOf(ComputeStats(session, classes, students, enrollments, changes, teachers, now)).Some?
    ensures PendingOf(ComputeStats(session, classes, students, enrollments, changes, teachers, now)).value <=
            PendingOf(ComputeStats(Some(admin), classes, students, enrollments, changes, teachers, now)).value
    ensures ComputeStats(session, classes, students, enrollments, changes, teachers, now).body.Totals? ==>
            ComputeStats(session, classes, students, enrollments, changes, teachers, now).body.totalClasses <= |classes|
  {
    var a := session.value;
    if a.role == Teacher {
      var p := TeacherProfileOf(teachers, a.id).value;
      CountMonotone(changes, PendingOn(enrollments, InClassOf(classes, p.id)), IsPending);
    } else if a.role == Parent {
      CountMonotone(changes, PendingOn(enrollments, OfChildOf(students, a.id)), IsPending);
    }
  }

  /** A request that is not PENDING is never counted: adding one changes no counter. */
  lemma SettledRequestNotCounted(session: Option<Actor>, classes: seq<ClassSlot>, students: seq<Student>,
                                 enrollments: seq<Enrollment>, changes: seq<ScheduleChange>,
                                 teachers: seq<TeacherProfile>, now: int, ch: ScheduleChange)
    requires ch.status != Pending
    ensures ComputeStats(session, classes, students, enrollments, changes + [ch], teachers, now) ==
            ComputeStats(session, classes, students, enrollments, changes, teachers, now)
  {
    if session.Some? {
      var a := session.value;
      CountAppend(changes, ch, IsPending);
      CountAppend(changes, ch, PendingOn(enrollments, OfChildOf(students, a.id)));
      var profile := TeacherProfileOf(teachers, a.id);
      if profile.Some? {
        CountAppend(changes, ch, PendingOn(enrollments, InClassOf(classes, profile.value.id)));
      }
    }
  }

  /** A PENDING request on an enrollment in a teacher's class is counted for that
      teacher: adding it raises their pending count by one. */
  lemma PendingRequestCountedForTeacher(a: Actor, p: TeacherProfile, classes: seq<ClassSlot>, students: seq<Student>,
                                        enrollments: seq<Enrollment>, changes: seq<ScheduleChange>,
                                        teachers: seq<TeacherProfile>, now: int, ch: ScheduleChange, e: Enrollment, c: ClassSlot)
    requires a.role == Teacher && TeacherProfileOf(teachers, a.id) == Some(p)
    requires ch.status == Pending && e in enrollments && e.id == ch.enrollmentId
    requires c in classes && c.id == e.classId && c.teacherId == p.id
    ensures ComputeStats(Some(a), classes, students, enrollments, changes + [ch], teachers, now).body.pendingRequests ==
            ComputeStats(Some(a), classes, students, enrollments, changes, teachers, now).body.pendingRequests + 1
  {
    CountAppend(changes, ch, PendingOn(enrollments, InClassOf(classes, p.id)));
  }

  /** The parent's upcoming count only falls as the clock advances. */
  lemma UpcomingFallsOverTime(a: Actor, classes: seq<ClassSlot>, students: seq<Student>,
                              enrollments: seq<Enrollment>, changes: seq<ScheduleChange>,
                              teachers: seq<TeacherProfile>, earlier: int, later: int)
    requires a.role == Parent && earlier <= later
    ensures ComputeStats(Some(a), classes, students, enrollments, changes, teachers, later).body.upcomingClasses <=
            ComputeStats(Some(a), classes, students, enrollments, changes, teachers, earlier).body.upcomingClasses
  {
    CountMonotone(classes, UpcomingFor(enrollments, students, a.id, later), UpcomingFor(enrollments, students, a.id, earlier));
  }
}
