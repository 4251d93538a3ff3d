/** Self-registration (`/api/auth/register`): field, email and phone checks, the
    duplicate-account check, the pre-authorisation of parents, and the creation of the
    user with, for a parent, one student per authorised child and, for a teacher, a
    pending teacher profile. */
module Registration {
  import opened Common
  import opened Validation
  import opened Schema

  /** The request body; an absent field is "". `role` is the submitted role string,
      `OtherRole` for anything that is not a role of the store. */
  datatype RegisterBody = RegisterBody(name: string, email: string, password: string, phone: string, role: Role)

  /** An authorised student still waiting for this parent to register. */
  predicate Awaits(a: AuthorizedStudent, email: string, phone: string) {
    a.parentEmail == email && a.parentPhone == phone && !a.isRegistered
  }

  /** `Awaits` as the `where` clause of the store's queries. */
  function AwaitsWhere(email: string, phone: string): AuthorizedStudent -> bool {
    (a: AuthorizedStudent) => Awaits(a, email, phone)
  }

  /** The guards, in order: required fields, email, phone, no user with the same email
      or phone, a parent must be pre-authorised; the store refuses an unknown role when
      the user is created (500). The password's strength is never checked. */
  function RegisterCheck(users: seq<User>, authorized: seq<AuthorizedStudent>, b: RegisterBody): (r: Option<Reason>)
    ensures r.Some? ==> r.value in {MissingFields, InvalidEmail, InvalidPhone, AccountExists, ParentNotVerified, ServerError}
    ensures r == Some(MissingFields) <==> b.name == "" || b.email == "" || b.password == "" || b.phone == ""
    ensures r == None <==>
      && b.name != "" && b.email != "" && b.password != "" && b.phone != ""
      && IsEmail(b.email) && IsPhone(b.phone)
      && (forall u :: u in users ==> u.email != b.email && u.phone != b.phone)
      && (b.role == Parent ==> exists a :: a in authorized && Awaits(a, b.email, b.phone))
      && b.role != OtherRole
    ensures r == Some(InvalidEmail) <==>
      b.name != "" && b.email != "" && b.password != "" && b.phone != "" && !IsEmail(b.email)
    ensures r == Some(InvalidPhone) <==>
      b.name != "" && b.email != "" && b.password != "" && b.phone != "" && IsEmail(b.email) && !IsPhone(b.phone)
    ensures r == Some(AccountExists) <==>
      && b.name != "" && b.email != "" && b.password != "" && b.phone != ""
      && IsEmail(b.email) && IsPhone(b.phone)
      && exists u :: u in users && (u.email == b.email || u.phone == b.phone)
    ensures r == Some(ParentNotVerified) <==>
      && b.name != "" && b.email != "" && b.password != "" && b.phone != ""
      && IsEmail(b.email) && IsPhone(b.phone)
      && (forall u :: u in users ==> u.email != b.email && u.phone != b.phone)
      && b.role == Parent && forall a :: a in authorized ==> !Awaits(a, b.email, b.phone)
    ensures r == Some(ServerError) <==>
      && b.name != "" && b.email != "" && b.password != "" && b.phone != ""
      && IsEmail(b.email) && IsPhone(b.phone)
      && (forall u :: u in users ==> u.email != b.email && u.phone != b.phone)
      && b.role == OtherRole
  {
    if b.name == "" || b.email == "" || b.password == "" || b.phone == "" then Some(MissingFields)
    else if !IsEmail(b.email) then Some(InvalidEmail)
    else if !IsPhone(b.phone) then Some(InvalidPhone)
    else if FirstWhere(users, (u: User) => u.email == b.email || u.phone == b.phone).Some? then Some(AccountExists)
    else if b.role == Parent && FirstWhere(authorized, AwaitsWhere(b.email, b.phone)).None? then Some(ParentNotVerified)
    else if b.role == OtherRole then Some(ServerError)
    else None
  }

  /** The student rows created for a registering parent: one per authorised student
      awaiting them, in table order, with consecutive ids from `firstId`. */
  function NewChildren(authorized: seq<AuthorizedStudent>, email: string, phone: string, parentId: Id, firstId: Id): (r: seq<Student>)
    ensures forall s :: s in r ==> s.parentId == parentId && firstId <= s.id < firstId + |r|
  {
    if |authorized| == 0 then []
    else
      var before := NewChildren(authorized[..|authorized| - 1], email, phone, parentId, firstId);
      var a := authorized[|authorized| - 1];
      if Awaits(a, email, phone) then before + [Student(firstId + |before|, a.studentName, a.grade, parentId)]
      else before
  }

  /** The authorised-student table after registration: every row awaiting the parent is
      marked registered to the new user. */
  function MarkRegistered(authorized: seq<AuthorizedStudent>, email: string, phone: string, userId: Id): (r: seq<AuthorizedStudent>)
    ensures |r| == |authorized|
  {
    Replace(authorized, AwaitsWhere(email, phone),
            (a: AuthorizedStudent) => a.(isRegistered := true, registeredUserId := Some(userId)))
  }

  /** The user as the response shows it: every column but the password. */
  datatype PublicUser = PublicUser(
    id: Id, name: string, email: string, phone: string, role: Role, isVerified: bool, status: AccountStatus)

  const TEACHER_MESSAGE := "Registration successful. Your account is pending verification by administration."
  const WELCOME_MESSAGE := "Registration successful! You can now sign in."

  /** `POST`, with the bcrypt hash of the password passed in as `hashed`. */
  method Register(db: Database, b: RegisterBody, hashed: string) returns (reply: Reply<(string, PublicUser)>)
    requires db.Valid()
    modifies db`users, db`students, db`authorizedStudents, db`teachers, db`nextId
    ensures db.Valid()
    ensures RegisterCheck(old(db.users), old(db.authorizedStudents), b).Some? ==>
      && reply == Fail(RegisterCheck(old(db.users), old(db.authorizedStudents), b).value)
      && unchanged(db`users) && unchanged(db`students) && unchanged(db`authorizedStudents)
      && unchanged(db`teachers) && unchanged(db`nextId)
    ensures RegisterCheck(old(db.users), old(db.authorizedStudents), b) == None ==>
      var id := old(db.nextId);
      var children := if b.role == Parent then NewChildren(old(db.authorizedStudents), b.email, b.phone, id, id + 1) else [];
      && db.users == old(db.users) + [User(id, b.name, b.email, b.phone, hashed, b.role, b.role != Teacher, DefaultStatus)]
      && reply == Created((if b.role == Teacher then TEACHER_MESSAGE else WELCOME_MESSAGE,
                           PublicUser(id, b.name, b.email, b.phone, b.role, b.role != Teacher, DefaultStatus)))
      && db.students == old(db.students) + children
      && db.authorizedStudents ==
           (if b.role == Parent then MarkRegistered(old(db.authorizedStudents), b.email, b.phone, id)
            else old(db.authorizedStudents))
      && db.teachers ==
           old(db.teachers) + (if b.role == Teacher then [TeacherProfile(id + 1, id, [], "PENDING")] else [])
      && db.nextId == id + 1 + |children| + (if b.role == Teacher then 1 else 0)
  {
    var failure := RegisterCheck(db.users, db.authorizedStudents, b);
    if failure.Some? {
      return Fail(failure.value);
    }
    var id := db.nextId;
    CreateAccount(db, b, hashed);
    var message := if b.role == Teacher then TEACHER_MESSAGE else WELCOME_MESSAGE;
    reply := Created((message, PublicUser(id, b.name, b.email, b.phone, b.role, b.role != Teacher, DefaultStatus)));
  }

  /** The writes of an accepted registration: the user, then the parent's children or
      the teacher's pending profile. */
  method CreateAccount(db: Database, b: RegisterBody, hashed: string)
    requires db.Valid()
    modifies db`users, db`students, db`authorizedStudents, db`teachers, db`nextId
    ensures db.Valid()
    ensures
      var id := old(db.nextId);
      var children := if b.role == Parent then NewChildren(old(db.authorizedStudents), b.email, b.phone, id, id + 1) else [];
      && db.users == old(db.users) + [User(id, b.name, b.email, b.phone, hashed, b.role, b.role != Teacher, DefaultStatus)]
      && db.students == old(db.students) + children
      && db.authorizedStudents ==
           (if b.role == Parent then MarkRegistered(old(db.authorizedStudents), b.email, b.phone, id)
            else old(db.authorizedStudents))
      && db.teachers ==
           old(db.teachers) + (if b.role == Teacher then [TeacherProfile(id + 1, id, [], "PENDING")] else [])
      && db.nextId == id + 1 + |children| + (if b.role == Teacher then 1 else 0)
  {
    var id := db.nextId;
    AddUser(db, User(id, b.name, b.email, b.phone, hashed, b.role, b.role != Teacher, DefaultStatus));
    if b.role == Parent {
      AdmitChildren(db, b.email, b.phone, id);
    }
    if b.role == Teacher {
      AddTeacherProfile(db, TeacherProfile(db.nextId, id, [], "PENDING"));
    }
  }

  /** `teacher.create`: the profile takes the next id. */
  method AddTeacherProfile(db: Database, t: TeacherProfile)
    requires db.Valid() && t.id == db.nextId
    modifies db`teachers, db`nextId
    ensures db.Valid()
    ensures db.teachers == old(db.teachers) + [t] && db.nextId == old(db.nextId) + 1
  {
    db.teachers, db.nextId := db.teachers + [t], db.nextId + 1;
  }

  /** The parent's `for` loop: for each authorised student awaiting the parent, create
      the student and mark the authorised row registered. */
  method AdmitChildren(db: Database, email: string, phone: string, userId: Id)
    requires db.Valid()
    modifies db`students, db`authorizedStudents, db`nextId
    ensures db.Valid()
    ensures db.students == old(db.students) + NewChildren(old(db.authorizedStudents), email, phone, userId, old(db.nextId))
    ensures db.authorizedStudents == MarkRegistered(old(db.authorizedStudents), email, phone, userId)
    ensures db.nextId == old(db.nextId) + |NewChildren(old(db.authorizedStudents), email, phone, userId, old(db.nextId))|
  {
    var children, updated := ChildrenLoop(db.authorizedStudents, email, phone, userId, db.nextId);
    ghost var table := db.authorizedStudents;
    assert forall r :: r in updated ==> r.id < db.nextId by {
      forall r | r in updated ensures r.id < db.nextId {
        var k :| 0 <= k < |updated| && updated[k] == r;
        assert table[k] in table;
      }
    }
    db.students, db.authorizedStudents, db.nextId := db.students + children, updated, db.nextId + |children|;
  }

  /** The loop itself, over the rows it reads and writes. */
  method ChildrenLoop(table: seq<AuthorizedStudent>, email: string, phone: string, userId: Id, firstId: Id)
    returns (children: seq<Student>, updated: seq<AuthorizedStudent>)
    ensures children == NewChildren(table, email, phone, userId, firstId)
    ensures updated == MarkRegistered(table, email, phone, userId)
  {
    ghost var marked := MarkRegistered(table, email, phone, userId);
    children, updated := [], table;
    var next := firstId;
    for i := 0 to |table|
      invariant |updated| == |table|
      invariant forall k :: 0 <= k < i ==> updated[k] == marked[k]
      invariant forall k :: i <= k < |table| ==> updated[k] == table[k]
      invariant children == NewChildren(table[..i], email, phone, userId, firstId)
      invariant next == firstId + |children|
    {
      assert table[..i + 1][..i] == table[..i];
      var a := table[i];
      if Awaits(a, email, phone) {
        children := children + [Student(next, a.studentName, a.grade, userId)];
        next := next + 1;
        updated := updated[i := a.(isRegistered := true, registeredUserId := Some(userId))];
      }
      assert updated[i] == marked[i];
    }
    assert table[..|table|] == table;
    assert updated == marked;
  }

  /** One student per awaiting authorised row, in table order: the k-th created student
      takes the k-th awaiting row's name and grade, the new user as parent, and the
      k-th id from `firstId`. */
  lemma {:induction false} NewChildrenOnePerMatch(authorized: seq<AuthorizedStudent>, email: string, phone: string,
                                                  parentId: Id, firstId: Id)
    ensures var r, matches := NewChildren(authorized, email, phone, parentId, firstId), Filter(authorized, AwaitsWhere(email, phone));
      && |r| == |matches|
      && forall k :: 0 <= k < |r| ==>
           r[k] == Student(firstId + k, matches[k].studentName, matches[k].grade, parentId)
  {
    if |authorized| > 0 {
      var n := |authorized| - 1;
      var init, last := authorized[..n], authorized[n];
      NewChildrenOnePerMatch(init, email, phone, parentId, firstId);
      assert authorized == init + [last];
      FilterAppend(init, [last], AwaitsWhere(email, phone));
      assert [last][1..] == [];
    }
  }

  /** After registration every row that awaited the parent is registered to the new
      user, no row awaits them any more, and every other row is untouched. */
  lemma MarkRegisteredEffect(authorized: seq<AuthorizedStudent>, email: string, phone: string, userId: Id, k: nat)
    requires k < |authorized|
    ensures Awaits(authorized[k], email, phone) ==>
      MarkRegistered(authorized, email, phone, userId)[k] ==
        authorized[k].(isRegistered := true, registeredUserId := Some(userId))
    ensures !Awaits(authorized[k], email, phone) ==> MarkRegistered(authorized, email, phone, userId)[k] == authorized[k]
    ensures !Awaits(MarkRegistered(authorized, email, phone, userId)[k], email, phone)
  {
  }

  /** Registration never looks at the password beyond its presence: any two non-empty
      passwords get the same outcome. */
  lemma PasswordStrengthNotChecked(users: seq<User>, authorized: seq<AuthorizedStudent>, b: RegisterBody, other: string)
    requires b.password != "" && other != ""
    ensures RegisterCheck(users, authorized, b) == RegisterCheck(users, authorized, b.(password := other))
  {
  }

  /** A body accepted with the strong password "Passw0rd!" is accepted just the same with
      the weak password "a". */
  lemma WeakPasswordAccepted(users: seq<User>, authorized: seq<AuthorizedStudent>, b: RegisterBody)
    requires RegisterCheck(users, authorized, b.(password := "Passw0rd!")) == None
    ensures IsPasswordStrong("Passw0rd!") && !IsPasswordStrong("a")
    ensures RegisterCheck(users, authorized, b.(password := "a")) == None
  {
    PasswordRulesEachNeeded();
    PasswordStrengthNotChecked(users, authorized, b.(password := "Passw0rd!"), "a");
  }

  /** The submitted role is taken as given: anyone with an unused email and phone can
      register as an administrator, and is created verified. */
  lemma AdministratorSelfRegistration(users: seq<User>, authorized: seq<AuthorizedStudent>, b: RegisterBody)
    requires RegisterCheck(users, authorized, b.(role := Teacher)) == None
    ensures RegisterCheck(users, authorized, b.(role := Admin)) == None
  {
  }

  /** Once registered, the same details are refused as an existing account. */
  lemma SecondRegistrationRefused(users: seq<User>, authorized: seq<AuthorizedStudent>, later: seq<AuthorizedStudent>,
                                  b: RegisterBody, u: User)
    requires RegisterCheck(users, authorized, b) == None
    requires u.email == b.email
    ensures RegisterCheck(users + [u], later, b) == Some(AccountExists)
  {
    assert u in users + [u];
  }
}
