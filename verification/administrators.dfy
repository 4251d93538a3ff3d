/** Administrator management (`/api/admin/administrators`): every method is open only
    to a session with the ADMIN role whose administrator profile holds MANAGE_ADMINS.
    Administrators are listed newest first, created with a verified ADMIN user,
    have their permissions replaced, or are deleted with their user; an administrator
    can neither change their own permissions nor delete themselves. */
module Administrators {
  import opened Common
  import opened Sorting
  import opened Schema

  /** The six permission names. */
  const ADMIN_PERMISSIONS: seq<string> :=
    ["MANAGE_USERS", "MANAGE_STUDENTS", "MANAGE_TEACHERS", "MANAGE_CLASSES", "MANAGE_ADMINS", "VIEW_REPORTS"]

  const MANAGE_ADMINS := "MANAGE_ADMINS"

  /** The `permissions` field of a body: a falsy value (absent, null, ""), some other
      value that is not an array, or an array. */
  datatype PermissionsField = Falsy | NotAnArray | Items(items: seq<string>)

  /** `Array.isArray(permissions) && permissions.every(p => ADMIN_PERMISSIONS.includes(p))`. */
  predicate ValidPermissions(f: PermissionsField) {
    f.Items? && forall p :: p in f.items ==> p in ADMIN_PERMISSIONS
  }

  /** `admin.findUnique({ where: { userId } })`. */
  function ProfileOf(admins: seq<AdminProfile>, userId: Id): (r: Option<AdminProfile>)
    ensures r.Some? ==> r.value in admins && r.value.userId == userId
    ensures r.None? <==> forall p :: p in admins ==> p.userId != userId
  {
    FirstWhere(admins, (p: AdminProfile) => p.userId == userId)
  }

  /** The gate of every method: 401 unless the role is ADMIN, 403 unless the caller's
      own profile holds MANAGE_ADMINS. */
  function Gate(session: Option<Actor>, admins: seq<AdminProfile>): (r: Option<Reason>)
    ensures r.Some? ==> r.value in {Unauthorized, InsufficientPermissions}
    ensures r == Some(Unauthorized) <==> !HasAdminRole(session)
    ensures r == None <==>
      && HasAdminRole(session) && ProfileOf(admins, session.value.id).Some?
      && MANAGE_ADMINS in ProfileOf(admins, session.value.id).value.permissions
  {
    if !HasAdminRole(session) then Some(Unauthorized)
    else match ProfileOf(admins, session.value.id)
      case None => Some(InsufficientPermissions)
      case Some(p) => if MANAGE_ADMINS !in p.permissions then Some(InsufficientPermissions) else None
  }

  /** `GET`: every administrator profile, newest first. */
  function ListAdministrators(session: Option<Actor>, admins: seq<AdminProfile>): (r: Reply<seq<AdminProfile>>)
    ensures r.Fail? <==> Gate(session, admins).Some?
    ensures r.Fail? ==> r.reason == Gate(session, admins).value
    ensures r.Ok? ==> multiset(r.body) == multiset(admins)
    ensures r.Ok? ==> forall i, j :: 0 <= i < j < |r.body| ==> r.body[i].createdAt >= r.body[j].createdAt
  {
    if Gate(session, admins).Some? then Fail(Gate(session, admins).value)
    else
      var sorted := SortByKey(admins, (p: AdminProfile) => -p.createdAt);
      assert forall i, j :: 0 <= i < j < |sorted| ==> -sorted[i].createdAt <= -sorted[j].createdAt;
      Ok(sorted)
  }

  /** The body of `POST`; an absent string field is "". */
  datatype AdminBody = AdminBody(name: string, email: string, phone: string, password: string, permissions: PermissionsField)

  /** The guards of `POST`, in order: the gate, required fields (an empty array of
      permissions counts as present), valid permissions, no user with the same email
      or phone. */
  function PostCheck(session: Option<Actor>, admins: seq<AdminProfile>, users: seq<User>, b: AdminBody): (r: Option<Reason>)
    ensures r.Some? ==> r.value in {Unauthorized, InsufficientPermissions, MissingFields, InvalidPermissions, AccountExists}
    ensures Gate(session, admins).Some? ==> r == Gate(session, admins)
    ensures r == Some(MissingFields) <==>
      Gate(session, admins) == None && (b.name == "" || b.email == "" || b.phone == "" || b.password == "" || b.permissions.Falsy?)
    ensures r == Some(InvalidPermissions) <==>
      && Gate(session, admins) == None
      && b.name != "" && b.email != "" && b.phone != "" && b.password != "" && !b.permissions.Falsy?
      && !ValidPermissions(b.permissions)
    ensures r == Some(AccountExists) <==>
      && Gate(session, admins) == None
      && b.name != "" && b.email != "" && b.phone != "" && b.password != ""
      && ValidPermissions(b.permissions)
      && exists u :: u in users && (u.email == b.email || u.phone == b.phone)
    ensures r == None <==>
      && Gate(session, admins) == None
      && b.name != "" && b.email != "" && b.phone != "" && b.password != ""
      && ValidPermissions(b.permissions)
      && forall u :: u in users ==> u.email != b.email && u.phone != b.phone
  {
    if Gate(session, admins).Some? then Gate(session, admins)
    else if b.name == "" || b.email == "" || b.phone == "" || b.password == "" || b.permissions.Falsy? then Some(MissingFields)
    else if !ValidPermissions(b.permissions) then Some(InvalidPermissions)
    else if FirstWhere(users, (u: User) => u.email == b.email || u.phone == b.phone).Some? then Some(AccountExists)
    else None
  }

  /** `POST`: a verified ADMIN user and its profile created by the caller, with the
      password's hash `hashed` and the clock reading `now` passed in. */
  method PostAdministrator(db: Database, session: Option<Actor>, b: AdminBody, hashed: string, now: int)
    returns (reply: Reply<AdminProfile>)
    requires db.Valid()
    modifies db`users, db`admins, db`nextId
    ensures db.Valid()
    ensures PostCheck(session, old(db.admins), old(db.users), b).Some? ==>
      && reply == Fail(PostCheck(session, old(db.admins), old(db.users), b).value)
      && db.users == old(db.users) && db.admins == old(db.admins) && db.nextId == old(db.nextId)
    ensures PostCheck(session, old(db.admins), old(db.users), b) == None ==>
      var userId := old(db.nextId);
      && db.users == old(db.users) + [User(userId, b.name, b.email, b.phone, hashed, Admin, true, DefaultStatus)]
      && reply == Created(AdminProfile(userId + 1, userId, b.permissions.items, session.value.id, now))
      && db.admins == old(db.admins) + [reply.body]
      && db.nextId == userId + 2
  {
    var failure := PostCheck(session, db.admins, db.users, b);
    if failure.Some? {
      return Fail(failure.value);
    }
    var userId := db.nextId;
    var profile := AdminProfile(userId + 1, userId, b.permissions.items, session.value.id, now);
    AddUser(db, User(userId, b.name, b.email, b.phone, hashed, Admin, true, DefaultStatus));
    AddAdminProfile(db, profile);
    reply := Created(profile);
  }

  /** `admin.create`: the profile takes the next id. */
  method AddAdminProfile(db: Database, a: AdminProfile)
    requires db.Valid() && a.id == db.nextId
    modifies db`admins, db`nextId
    ensures db.Valid()
    ensures db.admins == old(db.admins) + [a] && db.nextId == old(db.nextId) + 1
  {
    db.admins, db.nextId := db.admins + [a], db.nextId + 1;
  }

  /** The guards of `PUT ?id=` (the id of the administrator's user), in order: the
      gate, the id, valid permissions, not the caller, and the profile must exist (the
      store's update throws otherwise: 500). */
  function PutCheck(session: Option<Actor>, admins: seq<AdminProfile>, id: Option<Id>, permissions: PermissionsField): (r: Option<Reason>)
    ensures r.Some? ==>
      r.value in {Unauthorized, InsufficientPermissions, IdRequired, InvalidPermissions, CannotModifySelf, ServerError}
    ensures Gate(session, admins).Some? ==> r == Gate(session, admins)
    ensures r == Some(IdRequired) <==> Gate(session, admins) == None && id.None?
    ensures r == Some(InvalidPermissions) <==> Gate(session, admins) == None && id.Some? && !ValidPermissions(permissions)
    ensures r == Some(ServerError) <==>
      && Gate(session, admins) == None && id.Some? && ValidPermissions(permissions)
      && id.value != session.value.id && ProfileOf(admins, id.value).None?
    ensures r == Some(CannotModifySelf) <==>
      Gate(session, admins) == None && id.Some? && ValidPermissions(permissions) && id.value == session.value.id
    ensures r == None <==>
      && Gate(session, admins) == None && id.Some? && ValidPermissions(permissions)
      && id.value != session.value.id && ProfileOf(admins, id.value).Some?
  {
    if Gate(session, admins).Some? then Gate(session, admins)
    else if id.None? then Some(IdRequired)
    else if !ValidPermissions(permissions) then Some(InvalidPermissions)
    else if id.value == session.value.id then Some(CannotModifySelf)
    else if ProfileOf(admins, id.value).None? then Some(ServerError)
    else None
  }

  /** `admin.update({ where: { userId }, data: { permissions } })`. */
  function SetPermissions(admins: seq<AdminProfile>, userId: Id, permissions: seq<string>): (r: seq<AdminProfile>)
    ensures |r| == |admins|
  {
    Replace(admins, (p: AdminProfile) => p.userId == userId, (p: AdminProfile) => p.(permissions := permissions))
  }

  /** `PUT`: replace the administrator's permissions. */
  method PutAdministrator(db: Database, session: Option<Actor>, id: Option<Id>, permissions: PermissionsField)
    returns (reply: Reply<AdminProfile>)
    requires db.Valid()
    modifies db`admins
    ensures db.Valid()
    ensures PutCheck(session, old(db.admins), id, permissions).Some? ==>
      reply == Fail(PutCheck(session, old(db.admins), id, permissions).value) && db.admins == old(db.admins)
    ensures PutCheck(session, old(db.admins), id, permissions) == None ==>
      && reply == Ok(ProfileOf(old(db.admins), id.value).value.(permissions := permissions.items))
      && db.admins == SetPermissions(old(db.admins), id.value, permissions.items)
  {
    var failure := PutCheck(session, db.admins, id, permissions);
    if failure.Some? {
      return Fail(failure.value);
    }
    var before := ProfileOf(db.admins, id.value).value;
    ghost var old_admins := db.admins;
    db.admins := SetPermissions(db.admins, id.value, permissions.items);
    forall p | p in db.admins ensures p.id < db.nextId {
      var k :| 0 <= k < |db.admins| && db.admins[k] == p;
      assert old_admins[k] in old_admins;
    }
    reply := Ok(before.(permissions := permissions.items));
  }

  /** The caller's own profile is never changed by `PUT`, and only the named
      administrator's profile takes the new permissions. */
  lemma OwnPermissionsNeverChange(session: Option<Actor>, admins: seq<AdminProfile>, id: Option<Id>,
                                  permissions: PermissionsField, k: nat)
    requires PutCheck(session, admins, id, permissions) == None
    requires k < |admins|
    ensures admins[k].userId == session.value.id ==> SetPermissions(admins, id.value, permissions.items)[k] == admins[k]
    ensures admins[k].userId != id.value ==> SetPermissions(admins, id.value, permissions.items)[k] == admins[k]
    ensures admins[k].userId == id.value ==>
      SetPermissions(admins, id.value, permissions.items)[k] == admins[k].(permissions := permissions.items)
  {
  }

  /** The guards of `DELETE ?id=`, in order: the gate, the id, not the caller; the
      transaction throws (500, nothing deleted) unless both the profile and the user
      exist. */
  function DeleteCheck(session: Option<Actor>, admins: seq<AdminProfile>, users: seq<User>, id: Option<Id>): (r: Option<Reason>)
    ensures r.Some? ==> r.value in {Unauthorized, InsufficientPermissions, IdRequired, CannotDeleteSelf, ServerError}
    ensures Gate(session, admins).Some? ==> r == Gate(session, admins)
    ensures r == Some(IdRequired) <==> Gate(session, admins) == None && id.None?
    ensures r == Some(ServerError) <==>
      && Gate(session, admins) == None && id.Some? && id.value != session.value.id
      && ((forall p :: p in admins ==> p.userId != id.value) || (forall u :: u in users ==> u.id != id.value))
    ensures r == Some(CannotDeleteSelf) <==> Gate(session, admins) == None && id.Some? && id.value == session.value.id
    ensures r == None <==>
      && Gate(session, admins) == None && id.Some? && id.value != session.value.id
      && (exists p :: p in admins && p.userId == id.value) && (exists u :: u in users && u.id == id.value)
  {
    if Gate(session, admins).Some? then Gate(session, admins)
    else if id.None? then Some(IdRequired)
    else if id.value == session.value.id then Some(CannotDeleteSelf)
    else if ProfileOf(admins, id.value).None? then Some(ServerError)
    else if FirstWhere(users, (u: User) => u.id == id.value).None? then Some(ServerError)
    else None
  }

  /** `DELETE`: remove the administrator's profile and then their user. */
  method DeleteAdministrator(db: Database, session: Option<Actor>, id: Option<Id>) returns (reply: Reply<()>)
    requires db.Valid()
    modifies db`admins, db`users
    ensures db.Valid()
    ensures DeleteCheck(session, old(db.admins), old(db.users), id).Some? ==>
      && reply == Fail(DeleteCheck(session, old(db.admins), old(db.users), id).value)
      && db.admins == old(db.admins) && db.users == old(db.users)
    ensures DeleteCheck(session, old(db.admins), old(db.users), id) == None ==>
      && reply == Ok(())
      && db.admins == Filter(old(db.admins), (p: AdminProfile) => p.userId != id.value)
      && db.users == Filter(old(db.users), (u: User) => u.id != id.value)
  {
    var failure := DeleteCheck(session, db.admins, db.users, id);
    if failure.Some? {
      return Fail(failure.value);
    }
    db.admins := Filter(db.admins, (p: AdminProfile) => p.userId != id.value);
    db.users := Filter(db.users, (u: User) => u.id != id.value);
    reply := Ok(());
  }

  /** A deletion never removes the caller: their user and their profile survive. */
  lemma CallerSurvivesDeletion(session: Option<Actor>, admins: seq<AdminProfile>, users: seq<User>, id: Option<Id>)
    requires DeleteCheck(session, admins, users, id) == None
    ensures forall u :: u in users && u.id == session.value.id ==>
      u in Filter(users, (u: User) => u.id != id.value)
    ensures forall p :: p in admins && p.userId == session.value.id ==>
      p in Filter(admins, (p: AdminProfile) => p.userId != id.value)
  {
  }

  /** The empty list and the full list of the six names are valid sets of permissions,
      the names must match exactly (case counts), and a list is valid exactly when each
      of its parts is: one unknown name anywhere refuses the whole list. */
  lemma PermissionsWhitelist(items: seq<string>, more: seq<string>)
    ensures ValidPermissions(Items([])) && ValidPermissions(Items(ADMIN_PERMISSIONS))
    ensures !ValidPermissions(Items(["manage_admins"])) && !ValidPermissions(Items(["MANAGE_ADMIN"]))
    ensures ValidPermissions(Items(items + more)) <==> ValidPermissions(Items(items)) && ValidPermissions(Items(more))
    ensures !ValidPermissions(NotAnArray) && !ValidPermissions(Falsy)
  {
    forall i | 0 <= i < |ADMIN_PERMISSIONS|
      ensures ADMIN_PERMISSIONS[i] != "manage_admins" && ADMIN_PERMISSIONS[i] != "MANAGE_ADMIN"
    {
      assert ADMIN_PERMISSIONS[i][0] != "manage_admins"[0];
      if i == 0 {
        assert ADMIN_PERMISSIONS[i][7] != "MANAGE_ADMIN"[7];
      } else if i == 5 {
        assert ADMIN_PERMISSIONS[i][0] != "MANAGE_ADMIN"[0];
      } else {
        assert |ADMIN_PERMISSIONS[i]| != |"MANAGE_ADMIN"|;
      }
    }
    assert "manage_admins" in ["manage_admins"] && "MANAGE_ADMIN" in ["MANAGE_ADMIN"];
    assert forall x :: x in items ==> x in items + more;
    assert forall x :: x in more ==> x in items + more;
  }

  /** A session without the callback's fields is refused with 401 by every handler. */
  lemma BareSessionRefused(userId: Id, admins: seq<AdminProfile>, users: seq<User>, b: AdminBody,
                           id: Option<Id>, permissions: PermissionsField)
    ensures ListAdministrators(BareSession(userId), admins) == Fail(Unauthorized)
    ensures PostCheck(BareSession(userId), admins, users, b) == Some(Unauthorized)
    ensures PutCheck(BareSession(userId), admins, id, permissions) == Some(Unauthorized)
    ensures DeleteCheck(BareSession(userId), admins, users, id) == Some(Unauthorized)
  {
  }
}
