/** The authorised-student route (`/api/admin/students`): the children an administrator
    has enrolled, each with the parent details a registering parent must match. Open
    only to the ADMIN role. Creation checks fields, email and phone formats and that no
    row has the same parent email and phone; update checks fields and that no other
    row has them, but not the formats. */
module AuthorizedStudents {
  import opened Common
  import opened Sorting
  import opened Validation
  import opened Schema

  /** `GET`: every authorised student, newest first. */
  function ListAuthorized(session: Option<Actor>, rows: seq<AuthorizedStudent>): (r: Reply<seq<AuthorizedStudent>>)
    ensures r.Fail? <==> !HasAdminRole(session)
    ensures r.Fail? ==> r.reason == Unauthorized
    ensures r.Ok? ==> multiset(r.body) == multiset(rows)
    ensures r.Ok? ==> forall i, j :: 0 <= i < j < |r.body| ==> r.body[i].createdAt >= r.body[j].createdAt
  {
    if !HasAdminRole(session) then Fail(Unauthorized)
    else
      var sorted := SortByKey(rows, (a: AuthorizedStudent) => -a.createdAt);
      assert forall i, j :: 0 <= i < j < |sorted| ==> -sorted[i].createdAt <= -sorted[j].createdAt;
      Ok(sorted)
  }

  /** The body of `POST` and `PUT`; an absent field is "". */
  datatype StudentBody = StudentBody(
    studentName: string, grade: string, enrolledClass: string,
    parentName: string, parentEmail: string, parentPhone: string)

  predicate AllPresent(b: StudentBody) {
    b.studentName != "" && b.grade != "" && b.enrolledClass != "" &&
    b.parentName != "" && b.parentEmail != "" && b.parentPhone != ""
  }

  /** The row has the body's parent email and phone. */
  predicate SameParent(a: AuthorizedStudent, b: StudentBody) {
    a.parentEmail == b.parentEmail && a.parentPhone == b.parentPhone
  }

  /** The guards of `POST`, in order: role (401), fields, email, phone, and no row with
      the same parent email and the same parent phone (all 400). */
  function PostCheck(session: Option<Actor>, rows: seq<AuthorizedStudent>, b: StudentBody): (r: Option<Reason>)
    ensures r.Some? ==> r.value in {Unauthorized, MissingFields, InvalidEmail, InvalidPhone, DuplicateParentDetails}
    ensures r == Some(Unauthorized) <==> !HasAdminRole(session)
    ensures r == Some(MissingFields) <==> HasAdminRole(session) && !AllPresent(b)
    ensures r == Some(InvalidEmail) <==> HasAdminRole(session) && AllPresent(b) && !IsEmail(b.parentEmail)
    ensures r == Some(InvalidPhone) <==>
      HasAdminRole(session) && AllPresent(b) && IsEmail(b.parentEmail) && !IsPhone(b.parentPhone)
    ensures r == Some(DuplicateParentDetails) <==>
      HasAdminRole(session) && AllPresent(b) && IsEmail(b.parentEmail) && IsPhone(b.parentPhone) &&
      exists a :: a in rows && SameParent(a, b)
    ensures r == None <==>
      HasAdminRole(session) && AllPresent(b) && IsEmail(b.parentEmail) && IsPhone(b.parentPhone) &&
      forall a :: a in rows ==> !SameParent(a, b)
  {
    if !HasAdminRole(session) then Some(Unauthorized)
    else if !AllPresent(b) then Some(MissingFields)
    else if !IsEmail(b.parentEmail) then Some(InvalidEmail)
    else if !IsPhone(b.parentPhone) then Some(InvalidPhone)
    else if FirstWhere(rows, (a: AuthorizedStudent) => SameParent(a, b)).Some? then Some(DuplicateParentDetails)
    else None
  }

  /** The row `create` stores: the body's fields, no parent link, not registered. */
  function NewRow(id: Id, b: StudentBody, now: int): (a: AuthorizedStudent)
    ensures a.id == id && SameParent(a, b) && a.parentName == b.parentName
    ensures a.studentName == b.studentName && a.grade == b.grade && a.enrolledClass == b.enrolledClass
    ensures a.parentId.None? && !a.isRegistered && a.registeredUserId.None? && a.createdAt == now
  {
    AuthorizedStudent(id, b.studentName, b.grade, b.enrolledClass, b.parentName, b.parentEmail, b.parentPhone,
                      None, false, None, now)
  }

  /** `POST`: store a new authorised student, or refuse and store nothing. */
  method PostAuthorized(db: Database, session: Option<Actor>, b: StudentBody, now: int) returns (reply: Reply<AuthorizedStudent>)
    requires db.Valid()
    modifies db`authorizedStudents, db`nextId
    ensures db.Valid()
    ensures PostCheck(session, old(db.authorizedStudents), b).Some? ==>
      && reply == Fail(PostCheck(session, old(db.authorizedStudents), b).value)
      && db.authorizedStudents == old(db.authorizedStudents) && db.nextId == old(db.nextId)
    ensures PostCheck(session, old(db.authorizedStudents), b) == None ==>
      && reply == Created(NewRow(old(db.nextId), b, now))
      && db.authorizedStudents == old(db.authorizedStudents) + [reply.body]
      && db.nextId == old(db.nextId) + 1
  {
    var failure := PostCheck(session, db.authorizedStudents, b);
    if failure.Some? {
      return Fail(failure.value);
    }
    var row := NewRow(db.nextId, b, now);
    db.authorizedStudents := db.authorizedStudents + [row];
    db.nextId := db.nextId + 1;
    reply := Created(row);
  }

  /** The guards of `PUT ?id=`, in order: role (401), id, fields, and no row other than
      `id` with the same parent email and phone (400); the row must exist (500). The
      email and phone formats are not checked. */
  function PutCheck(session: Option<Actor>, rows: seq<AuthorizedStudent>, id: Option<Id>, b: StudentBody): (r: Option<Reason>)
    ensures r.Some? ==> r.value in {Unauthorized, IdRequired, MissingFields, DuplicateParentDetails, ServerError}
    ensures r == Some(Unauthorized) <==> !HasAdminRole(session)
    ensures r == Some(IdRequired) <==> HasAdminRole(session) && id.None?
    ensures r == Some(MissingFields) <==> HasAdminRole(session) && id.Some? && !AllPresent(b)
    ensures r == Some(DuplicateParentDetails) <==>
      HasAdminRole(session) && id.Some? && AllPresent(b) && exists a :: a in rows && a.id != id.value && SameParent(a, b)
    ensures r == Some(ServerError) <==>
      && HasAdminRole(session) && id.Some? && AllPresent(b)
      && (forall a :: a in rows && a.id != id.value ==> !SameParent(a, b))
      && forall a :: a in rows ==> a.id != id.value
    ensures r == None <==>
      && HasAdminRole(session) && id.Some? && AllPresent(b)
      && (forall a :: a in rows && a.id != id.value ==> !SameParent(a, b))
      && exists a :: a in rows && a.id == id.value
  {
    if !HasAdminRole(session) then Some(Unauthorized)
    else if id.None? then Some(IdRequired)
    else if !AllPresent(b) then Some(MissingFields)
    else if FirstWhere(rows, (a: AuthorizedStudent) => a.id != id.value && SameParent(a, b)).Some? then Some(DuplicateParentDetails)
    else if RowById(rows, id.value).None? then Some(ServerError)
    else None
  }

  /** `findUnique({ where: { id } })`: the row with the id, or nothing. */
  function RowById(rows: seq<AuthorizedStudent>, id: Id): (r: Option<AuthorizedStudent>)
    ensures r.Some? ==> r.value in rows && r.value.id == id
    ensures r.None? <==> forall a :: a in rows ==> a.id != id
  {
    FirstWhere(rows, (a: AuthorizedStudent) => a.id == id)
  }

  /** The row after `update`: the six fields from the body, the rest kept. */
  function Updated(a: AuthorizedStudent, b: StudentBody): (u: AuthorizedStudent)
    ensures u.id == a.id && u.parentId == a.parentId && u.isRegistered == a.isRegistered
    ensures u.registeredUserId == a.registeredUserId && u.createdAt == a.createdAt
    ensures SameParent(u, b) && u.studentName == b.studentName && u.grade == b.grade
    ensures u.enrolledClass == b.enrolledClass && u.parentName == b.parentName
  {
    a.(studentName := b.studentName, grade := b.grade, enrolledClass := b.enrolledClass,
       parentName := b.parentName, parentEmail := b.parentEmail, parentPhone := b.parentPhone)
  }

  function UpdateRows(rows: seq<AuthorizedStudent>, id: Id, b: StudentBody): (r: seq<AuthorizedStudent>)
    ensures |r| == |rows|
  {
    Replace(rows, (a: AuthorizedStudent) => a.id == id, (a: AuthorizedStudent) => Updated(a, b))
  }

  /** `PUT`: overwrite the row's six fields. */
  method PutAuthorized(db: Database, session: Option<Actor>, id: Option<Id>, b: StudentBody) returns (reply: Reply<AuthorizedStudent>)
    requires db.Valid()
    modifies db`authorizedStudents
    ensures db.Valid()
    ensures PutCheck(session, old(db.authorizedStudents), id, b).Some? ==>
      && reply == Fail(PutCheck(session, old(db.authorizedStudents), id, b).value)
      && db.authorizedStudents == old(db.authorizedStudents)
    ensures PutCheck(session, old(db.authorizedStudents), id, b) == None ==>
      && reply == Ok(Updated(RowById(old(db.authorizedStudents), id.value).value, b))
      && db.authorizedStudents == UpdateRows(old(db.authorizedStudents), id.value, b)
  {
    var failure := PutCheck(session, db.authorizedStudents, id, b);
    if failure.Some? {
      return Fail(failure.value);
    }
    var before := RowById(db.authorizedStudents, id.value).value;
    UpdateRowsKeepsIdBound(db.authorizedStudents, id.value, b, db.nextId);
    StoreRows(db, UpdateRows(db.authorizedStudents, id.value, b));
    reply := Ok(Updated(before, b));
  }

  /** Overwrite the table with rows whose ids were all handed out already. */
  method StoreRows(db: Database, rows: seq<AuthorizedStudent>)
    requires db.Valid() && forall a :: a in rows ==> a.id < db.nextId
    modifies db`authorizedStudents
    ensures db.Valid() && db.authorizedStudents == rows
  {
    db.authorizedStudents := rows;
  }

  /** An update keeps every id, so a bound on the ids still holds. */
  lemma UpdateRowsKeepsIdBound(rows: seq<AuthorizedStudent>, id: Id, b: StudentBody, bound: int)
    requires forall a :: a in rows ==> a.id < bound
    ensures forall a :: a in UpdateRows(rows, id, b) ==> a.id < bound
  {
    var r := UpdateRows(rows, id, b);
    forall a | a in r ensures a.id < bound {
      var k :| 0 <= k < |r| && r[k] == a;
      assert rows[k] in rows;
    }
  }

  /** The guards of `DELETE ?id=`: role (401), id (400), and the row must exist (500). */
  function DeleteCheck(session: Option<Actor>, rows: seq<AuthorizedStudent>, id: Option<Id>): (r: Option<Reason>)
    ensures r.Some? ==> r.value in {Unauthorized, IdRequired, ServerError}
    ensures r == Some(Unauthorized) <==> !HasAdminRole(session)
    ensures r == Some(IdRequired) <==> HasAdminRole(session) && id.None?
    ensures r == Some(ServerError) <==> HasAdminRole(session) && id.Some? && forall a :: a in rows ==> a.id != id.value
    ensures r == None <==> HasAdminRole(session) && id.Some? && exists a :: a in rows && a.id == id.value
  {
    if !HasAdminRole(session) then Some(Unauthorized)
    else if id.None? then Some(IdRequired)
    else if FirstWhere(rows, (a: AuthorizedStudent) => a.id == id.value).None? then Some(ServerError)
    else None
  }

  /** `DELETE`: remove the row. */
  method DeleteAuthorized(db: Database, session: Option<Actor>, id: Option<Id>) returns (reply: Reply<()>)
    requires db.Valid()
    modifies db`authorizedStudents
    ensures db.Valid()
    ensures DeleteCheck(session, old(db.authorizedStudents), id).Some? ==>
      reply == Fail(DeleteCheck(session, old(db.authorizedStudents), id).value) && db.authorizedStudents == old(db.authorizedStudents)
    ensures DeleteCheck(session, old(db.authorizedStudents), id) == None ==>
      reply == Ok(()) && db.authorizedStudents == Filter(old(db.authorizedStudents), (a: AuthorizedStudent) => a.id != id.value)
  {
    var failure := DeleteCheck(session, db.authorizedStudents, id);
    if failure.Some? {
      return Fail(failure.value);
    }
    db.authorizedStudents := Filter(db.authorizedStudents, (a: AuthorizedStudent) => a.id != id.value);
    reply := Ok(());
  }

  /** No two rows share both parent email and parent phone. */
  predicate UniqueParentPairs(rows: seq<AuthorizedStudent>) {
    forall i, j :: 0 <= i < j < |rows| ==>
      !(rows[i].parentEmail == rows[j].parentEmail && rows[i].parentPhone == rows[j].parentPhone)
  }

  predicate UniqueIds(rows: seq<AuthorizedStudent>) {
    forall i, j :: 0 <= i < j < |rows| ==> rows[i].id != rows[j].id
  }

  /** A created row never repeats another row's parent email and phone. */
  lemma PostKeepsParentPairsUnique(session: Option<Actor>, rows: seq<AuthorizedStudent>, b: StudentBody, id: Id, now: int)
    requires UniqueParentPairs(rows) && PostCheck(session, rows, b) == None
    ensures UniqueParentPairs(rows + [NewRow(id, b, now)])
  {
    var r := rows + [NewRow(id, b, now)];
    forall i, j | 0 <= i < j < |r|
      ensures !(r[i].parentEmail == r[j].parentEmail && r[i].parentPhone == r[j].parentPhone)
    {
      if j == |rows| {
        assert rows[i] in rows;
      }
    }
  }

  /** An accepted update never makes two rows share parent email and phone, because
      the duplicate search skips only the row being updated. */
  lemma PutKeepsParentPairsUnique(session: Option<Actor>, rows: seq<AuthorizedStudent>, id: Option<Id>, b: StudentBody)
    requires UniqueParentPairs(rows) && UniqueIds(rows) && PutCheck(session, rows, id, b) == None
    ensures UniqueParentPairs(UpdateRows(rows, id.value, b))
  {
    var r := UpdateRows(rows, id.value, b);
    forall i, j | 0 <= i < j < |r|
      ensures !(r[i].parentEmail == r[j].parentEmail && r[i].parentPhone == r[j].parentPhone)
    {
      if rows[i].id == id.value {
        assert rows[j].id != id.value;
        assert rows[j] in rows;
      } else if rows[j].id == id.value {
        assert rows[i] in rows;
      }
    }
  }

  /** An update that keeps a row's own parent details is not refused as a duplicate of
      itself, although creating a row with the same details is refused. */
  lemma PutSkipsOwnRow(session: Option<Actor>, a: AuthorizedStudent, b: StudentBody)
    requires HasAdminRole(session) && AllPresent(b) && SameParent(a, b)
    ensures PutCheck(session, [a], Some(a.id), b) == None
    ensures PostCheck(session, [a], b) != None
  {
  }

  /** An update stores an email or a phone that creation refuses as malformed: the
      update never checks their format. */
  lemma PutSkipsFormats(session: Option<Actor>, a: AuthorizedStudent, b: StudentBody)
    requires HasAdminRole(session) && AllPresent(b)
    ensures !IsEmail(b.parentEmail) ==>
      PutCheck(session, [a], Some(a.id), b) == None && PostCheck(session, [a], b) == Some(InvalidEmail)
    ensures IsEmail(b.parentEmail) && !IsPhone(b.parentPhone) ==>
      PutCheck(session, [a], Some(a.id), b) == None && PostCheck(session, [a], b) == Some(InvalidPhone)
  {
  }

  /** A session without the callback's fields is refused with 401 by every handler. */
  lemma BareSessionRefused(userId: Id, rows: seq<AuthorizedStudent>, b: StudentBody, id: Option<Id>)
    ensures ListAuthorized(BareSession(userId), rows) == Fail(Unauthorized)
    ensures PostCheck(BareSession(userId), rows, b) == Some(Unauthorized)
    ensures PutCheck(BareSession(userId), rows, id, b) == Some(Unauthorized)
    ensures DeleteCheck(BareSession(userId), rows, id) == Some(Unauthorized)
  {
  }
}
