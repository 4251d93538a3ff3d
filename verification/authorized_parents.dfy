/** The authorised-parent route (`/api/admin/parents`): an administrator pre-authorises
    a parent together with the children they will enrol. Open only to the ADMIN role. */
module AuthorizedParents {
  import opened Common
  import opened Sorting
  import opened Schema

  /** A listed parent with `students`: the authorised students linked to it. */
  datatype ListedParent = ListedParent(parent: AuthorizedParent, students: seq<AuthorizedStudent>)

  function LinkedTo(parentId: Id): AuthorizedStudent -> bool {
    (a: AuthorizedStudent) => a.parentId == Some(parentId)
  }

  /** `GET`: every authorised parent, newest first, each with its linked students. */
  function ListParents(session: Option<Actor>, parents: seq<AuthorizedParent>, rows: seq<AuthorizedStudent>): (r: Reply<seq<ListedParent>>)
    ensures r.Fail? <==> !HasAdminRole(session)
    ensures r.Fail? ==> r.reason == Unauthorized
    ensures r.Ok? ==> |r.body| == |parents|
    ensures r.Ok? ==> multiset(seq(|r.body|, i requires 0 <= i < |r.body| => r.body[i].parent)) == multiset(parents)
    ensures r.Ok? ==> forall i, j :: 0 <= i < j < |r.body| ==> r.body[i].parent.createdAt >= r.body[j].parent.createdAt
    ensures r.Ok? ==> forall i :: 0 <= i < |r.body| ==>
      forall a :: a in r.body[i].students <==> a in rows && a.parentId == Some(r.body[i].parent.id)
  {
    if !HasAdminRole(session) then Fail(Unauthorized)
    else
      var sorted := SortByKey(parents, (p: AuthorizedParent) => -p.createdAt);
      assert forall i, j :: 0 <= i < j < |sorted| ==> -sorted[i].createdAt <= -sorted[j].createdAt;
      assert |sorted| == |multiset(sorted)| == |multiset(parents)| == |parents|;
      var body := seq(|sorted|, i requires 0 <= i < |sorted| => ListedParent(sorted[i], Filter(rows, LinkedTo(sorted[i].id))));
      assert seq(|body|, i requires 0 <= i < |body| => body[i].parent) == sorted;
      Ok(body)
  }

  /** One element of the body's `students`. */
  datatype ChildEntry = ChildEntry(name: string, grade: string, enrolledClass: string)

  /** The body's `students`: absent or not an array, or the entries. */
  datatype StudentsField = NotAList | Entries(entries: seq<ChildEntry>)

  datatype ParentBody = ParentBody(parentName: string, parentEmail: string, parentPhone: string, students: StudentsField)

  /** An existing parent has the body's email or the body's phone. */
  predicate SharesDetail(p: AuthorizedParent, b: ParentBody) {
    p.email == b.parentEmail || p.phone == b.parentPhone
  }

  /** The guards of `POST`, in order: role (401), parent fields, a non-empty students
      array, and no parent with the same email or the same phone (all 400). Neither the
      email nor the phone format is checked. */
  function PostCheck(session: Option<Actor>, parents: seq<AuthorizedParent>, b: ParentBody): (r: Option<Reason>)
    ensures r.Some? ==> r.value in {Unauthorized, MissingFields, StudentsRequired, ParentExists}
    ensures r == Some(Unauthorized) <==> !HasAdminRole(session)
    ensures r == Some(MissingFields) <==>
      HasAdminRole(session) && (b.parentName == "" || b.parentEmail == "" || b.parentPhone == "")
    ensures r == Some(StudentsRequired) <==>
      HasAdminRole(session) && b.parentName != "" && b.parentEmail != "" && b.parentPhone != "" &&
      (b.students.NotAList? || |b.students.entries| == 0)
    ensures r == Some(ParentExists) <==>
      && HasAdminRole(session) && b.parentName != "" && b.parentEmail != "" && b.parentPhone != ""
      && b.students.Entries? && |b.students.entries| > 0
      && exists p :: p in parents && SharesDetail(p, b)
    ensures r == None <==>
      && HasAdminRole(session) && b.parentName != "" && b.parentEmail != "" && b.parentPhone != ""
      && b.students.Entries? && |b.students.entries| > 0
      && forall p :: p in parents ==> !SharesDetail(p, b)
  {
    if !HasAdminRole(session) then Some(Unauthorized)
    else if b.parentName == "" || b.parentEmail == "" || b.parentPhone == "" then Some(MissingFields)
    else if b.students.NotAList? || |b.students.entries| == 0 then Some(StudentsRequired)
    else if FirstWhere(parents, (p: AuthorizedParent) => SharesDetail(p, b)).Some? then Some(ParentExists)
    else None
  }

  /** The students `create` stores for the entries, in input order, with consecutive
      ids from `firstId`; the parent columns the route does not set are empty. */
  function LinkedRows(entries: seq<ChildEntry>, parentId: Id, firstId: Id, now: int): (r: seq<AuthorizedStudent>)
    ensures |r| == |entries|
    ensures forall i :: 0 <= i < |r| ==>
      && r[i].id == firstId + i && r[i].parentId == Some(parentId)
      && r[i].studentName == entries[i].name && r[i].grade == entries[i].grade
      && r[i].enrolledClass == entries[i].enrolledClass
      && !r[i].isRegistered && r[i].registeredUserId.None?
  {
    seq(|entries|, i requires 0 <= i < |entries| =>
      AuthorizedStudent(firstId + i, entries[i].name, entries[i].grade, entries[i].enrolledClass,
                        "", "", "", Some(parentId), false, None, now))
  }

  /** The parent row `create` stores: not registered, with no decoded students. */
  function NewParent(id: Id, b: ParentBody, now: int): (p: AuthorizedParent)
    ensures p.id == id && p.name == b.parentName && p.email == b.parentEmail && p.phone == b.parentPhone
    ensures p.students == [] && p.enrolledClasses == []
    ensures !p.isRegistered && p.registeredUserId.None? && p.createdAt == now
  {
    AuthorizedParent(id, b.parentName, b.parentEmail, b.parentPhone, [], [], false, None, now)
  }

  /** `POST`: store the parent and one linked authorised student per entry, or refuse
      and store nothing. */
  method PostParent(db: Database, session: Option<Actor>, b: ParentBody, now: int)
      returns (reply: Reply<(AuthorizedParent, seq<AuthorizedStudent>)>)
    requires db.Valid()
    modifies db`authorizedParents, db`authorizedStudents, db`nextId
    ensures db.Valid()
    ensures PostCheck(session, old(db.authorizedParents), b).Some? ==>
      && reply == Fail(PostCheck(session, old(db.authorizedParents), b).value)
      && db.authorizedParents == old(db.authorizedParents)
      && db.authorizedStudents == old(db.authorizedStudents) && db.nextId == old(db.nextId)
    ensures PostCheck(session, old(db.authorizedParents), b) == None ==>
      var parent := NewParent(old(db.nextId), b, now);
      var rows := LinkedRows(b.students.entries, parent.id, old(db.nextId) + 1, now);
      && reply == Created((parent, rows))
      && db.authorizedParents == old(db.authorizedParents) + [parent]
      && db.authorizedStudents == old(db.authorizedStudents) + rows
      && db.nextId == old(db.nextId) + 1 + |rows|
  {
    var failure := PostCheck(session, db.authorizedParents, b);
    if failure.Some? {
      return Fail(failure.value);
    }
    var parent := NewParent(db.nextId, b, now);
    var rows := LinkedRows(b.students.entries, parent.id, db.nextId + 1, now);
    db.authorizedParents := db.authorizedParents + [parent];
    db.authorizedStudents := db.authorizedStudents + rows;
    db.nextId := db.nextId + 1 + |rows|;
    reply := Created((parent, rows));
  }

  /** The guards of `DELETE ?id=`: role (401), id (400), and the parent must exist (500). */
  function DeleteCheck(session: Option<Actor>, parents: seq<AuthorizedParent>, id: Option<Id>): (r: Option<Reason>)
    ensures r.Some? ==> r.value in {Unauthorized, IdRequired, ServerError}
    ensures r == Some(Unauthorized) <==> !HasAdminRole(session)
    ensures r == Some(IdRequired) <==> HasAdminRole(session) && id.None?
    ensures r == Some(ServerError) <==> HasAdminRole(session) && id.Some? && forall p :: p in parents ==> p.id != id.value
    ensures r == None <==> HasAdminRole(session) && id.Some? && exists p :: p in parents && p.id == id.value
  {
    if !HasAdminRole(session) then Some(Unauthorized)
    else if id.None? then Some(IdRequired)
    else if FirstWhere(parents, (p: AuthorizedParent) => p.id == id.value).None? then Some(ServerError)
    else None
  }

  /** `DELETE`: remove the parent row. */
  method DeleteParent(db: Database, session: Option<Actor>, id: Option<Id>) returns (reply: Reply<()>)
    requires db.Valid()
    modifies db`authorizedParents
    ensures db.Valid()
    ensures DeleteCheck(session, old(db.authorizedParents), id).Some? ==>
      reply == Fail(DeleteCheck(session, old(db.authorizedParents), id).value) && db.authorizedParents == old(db.authorizedParents)
    ensures DeleteCheck(session, old(db.authorizedParents), id) == None ==>
      reply == Ok(()) && db.authorizedParents == Filter(old(db.authorizedParents), (p: AuthorizedParent) => p.id != id.value)
  {
    var failure := DeleteCheck(session, db.authorizedParents, id);
    if failure.Some? {
      return Fail(failure.value);
    }
    db.authorizedParents := Filter(db.authorizedParents, (p: AuthorizedParent) => p.id != id.value);
    reply := Ok(());
  }

  /** No two parents share an email or a phone. */
  predicate DistinctParentDetails(parents: seq<AuthorizedParent>) {
    forall i, j :: 0 <= i < j < |parents| ==>
      parents[i].email != parents[j].email && parents[i].phone != parents[j].phone
  }

  /** A created parent never shares an email or a phone with an earlier one. */
  lemma PostKeepsParentDetailsDistinct(session: Option<Actor>, parents: seq<AuthorizedParent>, b: ParentBody, id: Id, now: int)
    requires DistinctParentDetails(parents) && PostCheck(session, parents, b) == None
    ensures DistinctParentDetails(parents + [NewParent(id, b, now)])
  {
    var r := parents + [NewParent(id, b, now)];
    forall i, j | 0 <= i < j < |r| ensures r[i].email != r[j].email && r[i].phone != r[j].phone {
      if j == |parents| {
        assert parents[i] in parents;
      }
    }
  }

  /** A match on the email alone, or on the phone alone, is enough to refuse (unlike
      the authorised-student route, which needs both). */
  lemma EitherDetailRefuses(session: Option<Actor>, p: AuthorizedParent, b: ParentBody)
    requires HasAdminRole(session) && b.parentName != "" && b.parentEmail != "" && b.parentPhone != ""
    requires b.students.Entries? && |b.students.entries| > 0
    requires p.email == b.parentEmail || p.phone == b.parentPhone
    ensures PostCheck(session, [p], b) == Some(ParentExists)
  {
    assert p in [p];
  }

  /** The created students are exactly the ones linked to the new parent: a fresh id
      has no students linked to it before the call. */
  lemma CreatedStudentsAreTheLinkedOnes(rows: seq<AuthorizedStudent>, b: ParentBody, id: Id, now: int)
    requires forall a :: a in rows ==> a.parentId.None? || a.parentId.value < id
    requires b.students.Entries?
    ensures Filter(rows + LinkedRows(b.students.entries, id, id + 1, now), LinkedTo(id))
         == LinkedRows(b.students.entries, id, id + 1, now)
  {
    var created := LinkedRows(b.students.entries, id, id + 1, now);
    FilterAppend(rows, created, LinkedTo(id));
    FilterNone(rows, LinkedTo(id));
    FilterAll(created, LinkedTo(id));
  }

  /** A session without the callback's fields is refused with 401 by every handler. */
  lemma BareSessionRefused(userId: Id, parents: seq<AuthorizedParent>, rows: seq<AuthorizedStudent>,
                           b: ParentBody, id: Option<Id>)
    ensures ListParents(BareSession(userId), parents, rows) == Fail(Unauthorized)
    ensures PostCheck(BareSession(userId), parents, b) == Some(Unauthorized)
    ensures DeleteCheck(BareSession(userId), parents, id) == Some(Unauthorized)
  {
  }
}
