/** The conversion script (`convertAuthorizedParents`): every authorised parent not yet
    registered gets a PARENT user, one parent-student record per listed child, and is
    marked registered. A parent whose user cannot be created (another user already has
    its email) is skipped and the loop goes on. */
module ConvertScript {
  import opened Common
  import opened Schema

  /** `findMany({ where: { isRegistered: false } })`. */
  function Unregistered(): AuthorizedParent -> bool {
    (p: AuthorizedParent) => !p.isRegistered
  }

  /** The store refuses the user when another user has the same email. */
  predicate EmailTaken(users: seq<User>, email: string) {
    exists u :: u in users && u.email == email
  }

  /** The user `create` stores for a parent, with the hashed temporary password. */
  function ParentUser(id: Id, p: AuthorizedParent, hashed: string): (u: User)
    ensures u.id == id && u.role == Parent && u.isVerified && u.status == Active
    ensures u.name == p.name && u.email == p.email && u.phone == p.phone
  {
    User(id, p.name, p.email, p.phone, hashed, Parent, true, Active)
  }

  /** The parent-student records for the listed children, ids from `firstId`. */
  function ChildRecords(children: seq<ChildInfo>, userId: Id, firstId: Id): (r: seq<ParentStudent>)
    ensures |r| == |children|
    ensures forall k :: 0 <= k < |r| ==>
      r[k] == ParentStudent(firstId + k, userId, children[k].name, children[k].grade)
  {
    seq(|children|, k requires 0 <= k < |children| => ParentStudent(firstId + k, userId, children[k].name, children[k].grade))
  }

  /** The authorised-parent table after `update`: the parent's row is registered to the user. */
  function MarkConverted(parents: seq<AuthorizedParent>, id: Id, userId: Id): (r: seq<AuthorizedParent>)
    ensures |r| == |parents|
    ensures forall i :: 0 <= i < |r| && parents[i].id != id ==> r[i] == parents[i]
    ensures forall i :: 0 <= i < |r| && parents[i].id == id ==>
      r[i] == parents[i].(isRegistered := true, registeredUserId := Some(userId))
  {
    Replace(parents, (q: AuthorizedParent) => q.id == id,
            (q: AuthorizedParent) => q.(isRegistered := true, registeredUserId := Some(userId)))
  }

  datatype ConvertState = ConvertState(
    users: seq<User>, parentStudents: seq<ParentStudent>, parents: seq<AuthorizedParent>, nextId: Id)

  /** One pass of the outer loop body for parent `p`. */
  function ConvertOne(st: ConvertState, p: AuthorizedParent, hashed: string): (r: ConvertState)
    ensures EmailTaken(st.users, p.email) ==> r == st
    ensures !EmailTaken(st.users, p.email) ==>
      && r.users == st.users + [ParentUser(st.nextId, p, hashed)]
      && r.parentStudents == st.parentStudents + ChildRecords(p.students, st.nextId, st.nextId + 1)
      && r.parents == MarkConverted(st.parents, p.id, st.nextId)
      && r.nextId == st.nextId + 1 + |p.students|
  {
    if EmailTaken(st.users, p.email) then st
    else
      var userId := st.nextId;
      ConvertState(st.users + [ParentUser(userId, p, hashed)],
                   st.parentStudents + ChildRecords(p.students, userId, userId + 1),
                   MarkConverted(st.parents, p.id, userId),
                   userId + 1 + |p.students|)
  }

  /** The state after the first `n` pending parents. */
  function ConvertRun(st: ConvertState, pending: seq<AuthorizedParent>, hash: Id -> string, n: nat): ConvertState
    requires n <= |pending|
  {
    if n == 0 then st
    else
      var p := pending[n - 1];
      ConvertOne(ConvertRun(st, pending, hash, n - 1), p, hash(p.id))
  }

  /** Users are only ever added. */
  lemma {:induction false} ConvertRunAddsUsers(st: ConvertState, pending: seq<AuthorizedParent>, hash: Id -> string, n: nat)
    requires n <= |pending|
    ensures st.users <= ConvertRun(st, pending, hash, n).users
  {
    if n > 0 {
      ConvertRunAddsUsers(st, pending, hash, n - 1);
      var p := pending[n - 1];
      ConvertOneTakesEmail(ConvertRun(st, pending, hash, n - 1), p, hash(p.id));
    }
  }

  /** After the run every pending parent's email has an account: one created for it, or
      the one that made its creation fail. A failure does not stop the later parents. */
  lemma {:induction false} EveryPendingParentHasAccount(st: ConvertState, pending: seq<AuthorizedParent>, hash: Id -> string, n: nat)
    requires n <= |pending|
    ensures forall j :: 0 <= j < n ==> EmailTaken(ConvertRun(st, pending, hash, n).users, pending[j].email)
  {
    if n > 0 {
      var before := ConvertRun(st, pending, hash, n - 1);
      var after := ConvertRun(st, pending, hash, n);
      EveryPendingParentHasAccount(st, pending, hash, n - 1);
      var p := pending[n - 1];
      ConvertOneTakesEmail(before, p, hash(p.id));
      forall j | 0 <= j < n - 1 ensures EmailTaken(after.users, pending[j].email) {
        EmailStaysTaken(before.users, after.users, pending[j].email);
      }
    }
  }

  /** Users are only ever appended, so a taken email stays taken. */
  lemma EmailStaysTaken(users: seq<User>, later: seq<User>, email: string)
    requires users <= later && EmailTaken(users, email)
    ensures EmailTaken(later, email)
  {
    var u :| u in users && u.email == email;
    assert u in later;
  }

  /** One conversion only adds users, and afterwards the parent's email is taken. */
  lemma ConvertOneTakesEmail(st: ConvertState, p: AuthorizedParent, hashed: string)
    ensures st.users <= ConvertOne(st, p, hashed).users
    ensures EmailTaken(ConvertOne(st, p, hashed).users, p.email)
  {
    var after := ConvertOne(st, p, hashed);
    if !EmailTaken(st.users, p.email) {
      assert after.users[|st.users|] in after.users;
    }
  }

  /** A parent already registered before the run is left exactly as it was, when it
      shares its id with no pending parent. */
  lemma {:induction false} RegisteredParentUntouched(st: ConvertState, pending: seq<AuthorizedParent>, hash: Id -> string, n: nat, i: nat)
    requires n <= |pending| && i < |st.parents|
    requires forall q :: q in pending ==> q.id != st.parents[i].id
    ensures |ConvertRun(st, pending, hash, n).parents| == |st.parents|
    ensures ConvertRun(st, pending, hash, n).parents[i] == st.parents[i]
  {
    if n > 0 {
      RegisteredParentUntouched(st, pending, hash, n - 1, i);
      assert pending[n - 1] in pending;
    }
  }

  /** A parent whose email no user has is converted: one user, its children, the mark. */
  lemma ConvertedParent(st: ConvertState, p: AuthorizedParent, hashed: string, i: nat)
    requires !EmailTaken(st.users, p.email) && i < |st.parents| && st.parents[i].id == p.id
    ensures var r := ConvertOne(st, p, hashed);
      && Count(r.users, (u: User) => u.email == p.email) == 1
      && r.users[|st.users|].role == Parent && r.users[|st.users|].isVerified && r.users[|st.users|].status == Active
      && r.parents[i].isRegistered && r.parents[i].registeredUserId == Some(r.users[|st.users|].id)
      && |r.parentStudents| == |st.parentStudents| + |p.students|
      && forall c :: c in r.parentStudents[|st.parentStudents|..] ==> c.parentId == r.users[|st.users|].id
  {
    var r := ConvertOne(st, p, hashed);
    var taken := (u: User) => u.email == p.email;
    CountAppend(st.users, ParentUser(st.nextId, p, hashed), taken);
    FilterNone(st.users, taken);
    assert r.parentStudents[|st.parentStudents|..] == ChildRecords(p.students, st.nextId, st.nextId + 1);
  }

  /** Store one parent-student record. */
  method AddParentStudent(db: Database, c: ParentStudent)
    requires db.Valid() && c.id == db.nextId
    modifies db`parentStudents, db`nextId
    ensures db.Valid()
    ensures db.parentStudents == old(db.parentStudents) + [c] && db.nextId == old(db.nextId) + 1
  {
    db.parentStudents := db.parentStudents + [c];
    db.nextId := db.nextId + 1;
  }

  /** Mark the parent registered. */
  method MarkParent(db: Database, id: Id, userId: Id)
    requires db.Valid()
    modifies db`authorizedParents
    ensures db.Valid()
    ensures db.authorizedParents == MarkConverted(old(db.authorizedParents), id, userId)
  {
    ghost var before := db.authorizedParents;
    db.authorizedParents := MarkConverted(db.authorizedParents, id, userId);
    forall q | q in db.authorizedParents ensures q.id < db.nextId {
      var k :| 0 <= k < |db.authorizedParents| && db.authorizedParents[k] == q;
      assert before[k] in before;
    }
  }

  /** The outer loop body, with its inner loop over the children. */
  method ConvertParent(db: Database, p: AuthorizedParent, hashed: string)
    requires db.Valid()
    modifies db`users, db`parentStudents, db`authorizedParents, db`nextId
    ensures db.Valid()
    ensures ConvertState(db.users, db.parentStudents, db.authorizedParents, db.nextId) ==
            ConvertOne(ConvertState(old(db.users), old(db.parentStudents), old(db.authorizedParents), old(db.nextId)), p, hashed)
  {
    ghost var st := ConvertState(db.users, db.parentStudents, db.authorizedParents, db.nextId);
    if FirstWhere(db.users, (u: User) => u.email == p.email).Some? {
      assert ConvertOne(st, p, hashed) == st;
      return;
    }
    var userId := db.nextId;
    AddUser(db, ParentUser(userId, p, hashed));
    AddChildren(db, p.students, userId);
    MarkParent(db, p.id, userId);
    assert !EmailTaken(st.users, p.email);
  }

  /** The inner loop: one parent-student record per child, in list order. */
  method AddChildren(db: Database, children: seq<ChildInfo>, userId: Id)
    requires db.Valid()
    modifies db`parentStudents, db`nextId
    ensures db.Valid()
    ensures db.parentStudents == old(db.parentStudents) + ChildRecords(children, userId, old(db.nextId))
    ensures db.nextId == old(db.nextId) + |children|
  {
    ghost var records := db.parentStudents;
    ghost var firstId := db.nextId;
    for k := 0 to |children|
      invariant db.Valid()
      invariant db.parentStudents == records + ChildRecords(children[..k], userId, firstId)
      invariant db.nextId == firstId + k
    {
      var c := ParentStudent(db.nextId, userId, children[k].name, children[k].grade);
      assert ChildRecords(children[..k + 1], userId, firstId) == ChildRecords(children[..k], userId, firstId) + [c];
      AddParentStudent(db, c);
    }
    assert children[..|children|] == children;
  }

  /** `convertAuthorizedParents`; `hash` gives each parent's hashed temporary password. */
  method ConvertAuthorizedParents(db: Database, hash: Id -> string)
    requires db.Valid()
    modifies db`users, db`parentStudents, db`authorizedParents, db`nextId
    ensures db.Valid()
    ensures ConvertState(db.users, db.parentStudents, db.authorizedParents, db.nextId) ==
            ConvertRun(ConvertState(old(db.users), old(db.parentStudents), old(db.authorizedParents), old(db.nextId)),
                       Filter(old(db.authorizedParents), Unregistered()), hash, |Filter(old(db.authorizedParents), Unregistered())|)
  {
    var pending := Filter(db.authorizedParents, Unregistered());
    ghost var start := ConvertState(db.users, db.parentStudents, db.authorizedParents, db.nextId);
    for i := 0 to |pending|
      invariant db.Valid()
      invariant ConvertState(db.users, db.parentStudents, db.authorizedParents, db.nextId) == ConvertRun(start, pending, hash, i)
    {
      ConvertParent(db, pending[i], hash(pending[i].id));
    }
  }
}
