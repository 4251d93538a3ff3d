/** Vocabulary shared by every route handler and page: identifiers, the signed-in
    actor, the HTTP outcome of a handler, and small sequence helpers that stand for
    the store's `findFirst`, `findMany({ where })` and `count({ where })`. */
module Common {

  /** Row identifiers. The store generates them; the model draws them from a counter. */
  type Id = nat

  datatype Option<T> = None | Some(value: T)

  /** The role carried by a session. `OtherRole` stands for any role string the
      handlers' `switch` statements do not recognise. */
  datatype Role = Admin | Teacher | Parent | OtherRole

  /** The signed-in user, passed explicitly instead of being read from the session.
      `isAdmin` is the session flag set at sign-in when the user has an administrator
      profile; it is separate from `role`, and some handlers test one, some the other. */
  datatype Actor = Actor(id: Id, role: Role, isAdmin: bool)

  /** `session.user.role === 'ADMIN'`. */
  predicate HasAdminRole(session: Option<Actor>) {
    session.Some? && session.value.role == Admin
  }

  /** A session whose user lacks the fields the sign-in session callback adds: no
      recognised role and no administrator flag (the id is left free). */
  function BareSession(id: Id): (s: Option<Actor>)
    ensures s.Some? && !HasAdminRole(s) && !s.value.isAdmin
  {
    Some(Actor(id, OtherRole, false))
  }

  /** `session?.user?.isAdmin`. */
  predicate HasAdminFlag(session: Option<Actor>) {
    session.Some? && session.value.isAdmin
  }

  /** Why a handler refused a request; one constructor per distinct error response. */
  datatype Reason =
    | Unauthorized            // 401: no session, or not an administrator where one is needed
    | Forbidden               // 403: signed in but not allowed (unknown role, not the parent, ...)
    | InsufficientPermissions // 403: administrator without MANAGE_ADMINS
    | NotFound                // 404: the referenced row does not exist
    | IdRequired              // 400: PUT/DELETE without an `id` query parameter
    | MissingFields           // 400: a required body field is absent or empty
    | InvalidDay              // 400: not one of the seven English day names
    | InvalidTimeFormat       // 400: a time does not match HH:mm
    | TimeSlotTaken           // 400: the overlap query found an existing class
    | ClassFull               // 400: the class already holds maxStudents enrollments
    | InvalidEmail            // 400
    | InvalidPhone            // 400
    | AccountExists           // 400: a user with the same email or phone exists
    | ParentNotVerified       // 400: no unregistered authorised student matches the parent
    | InvalidPermissions      // 400: permissions not an array of known permission names
    | CannotModifySelf        // 400: an administrator changing their own permissions
    | CannotDeleteSelf        // 400: an administrator deleting their own account
    | DuplicateParentDetails  // 400: an authorised student with the same parent email and phone
    | StudentsRequired        // 400: the students list is missing, not an array or empty
    | ParentExists            // 400: an authorised parent with the same email or phone
    | ServerError             // 500: the store threw (e.g. updating a row that does not exist)
  {
    /** The HTTP status the handler answers with. */
    function Status(): int {
      match this
      case Unauthorized => 401
      case Forbidden => 403
      case InsufficientPermissions => 403
      case NotFound => 404
      case ServerError => 500
      case _ => 400
    }
  }

  /** What a handler answers: 200 with a body, 201 with the created row, or an error. */
  datatype Reply<T> = Ok(body: T) | Created(body: T) | Fail(reason: Reason) {
    function Status(): int {
      match this
      case Ok(_) => 200
      case Created(_) => 201
      case Fail(r) => r.Status()
    }
  }

  /** Index of the first element satisfying `p` (the store's `findFirst` in table order). */
  function FirstIndex<T>(s: seq<T>, p: T -> bool): (r: Option<nat>)
    ensures r.Some? ==> r.value < |s| && p(s[r.value])
    ensures r.Some? ==> forall j :: 0 <= j < r.value ==> !p(s[j])
    ensures r.None? <==> forall j :: 0 <= j < |s| ==> !p(s[j])
  {
    if |s| == 0 then None
    else if p(s[0]) then Some(0)
    else match FirstIndex(s[1..], p)
      case None => None
      case Some(k) => Some(k + 1)
  }

  /** The first element satisfying `p`, if any. */
  function FirstWhere<T(!new)>(s: seq<T>, p: T -> bool): (r: Option<T>)
    ensures r.Some? ==> r.value in s && p(r.value)
    ensures r.None? <==> forall x :: x in s ==> !p(x)
  {
    match FirstIndex(s, p)
    case None => None
    case Some(k) => Some(s[k])
  }

  /** The elements satisfying `p`, in their original order (a `where` clause). */
  function Filter<T(!new)>(s: seq<T>, p: T -> bool): (r: seq<T>)
    ensures |r| <= |s|
    ensures forall x :: x in r <==> x in s && p(x)
    ensures multiset(r) <= multiset(s)
  {
    if |s| == 0 then []
    else
      assert s == [s[0]] + s[1..];
      if p(s[0]) then [s[0]] + Filter(s[1..], p) else Filter(s[1..], p)
  }

  /** A condition every element meets filters nothing out. */
  lemma {:induction false} FilterAll<T(!new)>(s: seq<T>, p: T -> bool)
    requires forall x :: x in s ==> p(x)
    ensures Filter(s, p) == s
  {
    if |s| > 0 {
      FilterAll(s[1..], p);
      assert s == [s[0]] + s[1..];
    }
  }

  /** A condition no element meets filters everything out. */
  lemma {:induction false} FilterNone<T(!new)>(s: seq<T>, p: T -> bool)
    requires forall x :: x in s ==> !p(x)
    ensures Filter(s, p) == []
  {
    if |s| > 0 {
      assert s[0] in s;
      FilterNone(s[1..], p);
    }
  }

  /** The number of elements satisfying `p` (a `count({ where })`). */
  function Count<T(!new)>(s: seq<T>, p: T -> bool): nat {
    |Filter(s, p)|
  }

  /** Counting under a weaker condition never gives less. */
  lemma {:induction false} CountMonotone<T(!new)>(s: seq<T>, p: T -> bool, q: T -> bool)
    requires forall x :: x in s && p(x) ==> q(x)
    ensures Count(s, p) <= Count(s, q)
  {
    if |s| > 0 {
      CountMonotone(s[1..], p, q);
    }
  }

  /** A `where` clause distributes over concatenation. */
  lemma {:induction false} FilterAppend<T(!new)>(s: seq<T>, t: seq<T>, p: T -> bool)
    ensures Filter(s + t, p) == Filter(s, p) + Filter(t, p)
  {
    if |s| == 0 {
      assert s + t == t;
    } else {
      assert (s + t)[0] == s[0];
      assert (s + t)[1..] == s[1..] + t;
      FilterAppend(s[1..], t, p);
    }
  }

  /** Appending one row raises a count by one exactly when the row matches. */
  lemma CountAppend<T(!new)>(s: seq<T>, x: T, p: T -> bool)
    ensures Count(s + [x], p) == Count(s, p) + (if p(x) then 1 else 0)
  {
    FilterAppend(s, [x], p);
  }

  /** The rows after `update({ where, data })` applied to every row satisfying `p`. */
  function Replace<T>(s: seq<T>, p: T -> bool, f: T -> T): (r: seq<T>)
    ensures |r| == |s|
    ensures forall i :: 0 <= i < |s| ==> r[i] == (if p(s[i]) then f(s[i]) else s[i])
  {
    seq(|s|, i requires 0 <= i < |s| => if p(s[i]) then f(s[i]) else s[i])
  }

  /** Every element appears at most once. */
  ghost predicate NoRepeats<T(!new)>(s: seq<T>) {
    forall x :: multiset(s)[x] <= 1
  }

  /** Without repeats, two positions never hold the same value. */
  lemma NoRepeatsDistinct<T(!new)>(s: seq<T>, i: nat, j: nat)
    requires NoRepeats(s) && i < j < |s|
    ensures s[i] != s[j]
  {
    assert s == s[..j] + s[j..];
    assert s[j] in s[j..];
    assert multiset(s)[s[j]] == multiset(s[..j])[s[j]] + multiset(s[j..])[s[j]];
    assert s[j] !in s[..j];
    assert s[i] in s[..j];
  }
}
