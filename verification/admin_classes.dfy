/** The administrator class route (`/api/admin/classes`): classes with a name, a day
    name and "HH:mm" times, listed, created, updated and deleted by a signed-in user
    whose session carries the administrator flag. Creation and update refuse a slot
    that the store's overlap query finds on the same day. */
module AdminClasses {
  import opened Common
  import opened Text
  import opened TimeOfDay
  import opened Sorting
  import opened Schema

  /** The request body `{ name, dayOfWeek, startTime, endTime }`; an absent field is "". */
  datatype ClassFields = ClassFields(name: string, dayOfWeek: string, startTime: string, endTime: string)

  /** The validation the handler runs before it queries the store: required fields,
      then the day name, then both times. */
  function CheckFields(f: ClassFields): (r: Option<Reason>)
    ensures r == None <==>
      f.name != "" && IsDayName(f.dayOfWeek) && IsTimeString(f.startTime) && IsTimeString(f.endTime)
    ensures r.Some? ==> r.value in {MissingFields, InvalidDay, InvalidTimeFormat}
    ensures r == Some(MissingFields) <==>
      (f.name == "" || f.dayOfWeek == "" || f.startTime == "" || f.endTime == "")
    ensures r == Some(InvalidDay) <==>
      && f.name != "" && f.dayOfWeek != "" && f.startTime != "" && f.endTime != ""
      && !IsDayName(f.dayOfWeek)
    ensures r == Some(InvalidTimeFormat) <==>
      && f.name != "" && f.startTime != "" && f.endTime != "" && IsDayName(f.dayOfWeek)
      && !(IsTimeString(f.startTime) && IsTimeString(f.endTime))
  {
    if f.name == "" || f.dayOfWeek == "" || f.startTime == "" || f.endTime == "" then Some(MissingFields)
    else if !IsDayName(f.dayOfWeek) then Some(InvalidDay)
    else if !IsTimeString(f.startTime) || !IsTimeString(f.endTime) then Some(InvalidTimeFormat)
    else None
  }

  /** The overlap query's condition on one stored row, on the strings as the store
      compares them: same day, and the row either contains the new start
      (`startTime <= new start < endTime`) or the new end (`startTime < new end <= endTime`). */
  predicate Hits(c: NamedClass, f: ClassFields) {
    && c.dayOfWeek == f.dayOfWeek
    && ((LexLessEq(c.startTime, f.startTime) && LexLess(f.startTime, c.endTime))
        || (LexLess(c.startTime, f.endTime) && LexLessEq(f.endTime, c.endTime)))
  }

  /** The stored row's day and times as a request body would carry them. */
  function FieldsOf(c: NamedClass): ClassFields {
    ClassFields(c.name, c.dayOfWeek, c.startTime, c.endTime)
  }

  /** `findFirst` with the overlap condition, skipping the row `exclude` names (the
      `NOT: { id }` of the update). */
  function FindConflict(rows: seq<NamedClass>, f: ClassFields, exclude: Option<Id>): (r: Option<NamedClass>)
    ensures r.Some? ==> r.value in rows && Hits(r.value, f)
    ensures r.Some? && exclude.Some? ==> r.value.id != exclude.value
    ensures r.None? <==> forall c :: c in rows && (exclude.None? || c.id != exclude.value) ==> !Hits(c, f)
  {
    FirstWhere(rows, (c: NamedClass) => (exclude.None? || c.id != exclude.value) && Hits(c, f))
  }

  /** `GET`: every class, in the store's string order of `dayOfWeek`. */
  function List(session: Option<Actor>, rows: seq<NamedClass>): (r: Reply<seq<NamedClass>>)
    ensures r.Ok? <==> HasAdminFlag(session)
    ensures r.Fail? ==> r.reason == Unauthorized
    ensures r.Ok? ==> multiset(r.body) == multiset(rows)
    ensures r.Ok? ==> SortedByKey(r.body, (c: NamedClass) => DayNameRank(c.dayOfWeek))
  {
    if !HasAdminFlag(session) then Fail(Unauthorized)
    else Ok(SortByKey(rows, (c: NamedClass) => DayNameRank(c.dayOfWeek)))
  }

  /** On stored rows the listing never puts a day name before one that sorts lower as
      a string. */
  lemma ListInDayNameOrder(session: Option<Actor>, rows: seq<NamedClass>)
    requires HasAdminFlag(session)
    requires forall c :: c in rows ==> WellFormedNamedClass(c)
    ensures forall i, j :: 0 <= i < j < |List(session, rows).body| ==>
      !LexLess(List(session, rows).body[j].dayOfWeek, List(session, rows).body[i].dayOfWeek)
  {
    var body := List(session, rows).body;
    forall i, j | 0 <= i < j < |body| ensures !LexLess(body[j].dayOfWeek, body[i].dayOfWeek) {
      assert body[i] in multiset(body) && body[j] in multiset(body);
      assert body[i] in rows && body[j] in rows;
      DayNameRankIsStringOrder(body[j].dayOfWeek, body[i].dayOfWeek);
    }
  }

  /** The guards of `POST`, in order: administrator flag (401), fields (400), overlap (400). */
  function PostCheck(session: Option<Actor>, rows: seq<NamedClass>, f: ClassFields): (r: Option<Reason>)
    ensures r.Some? ==> r.value in {Unauthorized, MissingFields, InvalidDay, InvalidTimeFormat, TimeSlotTaken}
    ensures r == Some(Unauthorized) <==> !HasAdminFlag(session)
    ensures HasAdminFlag(session) && CheckFields(f).Some? ==> r == CheckFields(f)
    ensures r == Some(TimeSlotTaken) <==>
      HasAdminFlag(session) && CheckFields(f) == None && exists c :: c in rows && Hits(c, f)
    ensures r == None <==>
      HasAdminFlag(session) && CheckFields(f) == None && forall c :: c in rows ==> !Hits(c, f)
  {
    if !HasAdminFlag(session) then Some(Unauthorized)
    else if CheckFields(f).Some? then CheckFields(f)
    else if FindConflict(rows, f, None).Some? then Some(TimeSlotTaken)
    else None
  }

  /** `POST`: store a new class, or refuse and store nothing. */
  method Post(db: Database, session: Option<Actor>, f: ClassFields) returns (reply: Reply<NamedClass>)
    requires db.Valid()
    modifies db`namedClasses, db`nextId
    ensures db.Valid()
    ensures PostCheck(session, old(db.namedClasses), f).Some? ==>
      && reply == Fail(PostCheck(session, old(db.namedClasses), f).value)
      && db.namedClasses == old(db.namedClasses) && db.nextId == old(db.nextId)
    ensures PostCheck(session, old(db.namedClasses), f) == None ==>
      && reply == Created(NamedClass(old(db.nextId), f.name, f.dayOfWeek, f.startTime, f.endTime))
      && db.namedClasses == old(db.namedClasses) + [reply.body]
      && db.nextId == old(db.nextId) + 1
  {
    var failure := PostCheck(session, db.namedClasses, f);
    if failure.Some? {
      return Fail(failure.value);
    }
    var row := NamedClass(db.nextId, f.name, f.dayOfWeek, f.startTime, f.endTime);
    db.namedClasses := db.namedClasses + [row];
    db.nextId := db.nextId + 1;
    reply := Created(row);
  }

  /** The guards of `PUT`, in order: administrator flag (401), `id` present (400),
      fields (400), overlap with a row other than `id` (400), and the row must exist
      (the store's update throws otherwise: 500). */
  function PutCheck(session: Option<Actor>, rows: seq<NamedClass>, id: Option<Id>, f: ClassFields): (r: Option<Reason>)
    ensures r.Some? ==>
      r.value in {Unauthorized, IdRequired, MissingFields, InvalidDay, InvalidTimeFormat, TimeSlotTaken, ServerError}
    ensures r == Some(Unauthorized) <==> !HasAdminFlag(session)
    ensures r == Some(IdRequired) <==> HasAdminFlag(session) && id.None?
    ensures HasAdminFlag(session) && id.Some? && CheckFields(f).Some? ==> r == CheckFields(f)
    ensures r == Some(TimeSlotTaken) <==>
      && HasAdminFlag(session) && id.Some? && CheckFields(f) == None
      && exists c :: c in rows && c.id != id.value && Hits(c, f)
    ensures r == Some(ServerError) <==>
      && HasAdminFlag(session) && id.Some? && CheckFields(f) == None
      && (forall c :: c in rows && c.id != id.value ==> !Hits(c, f))
      && forall c :: c in rows ==> c.id != id.value
    ensures r == None <==>
      && HasAdminFlag(session) && id.Some? && CheckFields(f) == None
      && (forall c :: c in rows && c.id != id.value ==> !Hits(c, f))
      && exists c :: c in rows && c.id == id.value
  {
    if !HasAdminFlag(session) then Some(Unauthorized)
    else if id.None? then Some(IdRequired)
    else if CheckFields(f).Some? then CheckFields(f)
    else if FindConflict(rows, f, id).Some? then Some(TimeSlotTaken)
    else if FirstWhere(rows, (c: NamedClass) => c.id == id.value).None? then Some(ServerError)
    else None
  }

  /** `PUT ?id=`: overwrite the class with exactly the submitted fields. */
  method Put(db: Database, session: Option<Actor>, id: Option<Id>, f: ClassFields) returns (reply: Reply<NamedClass>)
    requires db.Valid()
    modifies db`namedClasses
    ensures db.Valid()
    ensures PutCheck(session, old(db.namedClasses), id, f).Some? ==>
      reply == Fail(PutCheck(session, old(db.namedClasses), id, f).value) && db.namedClasses == old(db.namedClasses)
    ensures PutCheck(session, old(db.namedClasses), id, f) == None ==>
      && reply == Ok(NamedClass(id.value, f.name, f.dayOfWeek, f.startTime, f.endTime))
      && db.namedClasses == Replace(old(db.namedClasses), (c: NamedClass) => c.id == id.value, (c: NamedClass) => reply.body)
  {
    var failure := PutCheck(session, db.namedClasses, id, f);
    if failure.Some? {
      return Fail(failure.value);
    }
    var row := NamedClass(id.value, f.name, f.dayOfWeek, f.startTime, f.endTime);
    ghost var before := db.namedClasses;
    db.namedClasses := Replace(db.namedClasses, (c: NamedClass) => c.id == id.value, (c: NamedClass) => row);
    forall c | c in db.namedClasses ensures c.id < db.nextId && WellFormedNamedClass(c) {
      var i :| 0 <= i < |db.namedClasses| && db.namedClasses[i] == c;
      assert before[i] in before;
    }
    reply := Ok(row);
  }

  /** The guards of `DELETE`: administrator flag (401), `id` present (400), and the row
      must exist (500 otherwise). */
  function DeleteCheck(session: Option<Actor>, rows: seq<NamedClass>, id: Option<Id>): (r: Option<Reason>)
    ensures r.Some? ==> r.value in {Unauthorized, IdRequired, ServerError}
    ensures r == Some(Unauthorized) <==> !HasAdminFlag(session)
    ensures r == Some(IdRequired) <==> HasAdminFlag(session) && id.None?
    ensures r == Some(ServerError) <==> HasAdminFlag(session) && id.Some? && forall c :: c in rows ==> c.id != id.value
    ensures r == None <==> HasAdminFlag(session) && id.Some? && exists c :: c in rows && c.id == id.value
  {
    if !HasAdminFlag(session) then Some(Unauthorized)
    else if id.None? then Some(IdRequired)
    else if FirstWhere(rows, (c: NamedClass) => c.id == id.value).None? then Some(ServerError)
    else None
  }

  /** `DELETE ?id=`: remove the class. */
  method Delete(db: Database, session: Option<Actor>, id: Option<Id>) returns (reply: Reply<()>)
    requires db.Valid()
    modifies db`namedClasses
    ensures db.Valid()
    ensures DeleteCheck(session, old(db.namedClasses), id).Some? ==>
      reply == Fail(DeleteCheck(session, old(db.namedClasses), id).value) && db.namedClasses == old(db.namedClasses)
    ensures DeleteCheck(session, old(db.namedClasses), id) == None ==>
      && reply == Ok(())
      && db.namedClasses == Filter(old(db.namedClasses), (c: NamedClass) => c.id != id.value)
  {
    var failure := DeleteCheck(session, db.namedClasses, id);
    if failure.Some? {
      return Fail(failure.value);
    }
    db.namedClasses := Filter(db.namedClasses, (c: NamedClass) => c.id != id.value);
    reply := Ok(());
  }

  /** For valid "HH:mm" strings the store's string comparisons in the overlap query
      are comparisons of minutes since midnight. */
  lemma HitsInMinutes(c: NamedClass, f: ClassFields)
    requires IsTimeString(c.startTime) && IsTimeString(c.endTime)
    requires IsTimeString(f.startTime) && IsTimeString(f.endTime)
    ensures Hits(c, f) <==>
      && c.dayOfWeek == f.dayOfWeek
      && ((Minutes(c.startTime) <= Minutes(f.startTime) < Minutes(c.endTime))
          || (Minutes(c.startTime) < Minutes(f.endTime) <= Minutes(c.endTime)))
  {
    LexOrderIsTimeOrder(c.startTime, f.startTime);
    LexOrderIsTimeOrder(f.startTime, c.endTime);
    LexOrderIsTimeOrder(c.startTime, f.endTime);
    LexOrderIsTimeOrder(f.endTime, c.endTime);
  }

  /** An authorised, well-formed `POST` is refused exactly when a stored class on the
      same day contains the new start or the new end. */
  lemma RefusedIffEndpointInside(session: Option<Actor>, rows: seq<NamedClass>, f: ClassFields)
    requires HasAdminFlag(session) && CheckFields(f) == None
    requires forall c :: c in rows ==> WellFormedNamedClass(c)
    ensures PostCheck(session, rows, f) == Some(TimeSlotTaken) <==>
      exists c :: c in rows && WellFormedNamedClass(c) && c.dayOfWeek == f.dayOfWeek &&
        ((Minutes(c.startTime) <= Minutes(f.startTime) < Minutes(c.endTime))
         || (Minutes(c.startTime) < Minutes(f.endTime) <= Minutes(c.endTime)))
  {
    forall c | c in rows {
      HitsInMinutes(c, f);
    }
  }

  /** Back-to-back slots pass: a class ending exactly when the new one starts, or
      starting exactly when the new one ends, is not a conflict. */
  lemma BackToBackIsNoConflict(c: NamedClass, f: ClassFields)
    requires IsTimeString(c.startTime) && IsTimeString(c.endTime)
    requires IsTimeString(f.startTime) && IsTimeString(f.endTime)
    requires Minutes(f.startTime) < Minutes(f.endTime)
    requires c.endTime == f.startTime || c.startTime == f.endTime
    ensures !Hits(c, f)
  {
    HitsInMinutes(c, f);
  }

  /** A new slot that strictly encloses a stored class on the same day is not caught by
      the query, so the handler stores two overlapping classes. */
  lemma EnclosingSlotAccepted(session: Option<Actor>, c: NamedClass, f: ClassFields)
    requires HasAdminFlag(session) && CheckFields(f) == None && WellFormedNamedClass(c)
    requires c.dayOfWeek == f.dayOfWeek
    requires Minutes(f.startTime) < Minutes(c.startTime) < Minutes(c.endTime) < Minutes(f.endTime)
    ensures PostCheck(session, [c], f) == None
  {
    HitsInMinutes(c, f);
  }

  /** A stored class with start before end always hits its own fields, so without the
      `NOT id` clause an update that keeps a class's times would refuse itself; with
      it, the update is accepted while a creation with the same fields is refused. */
  lemma UpdateExcludesItself(session: Option<Actor>, c: NamedClass)
    requires HasAdminFlag(session) && WellFormedNamedClass(c)
    requires Minutes(c.startTime) < Minutes(c.endTime)
    ensures Hits(c, FieldsOf(c))
    ensures PutCheck(session, [c], Some(c.id), FieldsOf(c)) == None
    ensures PostCheck(session, [c], FieldsOf(c)) == Some(TimeSlotTaken)
  {
    LexOrderIsTimeOrder(c.startTime, c.endTime);
  }

  /** The server never compares the end with the start: a slot ending before it starts
      is stored when nothing on its day is hit. */
  lemma EndBeforeStartNotChecked(session: Option<Actor>, rows: seq<NamedClass>, f: ClassFields)
    requires HasAdminFlag(session) && CheckFields(f) == None
    requires Minutes(f.endTime) <= Minutes(f.startTime)
    requires forall c :: c in rows ==> c.dayOfWeek != f.dayOfWeek
    ensures PostCheck(session, rows, f) == None
  {
  }

  /** A session without the callback's fields is refused with 401 by every handler. */
  lemma BareSessionRefused(userId: Id, rows: seq<NamedClass>, f: ClassFields, id: Option<Id>)
    ensures List(BareSession(userId), rows) == Fail(Unauthorized)
    ensures PostCheck(BareSession(userId), rows, f) == Some(Unauthorized)
    ensures PutCheck(BareSession(userId), rows, id, f) == Some(Unauthorized)
    ensures DeleteCheck(BareSession(userId), rows, id) == Some(Unauthorized)
  {
  }
}
