/** The seeding script (`seedAuthorizedStudents`): for each entry of a fixed list, an
    authorised-parent record is created unless one with the same email, phone and
    student already exists. A store call that throws skips its entry only. */
module SeedScript {
  import opened Common
  import opened Schema

  /** One entry of the script's list. */
  datatype SeedEntry = SeedEntry(
    studentName: string, grade: string, enrolledClasses: seq<string>,
    parentName: string, parentEmail: string, parentPhone: string)

  const SEED_DATA: seq<SeedEntry> := [
    SeedEntry("John Smith", "Year 5", ["MATHEMATICS", "THINKING_SKILLS"], "Sarah Smith", "sarah.smith@example.com", "0412345678"),
    SeedEntry("Emily Chen", "Year 4", ["ENGLISH", "MATHEMATICS", "THINKING_SKILLS"], "David Chen", "david.chen@example.com", "0423456789"),
    SeedEntry("Michael Wang", "Year 6", ["ENGLISH", "THINKING_SKILLS"], "Lisa Wang", "lisa.wang@example.com", "0434567890"),
    SeedEntry("Sophie Brown", "Year 3", ["MATHEMATICS"], "James Brown", "james.brown@example.com", "0445678901")
  ]

  /** The `findFirst` key: same email, same phone and the same one-student list. */
  predicate Matches(p: AuthorizedParent, e: SeedEntry) {
    p.email == e.parentEmail && p.phone == e.parentPhone && p.students == [ChildInfo(e.studentName, e.grade)]
  }

  predicate Seeded(table: seq<AuthorizedParent>, e: SeedEntry) {
    exists p :: p in table && Matches(p, e)
  }

  /** The record `create` stores for an entry. */
  function SeedRecord(id: Id, e: SeedEntry, now: int): (p: AuthorizedParent)
    ensures Matches(p, e) && p.name == e.parentName && p.enrolledClasses == e.enrolledClasses
    ensures !p.isRegistered && p.registeredUserId.None?
  {
    AuthorizedParent(id, e.parentName, e.parentEmail, e.parentPhone, [ChildInfo(e.studentName, e.grade)],
                     e.enrolledClasses, false, None, now)
  }

  /** The table and the next id. */
  datatype SeedState = SeedState(table: seq<AuthorizedParent>, nextId: Id)

  /** One pass of the loop body: nothing when the store call throws (`failed`) or the
      key is found, otherwise one record appended. */
  function SeedStep(st: SeedState, e: SeedEntry, failed: bool, now: int): (r: SeedState)
    ensures !failed && !Seeded(st.table, e) ==>
      r == SeedState(st.table + [SeedRecord(st.nextId, e, now)], st.nextId + 1)
    ensures failed || Seeded(st.table, e) ==> r == st
  {
    if failed || Seeded(st.table, e) then st
    else SeedState(st.table + [SeedRecord(st.nextId, e, now)], st.nextId + 1)
  }

  /** The state after the first `n` entries; `failing` holds the positions whose store
      call throws. */
  function SeedRun(st: SeedState, entries: seq<SeedEntry>, failing: set<nat>, n: nat, now: int): SeedState
    requires n <= |entries|
  {
    if n == 0 then st
    else SeedStep(SeedRun(st, entries, failing, n - 1, now), entries[n - 1], n - 1 in failing, now)
  }

  /** The run only ever appends: the table before is a prefix of the table after. */
  lemma {:induction false} SeedRunAppends(st: SeedState, entries: seq<SeedEntry>, failing: set<nat>, n: nat, now: int)
    requires n <= |entries|
    ensures st.table <= SeedRun(st, entries, failing, n, now).table
    ensures st.nextId <= SeedRun(st, entries, failing, n, now).nextId
  {
    if n > 0 {
      SeedRunAppends(st, entries, failing, n - 1, now);
    }
  }

  /** After the run, every entry whose store call did not throw has its record, so a
      failure never stops the entries after it. */
  lemma {:induction false} SeedRunCovers(st: SeedState, entries: seq<SeedEntry>, failing: set<nat>, n: nat, now: int)
    requires n <= |entries|
    ensures forall j :: 0 <= j < n && j !in failing ==> Seeded(SeedRun(st, entries, failing, n, now).table, entries[j])
  {
    if n > 0 {
      var before := SeedRun(st, entries, failing, n - 1, now);
      var after := SeedRun(st, entries, failing, n, now);
      SeedRunCovers(st, entries, failing, n - 1, now);
      assert before.table <= after.table;
      forall j | 0 <= j < n && j !in failing ensures Seeded(after.table, entries[j]) {
        if j < n - 1 {
          var p :| p in before.table && Matches(p, entries[j]);
          assert p in after.table;
        } else if !Seeded(before.table, entries[j]) {
          assert after.table[|before.table|] in after.table;
        }
      }
    }
  }

  /** When every entry already has its record, a run creates nothing. */
  lemma {:induction false} SeedRunIdle(st: SeedState, entries: seq<SeedEntry>, failing: set<nat>, n: nat, now: int)
    requires n <= |entries|
    requires forall j :: 0 <= j < n ==> Seeded(st.table, entries[j])
    ensures SeedRun(st, entries, failing, n, now) == st
  {
    if n > 0 {
      SeedRunIdle(st, entries, failing, n - 1, now);
    }
  }

  /** A second run over the same list, after a first run in which nothing threw,
      creates nothing. */
  lemma SecondRunCreatesNothing(st: SeedState, entries: seq<SeedEntry>, failing: set<nat>, now: int, later: int)
    ensures var first := SeedRun(st, entries, {}, |entries|, now);
            SeedRun(first, entries, failing, |entries|, later) == first
  {
    SeedRunCovers(st, entries, {}, |entries|, now);
    SeedRunIdle(SeedRun(st, entries, {}, |entries|, now), entries, failing, |entries|, later);
  }

  /** Store one record. */
  method AddParent(db: Database, p: AuthorizedParent)
    requires db.Valid() && p.id == db.nextId
    modifies db`authorizedParents, db`nextId
    ensures db.Valid()
    ensures db.authorizedParents == old(db.authorizedParents) + [p] && db.nextId == old(db.nextId) + 1
  {
    db.authorizedParents := db.authorizedParents + [p];
    db.nextId := db.nextId + 1;
  }

  /** `seedAuthorizedStudents`, over any list of entries. */
  method SeedAuthorizedParents(db: Database, entries: seq<SeedEntry>, failing: set<nat>, now: int)
    requires db.Valid()
    modifies db`authorizedParents, db`nextId
    ensures db.Valid()
    ensures SeedState(db.authorizedParents, db.nextId) ==
            SeedRun(SeedState(old(db.authorizedParents), old(db.nextId)), entries, failing, |entries|, now)
  {
    ghost var start := SeedState(db.authorizedParents, db.nextId);
    for i := 0 to |entries|
      invariant db.Valid()
      invariant SeedState(db.authorizedParents, db.nextId) == SeedRun(start, entries, failing, i, now)
    {
      var e := entries[i];
      ghost var st := SeedState(db.authorizedParents, db.nextId);
      if i !in failing {
        var existing := FirstWhere(db.authorizedParents, (p: AuthorizedParent) => Matches(p, e));
        if existing.None? {
          AddParent(db, SeedRecord(db.nextId, e, now));
        }
      }
      assert SeedState(db.authorizedParents, db.nextId) == SeedStep(st, e, i in failing, now);
    }
  }
}
