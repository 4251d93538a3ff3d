/** The weekly schedule grids: the administrator's week view and the dashboard's
    schedule page. Rows are the distinct start and end instants of the shown classes
    in ascending order, columns the days Sunday (0) to Saturday (6), and each cell the
    first class in list order on that day starting at that instant. */
module WeeklyGrid {
  import opened Common
  import opened Sorting
  import opened TimeOfDay

  /** An enrollment as the grids load it, joined with its `parentStudent` and that
      child's parent. */
  datatype GridEnrollment = GridEnrollment(
    id: Id, studentName: string, grade: string, parentId: Id, parentName: string)

  /** A class as the grids load it: its teacher's name and its enrollments joined in;
      the times are instants in milliseconds. */
  datatype GridClass = GridClass(
    id: Id, subject: string, teacherName: string, dayOfWeek: int,
    startTime: int, endTime: int, enrollments: seq<GridEnrollment>)

  /** `t` is the start or the end of one of the classes. */
  ghost predicate IsInstantOf(classes: seq<GridClass>, t: int) {
    exists c :: c in classes && (t == c.startTime || t == c.endTime)
  }

  /** `Set.add` on a set kept in insertion order. */
  function AddToSet(s: seq<int>, x: int): (r: seq<int>)
    ensures forall t :: t in r <==> t in s || t == x
    ensures NoRepeats(s) ==> NoRepeats(r)
  {
    if x in s then s
    else
      assert forall y :: multiset(s + [x])[y] == multiset(s)[y] + (if y == x then 1 else 0);
      s + [x]
  }

  /** The rows of a grid: every class's start and end added to a set, then sorted by
      time. The rows are exactly those instants, each once, strictly ascending. */
  method CollectTimeSlots(classes: seq<GridClass>) returns (slots: seq<int>)
    ensures forall t :: t in slots <==> IsInstantOf(classes, t)
    ensures forall i, j :: 0 <= i < j < |slots| ==> slots[i] < slots[j]
  {
    var seen: seq<int> := [];
    for i := 0 to |classes|
      invariant NoRepeats(seen)
      invariant forall t :: t in seen <==> IsInstantOf(classes[..i], t)
    {
      seen := AddToSet(seen, classes[i].startTime);
      seen := AddToSet(seen, classes[i].endTime);
      assert classes[..i + 1] == classes[..i] + [classes[i]];
      forall t | IsInstantOf(classes[..i + 1], t) ensures t in seen {
        var c :| c in classes[..i + 1] && (t == c.startTime || t == c.endTime);
        if c != classes[i] {
          assert c in classes[..i];
        }
      }
    }
    assert classes[..|classes|] == classes;
    slots := SortByKey(seen, (t: int) => t);
    forall t ensures t in slots <==> t in seen {
      assert t in slots <==> t in multiset(slots);
      assert t in seen <==> t in multiset(seen);
    }
    SortedNoRepeatsIncreasing(slots);
  }

  /** `classes.find(...)` for one cell, as a position in the list: the first class on
      day `day` starting at instant `slot`. */
  function CellIndex(classes: seq<GridClass>, day: int, slot: int): (r: Option<nat>)
    ensures r.Some? ==> r.value < |classes| && classes[r.value].dayOfWeek == day && classes[r.value].startTime == slot
    ensures r.Some? ==> forall j :: 0 <= j < r.value ==> !(classes[j].dayOfWeek == day && classes[j].startTime == slot)
    ensures r.None? <==> forall c :: c in classes ==> !(c.dayOfWeek == day && c.startTime == slot)
  {
    FirstIndex(classes, (c: GridClass) => c.dayOfWeek == day && c.startTime == slot)
  }

  /** A class is shown at cell (`day`, `slot`) of a grid with columns 0..6. */
  predicate ShownAt(classes: seq<GridClass>, k: nat, day: int, slot: int) {
    0 <= day < |WEEK_COLUMNS| && CellIndex(classes, day, slot) == Some(k)
  }

  /** A class preceded in the list by one with the same day and start is never shown. */
  lemma ShadowedNeverShown(classes: seq<GridClass>, j: nat, k: nat, day: int, slot: int)
    requires j < k < |classes|
    requires classes[j].dayOfWeek == classes[k].dayOfWeek && classes[j].startTime == classes[k].startTime
    ensures !ShownAt(classes, k, day, slot)
  {
  }

  /** A class on a day outside 0..6 is never shown. */
  lemma OutOfWeekNeverShown(classes: seq<GridClass>, k: nat, day: int, slot: int)
    requires k < |classes| && !(0 <= classes[k].dayOfWeek < 7)
    ensures !ShownAt(classes, k, day, slot)
  {
  }

  /** Every other class is shown in exactly one cell: its own day's column, in the row
      of its start. */
  lemma ShownExactlyOnce(classes: seq<GridClass>, slots: seq<int>, k: nat)
    requires forall t :: t in slots <==> IsInstantOf(classes, t)
    requires k < |classes| && 0 <= classes[k].dayOfWeek < 7
    requires forall j :: 0 <= j < k ==>
      !(classes[j].dayOfWeek == classes[k].dayOfWeek && classes[j].startTime == classes[k].startTime)
    ensures classes[k].startTime in slots
    ensures ShownAt(classes, k, classes[k].dayOfWeek, classes[k].startTime)
    ensures forall day, slot :: ShownAt(classes, k, day, slot) ==>
      day == classes[k].dayOfWeek && slot == classes[k].startTime
  {
    assert classes[k] in classes;
    var r := CellIndex(classes, classes[k].dayOfWeek, classes[k].startTime);
    assert r.Some?;
  }

  /** One line of a cell's student list; the parent's name only where the view shows it. */
  datatype Line = Line(studentName: string, grade: string, parentName: Option<string>)

  /** The student list of a shown class, one line per loaded enrollment, in order. */
  function Lines(enrollments: seq<GridEnrollment>, showParent: bool): (r: seq<Line>)
    ensures |r| == |enrollments|
    ensures forall i :: 0 <= i < |r| ==>
      && r[i].studentName == enrollments[i].studentName && r[i].grade == enrollments[i].grade
      && (r[i].parentName.Some? <==> showParent)
      && (showParent ==> r[i].parentName == Some(enrollments[i].parentName))
  {
    seq(|enrollments|, i requires 0 <= i < |enrollments| =>
      Line(enrollments[i].studentName, enrollments[i].grade,
           if showParent then Some(enrollments[i].parentName) else None))
  }

  /** What a cell displays: subject, teacher and the student list. */
  datatype CellView = CellView(subject: string, teacherName: string, lines: seq<Line>)

  function Cell(classes: seq<GridClass>, day: int, slot: int, showParent: bool): (r: Option<CellView>)
    ensures r.Some? <==> CellIndex(classes, day, slot).Some?
    ensures r.Some? ==>
      var c := classes[CellIndex(classes, day, slot).value];
      r.value.subject == c.subject && r.value.teacherName == c.teacherName &&
      r.value.lines == Lines(c.enrollments, showParent)
  {
    match CellIndex(classes, day, slot)
    case None => None
    case Some(k) => Some(CellView(classes[k].subject, classes[k].teacherName, Lines(classes[k].enrollments, showParent)))
  }

  /** The table body: one row per instant, seven cells per row. */
  function Rows(classes: seq<GridClass>, slots: seq<int>, showParent: bool): (r: seq<seq<Option<CellView>>>)
    ensures |r| == |slots|
    ensures forall i :: 0 <= i < |r| ==> |r[i]| == |WEEK_COLUMNS|
    ensures forall i, d :: 0 <= i < |r| && 0 <= d < |WEEK_COLUMNS| ==> r[i][d] == Cell(classes, d, slots[i], showParent)
  {
    seq(|slots|, i requires 0 <= i < |slots| =>
      seq(|WEEK_COLUMNS|, d requires 0 <= d < |WEEK_COLUMNS| => Cell(classes, d, slots[i], showParent)))
  }

  /** A rendered week grid. */
  datatype Grid = Grid(slots: seq<int>, rows: seq<seq<Option<CellView>>>)

  /** The administrator's week view: every class with all of its enrollments; the
      student lines show name and grade only. */
  method AdminWeekView(classes: seq<GridClass>) returns (g: Grid)
    ensures forall t :: t in g.slots <==> IsInstantOf(classes, t)
    ensures forall i, j :: 0 <= i < j < |g.slots| ==> g.slots[i] < g.slots[j]
    ensures g.rows == Rows(classes, g.slots, false)
  {
    var slots := CollectTimeSlots(classes);
    g := Grid(slots, Rows(classes, slots, false));
  }

  /** The enrollment is of one of the user's children. */
  predicate OwnChild(e: GridEnrollment, userId: Id) {
    e.parentId == userId
  }

  /** A class restricted to the user's own children's enrollments. */
  function OwnView(c: GridClass, userId: Id): (v: GridClass)
    ensures v.(enrollments := c.enrollments) == c
    ensures forall e :: e in v.enrollments <==> e in c.enrollments && OwnChild(e, userId)
  {
    c.(enrollments := Filter(c.enrollments, (e: GridEnrollment) => OwnChild(e, userId)))
  }

  /** The `where` of a parent's query: some enrollment of the class is of their child. */
  function HasOwnChild(userId: Id): GridClass -> bool {
    (c: GridClass) => exists e :: e in c.enrollments && OwnChild(e, userId)
  }

  /** Every class of the list restricted to the user's own children, in list order. */
  function OwnViews(classes: seq<GridClass>, userId: Id): (r: seq<GridClass>)
    ensures |r| == |classes| && forall i :: 0 <= i < |r| ==> r[i] == OwnView(classes[i], userId)
  {
    seq(|classes|, i requires 0 <= i < |classes| => OwnView(classes[i], userId))
  }

  /** `getClassesWithDetails`: an administrator gets every class with every enrollment;
      anyone else only the classes with an enrollment of one of their children, in
      list order, each with only those enrollments. */
  function ClassesWithDetails(classes: seq<GridClass>, userId: Id, isAdmin: bool): (r: seq<GridClass>)
    ensures isAdmin ==> r == classes
    ensures !isAdmin ==> r == OwnViews(Filter(classes, HasOwnChild(userId)), userId)
    ensures |r| <= |classes|
  {
    if isAdmin || |classes| == 0 then classes
    else
      var rest := ClassesWithDetails(classes[1..], userId, isAdmin);
      assert classes == [classes[0]] + classes[1..];
      if HasOwnChild(userId)(classes[0]) then
        OwnViewsCons(classes[0], Filter(classes[1..], HasOwnChild(userId)), userId);
        [OwnView(classes[0], userId)] + rest
      else rest
  }

  /** The own views of a list with a first class are that class's own view followed by
      the own views of the rest. */
  lemma OwnViewsCons(c: GridClass, rest: seq<GridClass>, userId: Id)
    ensures OwnViews([c] + rest, userId) == [OwnView(c, userId)] + OwnViews(rest, userId)
  {
    var l := OwnViews([c] + rest, userId);
    var r := [OwnView(c, userId)] + OwnViews(rest, userId);
    assert |l| == |r|;
    forall i | 0 <= i < |l| ensures l[i] == r[i] {
      if i > 0 {
        assert ([c] + rest)[i] == rest[i - 1];
      }
    }
  }

  /** A parent sees exactly the own views of the classes with an enrollment of one of
      their children. */
  lemma ParentClassesAreOwnViews(classes: seq<GridClass>, userId: Id)
    ensures forall v :: v in ClassesWithDetails(classes, userId, false) <==>
      exists c :: c in classes && (exists e :: e in c.enrollments && OwnChild(e, userId)) && v == OwnView(c, userId)
  {
    var kept := Filter(classes, HasOwnChild(userId));
    var r := ClassesWithDetails(classes, userId, false);
    forall v | v in r
      ensures exists c :: c in classes && (exists e :: e in c.enrollments && OwnChild(e, userId)) && v == OwnView(c, userId)
    {
      var i :| 0 <= i < |r| && r[i] == v;
      assert kept[i] in kept;
    }
    forall c | c in classes && (exists e :: e in c.enrollments && OwnChild(e, userId))
      ensures OwnView(c, userId) in r
    {
      assert HasOwnChild(userId)(c);
      var i :| 0 <= i < |kept| && kept[i] == c;
      assert r[i] == OwnView(c, userId);
    }
  }

  /** The own view of a class with an enrollment of one of the user's children is
      non-empty and holds only such enrollments. */
  lemma OwnViewOfKeptClass(c: GridClass, userId: Id)
    requires HasOwnChild(userId)(c)
    ensures |OwnView(c, userId).enrollments| > 0
    ensures forall e :: e in OwnView(c, userId).enrollments ==> OwnChild(e, userId)
  {
    var e :| e in c.enrollments && OwnChild(e, userId);
    assert e in OwnView(c, userId).enrollments;
  }

  /** In a parent's view every listed class has at least one enrollment, and every
      listed enrollment is of one of the parent's children. */
  lemma ParentSeesOnlyOwnChildren(classes: seq<GridClass>, userId: Id)
    ensures forall v :: v in ClassesWithDetails(classes, userId, false) ==>
      |v.enrollments| > 0 && forall e :: e in v.enrollments ==> OwnChild(e, userId)
  {
    var kept := Filter(classes, HasOwnChild(userId));
    var r := ClassesWithDetails(classes, userId, false);
    forall v | v in r
      ensures |v.enrollments| > 0 && forall e :: e in v.enrollments ==> OwnChild(e, userId)
    {
      var i :| 0 <= i < |r| && r[i] == v;
      assert kept[i] in kept;
      OwnViewOfKeptClass(kept[i], userId);
    }
  }

  /** The dashboard's schedule page: no session redirects to sign-in; otherwise the
      grid of the classes the user may see. */
  datatype SchedulePage = RedirectToSignIn | Page(title: string, grid: Grid)

  const ADMIN_TITLE := "All Classes Schedule"
  const PARENT_TITLE := "Your Children's Class Schedule"

  method DashboardSchedule(session: Option<Actor>, classes: seq<GridClass>) returns (page: SchedulePage)
    ensures page.RedirectToSignIn? <==> session.None?
    ensures page.Page? ==>
      var shown := ClassesWithDetails(classes, session.value.id, session.value.isAdmin);
      && page.title == (if session.value.isAdmin then ADMIN_TITLE else PARENT_TITLE)
      && (forall t :: t in page.grid.slots <==> IsInstantOf(shown, t))
      && (forall i, j :: 0 <= i < j < |page.grid.slots| ==> page.grid.slots[i] < page.grid.slots[j])
      && page.grid.rows == Rows(shown, page.grid.slots, session.value.isAdmin)
  {
    if session.None? {
      return RedirectToSignIn;
    }
    var shown := ClassesWithDetails(classes, session.value.id, session.value.isAdmin);
    var slots := CollectTimeSlots(shown);
    var title := if session.value.isAdmin then ADMIN_TITLE else PARENT_TITLE;
    page := Page(title, Grid(slots, Rows(shown, slots, session.value.isAdmin)));
  }

  /** In the dashboard grid a line names the student's parent exactly when the viewer
      is an administrator. */
  lemma ParentNameOnlyForAdmin(classes: seq<GridClass>, slots: seq<int>, isAdmin: bool, i: nat, d: nat, l: nat)
    requires i < |slots| && d < 7
    requires Rows(classes, slots, isAdmin)[i][d].Some?
    requires l < |Rows(classes, slots, isAdmin)[i][d].value.lines|
    ensures Rows(classes, slots, isAdmin)[i][d].value.lines[l].parentName.Some? <==> isAdmin
  {
  }
}
