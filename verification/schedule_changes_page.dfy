/** The schedule-change review page: loading the list, approving or rejecting a
    PENDING request, and the local list update after the server accepts the change. */
module ScheduleChangesPage {
  import opened Common
  import opened Schema

  /** A listed request as the page holds it; `id` is the store id as a string. */
  datatype ChangeRow = ChangeRow(id: string, studentName: string, subject: string, reason: string, status: ChangeStatus)

  /** What the list fetch produced: a non-OK response, or a body that may or may not be
      an array. */
  datatype ListFetch = NotOk | Body(isArray: bool, items: seq<ChangeRow>)

  const LOAD_ERROR := "Failed to fetch schedule changes"

  /** `fetchScheduleChanges`: an array body replaces the list, any other body empties
      it, and a non-OK response keeps the list and shows an error. A successful load
      never clears an error an earlier load set. */
  function LoadChanges(current: seq<ChangeRow>, currentError: Option<string>, fetched: ListFetch)
      : (r: (seq<ChangeRow>, Option<string>))
    ensures fetched.NotOk? ==> r == (current, Some(LOAD_ERROR))
    ensures fetched.Body? ==> r.1 == currentError
    ensures fetched.Body? && fetched.isArray ==> r.0 == fetched.items
    ensures fetched.Body? && !fetched.isArray ==> r.0 == []
  {
    match fetched
    case NotOk => (current, Some(LOAD_ERROR))
    case Body(isArray, items) => (if isArray then items else [], currentError)
  }

  /** Once a load has failed, the page shows an error after every later load, whatever
      the later loads return. */
  lemma {:induction false} LoadErrorSticks(current: seq<ChangeRow>, fetches: seq<ListFetch>)
    requires |fetches| > 0 && fetches[0].NotOk?
    ensures LoadAll(current, None, fetches).1 == Some(LOAD_ERROR)
    decreases |fetches|
  {
    if |fetches| > 1 {
      var first := LoadChanges(current, None, fetches[0]);
      LoadErrorStaysFrom(first.0, first.1, fetches[1..]);
    }
  }

  /** A run of loads starting from an error shown ends with that same error. */
  lemma {:induction false} LoadErrorStaysFrom(current: seq<ChangeRow>, err: Option<string>, fetches: seq<ListFetch>)
    requires err == Some(LOAD_ERROR)
    ensures LoadAll(current, err, fetches).1 == Some(LOAD_ERROR)
    decreases |fetches|
  {
    if |fetches| > 0 {
      var next := LoadChanges(current, err, fetches[0]);
      LoadErrorStaysFrom(next.0, next.1, fetches[1..]);
    }
  }

  /** The list and the error after the loads in order (each run of the session effect). */
  function LoadAll(current: seq<ChangeRow>, err: Option<string>, fetches: seq<ListFetch>): (r: (seq<ChangeRow>, Option<string>))
    ensures |fetches| > 0 && fetches[|fetches| - 1].Body? && fetches[|fetches| - 1].isArray ==>
      r.0 == fetches[|fetches| - 1].items
    ensures (forall k :: 0 <= k < |fetches| ==> fetches[k].Body?) ==> r.1 == err
    decreases |fetches|
  {
    if |fetches| == 0 then (current, err)
    else
      var next := LoadChanges(current, err, fetches[0]);
      LoadAll(next.0, next.1, fetches[1..])
  }

  /** The two buttons. */
  datatype Decision = Approve | Reject

  function DecisionStatus(d: Decision): (s: ChangeStatus)
    ensures s != Pending && s != Cancelled
  {
    match d
    case Approve => Approved
    case Reject => Rejected
  }

  /** The buttons a row offers: Approve and Reject on a PENDING request, none otherwise. */
  function Actions(row: ChangeRow): (r: seq<Decision>)
    ensures |r| > 0 <==> row.status == Pending
    ensures row.status == Pending ==> r == [Approve, Reject]
  {
    if row.status == Pending then [Approve, Reject] else []
  }

  /** The `map` run after a successful PATCH: rows with the id take the new status. */
  function ApplyStatus(rows: seq<ChangeRow>, id: string, status: ChangeStatus): (r: seq<ChangeRow>)
    ensures |r| == |rows|
    ensures forall i :: 0 <= i < |rows| && rows[i].id != id ==> r[i] == rows[i]
    ensures forall i :: 0 <= i < |rows| && rows[i].id == id ==> r[i] == rows[i].(status := status)
  {
    if |rows| == 0 then []
    else
      var head := if rows[0].id == id then rows[0].(status := status) else rows[0];
      [head] + ApplyStatus(rows[1..], id, status)
  }

  /** `handleStatusChange`: the list after the PATCH answered `ok` or not. */
  function AfterDecision(rows: seq<ChangeRow>, id: string, d: Decision, ok: bool): (r: seq<ChangeRow>)
    ensures !ok ==> r == rows
    ensures ok ==> r == ApplyStatus(rows, id, DecisionStatus(d))
  {
    if ok then ApplyStatus(rows, id, DecisionStatus(d)) else rows
  }

  /** A decided row offers no more buttons, every other row keeps its own. */
  lemma DecidedRowOffersNothing(rows: seq<ChangeRow>, id: string, d: Decision, i: nat)
    requires i < |rows|
    ensures rows[i].id == id ==> Actions(AfterDecision(rows, id, d, true)[i]) == []
    ensures rows[i].id != id ==> Actions(AfterDecision(rows, id, d, true)[i]) == Actions(rows[i])
  {
  }

  /** Applying the same decision twice is the same as applying it once. */
  lemma {:induction false} ApplyStatusIdempotent(rows: seq<ChangeRow>, id: string, status: ChangeStatus)
    ensures ApplyStatus(ApplyStatus(rows, id, status), id, status) == ApplyStatus(rows, id, status)
  {
    if |rows| > 0 {
      ApplyStatusIdempotent(rows[1..], id, status);
      assert ApplyStatus(rows, id, status)[1..] == ApplyStatus(rows[1..], id, status);
    }
  }

  /** An id that is not in the list leaves it unchanged. */
  lemma {:induction false} ApplyStatusAbsentId(rows: seq<ChangeRow>, id: string, status: ChangeStatus)
    requires forall r :: r in rows ==> r.id != id
    ensures ApplyStatus(rows, id, status) == rows
  {
    if |rows| > 0 {
      assert rows[0] in rows;
      ApplyStatusAbsentId(rows[1..], id, status);
      assert rows == [rows[0]] + rows[1..];
    }
  }

  /** Decisions on two different requests do not interfere: their order does not matter. */
  lemma {:induction false} DecisionsCommute(rows: seq<ChangeRow>, id1: string, s1: ChangeStatus, id2: string, s2: ChangeStatus)
    requires id1 != id2
    ensures ApplyStatus(ApplyStatus(rows, id1, s1), id2, s2) == ApplyStatus(ApplyStatus(rows, id2, s2), id1, s1)
  {
    if |rows| > 0 {
      DecisionsCommute(rows[1..], id1, s1, id2, s2);
      assert ApplyStatus(rows, id1, s1)[1..] == ApplyStatus(rows[1..], id1, s1);
      assert ApplyStatus(rows, id2, s2)[1..] == ApplyStatus(rows[1..], id2, s2);
    }
  }

  /** Only the status changes: ids, names, subjects and reasons stay in place. */
  lemma OnlyStatusChanges(rows: seq<ChangeRow>, id: string, d: Decision, ok: bool, i: nat)
    requires i < |rows|
    ensures |AfterDecision(rows, id, d, ok)| == |rows|
    ensures AfterDecision(rows, id, d, ok)[i].(status := rows[i].status) == rows[i]
  {
  }
}
