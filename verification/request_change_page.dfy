/** The parent's request-change page: loading the caller's enrollments, the form's
    field updates, and the payload sent to the schedule-change route, whose old times
    are taken from the selected enrollment's class. */
module RequestChangePage {
  import opened Common

  /** The class of an enrollment as the page receives it; the times are the JSON
      strings of the class's instants. */
  datatype LoadedClass = LoadedClass(subject: string, dayOfWeek: int, startTime: string, endTime: string)

  /** An enrollment as the page receives it. */
  datatype LoadedEnrollment = LoadedEnrollment(id: string, studentName: string, cls: LoadedClass)

  /** What the enrollment fetch produced: an error response (with its `error` text,
      "" when absent), a body that is not an array, or the array. */
  datatype FetchResult = ErrorResponse(error: string) | NotAnArray | Items(items: seq<LoadedEnrollment>)

  /** The page's state: the enrollments, the error shown, and whether the last run of
      the load effect made a request. */
  datatype PageState = PageState(enrollments: seq<LoadedEnrollment>, error: Option<string>, fetched: bool)

  /** The state a fresh page starts from. */
  const INITIAL := PageState([], None, false)

  const SIGN_IN_ERROR := "Please sign in to view your enrollments"
  const FETCH_ERROR := "Failed to fetch enrollments"
  const FORMAT_ERROR := "Invalid data format received"

  /** One run of the load effect, which runs again whenever the session changes. Without a
      session user no request is made and the sign-in error is shown; an error response
      shows its message; a body that is not an array shows a format error; only an array
      replaces the list. Nothing clears an error, and no failure empties the list. */
  function Load(current: PageState, signedIn: bool, result: FetchResult): (s: PageState)
    ensures s.fetched <==> signedIn
    ensures !signedIn ==> s.error == Some(SIGN_IN_ERROR) && s.enrollments == current.enrollments
    ensures signedIn && result.ErrorResponse? ==>
      && s.error == Some(if result.error == "" then FETCH_ERROR else result.error)
      && s.enrollments == current.enrollments
    ensures signedIn && result.NotAnArray? ==> s.error == Some(FORMAT_ERROR) && s.enrollments == current.enrollments
    ensures signedIn && result.Items? ==> s.enrollments == result.items && s.error == current.error
    ensures s.error.None? <==> current.error.None? && signedIn && result.Items?
  {
    if !signedIn then current.(error := Some(SIGN_IN_ERROR), fetched := false)
    else match result
      case ErrorResponse(message) =>
        current.(error := Some(if message == "" then FETCH_ERROR else message), fetched := true)
      case NotAnArray => current.(error := Some(FORMAT_ERROR), fetched := true)
      case Items(items) => current.(enrollments := items, fetched := true)
  }

  /** One run of the effect: whether the session had a user, and what the fetch produced. */
  datatype Run = Run(signedIn: bool, result: FetchResult)

  /** The page after the effect's runs, in order. */
  function LoadRuns(current: PageState, runs: seq<Run>): (s: PageState)
    ensures (forall k :: 0 <= k < |runs| ==> runs[k].signedIn && runs[k].result.Items?) ==> s.error == current.error
    ensures |runs| > 0 && runs[|runs| - 1].signedIn && runs[|runs| - 1].result.Items? ==>
      s.enrollments == runs[|runs| - 1].result.items
    decreases |runs|
  {
    if |runs| == 0 then current
    else LoadRuns(Load(current, runs[0].signedIn, runs[0].result), runs[1..])
  }

  /** Once any run has set an error, every later run still shows one: the page never
      clears its error. */
  lemma {:induction false} LoadErrorSticks(current: PageState, runs: seq<Run>)
    requires current.error.Some?
    ensures LoadRuns(current, runs).error.Some?
    decreases |runs|
  {
    if |runs| > 0 {
      LoadErrorSticks(Load(current, runs[0].signedIn, runs[0].result), runs[1..]);
    }
  }

  /** On a fresh page, a signed-in run that receives the array shows the list and no
      error; if the session first had no user, the list still arrives but the sign-in
      error stays. */
  lemma FirstSessionDecidesError(first: FetchResult, items: seq<LoadedEnrollment>)
    ensures LoadRuns(INITIAL, [Run(true, Items(items))]) == PageState(items, None, true)
    ensures LoadRuns(INITIAL, [Run(false, first), Run(true, Items(items))]) == PageState(items, Some(SIGN_IN_ERROR), true)
  {
    var runs := [Run(false, first), Run(true, Items(items))];
    assert [Run(true, Items(items))][1..] == [];
    assert runs[1..] == [Run(true, Items(items))];
    var afterFirst := Load(INITIAL, false, first);
    assert afterFirst == PageState([], Some(SIGN_IN_ERROR), false);
    assert LoadRuns(INITIAL, runs) == LoadRuns(afterFirst, [Run(true, Items(items))]);
    assert LoadRuns(afterFirst, [Run(true, Items(items))]) == LoadRuns(Load(afterFirst, true, Items(items)), []);
  }

  /** The form: every field starts as "". */
  datatype RequestForm = RequestForm(
    enrollmentId: string, requestedDate: string, newStartTime: string, newEndTime: string, reason: string)

  datatype FormField = EnrollmentIdField | RequestedDateField | NewStartField | NewEndField | ReasonField

  const EMPTY_FORM := RequestForm("", "", "", "", "")

  function Get(f: RequestForm, field: FormField): string {
    match field
    case EnrollmentIdField => f.enrollmentId
    case RequestedDateField => f.requestedDate
    case NewStartField => f.newStartTime
    case NewEndField => f.newEndTime
    case ReasonField => f.reason
  }

  /** `handleChange`: the named field takes the new value, every other field is kept. */
  function SetField(f: RequestForm, field: FormField, value: string): (g: RequestForm)
    ensures Get(g, field) == value
    ensures forall other :: other != field ==> Get(g, other) == Get(f, other)
  {
    match field
    case EnrollmentIdField => f.(enrollmentId := value)
    case RequestedDateField => f.(requestedDate := value)
    case NewStartField => f.(newStartTime := value)
    case NewEndField => f.(newEndTime := value)
    case ReasonField => f.(reason := value)
  }

  /** The JSON body sent to the schedule-change route: the form's fields plus the old
      start and end. */
  datatype Payload = Payload(
    enrollmentId: string, requestedDate: string, newStartTime: string, newEndTime: string, reason: string,
    oldStartTime: string, oldEndTime: string)

  /** `handleSubmit`: the first loaded enrollment whose id is the selected one supplies
      the old times; when none matches, nothing is sent. */
  function BuildPayload(enrollments: seq<LoadedEnrollment>, f: RequestForm): (p: Option<Payload>)
    ensures p.None? <==> forall e :: e in enrollments ==> e.id != f.enrollmentId
    ensures p.Some? ==>
      && p.value.enrollmentId == f.enrollmentId && p.value.requestedDate == f.requestedDate
      && p.value.newStartTime == f.newStartTime && p.value.newEndTime == f.newEndTime
      && p.value.reason == f.reason
    ensures p.Some? ==> (exists e :: e in enrollments && e.id == f.enrollmentId
                           && p.value.oldStartTime == e.cls.startTime && p.value.oldEndTime == e.cls.endTime)
  {
    match FirstWhere(enrollments, (e: LoadedEnrollment) => e.id == f.enrollmentId)
    case None => None
    case Some(e) =>
      Some(Payload(f.enrollmentId, f.requestedDate, f.newStartTime, f.newEndTime, f.reason,
                   e.cls.startTime, e.cls.endTime))
  }

  /** The loaded list carries the store's distinct enrollment ids. */
  predicate DistinctIds(enrollments: seq<LoadedEnrollment>) {
    forall i, j :: 0 <= i < j < |enrollments| ==> enrollments[i].id != enrollments[j].id
  }

  /** With distinct ids, the old times sent are those of the selected enrollment's class. */
  lemma PayloadSnapshotsSelectedClass(enrollments: seq<LoadedEnrollment>, f: RequestForm, k: nat)
    requires DistinctIds(enrollments)
    requires k < |enrollments| && enrollments[k].id == f.enrollmentId
    ensures BuildPayload(enrollments, f).Some?
    ensures BuildPayload(enrollments, f).value.oldStartTime == enrollments[k].cls.startTime
    ensures BuildPayload(enrollments, f).value.oldEndTime == enrollments[k].cls.endTime
  {
    var i := FirstIndex(enrollments, (e: LoadedEnrollment) => e.id == f.enrollmentId);
    assert i.Some? && i.value == k by {
      assert !(forall j :: 0 <= j < |enrollments| ==> enrollments[j].id != f.enrollmentId);
    }
  }
}
