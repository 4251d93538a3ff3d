/** The administrator's class form (`ClassModal`): its initial state, the copy of the
    class being edited, and the submit check that the end comes after the start. */
module ClassForm {
  import opened Common
  import opened TimeOfDay
  import opened Schema
  import opened AdminClasses

  /** The form's day choices. */
  const FORM_DAYS: seq<string> :=
    ["Monday", "Tuesday", "Wednesday", "Thursday", "Friday", "Saturday", "Sunday"]

  /** The form offers exactly the day names the class route accepts. */
  lemma FormDaysAreRouteDays()
    ensures |FORM_DAYS| == 7
    ensures forall d :: d in FORM_DAYS <==> IsDayName(d)
  {
  }

  /** A new form: no name, Monday, 09:00 to 10:00. */
  const NEW_FORM: ClassFields := ClassFields("", "Monday", "09:00", "10:00")

  /** The form after the class being edited arrives: its name, day and times replace
      the form; without a class the form keeps its state (`NEW_FORM` when first shown). */
  function OpenForm(current: ClassFields, editing: Option<NamedClass>): (f: ClassFields)
    ensures editing.None? ==> f == current
    ensures editing.Some? ==> f.name == editing.value.name && f.dayOfWeek == editing.value.dayOfWeek
    ensures editing.Some? ==> f.startTime == editing.value.startTime && f.endTime == editing.value.endTime
  {
    match editing
    case None => current
    case Some(c) => ClassFields(c.name, c.dayOfWeek, c.startTime, c.endTime)
  }

  /** `new Date('1970-01-01T' + t)` compared as a number: minutes for an "HH:mm" time,
      nothing (an invalid date, NaN) otherwise. */
  function ParseTime(t: string): (m: Option<int>)
    ensures m.Some? <==> IsTimeString(t)
    ensures m.Some? ==> 0 <= m.value < 24 * 60
  {
    if IsTimeString(t) then Some(Minutes(t)) else None
  }

  /** `handleSubmit`: the form data handed to `onSave`, or nothing when the end is not
      after the start. A comparison with an invalid date is false, so a form whose
      time does not parse is handed on. */
  function Submit(f: ClassFields): (saved: Option<ClassFields>)
    ensures saved.None? <==>
      IsTimeString(f.startTime) && IsTimeString(f.endTime) && Minutes(f.endTime) <= Minutes(f.startTime)
    ensures saved.Some? ==> saved.value == f
  {
    var start, end := ParseTime(f.startTime), ParseTime(f.endTime);
    if start.Some? && end.Some? && end.value <= start.value then None else Some(f)
  }

  /** A saved form whose times are valid has its end after its start, so a class
      ending at the form's start, or starting at its end, is no conflict for it. */
  lemma SavedFormAbutsFreely(f: ClassFields, c: NamedClass)
    requires Submit(f).Some? && IsTimeString(f.startTime) && IsTimeString(f.endTime)
    requires IsTimeString(c.startTime) && IsTimeString(c.endTime)
    requires c.endTime == f.startTime || c.startTime == f.endTime
    ensures Minutes(f.startTime) < Minutes(f.endTime)
    ensures !Hits(c, Submit(f).value)
  {
    BackToBackIsNoConflict(c, f);
  }

  /** The new-class defaults are Monday, 09:00 to 10:00 with no name; they pass the
      form's own check and every check of the route except the name. */
  lemma NewFormDefaults()
    ensures NEW_FORM.name == "" && NEW_FORM.dayOfWeek == "Monday"
    ensures IsTimeString(NEW_FORM.startTime) && Minutes(NEW_FORM.startTime) == 9 * 60
    ensures IsTimeString(NEW_FORM.endTime) && Minutes(NEW_FORM.endTime) == 10 * 60
    ensures Submit(NEW_FORM) == Some(NEW_FORM)
    ensures CheckFields(NEW_FORM) == Some(MissingFields)
    ensures CheckFields(NEW_FORM.(name := "Maths")) == None
  {
  }
}
