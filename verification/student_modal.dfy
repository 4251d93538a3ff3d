/** The administrator's student form (`StudentModal`): the state it opens with and the
    class checkboxes. Submitting hands the form state on unchanged. */
module StudentForm {
  import opened Common
  import opened ListToggle

  /** The class checkboxes offered. */
  const AVAILABLE_CLASSES: seq<string> := ["ENGLISH", "MATHEMATICS", "THINKING_SKILLS"]

  datatype StudentFormData = StudentFormData(name: string, grade: string, parentId: string, enrolledClasses: seq<string>)

  /** The student being edited, with its `enrolledClassesJson` already decoded. */
  datatype EditedStudent = EditedStudent(name: string, grade: string, parentId: string, enrolledClasses: seq<string>)

  const EMPTY_FORM := StudentFormData("", "", "", [])

  /** The form after the edited student arrives: a copy of it; without a student the
      form keeps its state (`EMPTY_FORM` when first shown). */
  function OpenForm(current: StudentFormData, editing: Option<EditedStudent>): (f: StudentFormData)
    ensures editing.None? ==> f == current
    ensures editing.Some? ==> f.name == editing.value.name && f.grade == editing.value.grade
    ensures editing.Some? ==> f.parentId == editing.value.parentId && f.enrolledClasses == editing.value.enrolledClasses
  {
    match editing
    case None => current
    case Some(s) => StudentFormData(s.name, s.grade, s.parentId, s.enrolledClasses)
  }

  /** `handleClassToggle`: only the class list changes. */
  function ToggleClass(f: StudentFormData, className: string): (g: StudentFormData)
    ensures g.name == f.name && g.grade == f.grade && g.parentId == f.parentId
    ensures className in g.enrolledClasses <==> className !in f.enrolledClasses
    ensures forall c :: c != className ==> (c in g.enrolledClasses <==> c in f.enrolledClasses)
  {
    f.(enrolledClasses := Toggle(f.enrolledClasses, className))
  }

  /** Clicking only the offered checkboxes of a new form yields a list of offered
      classes without repeats. */
  lemma {:induction false} ClicksStayWithinOffered(f: StudentFormData, clicks: seq<nat>)
    requires NoRepeats(f.enrolledClasses)
    requires forall c :: c in f.enrolledClasses ==> c in AVAILABLE_CLASSES
    requires forall k :: 0 <= k < |clicks| ==> clicks[k] < |AVAILABLE_CLASSES|
    ensures NoRepeats(Clicked(f, clicks).enrolledClasses)
    ensures forall c :: c in Clicked(f, clicks).enrolledClasses ==> c in AVAILABLE_CLASSES
    decreases |clicks|
  {
    if |clicks| > 0 {
      var g := ToggleClass(f, AVAILABLE_CLASSES[clicks[0]]);
      ToggleKeepsNoRepeats(f.enrolledClasses, AVAILABLE_CLASSES[clicks[0]]);
      ClicksStayWithinOffered(g, clicks[1..]);
    }
  }

  /** The form after clicking the offered checkboxes at the given positions, in order. */
  function Clicked(f: StudentFormData, clicks: seq<nat>): StudentFormData
    requires forall k :: 0 <= k < |clicks| ==> clicks[k] < |AVAILABLE_CLASSES|
    decreases |clicks|
  {
    if |clicks| == 0 then f else Clicked(ToggleClass(f, AVAILABLE_CLASSES[clicks[0]]), clicks[1..])
  }
}
