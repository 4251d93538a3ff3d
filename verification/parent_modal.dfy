/** The administrator's parent form (`ParentModal`): the state it opens with and the
    email and phone checks that gate saving. */
module ParentForm {
  import opened Common
  import opened Validation

  datatype ParentFormData = ParentFormData(name: string, email: string, phone: string)

  /** The parent being edited, as the list page passes it. */
  datatype EditedParent = EditedParent(id: string, name: string, email: string, phone: string)

  const EMPTY_FORM := ParentFormData("", "", "")

  /** The form after the edited parent arrives: its name, email and phone replace the
      form; without a parent the form is left as it was. */
  function OpenForm(current: ParentFormData, editing: Option<EditedParent>): (f: ParentFormData)
    ensures editing.None? ==> f == current
    ensures editing.Some? ==> f.name == editing.value.name && f.email == editing.value.email && f.phone == editing.value.phone
  {
    match editing
    case None => current
    case Some(p) => ParentFormData(p.name, p.email, p.phone)
  }

  /** What submitting does: an alert about the email, one about the phone, or a call
      of `onSave` with the form. */
  datatype SubmitOutcome = EmailAlert | PhoneAlert | Saved(data: ParentFormData)

  /** `handleSubmit`: the email is checked first, then the phone. */
  function Submit(f: ParentFormData): (r: SubmitOutcome)
    ensures r == EmailAlert <==> !IsEmail(f.email)
    ensures r == PhoneAlert <==> IsEmail(f.email) && !IsPhone(f.phone)
    ensures r.Saved? <==> IsEmail(f.email) && IsPhone(f.phone)
    ensures r.Saved? ==> r.data == f
  {
    if !IsEmail(f.email) then EmailAlert
    else if !IsPhone(f.phone) then PhoneAlert
    else Saved(f)
  }

  /** A saved form's email matches the email pattern and its phone has at least eight
      characters. */
  lemma SavedFormShape(f: ParentFormData)
    requires Submit(f).Saved?
    ensures MatchesEmailPattern(f.email)
    ensures |f.phone| >= 8
  {
    EmailMatchesPattern(f.email);
    PhoneShape(f.phone);
  }

  /** An empty form is never saved: the email check refuses it first. */
  lemma EmptyFormRefused()
    ensures Submit(EMPTY_FORM) == EmailAlert
  {
  }
}
