/** The tutor application form (`/join`): its initial state and the three change
    handlers. Submitting only shows a message and is not modelled. */
module JoinForm {
  import opened Common
  import opened ListToggle

  /** A selected file, known by name. */
  datatype FileRef = FileRef(name: string)

  datatype JoinFormData = JoinFormData(
    name: string, email: string, phone: string, subjects: seq<string>,
    qualifications: string, experience: string, availability: string,
    resume: Option<FileRef>, coverLetter: string)

  const INITIAL_FORM := JoinFormData("", "", "", [], "", "", "", None, "")

  /** The text inputs and areas that call `handleInputChange`, by their `name`. */
  datatype TextField = Name | Email | Phone | Qualifications | Experience | Availability | CoverLetter

  function Get(f: JoinFormData, field: TextField): string {
    match field
    case Name => f.name
    case Email => f.email
    case Phone => f.phone
    case Qualifications => f.qualifications
    case Experience => f.experience
    case Availability => f.availability
    case CoverLetter => f.coverLetter
  }

  /** `handleInputChange`: the named field takes the value; nothing else changes. */
  function SetField(f: JoinFormData, field: TextField, value: string): (g: JoinFormData)
    ensures Get(g, field) == value
    ensures forall other :: other != field ==> Get(g, other) == Get(f, other)
    ensures g.subjects == f.subjects && g.resume == f.resume
  {
    match field
    case Name => f.(name := value)
    case Email => f.(email := value)
    case Phone => f.(phone := value)
    case Qualifications => f.(qualifications := value)
    case Experience => f.(experience := value)
    case Availability => f.(availability := value)
    case CoverLetter => f.(coverLetter := value)
  }

  /** Edits of two different fields give the same form in either order. */
  lemma SetFieldsCommute(f: JoinFormData, a: TextField, x: string, b: TextField, y: string)
    requires a != b
    ensures SetField(SetField(f, a, x), b, y) == SetField(SetField(f, b, y), a, x)
  {
    var g, h := SetField(SetField(f, a, x), b, y), SetField(SetField(f, b, y), a, x);
    assert forall field :: Get(g, field) == Get(h, field);
    assert Get(g, Name) == Get(h, Name) && Get(g, Email) == Get(h, Email) && Get(g, Phone) == Get(h, Phone);
    assert Get(g, Qualifications) == Get(h, Qualifications) && Get(g, Experience) == Get(h, Experience);
    assert Get(g, Availability) == Get(h, Availability) && Get(g, CoverLetter) == Get(h, CoverLetter);
  }

  /** `handleSubjectChange`: only the subject list changes. */
  function ToggleSubject(f: JoinFormData, subject: string): (g: JoinFormData)
    ensures subject in g.subjects <==> subject !in f.subjects
    ensures forall s :: s != subject ==> (s in g.subjects <==> s in f.subjects)
    ensures forall field :: Get(g, field) == Get(f, field)
    ensures g.resume == f.resume
  {
    f.(subjects := Toggle(f.subjects, subject))
  }

  /** `handleFileChange`: the first selected file, or none when nothing was selected. */
  function FileChange(f: JoinFormData, files: seq<FileRef>): (g: JoinFormData)
    ensures g.resume.Some? <==> |files| > 0
    ensures |files| > 0 ==> g.resume.value == files[0]
    ensures forall field :: Get(g, field) == Get(f, field)
    ensures g.subjects == f.subjects
  {
    f.(resume := if |files| > 0 then Some(files[0]) else None)
  }
}
