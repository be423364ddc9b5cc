/** The data types of a job application: the form, the result of validating it and the
    result of submitting it. */
module ApplicationTypes {
  import opened Wrappers

  /** A browser `File` as far as the application cares: its name, size in bytes and MIME
      type. */
  datatype File = File(name: string, size: nat, mimeType: string)

  /** `'yes' | 'no' | ''` */
  datatype WorkAuthorization = WorkYes | WorkNo | WorkUnset

  /** `'yes' | 'no' | 'na' | ''` */
  datatype VisaAssistance = VisaYes | VisaNo | VisaNotApplicable | VisaUnset

  /** The keys of the form record, plus `general`, the key under which a failed
      submission reports an exception. Error maps are keyed by these. */
  datatype Field =
    | FullName | Email | Nationality | Phone | WorkAuthorizationField | VisaAssistanceField
    | ProfessionalSummary | CvFile | GdprConsent | General

  /** The form record. `fullName`, `email`, `phone`, `workAuthorization`,
      `visaAssistance` and `gdprConsent` are always present; `nationality`,
      `professionalSummary` and `cvFile` are optional. */
  datatype ApplicationFormData = ApplicationFormData(
    fullName: string,
    email: string,
    nationality: Option<string>,
    phone: string,
    workAuthorization: WorkAuthorization,
    visaAssistance: VisaAssistance,
    professionalSummary: Option<string>,
    cvFile: Option<File>,
    gdprConsent: bool)

  /** A boolean verdict paired with a field-to-message map. */
  datatype ValidationResult = ValidationResult(isValid: bool, errors: map<Field, string>)

  /** What a submission reports back. */
  datatype ApplicationSubmissionResult = ApplicationSubmissionResult(
    success: bool,
    message: string,
    applicationId: Option<string>,
    errors: Option<map<Field, string>>)

  /** The form as the application form starts and is reset to. */
  function InitialForm(): (f: ApplicationFormData)
    ensures f.fullName == f.email == f.phone == ""
    ensures f.nationality == f.professionalSummary == Some("")
    ensures f.workAuthorization == WorkUnset && f.visaAssistance == VisaUnset
    ensures f.cvFile == None && !f.gdprConsent
  {
    ApplicationFormData("", "", Some(""), "", WorkUnset, VisaUnset, Some(""), None, false)
  }

  /** The value an input hands to the form: text, a checkbox state or a chosen file. */
  datatype FieldValue = Text(text: string) | Flag(flag: bool) | Upload(file: File)

  /** The select values the two radio groups can produce. */
  function ParseWorkAuthorization(s: string): Option<WorkAuthorization> {
    if s == "yes" then Some(WorkYes)
    else if s == "no" then Some(WorkNo)
    else if s == "" then Some(WorkUnset)
    else None
  }

  function ParseVisaAssistance(s: string): Option<VisaAssistance> {
    if s == "yes" then Some(VisaYes)
    else if s == "no" then Some(VisaNo)
    else if s == "na" then Some(VisaNotApplicable)
    else if s == "" then Some(VisaUnset)
    else None
  }

  /** Whether `v` has the type the form record declares for field `f`. */
  predicate Fits(f: Field, v: FieldValue) {
    match f
    case FullName | Email | Nationality | Phone | ProfessionalSummary => v.Text?
    case WorkAuthorizationField => v.Text? && ParseWorkAuthorization(v.text).Some?
    case VisaAssistanceField => v.Text? && ParseVisaAssistance(v.text).Some?
    case CvFile => v.Upload?
    case GdprConsent => v.Flag?
    case General => false
  }

  /** `{ ...data, [f]: v }` */
  function WithField(data: ApplicationFormData, f: Field, v: FieldValue): ApplicationFormData
    requires Fits(f, v)
  {
    match f
    case FullName => data.(fullName := v.text)
    case Email => data.(email := v.text)
    case Nationality => data.(nationality := Some(v.text))
    case Phone => data.(phone := v.text)
    case ProfessionalSummary => data.(professionalSummary := Some(v.text))
    case WorkAuthorizationField => data.(workAuthorization := ParseWorkAuthorization(v.text).value)
    case VisaAssistanceField => data.(visaAssistance := ParseVisaAssistance(v.text).value)
    case CvFile => data.(cvFile := Some(v.file))
    case GdprConsent => data.(gdprConsent := v.flag)
  }

  function WorkAuthorizationText(w: WorkAuthorization): string {
    match w
    case WorkYes => "yes"
    case WorkNo => "no"
    case WorkUnset => ""
  }

  function VisaAssistanceText(v: VisaAssistance): string {
    match v
    case VisaYes => "yes"
    case VisaNo => "no"
    case VisaNotApplicable => "na"
    case VisaUnset => ""
  }

  /** `data[f]` as an input would read it back; `None` for an absent optional field. */
  function ValueOf(data: ApplicationFormData, f: Field): Option<FieldValue> {
    match f
    case FullName => Some(Text(data.fullName))
    case Email => Some(Text(data.email))
    case Nationality => if data.nationality.Some? then Some(Text(data.nationality.value)) else None
    case Phone => Some(Text(data.phone))
    case WorkAuthorizationField => Some(Text(WorkAuthorizationText(data.workAuthorization)))
    case VisaAssistanceField => Some(Text(VisaAssistanceText(data.visaAssistance)))
    case ProfessionalSummary =>
      if data.professionalSummary.Some? then Some(Text(data.professionalSummary.value)) else None
    case CvFile => if data.cvFile.Some? then Some(Upload(data.cvFile.value)) else None
    case GdprConsent => Some(Flag(data.gdprConsent))
    case General => None
  }

  /** Writing a field stores exactly the given value there and leaves every other field
      as it was. */
  lemma WithFieldSetsOnlyThatField(data: ApplicationFormData, f: Field, v: FieldValue)
    requires Fits(f, v)
    ensures ValueOf(WithField(data, f, v), f) == Some(v)
    ensures forall g :: g != f ==> ValueOf(WithField(data, f, v), g) == ValueOf(data, g)
  {
    match f
    case WorkAuthorizationField =>
      assert WorkAuthorizationText(ParseWorkAuthorization(v.text).value) == v.text;
    case VisaAssistanceField =>
      assert VisaAssistanceText(ParseVisaAssistance(v.text).value) == v.text;
    case _ =>
  }

  /** The radio values are exactly the strings the type union admits. */
  lemma RadioValuesAreTheUnion(s: string)
    ensures ParseWorkAuthorization(s).Some? <==> s in {"yes", "no", ""}
    ensures ParseVisaAssistance(s).Some? <==> s in {"yes", "no", "na", ""}
  {
  }
}
