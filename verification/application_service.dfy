/** The business rules of a job application: per-field validation, the file check, the
    validation gate in front of submission and the file-type guess from a file name. */
module ApplicationService {
  import opened Wrappers
  import opened ApplicationTypes
  import opened Text

  const MaxFileSize: nat := 10 * 1024 * 1024

  const PdfType := "application/pdf"
  const DocType := "application/msword"
  const DocxType := "application/vnd.openxmlformats-officedocument.wordprocessingml.document"
  const AllowedFileTypes: seq<string> := [PdfType, DocType, DocxType]

  const MaxSummaryLength: nat := 2000
  const MinPhoneDigits: nat := 7
  const MaxPhoneDigits: nat := 15

  const NameRequired := "Full name is required"
  const NameTooShort := "Full name must be at least 2 characters"
  const EmailRequired := "Email address is required"
  const EmailInvalid := "Please enter a valid email address"
  const PhoneRequired := "Phone number is required"
  const PhoneInvalid := "Please enter a valid phone number"
  const ConsentMissing := "You must consent to data processing to proceed"
  const SummaryTooLong := "Professional summary must be less than 2000 characters"
  const FileTooLarge := "File size must be less than 10MB"
  const FileTypeRejected := "Only PDF, DOC, and DOCX files are allowed"
  const FileInvalid := "Invalid file"
  const CorrectErrors := "Please correct the errors in your application"
  const SubmissionFailed := "Submission failed"
  const SubmissionApology := "We apologize, but there was an error submitting your application. Please try again or contact us directly at candidates@dtopartners.com."

  // ---------------------------------------------------------------------------
  // E-mail shape

  /** A character the class `[^\s@]` admits. */
  predicate Plain(c: char) {
    !IsWhitespace(c) && c != '@'
  }

  function CountOf(s: string, c: char): nat {
    if s == [] then 0 else (if s[0] == c then 1 else 0) + CountOf(s[1..], c)
  }

  /** The part after the `@` holds a `.` that is neither its first nor its last
      character. */
  predicate HasInnerDot(d: string) {
    exists p :: 0 < p < |d| - 1 && d[p] == '.'
  }

  /** The e-mail shape, stated field by field: no whitespace, exactly one `@`, something
      before it, and after it a `.` with something on both sides. */
  predicate IsValidEmail(s: string)
    ensures IsValidEmail(s) ==> |s| >= 5
  {
    && (forall k :: 0 <= k < |s| ==> !IsWhitespace(s[k]))
    && '@' in s
    && CountOf(s, '@') == 1
    && var i := IndexOf(s, '@');
       i > 0 && HasInnerDot(s[i + 1..])
  }

  /** What `/^[^\s@]+@[^\s@]+\.[^\s@]+$/` accepts: a plain run, `@`, a plain run, `.`,
      a plain run. */
  ghost predicate MatchesEmailPattern(s: string) {
    exists i, j ::
      && 0 < i && i + 1 < j < |s| - 1
      && s[i] == '@' && s[j] == '.'
      && (forall k :: 0 <= k < |s| && k != i ==> Plain(s[k]))
  }

  /** Exactly one occurrence of `c`, given one at position `i`, means none elsewhere. */
  lemma {:induction false} CountOfOne(s: string, c: char, i: nat)
    requires i < |s| && s[i] == c
    ensures CountOf(s, c) == 1 <==> forall k :: 0 <= k < |s| && k != i ==> s[k] != c
  {
    if i == 0 {
      CountOfNone(s[1..], c);
      assert forall k :: 1 <= k < |s| ==> s[k] == s[1..][k - 1];
    } else {
      CountOfOne(s[1..], c, i - 1);
      assert forall k :: 1 <= k < |s| ==> s[k] == s[1..][k - 1];
      if s[0] == c {
        assert CountOf(s, c) >= 2 by {
          assert CountOf(s[1..], c) >= 1 by { CountOfNone(s[1..], c); }
        }
      }
    }
  }

  lemma {:induction false} CountOfNone(s: string, c: char)
    ensures CountOf(s, c) == 0 <==> c !in s
  {
    if s != [] {
      CountOfNone(s[1..], c);
      assert s == [s[0]] + s[1..];
    }
  }

  /** The field-by-field e-mail predicate accepts exactly what the pattern accepts. */
  lemma EmailPredicateMatchesPattern(s: string)
    ensures IsValidEmail(s) <==> MatchesEmailPattern(s)
  {
    if IsValidEmail(s) {
      var i := IndexOf(s, '@');
      CountOfOne(s, '@', i);
      var d := s[i + 1..];
      var p :| 0 < p < |d| - 1 && d[p] == '.';
      var j := i + 1 + p;
      assert s[j] == '.';
      assert forall k :: 0 <= k < |s| && k != i ==> Plain(s[k]);
    }
    if MatchesEmailPattern(s) {
      var i, j :| && 0 < i && i + 1 < j < |s| - 1
                  && s[i] == '@' && s[j] == '.'
                  && (forall k :: 0 <= k < |s| && k != i ==> Plain(s[k]));
      CountOfOne(s, '@', i);
      var x := IndexOf(s, '@');
      assert x == i by {
        assert s[x] == '@';
      }
      var d := s[i + 1..];
      assert d[j - i - 1] == '.';
      assert HasInnerDot(d);
    }
  }

  // ---------------------------------------------------------------------------
  // Phone digits

  predicate IsDigit(c: char) {
    '0' <= c <= '9'
  }

  /** `phone.replace(/\D/g, '')`: the decimal digits, in order. */
  function StripNonDigits(s: string): (r: string)
    ensures forall k :: 0 <= k < |r| ==> IsDigit(r[k])
    ensures |r| <= |s|
  {
    if s == [] then []
    else if IsDigit(s[0]) then [s[0]] + StripNonDigits(s[1..])
    else StripNonDigits(s[1..])
  }

  predicate IsValidPhone(s: string)
    ensures IsValidPhone(s) ==> |s| >= MinPhoneDigits
  {
    MinPhoneDigits <= |StripNonDigits(s)| <= MaxPhoneDigits
  }

  /** Stripping distributes over concatenation. */
  lemma {:induction false} StripConcat(a: string, b: string)
    ensures StripNonDigits(a + b) == StripNonDigits(a) + StripNonDigits(b)
  {
    if a == [] {
      assert a + b == b;
    } else {
      assert a + b != [] && (a + b)[0] == a[0];
      assert (a + b)[1..] == a[1..] + b;
      StripConcat(a[1..], b);
      if IsDigit(a[0]) {
        assert StripNonDigits(a + b) == [a[0]] + StripNonDigits(a[1..] + b);
        assert StripNonDigits(a) == [a[0]] + StripNonDigits(a[1..]);
        assert [a[0]] + (StripNonDigits(a[1..]) + StripNonDigits(b))
            == ([a[0]] + StripNonDigits(a[1..])) + StripNonDigits(b);
      } else {
        assert StripNonDigits(a + b) == StripNonDigits(a[1..] + b);
        assert StripNonDigits(a) == StripNonDigits(a[1..]);
      }
    }
  }

  /** A string of digits only is its own stripped form. */
  lemma {:induction false} StripDigits(s: string)
    requires forall k :: 0 <= k < |s| ==> IsDigit(s[k])
    ensures StripNonDigits(s) == s
  {
    if s != [] {
      StripDigits(s[1..]);
    }
  }

  /** Separators, brackets, a leading `+` and spaces never affect the verdict: only
      the digit count does, so a bare digit string is valid exactly when it has 7 to 15
      digits. */
  lemma PhoneDependsOnlyOnDigits(a: string, sep: string, b: string)
    requires forall k :: 0 <= k < |sep| ==> !IsDigit(sep[k])
    ensures IsValidPhone(a + sep + b) == IsValidPhone(a + b)
    ensures IsValidPhone(StripNonDigits(a)) == IsValidPhone(a)
  {
    StripConcat(a + sep, b);
    StripConcat(a, sep);
    StripConcat(a, b);
    StripNone(sep);
    StripDigits(StripNonDigits(a));
  }

  lemma {:induction false} StripNone(s: string)
    requires forall k :: 0 <= k < |s| ==> !IsDigit(s[k])
    ensures StripNonDigits(s) == []
  {
    if s != [] {
      StripNone(s[1..]);
    }
  }

  /** The digit-count boundaries: 7 and 15 digits pass, 6 and 16 fail. */
  lemma PhoneBoundaries(s: string)
    requires forall k :: 0 <= k < |s| ==> IsDigit(s[k])
    ensures IsValidPhone(s) <==> 7 <= |s| <= 15
  {
    StripDigits(s);
  }

  // ---------------------------------------------------------------------------
  // The file check

  /** `{ isValid, error? }` as the file check returns it. */
  datatype FileCheck = FileCheck(isValid: bool, error: Option<string>)

  /** The size limit is checked first, the MIME whitelist second. */
  function ValidateFile(file: File): (r: FileCheck)
    ensures r.isValid <==> file.size <= MaxFileSize && file.mimeType in AllowedFileTypes
    ensures file.size > MaxFileSize ==> r.error == Some(FileTooLarge)
    ensures file.size <= MaxFileSize && file.mimeType !in AllowedFileTypes ==>
      r.error == Some(FileTypeRejected)
    ensures r.isValid ==> r.error == None
  {
    if file.size > MaxFileSize then FileCheck(false, Some(FileTooLarge))
    else if file.mimeType !in AllowedFileTypes then FileCheck(false, Some(FileTypeRejected))
    else FileCheck(true, None)
  }

  // ---------------------------------------------------------------------------
  // The per-field rules and the error map

  function NameError(name: string): Option<string> {
    if Trim(name) == [] then Some(NameRequired)
    else if |Trim(name)| < 2 then Some(NameTooShort)
    else None
  }

  function EmailError(email: string): Option<string> {
    if Trim(email) == [] then Some(EmailRequired)
    else if !IsValidEmail(email) then Some(EmailInvalid)
    else None
  }

  function PhoneError(phone: string): Option<string> {
    if Trim(phone) == [] then Some(PhoneRequired)
    else if !IsValidPhone(phone) then Some(PhoneInvalid)
    else None
  }

  function SummaryError(summary: Option<string>): Option<string> {
    if summary.Some? && |summary.value| > MaxSummaryLength then Some(SummaryTooLong) else None
  }

  function CvFileError(file: Option<File>): Option<string> {
    if file.Some? && !ValidateFile(file.value).isValid then
      var e := ValidateFile(file.value).error;
      Some(if e.Some? then e.value else FileInvalid)
    else None
  }

  /** The error one field contributes, if any. */
  function FieldError(data: ApplicationFormData, f: Field): Option<string> {
    match f
    case FullName => NameError(data.fullName)
    case Email => EmailError(data.email)
    case Phone => PhoneError(data.phone)
    case GdprConsent => if !data.gdprConsent then Some(ConsentMissing) else None
    case ProfessionalSummary => SummaryError(data.professionalSummary)
    case CvFile => CvFileError(data.cvFile)
    case Nationality | WorkAuthorizationField | VisaAssistanceField | General => None
  }

  /** `if (error) errors[f] = error` */
  function WithError(errors: map<Field, string>, f: Field, error: Option<string>): map<Field, string> {
    if error.Some? then errors[f := error.value] else errors
  }

  /** The map the six rule outcomes produce, written in the order the rules are
      checked: name, e-mail, phone, consent, summary, file. */
  function ErrorMapOf(name: Option<string>, email: Option<string>, phone: Option<string>,
                      consent: Option<string>, summary: Option<string>, cv: Option<string>)
    : map<Field, string>
  {
    var errors := WithError(map[], FullName, name);
    var errors := WithError(errors, Email, email);
    var errors := WithError(errors, Phone, phone);
    var errors := WithError(errors, GdprConsent, consent);
    var errors := WithError(errors, ProfessionalSummary, summary);
    WithError(errors, CvFile, cv)
  }

  /** Each rule writes its own key, so the order of the checks does not matter: a key is
      present exactly when its rule failed, and holds that rule's message. */
  lemma ErrorMapEntries(name: Option<string>, email: Option<string>, phone: Option<string>,
                        consent: Option<string>, summary: Option<string>, cv: Option<string>)
    ensures var m := ErrorMapOf(name, email, phone, consent, summary, cv);
      && (FullName in m <==> name.Some?) && (FullName in m ==> m[FullName] == name.value)
      && (Email in m <==> email.Some?) && (Email in m ==> m[Email] == email.value)
      && (Phone in m <==> phone.Some?) && (Phone in m ==> m[Phone] == phone.value)
      && (GdprConsent in m <==> consent.Some?) && (GdprConsent in m ==> m[GdprConsent] == consent.value)
      && (ProfessionalSummary in m <==> summary.Some?)
      && (ProfessionalSummary in m ==> m[ProfessionalSummary] == summary.value)
      && (CvFile in m <==> cv.Some?) && (CvFile in m ==> m[CvFile] == cv.value)
      && Nationality !in m && WorkAuthorizationField !in m && VisaAssistanceField !in m
      && General !in m
  {
  }

  /** The error map the validator must produce. */
  function Errors(data: ApplicationFormData): map<Field, string> {
    ErrorMapOf(NameError(data.fullName), EmailError(data.email), PhoneError(data.phone),
               FieldError(data, GdprConsent), SummaryError(data.professionalSummary),
               CvFileError(data.cvFile))
  }

  /** Every field has an entry exactly when its rule fails, and the entry is that rule's
      message. */
  lemma ErrorsByField(data: ApplicationFormData, f: Field)
    ensures f in Errors(data) <==> FieldError(data, f).Some?
    ensures f in Errors(data) ==> Errors(data)[f] == FieldError(data, f).value
  {
    ErrorMapEntries(NameError(data.fullName), EmailError(data.email), PhoneError(data.phone),
                    FieldError(data, GdprConsent), SummaryError(data.professionalSummary),
                    CvFileError(data.cvFile));
    match f
    case FullName => case Email => case Phone => case GdprConsent =>
    case ProfessionalSummary => case CvFile =>
    case Nationality | WorkAuthorizationField | VisaAssistanceField | General =>
  }

  /** No rule reports an empty message. */
  lemma FieldMessageNonEmpty(data: ApplicationFormData, f: Field)
    ensures FieldError(data, f).Some? ==> FieldError(data, f).value != ""
  {
    match f
    case FullName =>
    case Email =>
    case Phone =>
    case GdprConsent =>
    case ProfessionalSummary =>
    case CvFile =>
      if data.cvFile.Some? {
        var c := ValidateFile(data.cvFile.value);
        assert c.error.Some? ==> c.error.value in {FileTooLarge, FileTypeRejected};
      }
    case Nationality | WorkAuthorizationField | VisaAssistanceField | General =>
  }

  /** Validation applies the rules one at a time, in the order name, e-mail, phone,
      consent, summary, file; the application is valid exactly when no rule failed. */
  method ValidateApplication(data: ApplicationFormData) returns (r: ValidationResult)
    ensures r.errors == Errors(data)
    ensures r.isValid <==> r.errors == map[]
  {
    var errors: map<Field, string> := map[];
    var nameError := NameError(data.fullName);
    errors := WithError(errors, FullName, nameError);
    var emailError := EmailError(data.email);
    errors := WithError(errors, Email, emailError);
    var phoneError := PhoneError(data.phone);
    errors := WithError(errors, Phone, phoneError);
    var consentError := if !data.gdprConsent then Some(ConsentMissing) else None;
    errors := WithError(errors, GdprConsent, consentError);
    var summaryError := SummaryError(data.professionalSummary);
    errors := WithError(errors, ProfessionalSummary, summaryError);
    var fileError := CvFileError(data.cvFile);
    errors := WithError(errors, CvFile, fileError);
    assert errors == ErrorMapOf(nameError, emailError, phoneError, consentError, summaryError, fileError);
    assert consentError == FieldError(data, GdprConsent);
    // `Object.keys(errors).length === 0`
    r := ValidationResult(errors == map[], errors);
  }

  /** The error map is empty exactly when no rule fails. */
  lemma NoErrorsIffAllRulesPass(data: ApplicationFormData)
    ensures Errors(data) == map[] <==> forall f :: FieldError(data, f).None?
  {
    if Errors(data) != map[] {
      var f :| f in Errors(data);
      ErrorsByField(data, f);
    } else {
      forall f ensures FieldError(data, f).None? {
        ErrorsByField(data, f);
      }
    }
  }

  // ---------------------------------------------------------------------------
  // Properties of the rules

  /** The name is required when its trimmed form is empty, too short when it has one
      character, and accepted from two on. */
  lemma NameRules(name: string)
    ensures NameError(name).Some? <==> |Trim(name)| < 2
    ensures NameError(name) == Some(NameRequired) <==>
      forall k :: 0 <= k < |name| ==> IsWhitespace(name[k])
    ensures NameError(name) == Some(NameTooShort) <==> |Trim(name)| == 1
  {
    TrimEmptyIff(name);
  }

  /** A filled-in e-mail field is judged on the untrimmed text: it passes exactly when
      it has the e-mail shape, and a blank one is reported as missing. */
  lemma EmailRule(email: string)
    ensures EmailError(email).None? <==> IsValidEmail(email)
    ensures EmailError(email) == Some(EmailRequired) <==> Trim(email) == []
  {
    if IsValidEmail(email) {
      var i := IndexOf(email, '@');
      TrimEmptyIff(email);
      assert !IsWhitespace(email[i]);
    }
  }

  /** Surrounding whitespace is not trimmed away before the shape check: a leading
      space makes an otherwise well-formed address invalid, not missing. */
  lemma PaddedEmailRejected()
    ensures EmailError(" a@b.co") == Some(EmailInvalid)
  {
    assert !IsValidEmail(" a@b.co") by {
      assert IsWhitespace(" a@b.co"[0]);
    }
    assert Trim(" a@b.co") != [] by {
      TrimEmptyIff(" a@b.co");
      assert !IsWhitespace(" a@b.co"[1]);
    }
  }

  /** The same address without the space passes. */
  lemma PlainEmailAccepted()
    ensures EmailError("a@b.co") == None
  {
    var s := "a@b.co";
    assert s[1] == '@' && s[..1] == "a";
    assert IndexOf(s, '@') == 1;
    assert s[2..][1] == '.';
    assert CountOf(s, '@') == 1 by {
      assert s[1..][1..] == "b.co";
      assert CountOf("b.co", '@') == 0 by { CountOfNone("b.co", '@'); }
    }
    assert IsValidEmail(s);
    assert !IsWhitespace(s[0]);
    assert Trim(s) != [] by { TrimEmptyIff(s); }
  }

  /** A filled-in phone field passes exactly when it has 7 to 15 digits; a blank one is
      reported as missing. */
  lemma PhoneRule(phone: string)
    ensures PhoneError(phone).None? <==> IsValidPhone(phone)
    ensures PhoneError(phone) == Some(PhoneRequired) <==> Trim(phone) == []
  {
    if IsValidPhone(phone) && Trim(phone) == [] {
      TrimEmptyIff(phone);
      DigitsAreNotWhitespace(phone);
    }
  }

  lemma {:induction false} DigitsAreNotWhitespace(s: string)
    requires forall k :: 0 <= k < |s| ==> IsWhitespace(s[k])
    ensures StripNonDigits(s) == []
  {
    if s != [] {
      DigitsAreNotWhitespace(s[1..]);
    }
  }

  /** A summary fails only above 2000 characters, so exactly 2000 passes; an absent one
      never fails. */
  lemma SummaryRule(summary: Option<string>)
    ensures SummaryError(summary).Some? <==> summary.Some? && |summary.value| > 2000
  {
  }

  /** A file fails exactly when the file check rejects it, and an oversized file
      reports only the size error, whatever its type. */
  lemma FileRule(file: Option<File>)
    ensures CvFileError(file).Some? <==>
      file.Some? && !(file.value.size <= MaxFileSize && file.value.mimeType in AllowedFileTypes)
    ensures file.Some? && file.value.size > MaxFileSize ==> CvFileError(file) == Some(FileTooLarge)
    ensures file.Some? && file.value.size <= MaxFileSize && file.value.mimeType !in AllowedFileTypes ==>
      CvFileError(file) == Some(FileTypeRejected)
  {
  }

  /** The application is valid exactly when every rule passes: missing consent always
      fails it, and nationality, work authorisation and visa assistance never do. */
  lemma ValidExactly(data: ApplicationFormData)
    ensures Errors(data) == map[] <==>
      && |Trim(data.fullName)| >= 2
      && IsValidEmail(data.email)
      && IsValidPhone(data.phone)
      && data.gdprConsent
      && (data.professionalSummary.Some? ==> |data.professionalSummary.value| <= 2000)
      && (data.cvFile.Some? ==> ValidateFile(data.cvFile.value).isValid)
  {
    NameRules(data.fullName);
    EmailRule(data.email);
    PhoneRule(data.phone);
    ErrorsByField(data, FullName);
    ErrorsByField(data, Email);
    ErrorsByField(data, Phone);
    ErrorsByField(data, GdprConsent);
    ErrorsByField(data, ProfessionalSummary);
    ErrorsByField(data, CvFile);
    if Errors(data) != map[] {
      var f :| f in Errors(data);
      ErrorsByField(data, f);
    }
  }

  // ---------------------------------------------------------------------------
  // Submission

  /** What the e-mail service does with the request: accept it, or reject it with an
      `Error` (carrying a message) or with some other value. */
  datatype SendOutcome = Sent | Rejected(errorMessage: Option<string>)

  /** Everything submission learns from the outside world: the generated id, the CV
      upload's link, whether the page runs on a local host, and the send outcome. */
  datatype Environment = Environment(
    applicationId: string, cvDownloadUrl: Option<string>, isDevelopment: bool,
    outcome: SendOutcome)

  /** The sentences about the CV appended to the success message. */
  const CvUploadedNote :=
    " Your CV has been uploaded and is available for download in the email sent to our HR team."
  const CvSkippedNote :=
    " Your CV upload was skipped in development mode. In production, CVs will be uploaded automatically."
  const CvFailedNote :=
    " Your CV upload failed, but your application was submitted. Please email your CV directly to candidates@dtopartners.com with your application ID."

  /** The sentence about the CV appended to the success message: none without a file,
      otherwise one for an upload link, for a development host, or for a failed
      upload. */
  function CvUploadMessage(data: ApplicationFormData, env: Environment): (m: string)
    ensures m == "" <==> data.cvFile.None?
  {
    if data.cvFile.Some? && env.cvDownloadUrl.Some? && env.cvDownloadUrl.value != "" then
      assert |CvUploadedNote| > 0;
      CvUploadedNote
    else if data.cvFile.Some? && env.isDevelopment then
      assert |CvSkippedNote| > 0;
      CvSkippedNote
    else if data.cvFile.Some? then
      assert |CvFailedNote| > 0;
      CvFailedNote
    else ""
  }

  /** Validation gates submission: an invalid application is answered with the
      validator's own error map and nothing is sent; a valid one is sent once and the
      outcome of the send decides success. */
  method SubmitApplication(data: ApplicationFormData, env: Environment)
    returns (r: ApplicationSubmissionResult, sendAttempted: bool)
    ensures sendAttempted <==> Errors(data) == map[]
    ensures !sendAttempted ==>
      r == ApplicationSubmissionResult(false, CorrectErrors, None, Some(Errors(data)))
    ensures sendAttempted ==> (r.success <==> env.outcome == Sent)
    ensures r.success ==>
      && r.applicationId == Some(env.applicationId)
      && r.errors == None
      && r.message == "Application submitted successfully!" + CvUploadMessage(data, env)
                      + " We will review your application and get back to you soon."
    ensures sendAttempted && !r.success ==>
      && r.applicationId == None && r.message == SubmissionApology
      && r.errors == Some(map[General :=
           if env.outcome.errorMessage.Some? then env.outcome.errorMessage.value
           else SubmissionFailed])
  {
    var validation := ValidateApplication(data);
    if !validation.isValid {
      return ApplicationSubmissionResult(false, CorrectErrors, None, Some(validation.errors)), false;
    }
    sendAttempted := true;
    match env.outcome
    case Sent =>
      r := ApplicationSubmissionResult(
        true,
        "Application submitted successfully!" + CvUploadMessage(data, env)
          + " We will review your application and get back to you soon.",
        Some(env.applicationId), None);
    case Rejected(m) =>
      var message := if m.Some? then m.value else SubmissionFailed;
      r := ApplicationSubmissionResult(false, SubmissionApology, None, Some(map[General := message]));
  }

  // ---------------------------------------------------------------------------
  // File type from a file name

  /** The text after the last `.` (`name.split('.').pop()`), the whole name when it has
      no `.`. */
  function Extension(filename: string): (e: string)
    ensures e == filename[LastDot(filename) + 1..]
    ensures '.' !in e
    ensures '.' !in filename ==> e == filename
    ensures '.' in filename ==>
      && |e| < |filename|
      && filename[|filename| - |e| - 1] == '.'
  {
    LastPieceIsAfterLastDot(filename);
    Last(Split(filename, '.'))
  }

  function Last(p: seq<string>): string
    requires |p| >= 1
  {
    p[|p| - 1]
  }

  /** The position of the last `.`, or -1 when there is none. */
  function LastDot(s: string): (j: int)
    ensures -1 <= j < |s|
    ensures j >= 0 ==> s[j] == '.'
    ensures forall k :: j < k < |s| ==> s[k] != '.'
    decreases |s|
  {
    if s == [] then -1
    else if s[|s| - 1] == '.' then |s| - 1
    else LastDot(s[..|s| - 1])
  }

  /** A `.` with none after it, or no `.` at all, is what `LastDot` finds. */
  lemma LastDotUnique(s: string, j: int)
    requires -1 <= j < |s|
    requires j >= 0 ==> s[j] == '.'
    requires forall k :: j < k < |s| ==> s[k] != '.'
    ensures LastDot(s) == j
  {
  }

  /** `split('.').pop()` is the text after the last `.`. */
  lemma {:induction false} LastPieceIsAfterLastDot(s: string)
    ensures Last(Split(s, '.')) == s[LastDot(s) + 1..]
    decreases |s|
  {
    if '.' in s {
      var i := IndexOf(s, '.');
      SplitStep(s, '.');
      LastOfCons(s[..i], Split(s[i + 1..], '.'));
      LastPieceIsAfterLastDot(s[i + 1..]);
      SuffixPastDot(s, i);
    } else {
      assert s[0..] == s;
    }
  }

  lemma LastOfCons(x: string, q: seq<string>)
    requires |q| >= 1
    ensures Last([x] + q) == Last(q)
  {
  }

  /** The text after the last `.` of the part past a `.` is the text after the last
      `.` of the whole. */
  lemma SuffixPastDot(s: string, i: nat)
    requires i < |s| && s[i] == '.'
    ensures var t := s[i + 1..]; t[LastDot(t) + 1..] == s[LastDot(s) + 1..]
  {
    var t := s[i + 1..];
    var j := LastDot(t);
    LastDotPastDot(s, i);
    if j >= 0 {
      assert t[j + 1..] == s[i + 1 + j + 1..];
    } else {
      assert t[0..] == t;
    }
  }

  /** After a `.` at `i`, the last `.` is the last one of the rest, or `i` itself. */
  lemma LastDotPastDot(s: string, i: nat)
    requires i < |s| && s[i] == '.'
    ensures var j := LastDot(s[i + 1..]);
      LastDot(s) == if j >= 0 then i + 1 + j else i
  {
    var t := s[i + 1..];
    var j := LastDot(t);
    var m := if j >= 0 then i + 1 + j else i;
    forall k | m < k < |s|
      ensures s[k] != '.'
    {
      assert s[k] == t[k - i - 1];
    }
    LastDotUnique(s, m);
  }

  /** The corrected lookup: the three document extensions, and `'unknown'` for every
      other name. */
  function GetFileTypeFromName(filename: string): (t: string)
    ensures t in {PdfType, DocType, DocxType, "unknown"}
    ensures t == PdfType <==> AsciiLower(Extension(filename)) == "pdf"
    ensures t == DocType <==> AsciiLower(Extension(filename)) == "doc"
    ensures t == DocxType <==> AsciiLower(Extension(filename)) == "docx"
  {
    var ext := AsciiLower(Extension(filename));
    if ext == "pdf" then PdfType
    else if ext == "doc" then DocType
    else if ext == "docx" then DocxType
    else "unknown"
  }

  /** A JavaScript value as the object lookup can return it: a string, or a member
      inherited from `Object.prototype`. */
  datatype JsValue = JsString(s: string) | InheritedMember(name: string)

  /** Keys a plain object literal answers through `Object.prototype` once the key has
      been lower-cased: the `constructor` function and the `__proto__` object. */
  const InheritedLowerCaseKeys: set<string> := {"constructor", "__proto__"}

  /** The lookup as written: `typeMap[extension] || 'unknown'` on a plain object. An
      inherited member is truthy, so it is returned instead of `'unknown'`. */
  function FileTypeLookupAsWritten(filename: string): (r: JsValue)
    ensures r.InheritedMember? <==> AsciiLower(Extension(filename)) in InheritedLowerCaseKeys
    ensures r.JsString? ==> r.s in {PdfType, DocType, DocxType, "unknown"}
  {
    var ext := AsciiLower(Extension(filename));
    if ext == "pdf" then JsString(PdfType)
    else if ext == "doc" then JsString(DocType)
    else if ext == "docx" then JsString(DocxType)
    else if ext in InheritedLowerCaseKeys then InheritedMember(ext)
    else JsString("unknown")
  }

  /** Any name ending in `.constructor` yields the `Object` constructor, not
      `'unknown'`. */
  lemma PrototypeKeyLeaks(stem: string)
    ensures FileTypeLookupAsWritten(stem + ".constructor") == InheritedMember("constructor")
    ensures GetFileTypeFromName(stem + ".constructor") == "unknown"
  {
    ConstructorExtension(stem);
    AsciiLowerOfLower("constructor");
    ConstructorKeyLookups(stem + ".constructor");
  }

  lemma ConstructorExtension(stem: string)
    ensures Extension(stem + ".constructor") == "constructor"
  {
    assert ".constructor" == ['.'] + "constructor";
    assert stem + ".constructor" == stem + ['.'] + "constructor";
    ExtensionOfDottedName(stem, "constructor");
  }

  /** A name whose lower-cased extension is `constructor` is answered by the inherited
      member as written, and with `'unknown'` by the corrected lookup. */
  lemma ConstructorKeyLookups(name: string)
    requires AsciiLower(Extension(name)) == "constructor"
    ensures FileTypeLookupAsWritten(name) == InheritedMember("constructor")
    ensures GetFileTypeFromName(name) == "unknown"
  {
  }

  /** The extension of `stem.ext` is `ext` whenever `ext` has no `.`, whatever the
      stem holds. */
  lemma ExtensionOfDottedName(stem: string, ext: string)
    requires '.' !in ext
    ensures Extension(stem + ['.'] + ext) == ext
  {
    var s := stem + ['.'] + ext;
    assert s[|stem|] == '.';
    LastDotUnique(s, |stem|);
    assert s[|stem| + 1..] == ext;
  }

  /** Apart from those inherited keys the two lookups agree. */
  lemma LookupsAgreeOffPrototype(filename: string)
    requires AsciiLower(Extension(filename)) !in InheritedLowerCaseKeys
    ensures FileTypeLookupAsWritten(filename) == JsString(GetFileTypeFromName(filename))
  {
  }
}
