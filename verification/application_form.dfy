/** The application-form controller: the form record, the submitting flag, the chosen
    file's name, the validation errors, the last submission result and the success
    flag, changed one user action at a time. */
module ApplicationForm {
  import opened Wrappers
  import opened ApplicationTypes
  import opened ApplicationService

  /** The errors left after editing field `f`: its entry goes when it holds a
      non-empty (truthy) message, every other entry stays. */
  function ClearError(errors: map<Field, string>, f: Field): (r: map<Field, string>)
    ensures f in r <==> f in errors && errors[f] == ""
    ensures forall g :: g != f ==> (g in r <==> g in errors)
    ensures forall g :: g in r ==> r[g] == errors[g]
  {
    if f in errors && errors[f] != "" then errors - {f} else errors
  }

  /** Every message the validator produces is non-empty, so editing a field that failed
      validation always clears its error. */
  lemma ValidatorMessagesNonEmpty(data: ApplicationFormData)
    ensures forall f :: f in Errors(data) ==> Errors(data)[f] != ""
    ensures forall f :: f in Errors(data) ==> f !in ClearError(Errors(data), f)
  {
    forall f | f in Errors(data)
      ensures Errors(data)[f] != ""
    {
      ErrorsByField(data, f);
      FieldMessageNonEmpty(data, f);
    }
  }

  class FormController {
    var formData: ApplicationFormData
    var isSubmitting: bool
    var fileName: string
    var validationErrors: map<Field, string>
    var submissionResult: Option<ApplicationSubmissionResult>
    var showSuccess: bool

    /** Every recorded error carries a message. */
    predicate Valid()
      reads this
    {
      forall f :: f in validationErrors ==> validationErrors[f] != ""
    }

    /** The form as first shown: the initial record, nothing chosen, no errors, no
        result. */
    constructor ()
      ensures Valid()
      ensures formData == InitialForm() && fileName == ""
      ensures validationErrors == map[] && submissionResult == None
      ensures !isSubmitting && !showSuccess
    {
      formData := InitialForm();
      isSubmitting := false;
      fileName := "";
      validationErrors := map[];
      submissionResult := None;
      showSuccess := false;
    }

    /** Writing `v` into field `f` sets only that field and clears only that field's
        error. */
    method HandleInputChange(f: Field, v: FieldValue)
      requires Fits(f, v)
      requires Valid()
      modifies this
      ensures Valid()
      ensures formData == WithField(old(formData), f, v)
      ensures validationErrors == old(validationErrors) - {f}
      ensures isSubmitting == old(isSubmitting) && fileName == old(fileName)
      ensures submissionResult == old(submissionResult) && showSuccess == old(showSuccess)
    {
      formData := WithField(formData, f, v);
      if f in validationErrors && validationErrors[f] != "" {
        validationErrors := validationErrors - {f};
      }
    }

    /** A file input change: with no file nothing happens; otherwise the first file
        becomes the CV and its name is shown. */
    method HandleFileChange(files: seq<File>)
      requires Valid()
      modifies this
      ensures Valid()
      ensures files == [] ==>
        && formData == old(formData) && fileName == old(fileName)
        && validationErrors == old(validationErrors)
      ensures files != [] ==>
        && formData == old(formData).(cvFile := Some(files[0]))
        && fileName == files[0].name
        && validationErrors == old(validationErrors) - {CvFile}
      ensures isSubmitting == old(isSubmitting)
      ensures submissionResult == old(submissionResult) && showSuccess == old(showSuccess)
    {
      if files != [] {
        var file := files[0];
        fileName := file.name;
        HandleInputChange(CvFile, Upload(file));
      }
    }

    /** Back to the initial form; the success flag is left alone. */
    method ResetForm()
      modifies this
      ensures Valid()
      ensures formData == InitialForm() && fileName == ""
      ensures validationErrors == map[] && submissionResult == None
      ensures isSubmitting == old(isSubmitting) && showSuccess == old(showSuccess)
    {
      formData := InitialForm();
      fileName := "";
      validationErrors := map[];
      submissionResult := None;
    }

    method SetShowSuccess(value: bool)
      modifies this
      ensures showSuccess == value
      ensures formData == old(formData) && fileName == old(fileName)
      ensures validationErrors == old(validationErrors)
      ensures submissionResult == old(submissionResult) && isSubmitting == old(isSubmitting)
    {
      showSuccess := value;
    }

    /** A submit: an invalid form gets exactly the validator's errors and nothing is
        sent; a valid one is sent, and success shows the success flag and resets the
        form, while failure keeps the form and records the apology with the service's
        error message (or the generic one) under the general key. The submitting flag
        is down again on every path. */
    method HandleSubmit(env: Environment) returns (sendAttempted: bool)
      modifies this
      ensures Valid()
      ensures !isSubmitting
      ensures sendAttempted <==> Errors(old(formData)) == map[]
      ensures !sendAttempted ==>
        && validationErrors == Errors(old(formData))
        && formData == old(formData) && fileName == old(fileName)
        && submissionResult == None && showSuccess == old(showSuccess)
      ensures sendAttempted && env.outcome == Sent ==>
        && showSuccess
        && formData == InitialForm() && fileName == ""
        && validationErrors == map[] && submissionResult == None
      ensures sendAttempted && env.outcome != Sent ==>
        && formData == old(formData) && fileName == old(fileName)
        && validationErrors == map[] && showSuccess == old(showSuccess)
        && submissionResult.Some? && !submissionResult.value.success
        && submissionResult.value.message == SubmissionApology
        && submissionResult.value.applicationId == None
        && submissionResult.value.errors == Some(map[General :=
             if env.outcome.errorMessage.Some? then env.outcome.errorMessage.value
             else SubmissionFailed])
    {
      isSubmitting := true;
      validationErrors := map[];
      submissionResult := None;
      var validation := ValidateApplication(formData);
      if !validation.isValid {
        validationErrors := validation.errors;
        ValidatorMessagesNonEmpty(formData);
        isSubmitting := false;
        return false;
      }
      var result;
      result, sendAttempted := SubmitApplication(formData, env);
      submissionResult := Some(result);
      if result.success {
        showSuccess := true;
        ResetForm();
      }
      isSubmitting := false;
    }
  }
}
