/** The public speaker profile form: one speaker's name, e-mail and biography,
    validated together on submit. */
module SpeakerForm {
  import opened Wrappers
  import opened SpeakerRules

  /** `initialFormData`: three empty texts. */
  function InitialText(): SpeakerText
  {
    SpeakerText("", "", "")
  }

  /** `{ ...prev, [name]: value }`. */
  function WithField(t: SpeakerText, f: SpeakerField, value: string): SpeakerText
  {
    match f
    case FullNameField => t.(fullName := value)
    case EmailField => t.(email := value)
    case BioField => t.(bio := value)
  }

  class ProfileForm {
    var formData: SpeakerText
    var errors: map<SpeakerField, string>

    constructor()
      ensures formData == InitialText() && errors == map[]
    {
      formData := InitialText();
      errors := map[];
    }

    /** `handleChange`: the field takes the value and its pending error, if any,
        is cleared; the other errors stay. */
    method HandleChange(f: SpeakerField, value: string)
      modifies this`formData, this`errors
      ensures formData == WithField(old(formData), f, value)
      ensures errors == old(errors) - {f}
    {
      formData := WithField(formData, f, value);
      if f in errors {
        errors := errors - {f};
      }
    }

    /** `validateForm`: the errors become those of the rules, and the form is valid
        exactly when there are none. */
    method ValidateForm() returns (ok: bool)
      modifies this`errors
      ensures errors == ValidateSpeaker(formData)
      ensures ok <==> errors == map[]
    {
      errors := ValidateSpeaker(formData);
      ok := errors == map[];
    }

    /** `handleSubmit`: a valid form prepares the trimmed texts (no call is made). */
    method HandleSubmit() returns (prepared: Option<SpeakerText>)
      modifies this`errors
      ensures errors == ValidateSpeaker(formData)
      ensures prepared.Some? <==> errors == map[]
      ensures prepared.Some? ==> prepared.value == Trimmed(formData)
    {
      var ok := ValidateForm();
      prepared := if ok then Some(Trimmed(formData)) else None;
    }

    /** `resetForm`: empty texts and no errors. */
    method ResetForm()
      modifies this`formData, this`errors
      ensures formData == InitialText() && errors == map[]
    {
      formData := InitialText();
      errors := map[];
    }
  }
}
