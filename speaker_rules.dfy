/** The speaker rules that the admin speaker list (`validateSpeaker`) and the
    public speaker profile form (`validateForm`) both apply, word for word: a name
    of at least 2 characters, an e-mail that matches the pattern and a biography of
    10 to 500 characters, all lengths taken after trimming. */
module SpeakerRules {
  import opened Wrappers
  import JsText
  import EmailPattern

  /** The three texts a speaker is made of. */
  datatype SpeakerText = SpeakerText(fullName: string, email: string, bio: string)

  datatype SpeakerField = FullNameField | EmailField | BioField

  const NameRequiredMessage := "El nombre completo es requerido"
  const NameShortMessage := "El nombre debe tener al menos 2 caracteres"
  const EmailRequiredMessage := "El email es requerido"
  const EmailInvalidMessage := "Por favor ingrese un email válido"
  const BioRequiredMessage := "La biografía es requerida"
  const BioShortMessage := "La biografía debe tener al menos 10 caracteres"
  const BioLongMessage := "La biografía no puede exceder los 500 caracteres"

  /** The name rule: required, then at least 2 characters once trimmed. */
  function NameError(fullName: string): (e: Option<string>)
    ensures e.None? <==> |JsText.Trim(fullName)| >= 2
    ensures JsText.Trim(fullName) == [] ==> e == Some(NameRequiredMessage)
    ensures |JsText.Trim(fullName)| == 1 ==> e == Some(NameShortMessage)
  {
    var t := JsText.Trim(fullName);
    if t == [] then Some(NameRequiredMessage)
    else if |t| < 2 then Some(NameShortMessage)
    else None
  }

  /** The e-mail rule: required once trimmed, but the pattern is tested on the
      e-mail as typed. */
  function EmailError(email: string): (e: Option<string>)
    ensures e.None? <==> JsText.Trim(email) != [] && EmailPattern.IsValidEmail(email)
    ensures JsText.Trim(email) == [] ==> e == Some(EmailRequiredMessage)
    ensures JsText.Trim(email) != [] && !EmailPattern.IsValidEmail(email) ==> e == Some(EmailInvalidMessage)
  {
    if JsText.Trim(email) == [] then Some(EmailRequiredMessage)
    else if !EmailPattern.IsValidEmail(email) then Some(EmailInvalidMessage)
    else None
  }

  /** The biography rule: required, then 10 to 500 characters once trimmed. */
  function BioError(bio: string): (e: Option<string>)
    ensures e.None? <==> 10 <= |JsText.Trim(bio)| <= 500
    ensures JsText.Trim(bio) == [] ==> e == Some(BioRequiredMessage)
    ensures 0 < |JsText.Trim(bio)| < 10 ==> e == Some(BioShortMessage)
    ensures |JsText.Trim(bio)| > 500 ==> e == Some(BioLongMessage)
  {
    var t := JsText.Trim(bio);
    if t == [] then Some(BioRequiredMessage)
    else if |t| < 10 then Some(BioShortMessage)
    else if |t| > 500 then Some(BioLongMessage)
    else None
  }

  /** The error record: one entry per failing field, with that rule's message. */
  function ValidateSpeaker(t: SpeakerText): (e: map<SpeakerField, string>)
    ensures FullNameField in e <==> NameError(t.fullName).Some?
    ensures EmailField in e <==> EmailError(t.email).Some?
    ensures BioField in e <==> BioError(t.bio).Some?
    ensures FullNameField in e ==> e[FullNameField] == NameError(t.fullName).value
    ensures EmailField in e ==> e[EmailField] == EmailError(t.email).value
    ensures BioField in e ==> e[BioField] == BioError(t.bio).value
  {
    var e0: map<SpeakerField, string> := map[];
    var name := NameError(t.fullName);
    var e1 := if name.Some? then e0[FullNameField := name.value] else e0;
    var email := EmailError(t.email);
    var e2 := if email.Some? then e1[EmailField := email.value] else e1;
    var bio := BioError(t.bio);
    if bio.Some? then e2[BioField := bio.value] else e2
  }

  /** The body sent for a speaker: the three texts trimmed. Each is a piece of
      what was typed with only surrounding white space removed: empty exactly
      when the typed text is all white space, and otherwise bounded by
      non-space characters. */
  function Trimmed(t: SpeakerText): (p: SpeakerText)
    ensures JsText.IsTrimOf(p.fullName, t.fullName) && JsText.IsTrimOf(p.email, t.email) && JsText.IsTrimOf(p.bio, t.bio)
  {
    JsText.TrimIsInfix(t.fullName);
    JsText.TrimIsInfix(t.email);
    JsText.TrimIsInfix(t.bio);
    SpeakerText(JsText.Trim(t.fullName), JsText.Trim(t.email), JsText.Trim(t.bio))
  }

  /** Trimming what is sent changes nothing more. */
  lemma TrimmedIdempotent(t: SpeakerText)
    ensures Trimmed(Trimmed(t)) == Trimmed(t)
  {
    JsText.TrimIdempotent(t.fullName);
    JsText.TrimIdempotent(t.email);
    JsText.TrimIdempotent(t.bio);
  }

  /** An e-mail that matches the pattern has no white space at all, so trimming
      it changes nothing. */
  lemma ValidEmailIsTrimmed(email: string)
    requires EmailPattern.IsValidEmail(email)
    ensures JsText.Trim(email) == email
  {
    EmailPattern.ValidEmailHasShape(email);
    JsText.TrimOfTrimmed(email);
  }

  /** What a speaker that passes the rules sends: a name of at least 2
      characters, the e-mail exactly as typed, a biography of 10 to 500
      characters; and what is sent passes the rules again. */
  lemma ValidSpeakerPayload(t: SpeakerText)
    requires ValidateSpeaker(t) == map[]
    ensures |Trimmed(t).fullName| >= 2 && 10 <= |Trimmed(t).bio| <= 500
    ensures Trimmed(t).email == t.email && EmailPattern.IsValidEmail(Trimmed(t).email)
    ensures ValidateSpeaker(Trimmed(t)) == map[]
  {
    assert FullNameField !in ValidateSpeaker(t);
    assert EmailField !in ValidateSpeaker(t);
    assert BioField !in ValidateSpeaker(t);
    ValidEmailIsTrimmed(t.email);
    JsText.TrimIdempotent(t.fullName);
    JsText.TrimIdempotent(t.bio);
    var e := ValidateSpeaker(Trimmed(t));
    assert FullNameField !in e && EmailField !in e && BioField !in e;
    assert e.Keys == {};
  }

  /** An e-mail with white space around it is refused by the pattern even though
      the required test, on the trimmed text, passes. */
  lemma PaddedEmailRefused()
    ensures EmailError(" a@b.co") == Some(EmailInvalidMessage)
  {
    var s := " a@b.co";
    assert JsText.IsSpace(s[0]);
    if EmailPattern.IsValidEmail(s) {
      ValidEmailIsTrimmed(s);
      assert false;
    }
    assert JsText.Trim(s) != [] by { assert !JsText.IsSpace(s[1]); }
  }
}
