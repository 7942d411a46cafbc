/** The sign-up form: an e-mail and a password, checked in that order, sent
    with the fixed role "assistant"; the outcome is shown as one feedback
    message. */
module UserRegistration {
  import opened Wrappers
  import EmailPattern

  datatype RegistrationData = RegistrationData(email: string, password: string)

  datatype FeedbackType = Success | Error

  datatype Feedback = Feedback(kind: FeedbackType, message: string)

  /** The body `sendUser` receives. */
  datatype UserCreate = UserCreate(email: string, password: string, role: string)

  /** What `sendUser` did: answered with a body holding `status`, or threw with
      a message (possibly empty). */
  datatype Reply = Responded(status: int) | Threw(message: string)

  const EmailInvalidMessage := "Por favor, ingresa un correo electrónico válido."
  const PasswordShortMessage := "La contraseña debe tener al menos 8 caracteres."
  const SuccessMessage := "¡Registro exitoso! Ya puedes iniciar sesión."
  const UserExistsMessage := "El usuario ya existe."
  const GenericErrorMessage := "Ocurrió un error al procesar el registro."
  const RegistrationRole := "assistant"

  /** The message `validateForm` shows, if any: the e-mail is tested first, on the
      text as typed, and only then the password's length. */
  function RegistrationError(d: RegistrationData): (e: Option<string>)
    ensures e.None? <==> EmailPattern.IsValidEmail(d.email) && |d.password| >= 8
    ensures !EmailPattern.IsValidEmail(d.email) ==> e == Some(EmailInvalidMessage)
    ensures EmailPattern.IsValidEmail(d.email) && |d.password| < 8 ==> e == Some(PasswordShortMessage)
  {
    if !EmailPattern.IsValidEmail(d.email) then Some(EmailInvalidMessage)
    else if |d.password| < 8 then Some(PasswordShortMessage)
    else None
  }

  /** The feedback for a backend answer: success unless the body says 400, and
      for a thrown call its message, or a generic one when it has none. */
  function ReplyFeedback(reply: Reply): (f: Feedback)
    ensures f.kind == Success <==> reply.Responded? && reply.status != 400
    ensures reply.Responded? && reply.status != 400 ==> f.message == SuccessMessage
    ensures reply == Responded(400) ==> f.message == UserExistsMessage
    ensures reply.Threw? ==> f.message == if reply.message == [] then GenericErrorMessage else reply.message
  {
    match reply
    case Responded(status) =>
      if status != 400 then Feedback(Success, SuccessMessage) else Feedback(Error, UserExistsMessage)
    case Threw(message) =>
      Feedback(Error, if message == [] then GenericErrorMessage else message)
  }

  class RegistrationForm {
    var formData: RegistrationData
    var isLoading: bool
    var feedback: Option<Feedback>

    constructor()
      ensures formData == RegistrationData("", "") && !isLoading && feedback.None?
    {
      formData := RegistrationData("", "");
      isLoading := false;
      feedback := None;
    }

    /** The e-mail input's `onChange`. */
    method ChangeEmail(value: string)
      modifies this`formData
      ensures formData == old(formData).(email := value)
    {
      formData := formData.(email := value);
    }

    /** The password input's `onChange`. */
    method ChangePassword(value: string)
      modifies this`formData
      ensures formData == old(formData).(password := value)
    {
      formData := formData.(password := value);
    }

    /** `validateForm`: the first failing rule's message becomes the error
        feedback and the result is false; otherwise the feedback stays. */
    method ValidateForm() returns (ok: bool)
      modifies this`feedback
      ensures ok <==> RegistrationError(formData).None?
      ensures !ok ==> feedback == Some(Feedback(Error, RegistrationError(formData).value))
      ensures ok ==> feedback == old(feedback)
    {
      if !EmailPattern.IsValidEmail(formData.email) {
        feedback := Some(Feedback(Error, EmailInvalidMessage));
        return false;
      }
      if |formData.password| < 8 {
        feedback := Some(Feedback(Error, PasswordShortMessage));
        return false;
      }
      return true;
    }

    /** `handleSubmit`. The feedback is cleared first; an invalid form shows its
        message and sends nothing. A valid one is sent with the role "assistant"
        while loading; the answer decides the feedback, a success also clears the
        form, and loading ends whatever happened. */
    method HandleSubmit(reply: Reply) returns (sent: Option<UserCreate>)
      modifies this`formData, this`isLoading, this`feedback
      ensures sent.None? <==> RegistrationError(old(formData)).Some?
      ensures sent.None? ==>
                formData == old(formData) && isLoading == old(isLoading) &&
                feedback == Some(Feedback(Error, RegistrationError(old(formData)).value))
      ensures sent.Some? ==>
                sent.value == UserCreate(old(formData).email, old(formData).password, RegistrationRole) &&
                !isLoading && feedback == Some(ReplyFeedback(reply))
      ensures sent.Some? ==>
                formData == if ReplyFeedback(reply).kind == Success then RegistrationData("", "") else old(formData)
    {
      feedback := None;
      var ok := ValidateForm();
      if !ok {
        return None;
      }
      isLoading := true;
      sent := Some(UserCreate(formData.email, formData.password, RegistrationRole));
      match reply {
        case Responded(status) =>
          if status != 400 {
            feedback := Some(Feedback(Success, SuccessMessage));
            formData := RegistrationData("", "");
          } else {
            feedback := Some(Feedback(Error, UserExistsMessage));
          }
        case Threw(message) =>
          feedback := Some(Feedback(Error, if message == [] then GenericErrorMessage else message));
      }
      isLoading := false;
    }
  }
}
