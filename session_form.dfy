/** The bulk session form: several new sessions filled in together, validated all
    at once with one error record per failing session, and prepared for sending
    as one list. */
module SessionForm {
  import opened Wrappers
  import JsText
  import JsNumbers
  import Lists

  datatype SessionData = SessionData(
    id: string, eventId: string, timeSlotId: string, title: string, capacity: string, description: string)

  datatype SessionField = EventIdField | TimeSlotIdField | TitleField | CapacityField | DescriptionField

  /** One entry of `dataToSend`: the title trimmed, the capacity through
      `parseInt` (`None` is `NaN`), an empty trimmed description sent as `null`. */
  datatype SessionPayload = SessionPayload(
    eventId: string, timeSlotId: string, title: string, capacity: Option<int>, description: Option<string>)

  const SelectEventMessage := "Seleccione un evento"
  const SelectSlotMessage := "Seleccione un horario"
  const TitleRequiredMessage := "El título es requerido"
  const TitleShortMessage := "El título debe tener al menos 3 caracteres"
  const CapacityRequiredMessage := "La capacidad es requerida"
  const CapacityPositiveMessage := "La capacidad debe ser mayor a 0"

  function SessionId(s: SessionData): string
  {
    s.id
  }

  /** The message of one rule of the `forEach` body in `validateForm`, when that
      rule fails. */
  function FieldError(s: SessionData, f: SessionField): Option<string>
  {
    match f
    case EventIdField => if s.eventId == [] then Some(SelectEventMessage) else None
    case TimeSlotIdField => if s.timeSlotId == [] then Some(SelectSlotMessage) else None
    case TitleField =>
      var t := JsText.Trim(s.title);
      if t == [] then Some(TitleRequiredMessage) else if |t| < 3 then Some(TitleShortMessage) else None
    case CapacityField =>
      var n := JsNumbers.ParseInt(s.capacity);
      if s.capacity == [] then Some(CapacityRequiredMessage)
      else if n.Some? && n.value <= 0 then Some(CapacityPositiveMessage) else None
    case DescriptionField => None
  }

  /** The errors of one session: required event and slot, a trimmed title of at
      least 3 characters, a capacity that is given and does not parse to 0 or less.
      There is no upper bound and no rule for the description. */
  function SessionErrors(s: SessionData): (e: map<SessionField, string>)
    ensures EventIdField in e <==> s.eventId == []
    ensures TimeSlotIdField in e <==> s.timeSlotId == []
    ensures TitleField in e <==> |JsText.Trim(s.title)| < 3
    ensures CapacityField in e <==>
              s.capacity == [] || (JsNumbers.ParseInt(s.capacity).Some? && JsNumbers.ParseInt(s.capacity).value <= 0)
    ensures DescriptionField !in e
    ensures EventIdField in e ==> e[EventIdField] == SelectEventMessage
    ensures TimeSlotIdField in e ==> e[TimeSlotIdField] == SelectSlotMessage
    ensures TitleField in e ==>
              e[TitleField] == if JsText.Trim(s.title) == [] then TitleRequiredMessage else TitleShortMessage
    ensures CapacityField in e ==>
              e[CapacityField] == if s.capacity == [] then CapacityRequiredMessage else CapacityPositiveMessage
  {
    map f | f in {EventIdField, TimeSlotIdField, TitleField, CapacityField, DescriptionField} && FieldError(s, f).Some?
      :: FieldError(s, f).value
  }

  /** The error dictionary `validateForm` builds. */
  function ErrorsOf(sessions: seq<SessionData>): map<string, map<SessionField, string>>
  {
    Lists.ErrorsByKey(sessions, SessionId, SessionErrors)
  }

  /** The payload of one session. */
  function PayloadOf(s: SessionData): (p: SessionPayload)
    ensures p.eventId == s.eventId && p.timeSlotId == s.timeSlotId
    ensures p.title == JsText.Trim(s.title) && p.capacity == JsNumbers.ParseInt(s.capacity)
    ensures p.description.None? <==> JsText.Trim(s.description) == []
    ensures p.description.Some? ==> p.description.value == JsText.Trim(s.description)
  {
    var d := JsText.Trim(s.description);
    SessionPayload(s.eventId, s.timeSlotId, JsText.Trim(s.title), JsNumbers.ParseInt(s.capacity),
                   if d == [] then None else Some(d))
  }

  /** `dataToSend`: one payload per session, in the order of the list. */
  function PayloadsOf(sessions: seq<SessionData>): (p: seq<SessionPayload>)
    ensures |p| == |sessions| && forall k :: 0 <= k < |sessions| ==> p[k] == PayloadOf(sessions[k])
  {
    if sessions == [] then [] else [PayloadOf(sessions[0])] + PayloadsOf(sessions[1..])
  }

  /** A session whose rules pass sends a title of at least 3 characters and is
      never sent with a capacity of 0 or less. */
  lemma ValidPayload(s: SessionData)
    requires SessionErrors(s) == map[]
    ensures |PayloadOf(s).title| >= 3
    ensures PayloadOf(s).capacity.None? || PayloadOf(s).capacity.value > 0
  {
    assert TitleField !in SessionErrors(s) && CapacityField !in SessionErrors(s);
  }

  /** The empty session of `initialSession` and `addNewSession` (`freshId` stands
      for `Date.now().toString()`). */
  function EmptySession(freshId: string): SessionData
  {
    SessionData(freshId, "", "", "", "", "")
  }

  /** A new session fails on the event, the slot, the title and the capacity, each
      with its "required" message, and on nothing else. */
  lemma EmptySessionErrors(freshId: string)
    ensures SessionErrors(EmptySession(freshId)) ==
            map[EventIdField := SelectEventMessage, TimeSlotIdField := SelectSlotMessage,
                TitleField := TitleRequiredMessage, CapacityField := CapacityRequiredMessage]
  {
    var s := EmptySession(freshId);
    var e := SessionErrors(s);
    var want := map[EventIdField := SelectEventMessage, TimeSlotIdField := SelectSlotMessage,
                    TitleField := TitleRequiredMessage, CapacityField := CapacityRequiredMessage];
    assert JsText.Trim(s.title) == [];
    assert e.Keys == want.Keys;
    assert forall f | f in e :: e[f] == want[f];
  }

  /** `{ ...session, [field]: value }`. */
  function WithField(s: SessionData, f: SessionField, value: string): SessionData
  {
    match f
    case EventIdField => s.(eventId := value)
    case TimeSlotIdField => s.(timeSlotId := value)
    case TitleField => s.(title := value)
    case CapacityField => s.(capacity := value)
    case DescriptionField => s.(description := value)
  }

  class SessionList {
    var sessions: seq<SessionData>
    /** `errors.sessions`; `global` is never set. */
    var errors: map<string, map<SessionField, string>>

    /** One empty session (`initialSession`) and no errors. */
    constructor(initialId: string)
      ensures sessions == [EmptySession(initialId)] && errors == map[]
    {
      sessions := [EmptySession(initialId)];
      errors := map[];
    }

    /** `handleSessionChange`: the field is set on the sessions with the id, and
        only that field's pending error of that session is cleared. */
    method HandleSessionChange(id: string, f: SessionField, value: string)
      modifies this`sessions, this`errors
      ensures |sessions| == |old(sessions)|
      ensures forall k :: 0 <= k < |sessions| ==>
                sessions[k] == if old(sessions)[k].id == id then WithField(old(sessions)[k], f, value) else old(sessions)[k]
      ensures errors == if id in old(errors) && f in old(errors)[id]
                        then old(errors)[id := old(errors)[id] - {f}] else old(errors)
    {
      sessions := Lists.ReplaceWhere(sessions, id, SessionId, (s: SessionData) => WithField(s, f, value));
      if id in errors && f in errors[id] {
        errors := errors[id := errors[id] - {f}];
      }
    }

    /** `addNewSession`: an all-empty session appended. */
    method AddNewSession(freshId: string)
      modifies this`sessions
      ensures sessions == old(sessions) + [EmptySession(freshId)]
    {
      sessions := sessions + [EmptySession(freshId)];
    }

    /** `removeSession`: nothing happens to a list of one; otherwise the sessions
        with the id and their error record go. */
    method RemoveSession(id: string)
      modifies this`sessions, this`errors
      ensures |old(sessions)| <= 1 ==> sessions == old(sessions) && errors == old(errors)
      ensures |old(sessions)| > 1 ==>
                sessions == Lists.Without(old(sessions), id, SessionId) && errors == old(errors) - {id}
    {
      if |sessions| > 1 {
        sessions := Lists.Without(sessions, id, SessionId);
        errors := errors - {id};
      }
    }

    /** `validateForm`: the `forEach` over the sessions fills the dictionary and the
        flag; the dictionary replaces the errors and the result says whether no
        session had an error. */
    method ValidateForm() returns (ok: bool)
      modifies this`errors
      ensures errors == ErrorsOf(sessions)
      ensures ok <==> forall k :: 0 <= k < |sessions| ==> SessionErrors(sessions[k]) == map[]
      ensures ok <==> errors == map[]
    {
      var sessionErrors: map<string, map<SessionField, string>> := map[];
      var hasErrors := false;
      var i := 0;
      while i < |sessions|
        invariant 0 <= i <= |sessions|
        invariant sessionErrors == Lists.ErrorsByKey(sessions[..i], SessionId, SessionErrors)
        invariant hasErrors <==> sessionErrors != map[]
      {
        var session := sessions[i];
        var sessionError := SessionErrors(session);
        Lists.ErrorsByKeyStep(sessions, i, SessionId, SessionErrors);
        if sessionError != map[] {
          hasErrors := true;
          sessionErrors := sessionErrors[session.id := sessionError];
          assert session.id in sessionErrors;
        }
        i := i + 1;
      }
      assert sessions[..i] == sessions;
      Lists.ErrorsByKeyEmpty(sessions, SessionId, SessionErrors);
      errors := sessionErrors;
      ok := !hasErrors;
    }

    /** `handleSubmit`: when the form validates, the payload list is prepared (the
        call to the service is not written in the form). */
    method HandleSubmit() returns (prepared: Option<seq<SessionPayload>>)
      modifies this`errors
      ensures errors == ErrorsOf(sessions)
      ensures prepared.Some? <==> errors == map[]
      ensures prepared.Some? ==> prepared.value == PayloadsOf(sessions)
    {
      var ok := ValidateForm();
      prepared := if ok then Some(PayloadsOf(sessions)) else None;
    }

    /** `resetForm`: back to one empty session and no errors. */
    method ResetForm(initialId: string)
      modifies this`sessions, this`errors
      ensures sessions == [EmptySession(initialId)] && errors == map[]
    {
      sessions := [EmptySession(initialId)];
      errors := map[];
    }
  }
}
