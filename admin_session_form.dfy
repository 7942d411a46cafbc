/** The admin session form: a list of sessions, each bound to an event and one of
    its time slots, validated field by field and created, updated or deleted one
    at a time. */
module AdminSessionForm {
  import opened Wrappers
  import JsText
  import JsNumbers
  import Lists
  import TimeRanges

  datatype Session = Session(
    id: string,
    backendId: Option<string>,
    eventId: string,
    timeSlotId: string,
    title: string,
    capacity: string,
    description: string,
    speakerId: string,
    isDirty: bool)

  /** The fields a change handler may set; all but the speaker have validation. */
  datatype SessionField = EventIdField | TimeSlotIdField | TitleField | CapacityField | DescriptionField | SpeakerIdField

  /** An event with its optional slots (`EventWithSlots`). */
  datatype EventWithSlots = EventWithSlots(id: string, title: string, timeSlot: Option<seq<TimeRanges.TimeRange>>)

  /** A stored session as `getSessions` lists it; its capacity is a number. */
  datatype SessionResponse = SessionResponse(
    id: string, eventId: string, timeSlotId: string, title: string,
    capacity: int, description: string, speakerId: string)

  /** The body `sendSession` receives: trimmed texts, capacity through `parseInt`
      (`None` is `NaN`). */
  datatype SessionPayload = SessionPayload(
    eventId: string, timeSlotId: string, title: string,
    capacity: Option<int>, description: string, speakerId: string)

  /** What `deleteSessionService` did: answered with its `success` flag, or threw. */
  datatype DeleteReply = Deleted(success: bool) | DeleteFailed

  const SelectEventMessage := "Seleccione un evento"
  const SelectSlotMessage := "Seleccione un horario"
  const TitleRequiredMessage := "El título es requerido"
  const TitleShortMessage := "El título debe tener al menos 3 caracteres"
  const TitleLongMessage := "El título no puede exceder 100 caracteres"
  const CapacityRequiredMessage := "La capacidad es requerida"
  const CapacityPositiveMessage := "La capacidad debe ser mayor a 0"
  const CapacityMaxMessage := "La capacidad no puede exceder 1000 personas"
  const DescriptionLongMessage := "La descripción no puede exceder 500 caracteres"

  function SessionId(s: Session): string
  {
    s.id
  }

  /** The fields whose error a change clears. */
  predicate Validated(f: SessionField)
  {
    f != SpeakerIdField
  }

  /** The title rule on its own: empty after trimming, shorter than 3 or longer
      than 100 characters. */
  function TitleError(title: string): (e: Option<string>)
    ensures e.None? <==> 3 <= |JsText.Trim(title)| <= 100
    ensures JsText.Trim(title) == [] ==> e == Some(TitleRequiredMessage)
    ensures 0 < |JsText.Trim(title)| < 3 ==> e == Some(TitleShortMessage)
    ensures |JsText.Trim(title)| > 100 ==> e == Some(TitleLongMessage)
  {
    var t := JsText.Trim(title);
    if t == [] then Some(TitleRequiredMessage)
    else if |t| < 3 then Some(TitleShortMessage)
    else if |t| > 100 then Some(TitleLongMessage)
    else None
  }

  /** The capacity rule: required, then `parseInt` must not give a value of at most
      0 or above 1000. A comparison with `NaN` is false, so text without leading
      digits passes. */
  function CapacityError(capacity: string): (e: Option<string>)
    ensures e.None? <==>
              capacity != [] && (JsNumbers.ParseInt(capacity).None? || 0 < JsNumbers.ParseInt(capacity).value <= 1000)
    ensures capacity == [] ==> e == Some(CapacityRequiredMessage)
    ensures capacity != [] && JsNumbers.ParseInt(capacity).Some? && JsNumbers.ParseInt(capacity).value <= 0 ==>
              e == Some(CapacityPositiveMessage)
    ensures capacity != [] && JsNumbers.ParseInt(capacity).Some? && JsNumbers.ParseInt(capacity).value > 1000 ==>
              e == Some(CapacityMaxMessage)
  {
    var n := JsNumbers.ParseInt(capacity);
    if capacity == [] then Some(CapacityRequiredMessage)
    else if n.Some? && n.value <= 0 then Some(CapacityPositiveMessage)
    else if n.Some? && n.value > 1000 then Some(CapacityMaxMessage)
    else None
  }

  /** `validateSession`: one error per failing field. The event and slot ids are
      only tested for emptiness, the description's length is taken untrimmed, the
      speaker is not checked. */
  function ValidateSession(s: Session): (e: map<SessionField, string>)
    ensures EventIdField in e <==> s.eventId == []
    ensures TimeSlotIdField in e <==> s.timeSlotId == []
    ensures TitleField in e <==> TitleError(s.title).Some?
    ensures CapacityField in e <==> CapacityError(s.capacity).Some?
    ensures DescriptionField in e <==> |s.description| > 500
    ensures SpeakerIdField !in e
    ensures EventIdField in e ==> e[EventIdField] == SelectEventMessage
    ensures TimeSlotIdField in e ==> e[TimeSlotIdField] == SelectSlotMessage
    ensures TitleField in e ==> e[TitleField] == TitleError(s.title).value
    ensures CapacityField in e ==> e[CapacityField] == CapacityError(s.capacity).value
    ensures DescriptionField in e ==> e[DescriptionField] == DescriptionLongMessage
  {
    var e0: map<SessionField, string> := map[];
    var e1 := if s.eventId == [] then e0[EventIdField := SelectEventMessage] else e0;
    var e2 := if s.timeSlotId == [] then e1[TimeSlotIdField := SelectSlotMessage] else e1;
    var title := TitleError(s.title);
    var e3 := if title.Some? then e2[TitleField := title.value] else e2;
    var capacity := CapacityError(s.capacity);
    var e4 := if capacity.Some? then e3[CapacityField := capacity.value] else e3;
    if |s.description| > 500 then e4[DescriptionField := DescriptionLongMessage] else e4
  }

  /** `createNewEmptySession` (`freshId` stands for `Date.now().toString()`). */
  function EmptySession(freshId: string): Session
  {
    Session(freshId, None, "", "", "", "", "", "", false)
  }

  /** A new session fails on exactly the event, the slot, the title and the capacity. */
  lemma EmptySessionErrors(freshId: string)
    ensures ValidateSession(EmptySession(freshId)).Keys == {EventIdField, TimeSlotIdField, TitleField, CapacityField}
    ensures ValidateSession(EmptySession(freshId))[TitleField] == TitleRequiredMessage
    ensures ValidateSession(EmptySession(freshId))[CapacityField] == CapacityRequiredMessage
  {
    var e := ValidateSession(EmptySession(freshId));
    assert JsText.Trim("") == [];
    assert DescriptionField !in e && SpeakerIdField !in e;
  }

  /** `getTimeSlotsForSession`: none for an empty event id or an unknown event,
      otherwise the slots of the first event with that id (none when it has none). */
  function TimeSlotsForSession(events: seq<EventWithSlots>, s: Session): (slots: seq<TimeRanges.TimeRange>)
    ensures s.eventId == [] ==> slots == []
    ensures (forall e :: e in events ==> e.id != s.eventId) ==> slots == []
    ensures s.eventId != [] ==>
              forall i :: FirstWithId(events, i, s.eventId) ==> slots == events[i].timeSlot.GetOr([])
  {
    if s.eventId == [] then []
    else
      match Lists.FindIndex(events, s.eventId, EventWithSlotsId)
      case None =>
        assert forall i :: 0 <= i < |events| ==> events[i] in events;
        []
      case Some(i) =>
        FirstIsUnique(events, i, s.eventId);
        events[i].timeSlot.GetOr([])
  }

  /** At most one position holds the first event with an id. */
  lemma FirstIsUnique(events: seq<EventWithSlots>, i: int, id: string)
    requires FirstWithId(events, i, id)
    ensures forall j :: FirstWithId(events, j, id) ==> j == i
  {
  }

  /** `events[i]` is the first event with the id. */
  predicate FirstWithId(events: seq<EventWithSlots>, i: int, id: string)
  {
    0 <= i < |events| && events[i].id == id && forall j :: 0 <= j < i ==> events[j].id != id
  }

  function EventWithSlotsId(e: EventWithSlots): string
  {
    e.id
  }

  /** `{ ...session, [field]: value }`. */
  function WithField(s: Session, f: SessionField, value: string): Session
  {
    match f
    case EventIdField => s.(eventId := value)
    case TimeSlotIdField => s.(timeSlotId := value)
    case TitleField => s.(title := value)
    case CapacityField => s.(capacity := value)
    case DescriptionField => s.(description := value)
    case SpeakerIdField => s.(speakerId := value)
  }

  /** A session after an input's change: the field takes the value and the session
      becomes dirty. */
  function Edited(s: Session, f: SessionField, value: string): Session
  {
    WithField(s, f, value).(isDirty := true)
  }

  /** A change to one field leaves the errors of every other field as they were. */
  lemma ChangeKeepsOtherRules(s: Session, f: SessionField, value: string, g: SessionField)
    requires g != f
    ensures (g in ValidateSession(WithField(s, f, value))) == (g in ValidateSession(s))
  {
  }

  /** A session as the loader maps it: stored, so `backendId` is its id, and clean. */
  function LoadedSession(r: SessionResponse): Session
  {
    Session(r.id, Some(r.id), r.eventId, r.timeSlotId, r.title, JsNumbers.IntToString(r.capacity),
            r.description, r.speakerId, false)
  }

  /** A loaded session is stored and clean, and its capacity, written as
      `String(capacity)`, reads back as the stored number, so it passes the
      capacity rule exactly when that number is between 1 and 1000. */
  lemma LoadedSessionCapacity(r: SessionResponse)
    ensures LoadedSession(r).backendId == Some(r.id) && !LoadedSession(r).isDirty
    ensures JsNumbers.ParseInt(LoadedSession(r).capacity) == Some(r.capacity)
    ensures CapacityError(LoadedSession(r).capacity).None? <==> 0 < r.capacity <= 1000
  {
    JsNumbers.ParseIntOfIntToString(r.capacity);
  }

  /** The create payload. */
  function PayloadOf(s: Session): (p: SessionPayload)
    ensures p.title == JsText.Trim(s.title) && p.description == JsText.Trim(s.description)
    ensures p.capacity == JsNumbers.ParseInt(s.capacity)
    ensures p.eventId == s.eventId && p.timeSlotId == s.timeSlotId && p.speakerId == s.speakerId
  {
    SessionPayload(s.eventId, s.timeSlotId, JsText.Trim(s.title), JsNumbers.ParseInt(s.capacity),
                   JsText.Trim(s.description), s.speakerId)
  }

  /** A valid session sends a title of 3 to 100 characters without surrounding
      white space. */
  lemma ValidPayloadTitle(s: Session)
    requires ValidateSession(s) == map[]
    ensures 3 <= |PayloadOf(s).title| <= 100 && JsText.Trim(PayloadOf(s).title) == PayloadOf(s).title
  {
    assert TitleField !in ValidateSession(s);
    JsText.TrimIdempotent(s.title);
  }

  /** `sessions.find(s => s.id === id)`. */
  function Find(sessions: seq<Session>, id: string): (r: Option<Session>)
    ensures r.None? <==> forall s :: s in sessions ==> s.id != id
    ensures r.Some? ==> exists i :: 0 <= i < |sessions| && sessions[i] == r.value && r.value.id == id &&
                                   forall j :: 0 <= j < i ==> sessions[j].id != id
  {
    match Lists.FindIndex(sessions, id, SessionId)
    case None => None
    case Some(i) => Some(sessions[i])
  }

  predicate HasBackendId(s: Session)
  {
    s.backendId.Some? && s.backendId.value != ""
  }

  predicate DistinctIds(sessions: seq<Session>)
  {
    forall i, j :: 0 <= i < j < |sessions| ==> sessions[i].id != sessions[j].id
  }

  class SessionList {
    var sessions: seq<Session>
    var errors: map<string, map<SessionField, string>>
    /** The counter whose change makes the form fetch the sessions again. */
    var reloadSession: nat

    constructor(initial: seq<Session>)
      ensures sessions == initial && errors == map[] && reloadSession == 0
    {
      sessions := initial;
      errors := map[];
      reloadSession := 0;
    }

    /** The answer of `getSessions` replaces the list. */
    method LoadSessions(stored: seq<SessionResponse>)
      modifies this`sessions
      ensures |sessions| == |stored| && forall i :: 0 <= i < |stored| ==> sessions[i] == LoadedSession(stored[i])
    {
      var loaded: seq<Session> := [];
      var i := 0;
      while i < |stored|
        invariant 0 <= i <= |stored|
        invariant |loaded| == i && forall j :: 0 <= j < i ==> loaded[j] == LoadedSession(stored[j])
      {
        loaded := loaded + [LoadedSession(stored[i])];
        i := i + 1;
      }
      sessions := loaded;
    }

    /** `addNewSession`. */
    method AddNewSession(freshId: string)
      modifies this`sessions
      ensures sessions == old(sessions) + [EmptySession(freshId)]
    {
      sessions := sessions + [EmptySession(freshId)];
    }

    /** `removeSession`: nothing happens to a list of one; otherwise every session
        with the id and its error record go. With distinct ids one session stays. */
    method RemoveSession(id: string)
      modifies this`sessions, this`errors
      ensures |old(sessions)| <= 1 ==> sessions == old(sessions) && errors == old(errors)
      ensures |old(sessions)| > 1 ==>
                sessions == Lists.Without(old(sessions), id, SessionId) && errors == old(errors) - {id}
      ensures DistinctIds(old(sessions)) && |old(sessions)| >= 1 ==> |sessions| >= 1
    {
      if |sessions| > 1 {
        if DistinctIds(sessions) {
          Lists.WithoutDistinct(sessions, id, SessionId);
        }
        sessions := Lists.Without(sessions, id, SessionId);
        errors := errors - {id};
      }
    }

    /** `handleSessionChange` (and the speaker select, which does the same without
        touching errors): the field is set on the sessions with the id, which become
        dirty; the field's pending error is cleared only for a validated field. */
    method HandleSessionChange(id: string, f: SessionField, value: string)
      modifies this`sessions, this`errors
      ensures |sessions| == |old(sessions)|
      ensures forall k :: 0 <= k < |sessions| ==>
                sessions[k] == if old(sessions)[k].id == id then Edited(old(sessions)[k], f, value) else old(sessions)[k]
      ensures errors == if Validated(f) && id in old(errors) && f in old(errors)[id]
                        then old(errors)[id := old(errors)[id] - {f}] else old(errors)
    {
      sessions := Lists.ReplaceWhere(sessions, id, SessionId, (s: Session) => Edited(s, f, value));
      if Validated(f) && id in errors && f in errors[id] {
        errors := errors[id := errors[id] - {f}];
      }
    }

    /** `createSession`. An unknown id does nothing; an invalid session gets its
        error record and nothing is sent; otherwise the payload is sent, and unless
        the call throws the sessions with the id get "backend-session-" and the time
        stamp as `backendId` and become clean. */
    method CreateSession(id: string, threw: bool, stamp: string) returns (sent: Option<SessionPayload>)
      modifies this`sessions, this`errors
      ensures Find(old(sessions), id).None? ==> sent.None? && sessions == old(sessions) && errors == old(errors)
      ensures Find(old(sessions), id).Some? && ValidateSession(Find(old(sessions), id).value) != map[] ==>
                sent.None? && sessions == old(sessions) &&
                errors == old(errors)[id := ValidateSession(Find(old(sessions), id).value)]
      ensures Find(old(sessions), id).Some? && ValidateSession(Find(old(sessions), id).value) == map[] ==>
                sent == Some(PayloadOf(Find(old(sessions), id).value)) && errors == old(errors)
      ensures |sessions| == |old(sessions)|
      ensures forall k :: 0 <= k < |sessions| ==>
                sessions[k] == if sent.Some? && !threw && old(sessions)[k].id == id
                               then old(sessions)[k].(backendId := Some("backend-session-" + stamp), isDirty := false)
                               else old(sessions)[k]
    {
      var found := Find(sessions, id);
      if found.None? {
        return None;
      }
      var sessionErrors := ValidateSession(found.value);
      if sessionErrors != map[] {
        errors := errors[id := sessionErrors];
        return None;
      }
      sent := Some(PayloadOf(found.value));
      if !threw {
        sessions := Lists.ReplaceWhere(sessions, id, SessionId,
                      (s: Session) => s.(backendId := Some("backend-session-" + stamp), isDirty := false));
      }
    }

    /** `updateSession`, local effect only: an unknown id or a session without
        `backendId` changes nothing, an invalid one gets its error record, a valid
        one is made clean before any call is made. */
    method UpdateSession(id: string)
      modifies this`sessions, this`errors
      ensures Find(old(sessions), id).None? || !HasBackendId(Find(old(sessions), id).value) ==>
                sessions == old(sessions) && errors == old(errors)
      ensures Find(old(sessions), id).Some? && HasBackendId(Find(old(sessions), id).value) &&
              ValidateSession(Find(old(sessions), id).value) != map[] ==>
                sessions == old(sessions) && errors == old(errors)[id := ValidateSession(Find(old(sessions), id).value)]
      ensures Find(old(sessions), id).Some? && HasBackendId(Find(old(sessions), id).value) &&
              ValidateSession(Find(old(sessions), id).value) == map[] ==>
                errors == old(errors) && |sessions| == |old(sessions)| &&
                forall k :: 0 <= k < |sessions| ==>
                  sessions[k] == if old(sessions)[k].id == id then old(sessions)[k].(isDirty := false) else old(sessions)[k]
    {
      var found := Find(sessions, id);
      if found.None? || !HasBackendId(found.value) {
        return;
      }
      var sessionErrors := ValidateSession(found.value);
      if sessionErrors != map[] {
        errors := errors[id := sessionErrors];
        return;
      }
      sessions := Lists.ReplaceWhere(sessions, id, SessionId, (s: Session) => s.(isDirty := false));
    }

    /** `deleteSession`. A known session is always sent to the service, by its local
        id, draft or not. A `success: false` answer changes nothing; a success, and
        also a thrown call, bumps the reload counter and goes through `removeSession`. */
    method DeleteSession(id: string, reply: DeleteReply) returns (called: bool)
      modifies this`sessions, this`errors, this`reloadSession
      ensures called <==> Find(old(sessions), id).Some?
      ensures !called || reply == Deleted(false) ==>
                sessions == old(sessions) && errors == old(errors) && reloadSession == old(reloadSession)
      ensures called && reply != Deleted(false) ==> reloadSession == old(reloadSession) + 1
      ensures called && reply != Deleted(false) && |old(sessions)| <= 1 ==> sessions == old(sessions) && errors == old(errors)
      ensures called && reply != Deleted(false) && |old(sessions)| > 1 ==>
                sessions == Lists.Without(old(sessions), id, SessionId) && errors == old(errors) - {id}
    {
      var found := Find(sessions, id);
      if found.None? {
        return false;
      }
      called := true;
      if reply == Deleted(false) {
        return;
      }
      reloadSession := reloadSession + 1;
      RemoveSession(id);
    }

    /** `clearSession`: the sessions with the id become an empty session with the
        new id, and the id's error record is dropped. */
    method ClearSession(id: string, freshId: string)
      modifies this`sessions, this`errors
      ensures |sessions| == |old(sessions)|
      ensures forall k :: 0 <= k < |sessions| ==>
                sessions[k] == if old(sessions)[k].id == id then EmptySession(freshId) else old(sessions)[k]
      ensures errors == old(errors) - {id}
    {
      sessions := Lists.ReplaceWhere(sessions, id, SessionId, (s: Session) => EmptySession(freshId));
      errors := errors - {id};
    }
  }

  /** A capacity that is not a number passes the rule. */
  lemma NonNumericCapacityPasses()
    ensures CapacityError("abc").None?
  {
    assert JsText.TrimStart("abc") == "abc";
  }
}
