/** The admin event list: events loaded from the backend or added as drafts,
    edited in place and created, updated or deleted one at a time. */
module AdminEventForm {
  import opened Wrappers
  import JsText
  import JsNumbers
  import Lists
  import opened EventRules

  /** One event of the list. `originalStartDate` and `originalEndDate` are the
      dates as loaded, so that a changed start date can be told apart. */
  datatype EventData = EventData(
    id: string, backendId: Option<string>,
    title: string, description: string, startDate: string, endDate: string, capacity: string,
    originalStartDate: string, originalEndDate: string, status: EventStatus, isDirty: bool)

  /** A stored event as `getEventsAll` lists it. */
  datatype EventObject = EventObject(
    id: string, title: string, description: string, startDate: string, endDate: string,
    capacity: string, status: EventStatus)

  /** What `deleteEvents` did: answered with its `success` flag, or threw. */
  datatype Reply = Answered(success: bool) | Threw

  const TitleRequiredMessage := "Título requerido"
  const DescriptionRequiredMessage := "Descripción requerida"
  const StartRequiredMessage := "Fecha inicio requerida"
  const StartPastMessage := "No puede ser en el pasado"
  const EndRequiredMessage := "Fecha fin requerida"
  const EndOrderMessage := "Debe ser posterior a inicio"
  const CapacityRequiredMessage := "Capacidad requerida"
  const CapacityPositiveMessage := "Debe ser mayor a 0"

  function EventId(e: EventData): string
  {
    e.id
  }

  /** The first start-date test: required, then not before `now`. */
  function FirstStartError(startDate: string, now: int, parseDate: string -> Option<int>): (r: Option<string>)
    ensures r.None? <==> startDate != [] && !DateBefore(parseDate(startDate), Some(now))
    ensures r.Some? ==> r.value == if startDate == [] then StartRequiredMessage else StartPastMessage
  {
    if startDate == [] then Some(StartRequiredMessage)
    else if DateBefore(parseDate(startDate), Some(now)) then Some(StartPastMessage)
    else None
  }

  /** The start-date entry after both tests: the second one (required, then not
      before `now` when the date differs from the loaded one) overwrites the first
      or leaves it, and never removes it. */
  function StartError(e: EventData, now: int, parseDate: string -> Option<int>): (r: Option<string>)
    ensures r == FirstStartError(e.startDate, now, parseDate)
  {
    var first := FirstStartError(e.startDate, now, parseDate);
    var startDateChanged := e.startDate != e.originalStartDate;
    if e.startDate == [] then Some(StartRequiredMessage)
    else if startDateChanged && DateBefore(parseDate(e.startDate), Some(now)) then Some(StartPastMessage)
    else first
  }

  /** The end-date test: required, then after the start when there is one. */
  function EndError(e: EventData, parseDate: string -> Option<int>): (r: Option<string>)
    ensures r.None? <==>
              e.endDate != [] && !(e.startDate != [] && DateNotAfter(parseDate(e.endDate), parseDate(e.startDate)))
    ensures r.Some? ==> r.value == if e.endDate == [] then EndRequiredMessage else EndOrderMessage
  {
    if e.endDate == [] then Some(EndRequiredMessage)
    else if e.startDate != [] && DateNotAfter(parseDate(e.endDate), parseDate(e.startDate)) then Some(EndOrderMessage)
    else None
  }

  /** The capacity test: required, then `parseInt` must not give 0 or less; `NaN`
      passes. */
  function CapacityError(capacity: string): (r: Option<string>)
    ensures r.None? <==>
              capacity != [] && (JsNumbers.ParseInt(capacity).None? || JsNumbers.ParseInt(capacity).value > 0)
    ensures r.Some? ==> r.value == if capacity == [] then CapacityRequiredMessage else CapacityPositiveMessage
  {
    var n := JsNumbers.ParseInt(capacity);
    if capacity == [] then Some(CapacityRequiredMessage)
    else if n.Some? && n.value <= 0 then Some(CapacityPositiveMessage)
    else None
  }

  /** `validateEvent`, with `now` for `new Date()`: one entry per failing field.
      The start date is tested twice, and because the second test can only set
      the message the first one already set, a stored event whose start has
      passed is always refused. */
  function ValidateEvent(e: EventData, now: int, parseDate: string -> Option<int>): (r: map<EventField, string>)
    ensures TitleField in r <==> JsText.Trim(e.title) == []
    ensures DescriptionField in r <==> JsText.Trim(e.description) == []
    ensures StartDateField in r <==> FirstStartError(e.startDate, now, parseDate).Some?
    ensures EndDateField in r <==> EndError(e, parseDate).Some?
    ensures CapacityField in r <==> CapacityError(e.capacity).Some?
    ensures TitleField in r ==> r[TitleField] == TitleRequiredMessage
    ensures DescriptionField in r ==> r[DescriptionField] == DescriptionRequiredMessage
    ensures StartDateField in r ==> r[StartDateField] == FirstStartError(e.startDate, now, parseDate).value
    ensures EndDateField in r ==> r[EndDateField] == EndError(e, parseDate).value
    ensures CapacityField in r ==> r[CapacityField] == CapacityError(e.capacity).value
  {
    var e0: map<EventField, string> := map[];
    var e1 := if JsText.Trim(e.title) == [] then e0[TitleField := TitleRequiredMessage] else e0;
    var e2 := if JsText.Trim(e.description) == [] then e1[DescriptionField := DescriptionRequiredMessage] else e1;
    var start := StartError(e, now, parseDate);
    var e3 := if start.Some? then e2[StartDateField := start.value] else e2;
    var end := EndError(e, parseDate);
    var e4 := if end.Some? then e3[EndDateField := end.value] else e3;
    var capacity := CapacityError(e.capacity);
    if capacity.Some? then e4[CapacityField := capacity.value] else e4
  }

  /** The loaded dates play no part: the second start-date test never lifts the
      first one's error, so editing a stored event whose start has passed fails
      whether or not its start date was touched. */
  lemma {:induction false} OriginalDatesIgnored(e: EventData, now: int, parseDate: string -> Option<int>, start: string, end: string)
    ensures ValidateEvent(e.(originalStartDate := start, originalEndDate := end), now, parseDate) == ValidateEvent(e, now, parseDate)
  {
    var a := ValidateEvent(e.(originalStartDate := start, originalEndDate := end), now, parseDate);
    var b := ValidateEvent(e, now, parseDate);
    assert a.Keys == b.Keys;
  }

  /** `createNewEmptyEvent` (`freshId` stands for `Date.now().toString()`). */
  function EmptyEvent(freshId: string): EventData
  {
    EventData(freshId, None, "", "", "", "", "", "", "", Published, false)
  }

  /** A new event fails every rule with its "required" message. */
  lemma EmptyEventErrors(freshId: string, now: int, parseDate: string -> Option<int>)
    ensures ValidateEvent(EmptyEvent(freshId), now, parseDate) ==
            map[TitleField := TitleRequiredMessage, DescriptionField := DescriptionRequiredMessage,
                StartDateField := StartRequiredMessage, EndDateField := EndRequiredMessage,
                CapacityField := CapacityRequiredMessage]
  {
    assert JsText.Trim("") == [];
  }

  /** The mapping of `loadEvents`: a stored event is its own `backendId`, its
      dates are also its original dates, and it is clean. */
  function LoadedEvent(r: EventObject): EventData
  {
    EventData(r.id, Some(r.id), r.title, r.description, r.startDate, r.endDate, r.capacity,
              r.startDate, r.endDate, r.status, false)
  }

  /** `{ ...event, [field]: value }` for the fields the inputs bind. */
  function WithField(e: EventData, f: EventField, value: string): EventData
  {
    match f
    case TitleField => e.(title := value)
    case DescriptionField => e.(description := value)
    case StartDateField => e.(startDate := value)
    case EndDateField => e.(endDate := value)
    case CapacityField => e.(capacity := value)
  }

  /** An event after an input's change: the field takes the value and the event
      becomes dirty. */
  function Edited(e: EventData, f: EventField, value: string): EventData
  {
    WithField(e, f, value).(isDirty := true)
  }

  function PayloadOf(e: EventData): (p: EventPayload)
    ensures p.title == e.title && p.description == e.description && p.status == e.status
    ensures p.startDate == e.startDate && p.endDate == e.endDate
    ensures p.capacity == JsNumbers.ParseInt(e.capacity)
  {
    EventPayload(e.title, e.description, e.startDate, e.endDate, JsNumbers.ParseInt(e.capacity), e.status)
  }

  /** A valid event sends a positive capacity, or `NaN`, and an end date that
      does not come at or before its start. */
  lemma ValidPayload(e: EventData, now: int, parseDate: string -> Option<int>)
    requires ValidateEvent(e, now, parseDate) == map[]
    ensures PayloadOf(e).capacity.None? || PayloadOf(e).capacity.value > 0
    ensures !DateNotAfter(parseDate(PayloadOf(e).endDate), parseDate(PayloadOf(e).startDate))
    ensures !DateBefore(parseDate(PayloadOf(e).startDate), Some(now))
  {
    assert CapacityField !in ValidateEvent(e, now, parseDate);
    assert EndDateField !in ValidateEvent(e, now, parseDate);
    assert StartDateField !in ValidateEvent(e, now, parseDate);
  }

  /** `events.find(e => e.id === id)`. */
  function Find(events: seq<EventData>, id: string): (r: Option<EventData>)
    ensures r.None? <==> forall e :: e in events ==> e.id != id
    ensures r.Some? ==> exists i :: 0 <= i < |events| && events[i] == r.value && r.value.id == id &&
                                   forall j :: 0 <= j < i ==> events[j].id != id
  {
    match Lists.FindIndex(events, id, EventId)
    case None => None
    case Some(i) => Some(events[i])
  }

  /** `event.backendId` is truthy. */
  predicate HasBackendId(e: EventData)
  {
    e.backendId.Some? && e.backendId.value != ""
  }

  predicate DistinctIds(events: seq<EventData>)
  {
    forall i, j :: 0 <= i < j < |events| ==> events[i].id != events[j].id
  }

  class EventList {
    var events: seq<EventData>
    var errors: map<string, map<EventField, string>>

    /** No events and no errors until the first load. */
    constructor()
      ensures events == [] && errors == map[]
    {
      events := [];
      errors := map[];
    }

    /** The answer of `getEventsAll` replaces the list. */
    method LoadEvents(stored: seq<EventObject>)
      modifies this`events
      ensures |events| == |stored| && forall i :: 0 <= i < |stored| ==> events[i] == LoadedEvent(stored[i])
    {
      var loaded: seq<EventData> := [];
      var i := 0;
      while i < |stored|
        invariant 0 <= i <= |stored|
        invariant |loaded| == i && forall j :: 0 <= j < i ==> loaded[j] == LoadedEvent(stored[j])
      {
        loaded := loaded + [LoadedEvent(stored[i])];
        i := i + 1;
      }
      events := loaded;
    }

    /** `addNewEvent`. */
    method AddNewEvent(freshId: string)
      modifies this`events
      ensures events == old(events) + [EmptyEvent(freshId)]
    {
      events := events + [EmptyEvent(freshId)];
    }

    /** `removeEvent`: nothing happens to a list of one; otherwise every event
        with the id and its error record go. With distinct ids one event stays. */
    method RemoveEvent(id: string)
      modifies this`events, this`errors
      ensures |old(events)| <= 1 ==> events == old(events) && errors == old(errors)
      ensures |old(events)| > 1 ==>
                events == Lists.Without(old(events), id, EventId) && errors == old(errors) - {id}
      ensures DistinctIds(old(events)) && |old(events)| >= 1 ==> |events| >= 1
    {
      if |events| > 1 {
        if DistinctIds(events) {
          Lists.WithoutDistinct(events, id, EventId);
        }
        events := Lists.Without(events, id, EventId);
        errors := errors - {id};
      }
    }

    /** `handleEventChange`: the field is set on the events with the id, which
        become dirty, and that field's pending error of that event is cleared. */
    method HandleEventChange(id: string, f: EventField, value: string)
      modifies this`events, this`errors
      ensures |events| == |old(events)|
      ensures forall k :: 0 <= k < |events| ==>
                events[k] == if old(events)[k].id == id then Edited(old(events)[k], f, value) else old(events)[k]
      ensures errors == if id in old(errors) && f in old(errors)[id]
                        then old(errors)[id := old(errors)[id] - {f}] else old(errors)
    {
      events := Lists.ReplaceWhere(events, id, EventId, (e: EventData) => Edited(e, f, value));
      if id in errors && f in errors[id] {
        errors := errors[id := errors[id] - {f}];
      }
    }

    /** `handleStatusChange`: the status is set on the events with the id, which
        become dirty; errors are not touched. */
    method HandleStatusChange(id: string, status: EventStatus)
      modifies this`events
      ensures |events| == |old(events)|
      ensures forall k :: 0 <= k < |events| ==>
                events[k] == if old(events)[k].id == id then old(events)[k].(status := status, isDirty := true) else old(events)[k]
    {
      events := Lists.ReplaceWhere(events, id, EventId, (e: EventData) => e.(status := status, isDirty := true));
    }

    /** `createEvent`. An unknown id does nothing; an invalid event gets its error
        record and nothing is sent; otherwise the payload is sent without waiting
        for the answer, and the events with the id get "backend-" and the time
        stamp as `backendId` and become clean whatever the backend does. */
    method CreateEvent(id: string, now: int, parseDate: string -> Option<int>, stamp: string)
      returns (sent: Option<EventPayload>)
      modifies this`events, this`errors
      ensures Find(old(events), id).None? ==> sent.None? && events == old(events) && errors == old(errors)
      ensures Find(old(events), id).Some? && ValidateEvent(Find(old(events), id).value, now, parseDate) != map[] ==>
                sent.None? && events == old(events) &&
                errors == old(errors)[id := ValidateEvent(Find(old(events), id).value, now, parseDate)]
      ensures Find(old(events), id).Some? && ValidateEvent(Find(old(events), id).value, now, parseDate) == map[] ==>
                sent == Some(PayloadOf(Find(old(events), id).value)) && errors == old(errors)
      ensures |events| == |old(events)|
      ensures forall k :: 0 <= k < |events| ==>
                events[k] == if sent.Some? && old(events)[k].id == id
                             then old(events)[k].(backendId := Some("backend-" + stamp), isDirty := false)
                             else old(events)[k]
    {
      var found := Find(events, id);
      if found.None? {
        return None;
      }
      var eventErrors := ValidateEvent(found.value, now, parseDate);
      if eventErrors != map[] {
        errors := errors[id := eventErrors];
        return None;
      }
      sent := Some(PayloadOf(found.value));
      events := Lists.ReplaceWhere(events, id, EventId,
                  (e: EventData) => e.(backendId := Some("backend-" + stamp), isDirty := false));
    }

    /** `updateEvent`. An event that is unknown or has no `backendId` changes
        nothing; an invalid one gets its error record; a valid one is sent with its
        backend id and becomes clean without waiting for the answer. */
    method UpdateEvent(id: string, now: int, parseDate: string -> Option<int>)
      returns (sent: Option<(string, EventPayload)>)
      modifies this`events, this`errors
      ensures Find(old(events), id).None? || !HasBackendId(Find(old(events), id).value) ==>
                sent.None? && events == old(events) && errors == old(errors)
      ensures Find(old(events), id).Some? && HasBackendId(Find(old(events), id).value) &&
              ValidateEvent(Find(old(events), id).value, now, parseDate) != map[] ==>
                sent.None? && events == old(events) &&
                errors == old(errors)[id := ValidateEvent(Find(old(events), id).value, now, parseDate)]
      ensures Find(old(events), id).Some? && HasBackendId(Find(old(events), id).value) &&
              ValidateEvent(Find(old(events), id).value, now, parseDate) == map[] ==>
                errors == old(errors) &&
                sent == Some((Find(old(events), id).value.backendId.value, PayloadOf(Find(old(events), id).value)))
      ensures |events| == |old(events)|
      ensures forall k :: 0 <= k < |events| ==>
                events[k] == if sent.Some? && old(events)[k].id == id then old(events)[k].(isDirty := false) else old(events)[k]
    {
      var found := Find(events, id);
      if found.None? || !HasBackendId(found.value) {
        return None;
      }
      var eventErrors := ValidateEvent(found.value, now, parseDate);
      if eventErrors != map[] {
        errors := errors[id := eventErrors];
        return None;
      }
      sent := Some((found.value.backendId.value, PayloadOf(found.value)));
      events := Lists.ReplaceWhere(events, id, EventId, (e: EventData) => e.(isDirty := false));
    }

    /** `deleteEvent`. An unknown id does nothing; a draft goes through
        `removeEvent` with no call; a stored event is sent to the service by its
        `backendId`, and only a successful answer removes it, again through
        `removeEvent`. */
    method DeleteEvent(id: string, reply: Reply) returns (called: Option<string>)
      modifies this`events, this`errors
      ensures Find(old(events), id).None? ==> called.None? && events == old(events) && errors == old(errors)
      ensures Find(old(events), id).Some? && HasBackendId(Find(old(events), id).value) ==>
                called == Find(old(events), id).value.backendId
      ensures Find(old(events), id).Some? && !HasBackendId(Find(old(events), id).value) ==> called.None?
      ensures called.Some? && reply != Answered(true) ==> events == old(events) && errors == old(errors)
      ensures Find(old(events), id).Some? && (called.None? || reply == Answered(true)) ==>
                (|old(events)| <= 1 ==> events == old(events) && errors == old(errors)) &&
                (|old(events)| > 1 ==> events == Lists.Without(old(events), id, EventId) && errors == old(errors) - {id})
    {
      var found := Find(events, id);
      if found.None? {
        return None;
      }
      if !HasBackendId(found.value) {
        RemoveEvent(id);
        return None;
      }
      called := found.value.backendId;
      if reply == Answered(true) {
        RemoveEvent(id);
      }
    }
  }
}
