/** The admin schedule editor: one schedule at a time, chosen by selecting an
    event whose stored slots are loaded into the form, edited range by range and
    then created or updated on the backend. */
module AdminScheduleForm {
  import opened Wrappers
  import JsText
  import Lists
  import opened TimeRanges

  /** An event as the backend lists it (`EventWithSlots`); `time_slot` may be absent. */
  datatype RawEvent = RawEvent(id: string, title: string, timeSlot: Option<seq<TimeRange>>)

  /** An event as the form keeps it, with its slot times normalised to "HH:MM". */
  datatype EventData = EventData(id: string, title: string, timeSlot: seq<TimeRange>)

  datatype SlotPayload = SlotPayload(id: string, startTime: string, endTime: string)

  /** The body sent by create and update. */
  datatype SchedulePayload = SchedulePayload(eventId: string, timeSlots: seq<SlotPayload>, isAssigned: bool)

  /** What `sendSchedule` did: answered with an optional id, or threw. */
  datatype CreateReply = Created(id: Option<string>) | CreateFailed

  function Pad2(s: string): string
  {
    JsText.PadStart(s, 2, '0')
  }

  function EventId(e: EventData): string
  {
    e.id
  }

  /** Two colon-separated pieces of at least two characters each, the shape the
      loader gives every time. */
  predicate ClockShaped(t: string)
  {
    var parts := JsText.Split(t, ':');
    |parts| == 2 && |parts[0]| >= 2 && |parts[1]| >= 2
  }

  /** The loader's `formatTime`: "09:00" for an empty string or one without a
      colon, otherwise the first two pieces padded to two characters, so that a
      stored "9:5:00" becomes "09:05". The result always has two pieces. */
  function LoaderFormatTime(t: string): (r: string)
    ensures t == [] || |JsText.Split(t, ':')| < 2 ==> r == "09:00"
    ensures t != [] && |JsText.Split(t, ':')| >= 2 ==>
              JsText.Split(r, ':') == [Pad2(JsText.Split(t, ':')[0]), Pad2(JsText.Split(t, ':')[1])]
    ensures ClockShaped(r)
  {
    if t == [] || |JsText.Split(t, ':')| < 2 then
      assert "09:00" == "09" + ":" + "00";
      SplitAtColon("09", "00");
      "09:00"
    else
      var parts := JsText.Split(t, ':');
      JsText.PadStartKeepsOut(parts[0], 2, '0', ':');
      JsText.PadStartKeepsOut(parts[1], 2, '0', ':');
      SplitAtColon(Pad2(parts[0]), Pad2(parts[1]));
      Pad2(parts[0]) + ":" + Pad2(parts[1])
  }

  /** The `formatTime` inside `handleEventChange`: the same as the loader's where
      it returns, but `minutes.padStart` throws (`None`) for a non-empty string
      without a colon. */
  function SelectFormatTime(t: string): (r: Option<string>)
    ensures r.None? <==> t != [] && ':' !in t
  {
    if t == [] then Some("09:00")
    else
      var parts := JsText.Split(t, ':');
      if |parts| < 2 then
        assert multiset(t)[':'] == 0;
        None
      else
        Some(Pad2(parts[0]) + ":" + Pad2(parts[1]))
  }

  /** Where the second formatter returns, it agrees with the loader's. */
  lemma SelectAgreesWithLoader(t: string)
    ensures SelectFormatTime(t).Some? ==> SelectFormatTime(t).value == LoaderFormatTime(t)
  {
  }

  /** A time of that shape is left unchanged by both formatters. */
  lemma ShapedIsFixed(t: string)
    requires ClockShaped(t)
    ensures LoaderFormatTime(t) == t && SelectFormatTime(t) == Some(t)
  {
    var parts := JsText.Split(t, ':');
    JsText.PadStartOfLong(parts[0], 2, '0');
    JsText.PadStartOfLong(parts[1], 2, '0');
    JsText.JoinSplit(t, ':');
    assert JsText.Join(parts, ':') == parts[0] + ":" + parts[1];
  }

  /** Formatting a formatted time changes nothing, so the second formatter never
      throws on a loaded slot and leaves its times as they are. */
  lemma LoaderFormatIdempotent(t: string)
    ensures LoaderFormatTime(LoaderFormatTime(t)) == LoaderFormatTime(t)
    ensures SelectFormatTime(LoaderFormatTime(t)) == Some(LoaderFormatTime(t))
  {
    ShapedIsFixed(LoaderFormatTime(t));
  }

  /** A loaded time also reaches the backend with seconds appended. */
  lemma LoadedTimeGetsSeconds(t: string)
    ensures EnsureSeconds(LoaderFormatTime(t)) == LoaderFormatTime(t) + ":00"
  {
  }

  /** A slot's times have the shape the loader leaves them in. */
  predicate Normalized(r: TimeRange)
  {
    ClockShaped(r.startTime) && ClockShaped(r.endTime)
  }

  /** The slots of one loaded event, in order, with their ids kept. */
  function FormatSlots(slots: seq<TimeRange>): (r: seq<TimeRange>)
    ensures |r| == |slots|
    ensures forall k :: 0 <= k < |slots| ==>
              r[k] == TimeRange(slots[k].id, LoaderFormatTime(slots[k].startTime), LoaderFormatTime(slots[k].endTime))
    ensures forall k :: 0 <= k < |r| ==> Normalized(r[k])
  {
    if slots == [] then []
    else
      [TimeRange(slots[0].id, LoaderFormatTime(slots[0].startTime), LoaderFormatTime(slots[0].endTime))] +
      FormatSlots(slots[1..])
  }

  /** One entry of `mappedEvents`: `time_slot || []`, formatted. */
  function LoadEvent(e: RawEvent): (d: EventData)
    ensures d.id == e.id && d.title == e.title
    ensures d.timeSlot == FormatSlots(e.timeSlot.GetOr([]))
    ensures forall k :: 0 <= k < |d.timeSlot| ==> Normalized(d.timeSlot[k])
  {
    EventData(e.id, e.title, FormatSlots(e.timeSlot.GetOr([])))
  }

  /** The slots of the first event with id `value` (`events.find`), none when no
      event has that id. */
  function SlotsOf(events: seq<EventData>, value: string): (slots: seq<TimeRange>)
    ensures (forall e :: e in events ==> e.id != value) ==> slots == []
    ensures forall i :: 0 <= i < |events| && events[i].id == value && (forall j :: 0 <= j < i ==> events[j].id != value) ==>
              slots == events[i].timeSlot
  {
    match Lists.FindIndex(events, value, EventId)
    case None =>
      assert forall i :: 0 <= i < |events| ==> events[i] in events;
      []
    case Some(i) => events[i].timeSlot
  }

  /** Neither time of the slot makes the second formatter throw. */
  predicate SelectsBoth(r: TimeRange)
  {
    SelectFormatTime(r.startTime).Some? && SelectFormatTime(r.endTime).Some?
  }

  /** The new ranges of `handleEventChange` for an event with slots: each slot's
      id with both times formatted, or `None` when a format throws. */
  function SelectRanges(slots: seq<TimeRange>): (r: Option<seq<TimeRange>>)
    ensures r.None? <==> exists k :: 0 <= k < |slots| && !SelectsBoth(slots[k])
    ensures r.Some? ==> |r.value| == |slots| && forall k :: 0 <= k < |slots| ==>
              r.value[k] == TimeRange(slots[k].id, SelectFormatTime(slots[k].startTime).value, SelectFormatTime(slots[k].endTime).value)
  {
    if slots == [] then Some([])
    else
      var s := SelectFormatTime(slots[0].startTime);
      var e := SelectFormatTime(slots[0].endTime);
      var rest := SelectRanges(slots[1..]);
      if s.None? || e.None? then None
      else if rest.None? then
        assert forall k :: 0 <= k < |slots[1..]| ==> slots[1..][k] == slots[k + 1];
        None
      else
        Some([TimeRange(slots[0].id, s.value, e.value)] + rest.value)
  }

  /** Selecting an event whose slots were loaded keeps exactly those slots, ids and times. */
  lemma SelectNormalized(slots: seq<TimeRange>)
    requires forall k :: 0 <= k < |slots| ==> Normalized(slots[k])
    ensures SelectRanges(slots) == Some(slots)
  {
    forall k | 0 <= k < |slots|
      ensures SelectFormatTime(slots[k].startTime) == Some(slots[k].startTime)
      ensures SelectFormatTime(slots[k].endTime) == Some(slots[k].endTime)
    {
      SelectFixesNormalized(slots[k]);
    }
    SelectKeepsFixed(slots);
  }

  /** Slots whose times the second formatter keeps are selected unchanged. */
  lemma SelectKeepsFixed(slots: seq<TimeRange>)
    requires forall k :: 0 <= k < |slots| ==> SelectFormatTime(slots[k].startTime) == Some(slots[k].startTime)
    requires forall k :: 0 <= k < |slots| ==> SelectFormatTime(slots[k].endTime) == Some(slots[k].endTime)
    ensures SelectRanges(slots) == Some(slots)
  {
    var r := SelectRanges(slots);
    assert forall k :: 0 <= k < |slots| ==> SelectsBoth(slots[k]);
    assert |r.value| == |slots| && forall k :: 0 <= k < |slots| ==> r.value[k] == slots[k];
    assert r.value == slots;
  }

  /** Both times of a loaded slot are kept by the second formatter. */
  lemma SelectFixesNormalized(r: TimeRange)
    requires Normalized(r)
    ensures SelectFormatTime(r.startTime) == Some(r.startTime) && SelectFormatTime(r.endTime) == Some(r.endTime)
  {
    ShapedIsFixed(r.startTime);
    ShapedIsFixed(r.endTime);
  }

  /** Every slot of every event satisfies `Normalized`. */
  predicate AllNormalized(events: seq<EventData>)
  {
    forall i, k :: 0 <= i < |events| && 0 <= k < |events[i].timeSlot| ==> Normalized(events[i].timeSlot[k])
  }

  /** `time_slots` of the payload: every range with its times through `ensureSeconds`. */
  function SlotsPayload(ranges: seq<TimeRange>): (p: seq<SlotPayload>)
    ensures |p| == |ranges|
    ensures forall k :: 0 <= k < |ranges| ==>
              p[k] == SlotPayload(ranges[k].id, EnsureSeconds(ranges[k].startTime), EnsureSeconds(ranges[k].endTime))
  {
    if ranges == [] then []
    else [SlotPayload(ranges[0].id, EnsureSeconds(ranges[0].startTime), EnsureSeconds(ranges[0].endTime))] +
         SlotsPayload(ranges[1..])
  }

  /** The payload of create and update. */
  function PayloadOf(s: ScheduleDraft): (p: SchedulePayload)
    ensures p.eventId == s.eventId && p.isAssigned == s.isAssigned
    ensures p.timeSlots == SlotsPayload(s.timeRanges)
  {
    SchedulePayload(s.eventId, SlotsPayload(s.timeRanges), s.isAssigned)
  }

  /** A range whose times are "HH:MM" clocks is sent as "HH:MM:00", with its id. */
  lemma ClockRangePayload(r: TimeRange, h1: nat, m1: nat, h2: nat, m2: nat)
    requires r.startTime == FormatClock(h1, m1) && r.endTime == FormatClock(h2, m2)
    ensures SlotsPayload([r]) == [SlotPayload(r.id, r.startTime + ":00", r.endTime + ":00")]
  {
    ClockGetsSeconds(h1, m1);
    ClockGetsSeconds(h2, m2);
  }

  /** `!schedule.backendId`: absent, or the empty string. */
  predicate HasBackendId(s: ScheduleDraft)
  {
    s.backendId.Some? && s.backendId.value != ""
  }

  class ScheduleEditor {
    var schedule: ScheduleDraft
    var formErrors: map<ScheduleField, string>
    var events: seq<EventData>

    /** The initial state: a fresh empty schedule, no errors, no events yet. */
    constructor(freshId: string)
      ensures schedule == EmptySchedule(freshId) && formErrors == map[] && events == []
    {
      schedule := EmptySchedule(freshId);
      formErrors := map[];
      events := [];
    }

    /** `setEvents(mappedEvents)` after `getEventsNameSlot`: every slot normalised. */
    method LoadEvents(raw: seq<RawEvent>)
      modifies this`events
      ensures |events| == |raw| && forall i :: 0 <= i < |raw| ==> events[i] == LoadEvent(raw[i])
      ensures AllNormalized(events)
    {
      var loaded: seq<EventData> := [];
      var i := 0;
      while i < |raw|
        invariant 0 <= i <= |raw|
        invariant |loaded| == i && forall j :: 0 <= j < i ==> loaded[j] == LoadEvent(raw[j])
        invariant AllNormalized(loaded)
      {
        loaded := loaded + [LoadEvent(raw[i])];
        i := i + 1;
      }
      events := loaded;
    }

    /** `handleEventChange(value)`. The empty value resets the form. Otherwise the
        schedule is rebuilt from the first event with that id: with slots, those
        slots (formatted, ids kept), the event id as `backendId` and assigned; without,
        one default range, no `backendId`, not assigned; clean either way and errors
        cleared. `threw` reports the `TypeError` of formatting a time without a
        colon, after which nothing changes; loaded events never cause it. */
    method HandleEventChange(value: string, freshId: string) returns (threw: bool)
      modifies this`schedule, this`formErrors
      ensures value == [] ==> !threw && schedule == EmptySchedule(freshId) && formErrors == map[]
      ensures value != [] ==> (threw <==> SelectRanges(SlotsOf(events, value)).None?)
      ensures AllNormalized(events) ==> !threw
      ensures threw ==> schedule == old(schedule) && formErrors == old(formErrors)
      ensures value != [] && !threw ==>
                var slots := SlotsOf(events, value);
                formErrors == map[] &&
                schedule.id == "schedule-" + value && schedule.eventId == value && !schedule.isDirty &&
                schedule.isAssigned == (|slots| > 0) &&
                (|slots| > 0 ==> schedule.timeRanges == SelectRanges(slots).value && schedule.backendId == Some(value)) &&
                (|slots| == 0 ==> schedule.timeRanges == [DefaultRange(freshId)] && schedule.backendId.None?)
    {
      if value == [] {
        schedule := EmptySchedule(freshId);
        formErrors := map[];
        return false;
      }
      var slots := SlotsOf(events, value);
      if AllNormalized(events) {
        NormalizedSlotsOf(events, value);
        SelectNormalized(slots);
      }
      var ranges: seq<TimeRange>;
      if |slots| > 0 {
        var selected := SelectRanges(slots);
        if selected.None? {
          return true;
        }
        ranges := selected.value;
      } else {
        ranges := [DefaultRange(freshId)];
      }
      var hasSchedules := |slots| > 0;
      schedule := ScheduleDraft("schedule-" + value, if hasSchedules then Some(value) else None,
                                value, ranges, hasSchedules, false);
      formErrors := map[];
      threw := false;
    }

    /** `handleCheckboxChange`: the assigned flag is set and the schedule is dirty. */
    method HandleCheckboxChange(checked: bool)
      modifies this`schedule
      ensures schedule == old(schedule).(isAssigned := checked, isDirty := true)
    {
      schedule := schedule.(isAssigned := checked, isDirty := true);
    }

    /** `addTimeRange`: one default range appended; validity is unchanged. */
    method AddTimeRange(freshId: string)
      modifies this`schedule
      ensures schedule == WithRangeAdded(old(schedule), freshId)
      ensures ValidateSchedule(schedule) == ValidateSchedule(old(schedule))
    {
      WithRangeAddedValidation(schedule, freshId);
      schedule := WithRangeAdded(schedule, freshId);
    }

    method RemoveTimeRange(rangeId: string)
      modifies this`schedule
      ensures schedule == WithRangeRemoved(old(schedule), rangeId)
    {
      schedule := WithRangeRemoved(schedule, rangeId);
    }

    method HandleTimeRangeChange(rangeId: string, field: RangeField, value: string)
      modifies this`schedule
      ensures schedule == WithRangeChanged(old(schedule), rangeId, field, value)
    {
      schedule := WithRangeChanged(schedule, rangeId, field, value);
    }

    /** `handleCreateSchedule`. An invalid schedule only records its errors and sends
        nothing. A valid one is sent; on an answer `backendId` becomes the answered
        id, or the event id when there is none, and the schedule is clean; a thrown
        call changes nothing. Errors of an earlier attempt are not cleared. */
    method HandleCreateSchedule(reply: CreateReply) returns (sent: Option<SchedulePayload>)
      modifies this`schedule, this`formErrors
      ensures ValidateSchedule(old(schedule)) != map[] ==>
                sent.None? && formErrors == ValidateSchedule(old(schedule)) && schedule == old(schedule)
      ensures ValidateSchedule(old(schedule)) == map[] ==>
                sent == Some(PayloadOf(old(schedule))) && formErrors == old(formErrors)
      ensures ValidateSchedule(old(schedule)) == map[] && reply.Created? ==>
                schedule == old(schedule).(backendId := Some(reply.id.GetOr(old(schedule).eventId)), isDirty := false)
      ensures reply.CreateFailed? ==> schedule == old(schedule)
    {
      var errors := ValidateSchedule(schedule);
      if errors != map[] {
        formErrors := errors;
        return None;
      }
      sent := Some(PayloadOf(schedule));
      if reply.Created? {
        schedule := schedule.(backendId := Some(reply.id.GetOr(schedule.eventId)), isDirty := false);
      }
    }

    /** `handleUpdateSchedule`. Without a `backendId` nothing changes and nothing is
        sent; otherwise as create, except that success only cleans the schedule. */
    method HandleUpdateSchedule(threw: bool) returns (sent: Option<SchedulePayload>)
      modifies this`schedule, this`formErrors
      ensures !HasBackendId(old(schedule)) ==>
                sent.None? && schedule == old(schedule) && formErrors == old(formErrors)
      ensures HasBackendId(old(schedule)) && ValidateSchedule(old(schedule)) != map[] ==>
                sent.None? && formErrors == ValidateSchedule(old(schedule)) && schedule == old(schedule)
      ensures HasBackendId(old(schedule)) && ValidateSchedule(old(schedule)) == map[] ==>
                sent == Some(PayloadOf(old(schedule))) && formErrors == old(formErrors) &&
                schedule == if threw then old(schedule) else old(schedule).(isDirty := false)
    {
      if !HasBackendId(schedule) {
        return None;
      }
      var errors := ValidateSchedule(schedule);
      if errors != map[] {
        formErrors := errors;
        return None;
      }
      sent := Some(PayloadOf(schedule));
      if !threw {
        schedule := schedule.(isDirty := false);
      }
    }

    /** `handleDeleteSlot`: an id containing '-' is deleted on the backend first and
        kept when that throws; any other id is only removed locally. */
    method HandleDeleteSlot(rangeId: string, threw: bool) returns (backendCall: bool)
      modifies this`schedule
      ensures backendCall <==> '-' in rangeId
      ensures schedule == if backendCall && threw then old(schedule) else WithRangeRemoved(old(schedule), rangeId)
    {
      backendCall := '-' in rangeId;
      if backendCall && threw {
        return;
      }
      schedule := WithRangeRemoved(schedule, rangeId);
    }

    /** `clearForm`: a fresh empty schedule and no errors. */
    method ClearForm(freshId: string)
      modifies this`schedule, this`formErrors
      ensures schedule == EmptySchedule(freshId) && formErrors == map[]
    {
      schedule := EmptySchedule(freshId);
      formErrors := map[];
    }
  }

  /** The slots `find` picks from normalised events are normalised. */
  lemma NormalizedSlotsOf(events: seq<EventData>, value: string)
    requires AllNormalized(events)
    ensures forall k :: 0 <= k < |SlotsOf(events, value)| ==> Normalized(SlotsOf(events, value)[k])
  {
  }
}
