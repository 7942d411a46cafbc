/** The schedule list form: several schedules edited side by side, each keyed by
    its local id, with one error record per schedule. */
module ScheduleForm {
  import opened Wrappers
  import JsText
  import Lists
  import opened TimeRanges

  /** A slot as this form sends it: times only, no id and no seconds added. */
  datatype SlotTimes = SlotTimes(startTime: string, endTime: string)

  datatype SchedulePayload = SchedulePayload(eventId: string, timeSlots: seq<SlotTimes>, isAssigned: bool)

  /** What `sendSchedule` did: answered with an optional id, or threw. */
  datatype CreateReply = Created(id: Option<string>) | CreateFailed

  function ScheduleId(s: ScheduleDraft): string
  {
    s.id
  }

  /** `schedules.find(s => s.id === id)`. */
  function Find(schedules: seq<ScheduleDraft>, id: string): (r: Option<ScheduleDraft>)
    ensures r.None? <==> forall s :: s in schedules ==> s.id != id
    ensures r.Some? ==> exists i :: 0 <= i < |schedules| && schedules[i] == r.value && r.value.id == id &&
                                   forall j :: 0 <= j < i ==> schedules[j].id != id
  {
    match Lists.FindIndex(schedules, id, ScheduleId)
    case None => None
    case Some(i) => Some(schedules[i])
  }

  /** The `time_slots` of the payload: the two times of every range, in order. */
  function SlotsPayload(ranges: seq<TimeRange>): (p: seq<SlotTimes>)
    ensures |p| == |ranges|
    ensures forall k :: 0 <= k < |ranges| ==> p[k] == SlotTimes(ranges[k].startTime, ranges[k].endTime)
  {
    if ranges == [] then []
    else [SlotTimes(ranges[0].startTime, ranges[0].endTime)] + SlotsPayload(ranges[1..])
  }

  function PayloadOf(s: ScheduleDraft): (p: SchedulePayload)
    ensures p.eventId == s.eventId && p.isAssigned == s.isAssigned && p.timeSlots == SlotsPayload(s.timeRanges)
  {
    SchedulePayload(s.eventId, SlotsPayload(s.timeRanges), s.isAssigned)
  }

  predicate DistinctIds(schedules: seq<ScheduleDraft>)
  {
    forall i, j :: 0 <= i < j < |schedules| ==> schedules[i].id != schedules[j].id
  }

  /** The schedules the form starts with. */
  function MockSchedules(): seq<ScheduleDraft>
  {
    [ScheduleDraft("schedule-1", Some("backend-schedule-1"), "1",
                   [TimeRange("range-1", "09:00", "10:30"), TimeRange("range-2", "11:00", "12:30")], true, false),
     ScheduleDraft("schedule-2", Some("backend-schedule-2"), "2",
                   [TimeRange("range-3", "14:00", "15:30")], false, false)]
  }

  class ScheduleList {
    var schedules: seq<ScheduleDraft>
    var errors: map<string, map<ScheduleField, string>>

    /** The initial state: the two stored schedules and no errors. */
    constructor()
      ensures schedules == MockSchedules() && errors == map[]
    {
      schedules := MockSchedules();
      errors := map[];
    }

    /** `addNewSchedule`: one empty schedule appended; a fresh id keeps the ids distinct. */
    method AddNewSchedule(freshId: string)
      modifies this`schedules
      ensures schedules == old(schedules) + [EmptySchedule(freshId)]
      ensures DistinctIds(old(schedules)) && (forall s :: s in old(schedules) ==> s.id != freshId) ==> DistinctIds(schedules)
    {
      schedules := schedules + [EmptySchedule(freshId)];
    }

    /** `removeSchedule`: nothing happens to a list of one; otherwise every schedule
        with the id and its error record are removed. With distinct ids the list
        keeps at least one schedule. */
    method RemoveSchedule(id: string)
      modifies this`schedules, this`errors
      ensures |old(schedules)| <= 1 ==> schedules == old(schedules) && errors == old(errors)
      ensures |old(schedules)| > 1 ==>
                schedules == Lists.Without(old(schedules), id, ScheduleId) && errors == old(errors) - {id}
      ensures DistinctIds(old(schedules)) && |old(schedules)| >= 1 ==> |schedules| >= 1
    {
      if |schedules| > 1 {
        if DistinctIds(schedules) {
          Lists.WithoutDistinct(schedules, id, ScheduleId);
        }
        schedules := Lists.Without(schedules, id, ScheduleId);
        errors := errors - {id};
      }
    }

    /** `handleEventChange`: the event of the schedules with the id is set, they are
        dirty, and a pending event error of that schedule is cleared. */
    method HandleEventChange(id: string, value: string)
      modifies this`schedules, this`errors
      ensures |schedules| == |old(schedules)|
      ensures forall k :: 0 <= k < |schedules| ==>
                schedules[k] == if old(schedules)[k].id == id then old(schedules)[k].(eventId := value, isDirty := true) else old(schedules)[k]
      ensures errors == if id in old(errors) && EventIdField in old(errors)[id]
                        then old(errors)[id := old(errors)[id] - {EventIdField}] else old(errors)
    {
      schedules := Lists.ReplaceWhere(schedules, id, ScheduleId, (s: ScheduleDraft) => s.(eventId := value, isDirty := true));
      if id in errors && EventIdField in errors[id] {
        errors := errors[id := errors[id] - {EventIdField}];
      }
    }

    /** `handleCheckboxChange`. */
    method HandleCheckboxChange(id: string, checked: bool)
      modifies this`schedules
      ensures |schedules| == |old(schedules)|
      ensures forall k :: 0 <= k < |schedules| ==>
                schedules[k] == if old(schedules)[k].id == id then old(schedules)[k].(isAssigned := checked, isDirty := true) else old(schedules)[k]
    {
      schedules := Lists.ReplaceWhere(schedules, id, ScheduleId, (s: ScheduleDraft) => s.(isAssigned := checked, isDirty := true));
    }

    /** `addTimeRange`: a default range appended to the schedules with the id only. */
    method AddTimeRange(id: string, freshId: string)
      modifies this`schedules
      ensures |schedules| == |old(schedules)|
      ensures forall k :: 0 <= k < |schedules| ==>
                schedules[k] == if old(schedules)[k].id == id then WithRangeAdded(old(schedules)[k], freshId) else old(schedules)[k]
    {
      schedules := Lists.ReplaceWhere(schedules, id, ScheduleId, (s: ScheduleDraft) => WithRangeAdded(s, freshId));
    }

    /** `removeTimeRange`, on the schedules with the id only. */
    method RemoveTimeRange(id: string, rangeId: string)
      modifies this`schedules
      ensures |schedules| == |old(schedules)|
      ensures forall k :: 0 <= k < |schedules| ==>
                schedules[k] == if old(schedules)[k].id == id then WithRangeRemoved(old(schedules)[k], rangeId) else old(schedules)[k]
    {
      schedules := Lists.ReplaceWhere(schedules, id, ScheduleId, (s: ScheduleDraft) => WithRangeRemoved(s, rangeId));
    }

    /** `handleTimeRangeChange`, on the schedules with the id only. */
    method HandleTimeRangeChange(id: string, rangeId: string, field: RangeField, value: string)
      modifies this`schedules
      ensures |schedules| == |old(schedules)|
      ensures forall k :: 0 <= k < |schedules| ==>
                schedules[k] == if old(schedules)[k].id == id then WithRangeChanged(old(schedules)[k], rangeId, field, value) else old(schedules)[k]
    {
      schedules := Lists.ReplaceWhere(schedules, id, ScheduleId, (s: ScheduleDraft) => WithRangeChanged(s, rangeId, field, value));
    }

    /** `createSchedule`. An unknown id does nothing. An invalid schedule only gets
        its error record. A valid one is sent; an answer gives the schedules with the
        id the answered id, or "backend-schedule-" and the time stamp, as `backendId`
        and makes them clean; a thrown call changes nothing. */
    method CreateSchedule(id: string, reply: CreateReply, stamp: string) returns (sent: Option<SchedulePayload>)
      modifies this`schedules, this`errors
      ensures Find(old(schedules), id).None? ==> sent.None? && schedules == old(schedules) && errors == old(errors)
      ensures Find(old(schedules), id).Some? && ValidateSchedule(Find(old(schedules), id).value) != map[] ==>
                sent.None? && schedules == old(schedules) &&
                errors == old(errors)[id := ValidateSchedule(Find(old(schedules), id).value)]
      ensures Find(old(schedules), id).Some? && ValidateSchedule(Find(old(schedules), id).value) == map[] ==>
                sent == Some(PayloadOf(Find(old(schedules), id).value)) && errors == old(errors)
      ensures reply.CreateFailed? ==> schedules == old(schedules)
      ensures |schedules| == |old(schedules)|
      ensures forall k :: 0 <= k < |schedules| ==>
                schedules[k] == if sent.Some? && reply.Created? && old(schedules)[k].id == id
                                then old(schedules)[k].(backendId := Some(reply.id.GetOr("backend-schedule-" + stamp)), isDirty := false)
                                else old(schedules)[k]
    {
      var found := Find(schedules, id);
      if found.None? {
        return None;
      }
      var scheduleErrors := ValidateSchedule(found.value);
      if scheduleErrors != map[] {
        errors := errors[id := scheduleErrors];
        return None;
      }
      sent := Some(PayloadOf(found.value));
      if reply.Created? {
        var backendId := reply.id.GetOr("backend-schedule-" + stamp);
        schedules := Lists.ReplaceWhere(schedules, id, ScheduleId,
                                        (s: ScheduleDraft) => s.(backendId := Some(backendId), isDirty := false));
      }
    }

    /** `updateSchedule`, which makes no backend call: an unknown id or a schedule
        without `backendId` changes nothing, an invalid one gets its error record,
        a valid one is made clean. */
    method UpdateSchedule(id: string)
      modifies this`schedules, this`errors
      ensures Find(old(schedules), id).None? || !HasBackendId(Find(old(schedules), id).value) ==>
                schedules == old(schedules) && errors == old(errors)
      ensures Find(old(schedules), id).Some? && HasBackendId(Find(old(schedules), id).value) &&
              ValidateSchedule(Find(old(schedules), id).value) != map[] ==>
                schedules == old(schedules) && errors == old(errors)[id := ValidateSchedule(Find(old(schedules), id).value)]
      ensures Find(old(schedules), id).Some? && HasBackendId(Find(old(schedules), id).value) &&
              ValidateSchedule(Find(old(schedules), id).value) == map[] ==>
                errors == old(errors) && |schedules| == |old(schedules)| &&
                forall k :: 0 <= k < |schedules| ==>
                  schedules[k] == if old(schedules)[k].id == id then old(schedules)[k].(isDirty := false) else old(schedules)[k]
    {
      var found := Find(schedules, id);
      if found.None? || !HasBackendId(found.value) {
        return;
      }
      var scheduleErrors := ValidateSchedule(found.value);
      if scheduleErrors != map[] {
        errors := errors[id := scheduleErrors];
        return;
      }
      schedules := Lists.ReplaceWhere(schedules, id, ScheduleId, (s: ScheduleDraft) => s.(isDirty := false));
    }

    /** `deleteSchedule`: a known schedule goes through `removeSchedule` whether it
        is a draft or stored, so the last one is never deleted. */
    method DeleteSchedule(id: string)
      modifies this`schedules, this`errors
      ensures Find(old(schedules), id).None? ==> schedules == old(schedules) && errors == old(errors)
      ensures Find(old(schedules), id).Some? && |old(schedules)| <= 1 ==> schedules == old(schedules) && errors == old(errors)
      ensures Find(old(schedules), id).Some? && |old(schedules)| > 1 ==>
                schedules == Lists.Without(old(schedules), id, ScheduleId) && errors == old(errors) - {id}
    {
      var found := Find(schedules, id);
      if found.None? {
        return;
      }
      RemoveSchedule(id);
    }

    /** `clearSchedule`: the schedules with the id are replaced by an empty
        schedule, which carries the new id, and the error record of the id is dropped. */
    method ClearSchedule(id: string, freshId: string)
      modifies this`schedules, this`errors
      ensures |schedules| == |old(schedules)|
      ensures forall k :: 0 <= k < |schedules| ==>
                schedules[k] == if old(schedules)[k].id == id then EmptySchedule(freshId) else old(schedules)[k]
      ensures errors == old(errors) - {id}
    {
      schedules := Lists.ReplaceWhere(schedules, id, ScheduleId, (s: ScheduleDraft) => EmptySchedule(freshId));
      errors := errors - {id};
    }
  }

  /** `!schedule.backendId`, negated: present and not the empty string. */
  predicate HasBackendId(s: ScheduleDraft)
  {
    s.backendId.Some? && s.backendId.value != ""
  }
}
