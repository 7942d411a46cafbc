/** The schedule logic that the two schedule forms (the admin one, which edits a
    single schedule, and the list one) both carry: time ranges as "HH:MM" strings,
    their minutes, their validation, the 30-minute option list, the
    duration label and the `HH:mm:ss` normaliser for the payload. */
module TimeRanges {
  import opened Wrappers
  import JsText
  import JsNumbers
  import Lists

  datatype TimeRange = TimeRange(id: string, startTime: string, endTime: string)

  /** The two fields `handleTimeRangeChange` may set. */
  datatype RangeField = StartTime | EndTime

  datatype ScheduleDraft = ScheduleDraft(
    id: string,
    backendId: Option<string>,
    eventId: string,
    timeRanges: seq<TimeRange>,
    isAssigned: bool,
    isDirty: bool)

  /** The keys of `ScheduleFormErrors`. */
  datatype ScheduleField = EventIdField | TimeRangesField

  const SelectEventMessage := "Seleccione un evento"
  const RangeOrderMessage := "Algunos rangos tienen fin antes o igual al inicio"

  function RangeId(r: TimeRange): string
  {
    r.id
  }

  /** `const [h, m] = t.split(':').map(Number); h * 60 + m`, with `None` for `NaN`
      (a missing minutes part is `Number(undefined)`, which is `NaN`). */
  function ToMinutes(t: string): Option<int>
  {
    var parts := JsText.Split(t, ':');
    var h := JsNumbers.ToNumber(parts[0]);
    var m := if |parts| > 1 then JsNumbers.ToNumber(parts[1]) else None;
    if h.Some? && m.Some? then Some(h.value * 60 + m.value) else None
  }

  /** The callback of `time_ranges.some(...)`: the end is not after the start.
      A comparison with `NaN` is false, so an unreadable time never counts. */
  predicate EndsNotAfterStart(r: TimeRange)
  {
    var s := ToMinutes(r.startTime);
    var e := ToMinutes(r.endTime);
    s.Some? && e.Some? && e.value <= s.value
  }

  /** `ranges.some(EndsNotAfterStart)`. */
  function HasInvertedRange(ranges: seq<TimeRange>): (b: bool)
    ensures b <==> exists k :: 0 <= k < |ranges| && EndsNotAfterStart(ranges[k])
  {
    if ranges == [] then false
    else
      EndsNotAfterStart(ranges[0]) || HasInvertedRange(ranges[1..])
  }

  /** `validateSchedule`: the event error when the trimmed event id is empty, the
      single ranges error when some range ends at or before its start. */
  function ValidateSchedule(s: ScheduleDraft): (e: map<ScheduleField, string>)
    ensures EventIdField in e <==> JsText.Trim(s.eventId) == []
    ensures TimeRangesField in e <==>
              exists k :: 0 <= k < |s.timeRanges| && EndsNotAfterStart(s.timeRanges[k])
    ensures EventIdField in e ==> e[EventIdField] == SelectEventMessage
    ensures TimeRangesField in e ==> e[TimeRangesField] == RangeOrderMessage
  {
    var byEvent := if JsText.Trim(s.eventId) == [] then map[EventIdField := SelectEventMessage] else map[];
    if HasInvertedRange(s.timeRanges) then byEvent[TimeRangesField := RangeOrderMessage] else byEvent
  }

  /** `${h.padStart(2,'0')}:${m.padStart(2,'0')}` for numbers `h` and `m`. */
  function FormatClock(h: nat, m: nat): string
  {
    JsText.PadStart(JsNumbers.NatToString(h), 2, '0') + ":" +
    JsText.PadStart(JsNumbers.NatToString(m), 2, '0')
  }

  /** Two colon-free pieces joined by a colon split back into those pieces. */
  lemma SplitAtColon(a: string, b: string)
    requires ':' !in a && ':' !in b
    ensures JsText.Split(a + ":" + b, ':') == [a, b]
  {
    assert JsText.Join([a, b], ':') == a + ":" + b;
    JsText.SplitJoin([a, b], ':');
  }

  /** A number padded to two digits holds no colon and reads back as the number. */
  lemma PaddedPiece(n: nat)
    ensures ':' !in JsText.PadStart(JsNumbers.NatToString(n), 2, '0')
    ensures JsNumbers.ToNumber(JsText.PadStart(JsNumbers.NatToString(n), 2, '0')) == Some(n)
  {
    var d := JsNumbers.NatToString(n);
    var p := JsText.PadStart(d, 2, '0');
    forall i | 0 <= i < |p|
      ensures p[i] != ':'
    {
      if i >= |p| - |d| {
        assert p[i] == d[i - (|p| - |d|)];
      }
    }
    JsNumbers.ToNumberOfPadded(n);
  }

  /** A clock string reads back as the minutes it was written from, `x = 60h + m`
      (the minutes are a parameter so that callers can name them their own way). */
  lemma ToMinutesOfClock(h: nat, m: nat, x: int)
    requires x == 60 * h + m
    ensures ToMinutes(FormatClock(h, m)) == Some(x)
  {
    var a := JsText.PadStart(JsNumbers.NatToString(h), 2, '0');
    var b := JsText.PadStart(JsNumbers.NatToString(m), 2, '0');
    PaddedPiece(h);
    PaddedPiece(m);
    SplitAtColon(a, b);
    MinutesOfPieces(a + ":" + b, a, b, h, m, x);
  }

  /** `ToMinutes` of a string that splits into two readable pieces. */
  lemma MinutesOfPieces(t: string, a: string, b: string, h: int, m: int, x: int)
    requires JsText.Split(t, ':') == [a, b]
    requires JsNumbers.ToNumber(a) == Some(h) && JsNumbers.ToNumber(b) == Some(m)
    requires x == 60 * h + m
    ensures ToMinutes(t) == Some(x)
  {
  }

  /** Two decimal digits read as their two-digit value. */
  lemma TwoDigitNumber(c1: char, c0: char, v: int)
    requires JsNumbers.IsDigit(c1) && JsNumbers.IsDigit(c0)
    requires v == 10 * JsNumbers.DigitValue(c1) + JsNumbers.DigitValue(c0)
    ensures ':' !in [c1, c0]
    ensures JsNumbers.ToNumber([c1, c0]) == Some(v)
  {
    var a := [c1, c0];
    assert a[..1] == [c1] && [c1][..0] == [];
    assert JsNumbers.DigitsValue([c1], false) == JsNumbers.DigitValue(c1);
    assert JsNumbers.DigitsValue(a, false) == v;
    JsNumbers.ToNumberOfDigits(a);
  }

  /** A literal "HH:MM" of four decimal digits reads as its minutes. */
  lemma ClockLiteral(h1: char, h0: char, m1: char, m0: char, x: int)
    requires JsNumbers.IsDigit(h1) && JsNumbers.IsDigit(h0) && JsNumbers.IsDigit(m1) && JsNumbers.IsDigit(m0)
    requires x == 60 * (10 * JsNumbers.DigitValue(h1) + JsNumbers.DigitValue(h0)) + 10 * JsNumbers.DigitValue(m1) + JsNumbers.DigitValue(m0)
    ensures ToMinutes([h1, h0, ':', m1, m0]) == Some(x)
  {
    var h := 10 * JsNumbers.DigitValue(h1) + JsNumbers.DigitValue(h0);
    var m := 10 * JsNumbers.DigitValue(m1) + JsNumbers.DigitValue(m0);
    assert [h1, h0] + ":" + [m1, m0] == [h1, h0, ':', m1, m0];
    TwoDigitNumber(h1, h0, h);
    TwoDigitNumber(m1, m0, m);
    SplitAtColon([h1, h0], [m1, m0]);
    MinutesOfPieces([h1, h0, ':', m1, m0], [h1, h0], [m1, m0], h, m, x);
  }

  /** The `generateTimeOptions` entry at position `k`: hour `k / 2`, minute 0 or 30. */
  function TimeOption(k: nat): string
  {
    FormatClock(k / 2, k % 2 * 30)
  }

  /** The arithmetic behind the position of an option. */
  lemma HalfHourPosition(hour: nat, minute: nat)
    requires minute == 0 || minute == 30
    ensures (2 * hour + minute / 30) / 2 == hour && (2 * hour + minute / 30) % 2 * 30 == minute
  {
  }

  /** The arithmetic behind the value of an option. */
  lemma HalfHourSplit(k: nat)
    ensures 60 * (k / 2) + k % 2 * 30 == 30 * k
    ensures k < 48 ==> k / 2 < 24
    ensures k % 2 * 30 == (if k % 2 == 0 then 0 else 30)
  {
  }

  /** Position `2 * hour + minute / 30` holds the option for that hour and minute. */
  lemma TimeOptionAt(hour: nat, minute: nat)
    requires minute == 0 || minute == 30
    ensures TimeOption(2 * hour + minute / 30) == FormatClock(hour, minute)
  {
    HalfHourPosition(hour, minute);
  }

  /** Option `k` of the 48 is `30 * k` minutes past midnight and ends in 00 or 30. */
  lemma TimeOptionValue(k: nat)
    requires k < 48
    ensures ToMinutes(TimeOption(k)) == Some(30 * k)
    ensures |TimeOption(k)| == 5 && TimeOption(k)[3..] == (if k % 2 == 0 then "00" else "30")
  {
    HalfHourSplit(k);
    ToMinutesOfClock(k / 2, k % 2 * 30, 30 * k);
    HalfHourLabel(k / 2, k % 2 * 30);
  }

  /** Pushing the option for the next hour and half hour keeps every position
      holding its option. */
  lemma OptionAppended(times: seq<string>, hour: nat, minute: nat)
    requires minute == 0 || minute == 30
    requires |times| == 2 * hour + minute / 30
    requires forall k :: 0 <= k < |times| ==> times[k] == TimeOption(k)
    ensures forall k :: 0 <= k < |times| + 1 ==> (times + [FormatClock(hour, minute)])[k] == TimeOption(k)
  {
    TimeOptionAt(hour, minute);
  }

  /** `generateTimeOptions`: two nested loops pushing "HH:MM" for every hour and
      every half hour. The list has 48 entries, entry `k` is `30 * k` minutes past
      midnight, so the entries strictly increase, and every one ends in 00 or 30. */
  method GenerateTimeOptions() returns (times: seq<string>)
    ensures |times| == 48
    ensures forall k :: 0 <= k < |times| ==> times[k] == TimeOption(k)
    ensures forall k :: 0 <= k < |times| ==> ToMinutes(times[k]) == Some(30 * k)
    ensures forall k :: 0 <= k < |times| ==> |times[k]| == 5 && times[k][3..] == (if k % 2 == 0 then "00" else "30")
  {
    times := [];
    var hour := 0;
    while hour < 24
      invariant 0 <= hour <= 24
      invariant |times| == 2 * hour
      invariant forall k :: 0 <= k < |times| ==> times[k] == TimeOption(k)
    {
      var minute := 0;
      while minute < 60
        invariant minute == 0 || minute == 30 || minute == 60
        invariant |times| == 2 * hour + minute / 30
        invariant forall k :: 0 <= k < |times| ==> times[k] == TimeOption(k)
      {
        OptionAppended(times, hour, minute);
        times := times + [FormatClock(hour, minute)];
        minute := minute + 30;
      }
      hour := hour + 1;
    }
    forall k | 0 <= k < |times|
      ensures ToMinutes(times[k]) == Some(30 * k)
      ensures |times[k]| == 5 && times[k][3..] == (if k % 2 == 0 then "00" else "30")
    {
      TimeOptionValue(k);
    }
  }

  /** An hour below 24 and a minute of 0 or 30 print as five characters ending in the minute. */
  lemma HalfHourLabel(h: nat, m: nat)
    requires h < 24 && (m == 0 || m == 30)
    ensures |FormatClock(h, m)| == 5
    ensures FormatClock(h, m)[3..] == (if m == 0 then "00" else "30")
  {
    assert |JsNumbers.NatToString(h)| <= 2 by {
      if h >= 10 { assert JsNumbers.NatToString(h) == JsNumbers.NatToString(h / 10) + [JsNumbers.DigitChar(h % 10)]; }
    }
    if m == 0 {
      assert JsNumbers.NatToString(m) == "0";
    } else {
      assert JsNumbers.NatToString(m) == JsNumbers.NatToString(3) + [JsNumbers.DigitChar(0)];
    }
  }

  /** JavaScript's `%`: the remainder takes the sign of the dividend. */
  function JsRemainder(a: int, b: int): (r: int)
    requires b > 0
    ensures -b < r < b && (a >= 0 ==> r >= 0) && (a <= 0 ==> r <= 0)
    ensures a >= 0 ==> r == a % b
  {
    if a >= 0 then a % b else -((-a) % b)
  }

  /** The hours and minutes `calculateDuration` prints, from the minutes of the
      two times (`None` for `NaN`): `Math.floor(d / 60)` and `d % 60` of the signed
      difference `d`; `None` when a time is `NaN`. */
  function DurationParts(start: Option<int>, end: Option<int>): (r: Option<(int, int)>)
    ensures r.Some? <==> start.Some? && end.Some?
    ensures r.Some? ==>
              var d := end.value - start.value;
              60 * r.value.0 <= d < 60 * r.value.0 + 60 &&
              (d >= 0 ==> 60 * r.value.0 + r.value.1 == d && 0 <= r.value.1 < 60) &&
              (d < 0 ==> r.value.0 < 0 && r.value.1 <= 0)
  {
    if start.Some? && end.Some? then
      var d := end.value - start.value;
      Some((d / 60, JsRemainder(d, 60)))
    else None
  }

  /** `calculateDuration`: "<hours>h " followed by "<minutes>m" only when the
      minutes are positive; `NaN` prints as "NaNh ". With `d` the difference in
      minutes, the label is `DurationText(d)`. */
  function CalculateDuration(startTime: string, endTime: string): (shown: string)
    ensures ToMinutes(startTime).None? || ToMinutes(endTime).None? ==> shown == "NaNh "
    ensures ToMinutes(startTime).Some? && ToMinutes(endTime).Some? ==>
              shown == DurationText(ToMinutes(endTime).value - ToMinutes(startTime).value)
  {
    var start, end := ToMinutes(startTime), ToMinutes(endTime);
    var parts := DurationParts(start, end);
    if parts.None? then "NaNh "
    else
      PartsLabel(start, end);
      DurationLabel(parts.value.0, parts.value.1)
  }

  /** Printing the parts gives the label of the difference. */
  lemma PartsLabel(start: Option<int>, end: Option<int>)
    requires start.Some? && end.Some?
    ensures DurationLabel(DurationParts(start, end).value.0, DurationParts(start, end).value.1) ==
            DurationText(end.value - start.value)
  {
    var p := DurationParts(start, end).value;
    DurationLabelOf(end.value - start.value, p.0, p.1);
  }

  /** The label for a difference of `d` minutes, as a reader of the card expects
      it: for `d >= 0` the whole hours and, when there are any, the remaining
      minutes; for `d < 0` only the hours, rounded away from zero, with a minus. */
  function DurationText(d: int): string
  {
    if d >= 0 then
      JsNumbers.NatToString(d / 60) + "h " + (if d % 60 > 0 then JsNumbers.NatToString(d % 60) + "m" else "")
    else "-" + JsNumbers.NatToString((59 - d) / 60) + "h "
  }

  /** The template literal of `calculateDuration`. */
  function DurationLabel(h: int, m: int): string
  {
    JsNumbers.IntToString(h) + "h " + (if m > 0 then JsNumbers.IntToString(m) + "m" else "")
  }

  /** The label of the parts of a difference of `d` minutes. */
  lemma DurationLabelOf(d: int, h: int, m: int)
    requires 60 * h <= d < 60 * h + 60
    requires d >= 0 ==> 60 * h + m == d && 0 <= m < 60
    requires d < 0 ==> h < 0 && m <= 0
    ensures DurationLabel(h, m) == DurationText(d)
  {
    if d >= 0 {
      DivideBySixty(d, h);
    } else {
      DivideBySixty(59 - d, -h);
    }
  }

  /** Division by 60 of a number known to lie in `[60q, 60q + 60)`. */
  lemma DivideBySixty(x: int, q: int)
    requires 60 * q <= x < 60 * q + 60
    ensures x / 60 == q && x % 60 == x - 60 * q
  {
  }

  /** An hour and a half shows both parts. */
  lemma DurationTextPositive()
    ensures DurationText(90) == "1h 30m"
  {
    assert JsNumbers.NatToString(1) == "1";
    assert JsNumbers.NatToString(30) == JsNumbers.NatToString(3) + [JsNumbers.DigitChar(0)];
  }

  /** An hour and a half the other way round: the hours round down to -2 and the
      negative minutes are not shown. */
  lemma DurationTextNegative()
    ensures DurationText(-90) == "-2h "
  {
    assert JsNumbers.NatToString(2) == "2";
  }

  /** The card of a range from 09:00 to 10:30. */
  lemma DurationExample()
    ensures CalculateDuration("09:00", "10:30") == "1h 30m"
    ensures CalculateDuration("10:30", "09:00") == "-2h "
  {
    ClockLiteral('0', '9', '0', '0', 540);
    ClockLiteral('1', '0', '3', '0', 630);
    DurationTextPositive();
    DurationTextNegative();
  }

  /** `ensureSeconds`: appends ":00" to a string with exactly two `:` pieces. */
  function EnsureSeconds(t: string): (r: string)
    ensures |JsText.Split(t, ':')| == 2 <==> r == t + ":00"
    ensures |JsText.Split(t, ':')| != 2 <==> r == t
  {
    if |JsText.Split(t, ':')| == 2 then t + ":00" else t
  }

  /** Applying `ensureSeconds` twice is applying it once: the result of the first
      application has three pieces or is left as it was. */
  lemma EnsureSecondsIdempotent(t: string)
    ensures EnsureSeconds(EnsureSeconds(t)) == EnsureSeconds(t)
  {
    if |JsText.Split(t, ':')| == 2 {
      var u := t + ":00";
      assert multiset(u)[':'] == multiset(t)[':'] + 1;
      assert |JsText.Split(u, ':')| == 3;
    }
  }

  /** A time picked from the option list has two pieces, so the payload sends it
      with ":00" appended. */
  lemma ClockGetsSeconds(h: nat, m: nat)
    ensures EnsureSeconds(FormatClock(h, m)) == FormatClock(h, m) + ":00"
  {
    PaddedPiece(h);
    PaddedPiece(m);
    SplitAtColon(JsText.PadStart(JsNumbers.NatToString(h), 2, '0'), JsText.PadStart(JsNumbers.NatToString(m), 2, '0'));
  }

  /** The range every new schedule starts with and `addTimeRange` appends. */
  function DefaultRange(id: string): TimeRange
  {
    TimeRange(id, "09:00", "17:00")
  }

  /** The default range runs from minute 540 to minute 1020, so it is well ordered. */
  lemma DefaultRangeMinutes(id: string)
    ensures ToMinutes(DefaultRange(id).startTime) == Some(540) && ToMinutes(DefaultRange(id).endTime) == Some(1020)
    ensures !EndsNotAfterStart(DefaultRange(id))
  {
    ClockLiteral('0', '9', '0', '0', 540);
    ClockLiteral('1', '7', '0', '0', 1020);
  }

  /** A list of one well-ordered range has no inverted range. */
  lemma SingleRangeOrdered(r: TimeRange)
    requires !EndsNotAfterStart(r)
    ensures !HasInvertedRange([r])
  {
  }

  /** `createNewEmptySchedule` (`freshId` stands for `Date.now().toString()`, used
      for the schedule and for its range): a clean draft with one default range. */
  function EmptySchedule(freshId: string): (s: ScheduleDraft)
    ensures s.id == freshId && s.backendId.None? && s.eventId == "" && !s.isDirty && !s.isAssigned
    ensures s.timeRanges == [DefaultRange(freshId)]
  {
    ScheduleDraft(freshId, None, "", [DefaultRange(freshId)], false, false)
  }

  /** The only validation error of an empty schedule is the missing event. */
  lemma EmptyScheduleValidation(freshId: string)
    ensures ValidateSchedule(EmptySchedule(freshId)) == map[EventIdField := SelectEventMessage]
  {
    DefaultRangeMinutes(freshId);
    SingleRangeOrdered(DefaultRange(freshId));
  }

  /** Appending a well-ordered range does not change whether a list has an inverted range. */
  lemma AppendOrdered(ranges: seq<TimeRange>, r: TimeRange)
    requires !EndsNotAfterStart(r)
    ensures HasInvertedRange(ranges + [r]) == HasInvertedRange(ranges)
  {
    var t := ranges + [r];
    assert forall k :: 0 <= k < |ranges| ==> t[k] == ranges[k];
  }

  /** `addTimeRange` on one schedule: one default range appended, marked dirty. */
  function WithRangeAdded(s: ScheduleDraft, freshId: string): (r: ScheduleDraft)
    ensures r.timeRanges == s.timeRanges + [DefaultRange(freshId)]
    ensures r == s.(timeRanges := r.timeRanges, isDirty := true)
  {
    s.(timeRanges := s.timeRanges + [DefaultRange(freshId)], isDirty := true)
  }

  /** The default range is well ordered, so adding it leaves the validation result
      as it was. */
  lemma WithRangeAddedValidation(s: ScheduleDraft, freshId: string)
    ensures ValidateSchedule(WithRangeAdded(s, freshId)) == ValidateSchedule(s)
  {
    DefaultRangeMinutes(freshId);
    AddOrderedValidation(s, DefaultRange(freshId));
  }

  /** Appending any well-ordered range to a schedule keeps its validation result. */
  lemma AddOrderedValidation(s: ScheduleDraft, d: TimeRange)
    requires !EndsNotAfterStart(d)
    ensures ValidateSchedule(s.(timeRanges := s.timeRanges + [d], isDirty := true)) == ValidateSchedule(s)
  {
    AppendOrdered(s.timeRanges, d);
  }

  /** `removeTimeRange` on one schedule: a single range is kept, otherwise every
      range with the id is filtered out; the schedule is marked dirty either way. */
  function WithRangeRemoved(s: ScheduleDraft, rangeId: string): (r: ScheduleDraft)
    ensures r == s.(timeRanges := r.timeRanges, isDirty := true)
    ensures |s.timeRanges| <= 1 ==> r.timeRanges == s.timeRanges
    ensures |s.timeRanges| > 1 ==>
              (forall x :: x in r.timeRanges ==> x in s.timeRanges && x.id != rangeId) &&
              (forall x :: x in s.timeRanges && x.id != rangeId ==> x in r.timeRanges)
  {
    s.(timeRanges := if |s.timeRanges| > 1 then Lists.Without(s.timeRanges, rangeId, RangeId) else s.timeRanges,
       isDirty := true)
  }

  /** With pairwise distinct range ids, removal never leaves a schedule without a range. */
  lemma WithRangeRemovedKeepsOne(s: ScheduleDraft, rangeId: string)
    requires |s.timeRanges| >= 1
    requires forall i, j :: 0 <= i < j < |s.timeRanges| ==> s.timeRanges[i].id != s.timeRanges[j].id
    ensures |WithRangeRemoved(s, rangeId).timeRanges| >= 1
  {
    Lists.WithoutDistinct(s.timeRanges, rangeId, RangeId);
  }

  /** The guard counts ranges, not ids: two ranges sharing an id are both removed,
      leaving the schedule with none. */
  lemma WithRangeRemovedSharedId(s: ScheduleDraft, x: TimeRange, y: TimeRange)
    requires s.timeRanges == [x, y] && x.id == y.id
    ensures WithRangeRemoved(s, x.id).timeRanges == []
  {
  }

  function WithField(r: TimeRange, field: RangeField, value: string): TimeRange
  {
    match field
    case StartTime => r.(startTime := value)
    case EndTime => r.(endTime := value)
  }

  /** `handleTimeRangeChange` on one schedule: the named field of the ranges with
      the id is set, every other range and field is kept, the schedule is dirty. */
  function WithRangeChanged(s: ScheduleDraft, rangeId: string, field: RangeField, value: string): (r: ScheduleDraft)
    ensures r == s.(timeRanges := r.timeRanges, isDirty := true)
    ensures |r.timeRanges| == |s.timeRanges|
    ensures forall k :: 0 <= k < |s.timeRanges| ==>
              r.timeRanges[k] == if s.timeRanges[k].id == rangeId then WithField(s.timeRanges[k], field, value) else s.timeRanges[k]
  {
    s.(timeRanges := Lists.ReplaceWhere(s.timeRanges, rangeId, RangeId, (x: TimeRange) => WithField(x, field, value)),
       isDirty := true)
  }

  /** A range ending where it starts is flagged; one minute later it is not. */
  lemma EqualEndsFlagged(id: string)
    ensures EndsNotAfterStart(TimeRange(id, "09:00", "09:00"))
    ensures !EndsNotAfterStart(TimeRange(id, "09:00", "09:01"))
  {
    ClockLiteral('0', '9', '0', '0', 540);
    ClockLiteral('0', '9', '0', '1', 541);
  }
}
