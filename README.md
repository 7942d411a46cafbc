# miseventos-frontend forms, modelled in Dafny

miseventos-frontend is the React front end of an event-management site.

- **Administrators** keep lists of events, schedules (time slots), sessions, speakers, speaker assignments and users. Each list is edited locally, record by record, and pushed to a REST backend.
- **Visitors** browse a paged list of events, register for sessions, fill in a speaker profile or sign up.

This project models the deterministic logic of those screens once rendering and networking are stripped away:

- the per-record **validators**, with their exact Spanish messages;
- the **record lists**, where each record carries an optional `backendId` (an unset one marks a local draft) and an `isDirty` flag. The model covers add, remove, field change, and the local effect of create, update and delete;
- the **time-range helpers**: minutes of "HH:MM", the duration label, the 30-minute option list, and the `ensureSeconds` normaliser;
- **duplicate-pair detection** for speaker assignments;
- the **session-registration map** of the event listing;
- the **role screen's upsert**;
- the sign-up form's **submit sequence**;
- the **pagination control**.

Each component is one module.

| Kind | Component | Model |
|---|---|---|
| Stateful screens | `admin/ScheduleForm`, `ScheduleForm`, `admin/SessionForm`, `SessionForm`, `admin/SpeakerForm`, `SpeakerForm`, `admin/CreatedEvent`, `CreatedEvent`, `admin/AssignmentForm`, `home/EventDiscovery`, `admin/Roles`, `register/UserRegistrationForm` | a `class` whose fields are its React state. Each handler is a method with a `modifies` frame on the fields it sets. |
| Stateless control | `common/Pagination` | functions and predicates |

Logic several components duplicate is written once, in shared modules:

- `TimeRanges`: schedule validation, minutes, duration, option list and `ensureSeconds`;
- `SpeakerRules`: the speaker validation;
- `EmailPattern`: the e-mail regular expression;
- `EventRules`: the event status and date comparisons;
- `JsText` and `JsNumbers`: the JavaScript built-ins the forms rely on (`trim`, `split`, `join`, `padStart`, `parseInt`, `Number`, `String`);
- `Lists`: the id-keyed `filter`, `map` and `find` every list form uses, and the error dictionary a validation pass builds.

## How external effects are modelled

- **Backend calls** are outside the model. Their outcome is a parameter: `threw: bool`, a `Reply` datatype (an answer with its `success` flag or id, or a thrown call) or an optional id. A method returns what it would have sent, as an `Option`; `None` means no call was made.
- **`Date.now()`** becomes a `freshId` or `stamp` string parameter.
- **`new Date()`** becomes `now: int`.
- **`new Date(text)`** becomes a function parameter `parseDate: string -> Option<int>`. `None` is an Invalid Date, and every comparison with it is false, as with `NaN`.
- **`window.confirm`** becomes a `confirmed` parameter.
- **`parseInt`** gives `Option<int>`, where `None` is `NaN`. Every comparison with `NaN` is false, so a capacity such as "abc" passes the `<= 0` and `> 1000` tests. `AdminSessionForm.NonNumericCapacityPasses` shows this.
- **`trim`** and the `\s` of the e-mail pattern use the full ECMAScript white-space and line-terminator set, not only ASCII.
- **Per-record error objects** are maps from field to message. Where the source sets a field to `undefined`, the model removes the key. The source only ever tests those fields for truthiness, so the two agree.

## Where the intended lifecycle and the code differ

The lifecycle the project describes for its records does not always match the code. The model follows the code.

- **Create without a returned id.** Sessions, speakers and events do not use any id returned by create. Their `backendId` is always a client-made placeholder: "backend-session-", "backend-speaker-" or "backend-" followed by the time stamp. Both schedule forms do use the answered id, each with its own fallback: the list schedule form falls back to "backend-schedule-" followed by the time stamp (`ScheduleForm.ScheduleList.CreateSchedule`), and the admin schedule editor to the event id (`AdminScheduleForm.ScheduleEditor.HandleCreateSchedule`).
- **Admin event create.** It does not wait for `sendEvents`, so the event becomes clean and gets its placeholder id whatever the backend does (`AdminEventForm.EventList.CreateEvent`).
- **Admin session update.** It clears `isDirty` before making any call (`AdminSessionForm.SessionList.UpdateSession`).
- **Admin session delete.** The service is called with the local id, drafts included. A *thrown* call still bumps the reload counter and removes the session locally (`AdminSessionForm.SessionList.DeleteSession`).
- **Admin speaker delete and update.** A successful delete or update does not remove or change anything locally. It only bumps the `reloadSpeakers` counter that triggers a refetch (`AdminSpeakerForm.SpeakerList.DeleteSpeaker`, `UpdateSpeaker`).
- **List schedule form.** `deleteSchedule` and `updateSchedule` make no backend call. `deleteSchedule` always goes through `removeSchedule`, so the last schedule is never deleted.
- **Session registration.** The map is *not* updated before the call. It is updated after a successful answer, and restored from the entry snapshot only when the call throws (`EventDiscovery.Discovery.HandleAttendance`). With the single call modelled, the restore leaves the map as it was on entry.
- **Event start dates.** The admin event form tests the start date twice. The second test, meant to accept an unchanged start date of a stored event, can only repeat the first test's message and never lifts it. So a stored event whose start has passed is always refused, and the loaded dates play no part (`AdminEventForm.StartError`, `AdminEventForm.OriginalDatesIgnored`).
- **Remove with duplicate ids.** Every `remove*` guard counts records, but the filter removes *all* records with the id. With duplicate ids a list can therefore become empty. The lemmas state "at least one record stays" under pairwise distinct ids, and `TimeRanges.WithRangeRemovedSharedId` shows the case of ranges that share an id.

## Model

| member | source | states |
|---|---|---|
| Lists.Without | src/components/admin/SessionForm.tsx:166 | the filtered list holds exactly the old elements whose id differs, its length drops by the number of elements with the id, and it is the old list when none has it |
| Lists.WithoutCounts | src/components/admin/SessionForm.tsx:166 | every copy of an element whose id differs is kept and every copy of one with the id goes: the result is a sub-multiset of the list with those counts |
| Lists.WithoutAppend | src/components/admin/SessionForm.tsx:166 | filtering keeps the order: the filter of a concatenation is the concatenation of the filters |
| Lists.ReplaceWhere | src/components/admin/SessionForm.tsx:178-182 | the length is kept; each element with the id is replaced by its updated form and every other element stays at its position |
| Lists.FindIndex | src/components/admin/SessionForm.tsx:241 | nothing is found exactly when no element has the id; otherwise the position is the first one holding it |
| Lists.WithoutDistinct | src/components/admin/SessionForm.tsx:165-166 | with pairwise distinct ids at most one element carries the id, so filtering removes at most one element |
| Lists.ErrorsByKey | src/components/SessionForm.tsx:119-155 | an id is a key of the dictionary exactly when some element with that id has errors, and no entry is empty |
| Lists.ErrorsByDistinctKey | src/components/SessionForm.tsx:152-154 | with distinct ids, an element with errors has exactly its own error record filed under its id |
| Lists.ErrorsByKeyStep | src/components/SessionForm.tsx:152-154 | one more element extends the dictionary by that element's errors, under its id, when it has any |
| Lists.ErrorsByKeyEmpty | src/components/SessionForm.tsx:157-158 | the dictionary is empty exactly when no element has an error |
| JsText.Trim | src/components/admin/SpeakerForm.tsx:113 | the trimmed text is no longer than the input, is empty exactly when the input is all white space, and otherwise neither starts nor ends with white space |
| JsText.TrimIsInfix | src/components/admin/SpeakerForm.tsx:113 | the trimmed text is a piece `s[a..b]` of the input with only white space before `a` and from `b` on |
| JsText.TrimOfTrimmed | src/components/admin/SpeakerForm.tsx:154-156 | a text without surrounding white space is its own trim |
| JsText.TrimIdempotent | src/components/admin/SpeakerForm.tsx:154-156 | trimming twice is trimming once |
| JsText.Split | src/components/admin/ScheduleForm.tsx:52 | there is one more piece than separators, and no piece holds the separator |
| JsText.JoinSplit | src/components/home/EventDiscovery.tsx:65 | joining the pieces of a split with the separator gives the text back |
| JsText.SplitJoin | src/components/admin/ScheduleForm.tsx:54 | splitting a join of separator-free pieces gives the pieces back |
| JsText.SplitAtFirst | src/components/admin/ScheduleForm.tsx:121 | a separator-free head before the first separator is the first piece, and the rest splits on its own |
| JsText.Take | src/components/home/EventDiscovery.tsx:65 | the result is the first min(n, number of pieces) pieces, in order |
| JsText.PadStart | src/components/admin/ScheduleForm.tsx:54 | the result is as long as the width or the text, whichever is longer, and everything before the text is the fill character |
| JsText.PadStartKeepsOut | src/components/admin/ScheduleForm.tsx:54 | padding adds no character other than the fill character |
| JsText.PadStartOfLong | src/components/admin/ScheduleForm.tsx:54 | a text already as long as the width is left unchanged |
| JsNumbers.ParseInt | src/components/admin/SessionForm.tsx:225 | a blank text reads as `NaN` |
| JsNumbers.ParseIntOfIntToString | src/components/admin/SessionForm.tsx:141 | `parseInt(String(i)) == i` for every integer, positive, zero or negative |
| JsNumbers.NatToString | src/components/ScheduleForm.tsx:67 | `String(n)` is a non-empty run of decimal digits whose value is n, with no leading zero except for 0 itself |
| JsNumbers.IntToString | src/components/ScheduleForm.tsx:200 | `String(i)` starts with '-' exactly when i is negative |
| JsNumbers.ToNumber | src/components/ScheduleForm.tsx:195 | `Number` of a blank text is 0 |
| JsNumbers.ToNumberOfDigits | src/components/ScheduleForm.tsx:195 | `Number` of a non-empty digit string is its decimal value |
| JsNumbers.ToNumberOfPadded | src/components/ScheduleForm.tsx:67 | `Number` reads a zero-padded `String(n)` back as n |
| EmailPattern.ValidEmailHasShape | src/components/admin/SpeakerForm.tsx:103-106 | a text the pattern accepts has no white space, exactly one '@' with text before it, and after it a '.' that is neither its first nor its last character |
| EmailPattern.ShapeIsValidEmail | src/components/admin/SpeakerForm.tsx:103-106 | conversely, every text of that shape is accepted |
| EmailPattern.EmailPatternShape | src/components/admin/SpeakerForm.tsx:103-106 | the pattern accepts a text if and only if it has that shape |
| EmailPattern.IsValidEmail | src/components/admin/SpeakerForm.tsx:103-106 | definition; no ensures of its own: the literal reading of `/^[^\s@]+@[^\s@]+\.[^\s@]+$/`, a plain run, "@", a plain run, ".", a plain run; pinned by EmailPatternShape, ValidEmailHasShape and ShapeIsValidEmail |
| TimeRanges.HasInvertedRange | src/components/ScheduleForm.tsx:213-219 | true exactly when some range's end minutes are at or before its start minutes (unreadable times never count) |
| TimeRanges.ValidateSchedule | src/components/ScheduleForm.tsx:204-226 | the event error is present exactly when the trimmed event id is empty, the single ranges error exactly when some range ends at or before its start, each with its message |
| TimeRanges.SplitAtColon | src/components/ScheduleForm.tsx:195 | "a:b" of colon-free pieces splits into exactly those two pieces |
| TimeRanges.PaddedPiece | src/components/ScheduleForm.tsx:67 | a number padded to two digits has no colon and reads back as the number |
| TimeRanges.ToMinutesOfClock | src/components/ScheduleForm.tsx:213-217 | a clock written from hour h and minute m reads back as 60h + m minutes |
| TimeRanges.ToMinutes | src/components/ScheduleForm.tsx:213-217 | definition; no ensures of its own: `split(':').map(Number)` then 60·hours + minutes, NaN as None; pinned by ToMinutesOfClock and ClockLiteral |
| TimeRanges.FormatClock | src/components/ScheduleForm.tsx:67 | definition; no ensures of its own: the two `padStart(2, '0')` numbers joined by ":"; pinned by ToMinutesOfClock, TimeOptionValue and HalfHourLabel |
| TimeRanges.ClockLiteral | src/components/ScheduleForm.tsx:141-142 | a literal "HH:MM" of four digits reads as its minutes past midnight |
| TimeRanges.TimeOptionAt | src/components/ScheduleForm.tsx:65-68 | the option pushed for an hour and a half hour sits at position 2·hour + minute/30 |
| TimeRanges.TimeOptionValue | src/components/ScheduleForm.tsx:63-72 | option k of the 48 is 30k minutes past midnight, five characters long, ending in 00 or 30 |
| TimeRanges.GenerateTimeOptions | src/components/ScheduleForm.tsx:63-72 | the nested loops produce 48 options; option k reads as 30k minutes, so the list strictly increases, and each ends in "00" for even k and "30" for odd k |
| TimeRanges.HalfHourLabel | src/components/ScheduleForm.tsx:67 | an hour below 24 with minute 0 or 30 prints as five characters ending in the minute |
| TimeRanges.JsRemainder | src/components/ScheduleForm.tsx:199 | JavaScript's `%`: smaller in magnitude than the divisor, with the sign of the dividend, and Dafny's remainder for a non-negative dividend |
| TimeRanges.DurationParts | src/components/ScheduleForm.tsx:194-199 | over the minutes of the two times, defined exactly when both are numbers rather than NaN; the hours are the floor of the difference over 60; for an end not before the start, 60·hours + minutes is the difference and minutes is in 0..59; for an end before the start both parts are non-positive and hours negative |
| TimeRanges.CalculateDuration | src/components/ScheduleForm.tsx:194-201 | "NaNh " for an unreadable time; otherwise the label `DurationText` gives for the difference `d` in minutes: for `d >= 0` the decimal whole hours of `d`, "h ", and its remaining minutes with "m" only when there are any; for `d < 0` a minus sign, the hours rounded away from zero and "h ", with no minutes |
| TimeRanges.DurationText | src/components/ScheduleForm.tsx:194-201 | definition; no ensures of its own: the reference label over a minute difference that CalculateDuration is proved against; pinned by DurationLabelOf, DurationTextPositive and DurationTextNegative |
| TimeRanges.DurationLabelOf | src/components/ScheduleForm.tsx:198-200 | the template literal over floor hours and the truncating remainder of `d` is the label `DurationText(d)` |
| TimeRanges.DurationTextPositive | src/components/ScheduleForm.tsx:194-201 | ninety minutes show as "1h 30m" |
| TimeRanges.DurationTextNegative | src/components/ScheduleForm.tsx:194-201 | minus ninety minutes show as "-2h " |
| TimeRanges.DurationExample | src/components/ScheduleForm.tsx:194-201 | 09:00 to 10:30 shows "1h 30m", and 10:30 to 09:00 shows "-2h " |
| TimeRanges.EnsureSeconds | src/components/admin/ScheduleForm.tsx:238-241 | ":00" is appended exactly when the text has two colon-separated pieces; otherwise the text is returned unchanged |
| TimeRanges.EnsureSecondsIdempotent | src/components/admin/ScheduleForm.tsx:238-241 | applying `ensureSeconds` twice gives the same as once |
| TimeRanges.ClockGetsSeconds | src/components/admin/ScheduleForm.tsx:245-249 | a time from the option list is sent with ":00" appended |
| TimeRanges.DefaultRangeMinutes | src/components/ScheduleForm.tsx:139-143 | the default 09:00-17:00 range runs from minute 540 to 1020 and is well ordered |
| TimeRanges.SingleRangeOrdered | src/components/ScheduleForm.tsx:213-219 | a list of one well-ordered range has no inverted range |
| TimeRanges.EmptySchedule | src/components/ScheduleForm.tsx:77-91 | a new schedule has one default range, an empty event id, no backend id, and is neither assigned nor dirty |
| TimeRanges.EmptyScheduleValidation | src/components/ScheduleForm.tsx:77-91 | the only error of a new schedule is the missing event |
| TimeRanges.AppendOrdered | src/components/ScheduleForm.tsx:213-219 | appending a well-ordered range does not change whether a list has an inverted range |
| TimeRanges.WithRangeAdded | src/components/ScheduleForm.tsx:145-153 | one default range is appended, the schedule is dirty, nothing else changes |
| TimeRanges.WithRangeAddedValidation | src/components/ScheduleForm.tsx:138-154 | adding the default range leaves the validation result as it was |
| TimeRanges.AddOrderedValidation | src/components/ScheduleForm.tsx:138-154 | appending any well-ordered range leaves the validation result as it was |
| TimeRanges.WithRangeRemoved | src/components/ScheduleForm.tsx:157-169 | a single range is kept; otherwise the result holds exactly the old ranges with another id; dirty either way, nothing else changes |
| TimeRanges.WithRangeRemovedKeepsOne | src/components/ScheduleForm.tsx:162-164 | with distinct range ids a schedule never loses its last range |
| TimeRanges.WithRangeRemovedSharedId | src/components/ScheduleForm.tsx:162-164 | two ranges sharing an id are both removed, leaving none |
| TimeRanges.WithRangeChanged | src/components/ScheduleForm.tsx:172-191 | only the named field of the ranges with the id changes, positions and all other ranges are kept, the schedule becomes dirty |
| TimeRanges.EqualEndsFlagged | src/components/ScheduleForm.tsx:213-219 | a range ending where it starts is flagged; one ending a minute later is not |
| AdminScheduleForm.LoaderFormatTime | src/components/admin/ScheduleForm.tsx:50-55 | "09:00" for an empty text or one with fewer than two pieces; otherwise the first two pieces padded to two characters, seconds dropped; the result always has two pieces of at least two characters |
| AdminScheduleForm.SelectFormatTime | src/components/admin/ScheduleForm.tsx:119-123 | the selection formatter throws exactly for a non-empty text without a colon |
| AdminScheduleForm.SelectAgreesWithLoader | src/components/admin/ScheduleForm.tsx:119-123 | wherever the selection formatter returns, it agrees with the loader's |
| AdminScheduleForm.ShapedIsFixed | src/components/admin/ScheduleForm.tsx:119-123 | a time already in the loaded shape is kept unchanged by both formatters |
| AdminScheduleForm.LoaderFormatIdempotent | src/components/admin/ScheduleForm.tsx:50-64 | formatting a loaded time again changes nothing, and the selection formatter never throws on it |
| AdminScheduleForm.LoadedTimeGetsSeconds | src/components/admin/ScheduleForm.tsx:238-241 | a loaded time reaches the backend with ":00" appended |
| AdminScheduleForm.FormatSlots | src/components/admin/ScheduleForm.tsx:60-64 | the slots keep their order and ids, their times go through the loader's formatter, and all of them end up normalised |
| AdminScheduleForm.LoadEvent | src/components/admin/ScheduleForm.tsx:57-66 | an event keeps id and title, a missing slot list reads as empty, every slot is normalised |
| AdminScheduleForm.SlotsOf | src/components/admin/ScheduleForm.tsx:116 | no slots for an unknown event, otherwise the slots of the first event with that id |
| AdminScheduleForm.SelectRanges | src/components/admin/ScheduleForm.tsx:129-134 | fails exactly when some slot time would throw; otherwise one range per slot, ids kept, times formatted |
| AdminScheduleForm.SelectNormalized | src/components/admin/ScheduleForm.tsx:126-135 | selecting an event whose slots were loaded keeps exactly those slots |
| AdminScheduleForm.SlotsPayload | src/components/admin/ScheduleForm.tsx:245-249 | one slot per range, in order, with its id and both times through `ensureSeconds` |
| AdminScheduleForm.PayloadOf | src/components/admin/ScheduleForm.tsx:243-251 | the payload carries the event id, the assigned flag and the normalised slots |
| AdminScheduleForm.ClockRangePayload | src/components/admin/ScheduleForm.tsx:245-249 | a range of option-list times is sent as "HH:MM:00" with its id |
| AdminScheduleForm.NormalizedSlotsOf | src/components/admin/ScheduleForm.tsx:116 | the slots found among normalised events are normalised |
| AdminScheduleForm.ScheduleEditor.constructor | src/components/admin/ScheduleForm.tsx:40-42 | a fresh empty schedule, no errors, no events |
| AdminScheduleForm.ScheduleEditor.LoadEvents | src/components/admin/ScheduleForm.tsx:57-68 | the events are the answer mapped one by one, and every slot of every event is normalised |
| AdminScheduleForm.ScheduleEditor.HandleEventChange | src/components/admin/ScheduleForm.tsx:108-147 | "" resets to an empty schedule without errors; an event with slots gives those slots, its id as backend id and assigned; one without gives the default range, no backend id, not assigned; clean and errors cleared; a formatting throw happens exactly for an unformattable slot, changes nothing, and never happens for loaded events |
| AdminScheduleForm.ScheduleEditor.HandleCheckboxChange | src/components/admin/ScheduleForm.tsx:150-152 | the assigned flag is set and the schedule becomes dirty |
| AdminScheduleForm.ScheduleEditor.AddTimeRange | src/components/admin/ScheduleForm.tsx:154-166 | one default range appended, dirty, and the validation result unchanged |
| AdminScheduleForm.ScheduleEditor.RemoveTimeRange | src/components/admin/ScheduleForm.tsx:168-176 | the schedule becomes its range-removed form |
| AdminScheduleForm.ScheduleEditor.HandleTimeRangeChange | src/components/admin/ScheduleForm.tsx:178-192 | the schedule becomes its range-changed form |
| AdminScheduleForm.ScheduleEditor.HandleCreateSchedule | src/components/admin/ScheduleForm.tsx:228-263 | an invalid schedule records its errors and sends nothing; a valid one sends its payload; an answer sets the returned id, else the event id, as backend id and cleans it; a thrown call changes nothing |
| AdminScheduleForm.ScheduleEditor.HandleUpdateSchedule | src/components/admin/ScheduleForm.tsx:267-305 | without backend id nothing changes or is sent; an invalid schedule records its errors; a valid one sends its payload and is clean unless the call throws |
| AdminScheduleForm.ScheduleEditor.HandleDeleteSlot | src/components/admin/ScheduleForm.tsx:308-322 | the backend is called exactly for ids containing '-'; the range is kept when that call throws and removed otherwise |
| AdminScheduleForm.ScheduleEditor.ClearForm | src/components/admin/ScheduleForm.tsx:325-328 | a fresh empty schedule and no errors |
| ScheduleForm.Find | src/components/ScheduleForm.tsx:230 | nothing found exactly when no schedule has the id; otherwise the first schedule with it |
| ScheduleForm.SlotsPayload | src/components/ScheduleForm.tsx:243-246 | the two times of every range, in order, without ids or seconds |
| ScheduleForm.PayloadOf | src/components/ScheduleForm.tsx:241-248 | the payload carries event id, assigned flag and the times of the ranges |
| ScheduleForm.ScheduleList.constructor | src/components/ScheduleForm.tsx:33-60 | the two stored schedules and no errors |
| ScheduleForm.ScheduleList.AddNewSchedule | src/components/ScheduleForm.tsx:94-97 | one empty schedule appended; a fresh id keeps the ids distinct |
| ScheduleForm.ScheduleList.RemoveSchedule | src/components/ScheduleForm.tsx:100-110 | a one-element list is unchanged; otherwise every schedule with the id and its error record go; with distinct ids at least one schedule stays |
| ScheduleForm.ScheduleList.HandleEventChange | src/components/ScheduleForm.tsx:113-126 | only the schedules with the id get the event and become dirty; only their pending event error is cleared |
| ScheduleForm.ScheduleList.HandleCheckboxChange | src/components/ScheduleForm.tsx:129-135 | only the schedules with the id get the flag and become dirty |
| ScheduleForm.ScheduleList.AddTimeRange | src/components/ScheduleForm.tsx:138-154 | only the schedules with the id get a default range appended |
| ScheduleForm.ScheduleList.RemoveTimeRange | src/components/ScheduleForm.tsx:157-169 | only the schedules with the id lose the range, never their last one |
| ScheduleForm.ScheduleList.HandleTimeRangeChange | src/components/ScheduleForm.tsx:172-191 | only the named field of the matching range of the matching schedule changes |
| ScheduleForm.ScheduleList.CreateSchedule | src/components/ScheduleForm.tsx:229-271 | unknown id: nothing; invalid: only its error record, nothing sent; valid: the payload is sent and, on an answer, the matching schedules get the returned id or the "backend-schedule-" placeholder and become clean; a thrown call leaves the list unchanged |
| ScheduleForm.ScheduleList.UpdateSchedule | src/components/ScheduleForm.tsx:275-308 | unknown or without backend id: nothing; invalid: only its error record; valid: only the matching schedules become clean |
| ScheduleForm.ScheduleList.DeleteSchedule | src/components/ScheduleForm.tsx:311-326 | a known schedule, draft or stored, goes through `removeSchedule` |
| ScheduleForm.ScheduleList.ClearSchedule | src/components/ScheduleForm.tsx:329-341 | the schedules with the id become a fresh empty schedule and their error record is dropped |
| AdminSessionForm.TitleError | src/components/admin/SessionForm.tsx:214-220 | no error exactly when the trimmed title has 3 to 100 characters; otherwise the required, short or long message, as the case is |
| AdminSessionForm.CapacityError | src/components/admin/SessionForm.tsx:223-229 | "required" for an empty value; otherwise an error exactly when the parsed value is at most 0 or above 1000, with its message; `NaN` passes |
| AdminSessionForm.ValidateSession | src/components/admin/SessionForm.tsx:200-237 | event and slot errors exactly when empty; title and capacity as their rules say; description error exactly when its untrimmed length exceeds 500; the speaker is never checked; each error carries its message |
| AdminSessionForm.EmptySessionErrors | src/components/admin/SessionForm.tsx:76-85 | a new session fails exactly on event, slot, title and capacity, with the "required" messages |
| AdminSessionForm.EmptySession | src/components/admin/SessionForm.tsx:76-85 | definition; no ensures of its own: `createNewEmptySession`; pinned by EmptySessionErrors and SessionList.AddNewSession |
| AdminSessionForm.TimeSlotsForSession | src/components/admin/SessionForm.tsx:88-93 | none for an empty or unknown event id; otherwise the slots of the first matching event, none when it has none |
| AdminSessionForm.ChangeKeepsOtherRules | src/components/admin/SessionForm.tsx:200-237 | changing one field leaves whether every other field has an error unchanged |
| AdminSessionForm.LoadedSessionCapacity | src/components/admin/SessionForm.tsx:135-145 | a loaded session is stored and clean, and its capacity text reads back as the stored number, so it passes exactly when between 1 and 1000 |
| AdminSessionForm.LoadedSession | src/components/admin/SessionForm.tsx:135-145 | definition; no ensures of its own: the loader mapping, id as backendId, `String(capacity)`, clean; pinned by LoadedSessionCapacity and SessionList.LoadSessions |
| AdminSessionForm.PayloadOf | src/components/admin/SessionForm.tsx:253-260 | title and description trimmed, capacity parsed, ids as given |
| AdminSessionForm.ValidPayloadTitle | src/components/admin/SessionForm.tsx:253-260 | a valid session sends a title of 3 to 100 characters with no surrounding white space |
| AdminSessionForm.Find | src/components/admin/SessionForm.tsx:241 | nothing found exactly when no session has the id; otherwise the first session with it |
| AdminSessionForm.NonNumericCapacityPasses | src/components/admin/SessionForm.tsx:223-229 | the capacity "abc" raises no error |
| AdminSessionForm.SessionList.constructor | src/components/admin/SessionForm.tsx:69-72 | the given sessions, no errors, reload counter 0 |
| AdminSessionForm.SessionList.LoadSessions | src/components/admin/SessionForm.tsx:130-154 | the list is the answer mapped one by one to stored, clean sessions |
| AdminSessionForm.SessionList.AddNewSession | src/components/admin/SessionForm.tsx:158-161 | one empty session appended |
| AdminSessionForm.SessionList.RemoveSession | src/components/admin/SessionForm.tsx:164-174 | a one-element list is unchanged; otherwise the sessions with the id and their errors go; with distinct ids one stays |
| AdminSessionForm.SessionList.HandleSessionChange | src/components/admin/SessionForm.tsx:177-197 | only the sessions with the id get the field and become dirty; the field's error is cleared only for validated fields |
| AdminSessionForm.SessionList.CreateSession | src/components/admin/SessionForm.tsx:240-278 | unknown id: nothing; invalid: only its error record, no call; valid: the payload is sent and, unless the call throws, the matching sessions get the placeholder backend id and become clean |
| AdminSessionForm.SessionList.UpdateSession | src/components/admin/SessionForm.tsx:281-319 | unknown or without backend id: nothing; invalid: only its error record; valid: only the matching sessions become clean |
| AdminSessionForm.SessionList.DeleteSession | src/components/admin/SessionForm.tsx:322-351 | the service is called exactly for a known session; `success: false` changes nothing; otherwise the reload counter is bumped and the session goes through `removeSession` |
| AdminSessionForm.SessionList.ClearSession | src/components/admin/SessionForm.tsx:354-366 | the sessions with the id become a fresh empty session and their error record is dropped |
| SessionForm.SessionErrors | src/components/SessionForm.tsx:122-150 | event and slot required; a title error exactly when the trimmed title is shorter than 3; a capacity error exactly when empty or parsed to at most 0; no upper bound, no description rule; each with its message |
| SessionForm.FieldError | src/components/SessionForm.tsx:122-150 | definition; no ensures of its own: one rule of the `forEach` body and its message; pinned by SessionErrors, which states each rule |
| SessionForm.EmptySession | src/components/SessionForm.tsx:86-94 | definition; no ensures of its own: the empty session of `initialSession` and `addNewSession`; pinned by EmptySessionErrors |
| SessionForm.EmptySessionErrors | src/components/SessionForm.tsx:86-94 | a new session fails exactly on event, slot, title and capacity, each with its "required" message |
| SessionForm.PayloadOf | src/components/SessionForm.tsx:167-173 | title trimmed, capacity parsed, and the description trimmed or null when it trims to empty |
| SessionForm.PayloadsOf | src/components/SessionForm.tsx:167-173 | one payload per session, in list order |
| SessionForm.ValidPayload | src/components/SessionForm.tsx:134-150 | a passing session sends a title of at least 3 characters and never a capacity of 0 or less |
| SessionForm.SessionList.constructor | src/components/SessionForm.tsx:43-53 | one empty session and no errors |
| SessionForm.SessionList.HandleSessionChange | src/components/SessionForm.tsx:62-82 | only the sessions with the id get the field; only that field's error of that session is cleared |
| SessionForm.SessionList.AddNewSession | src/components/SessionForm.tsx:85-96 | an all-empty session appended |
| SessionForm.SessionList.RemoveSession | src/components/SessionForm.tsx:99-112 | a one-element list is unchanged; otherwise the sessions with the id and their error record go |
| SessionForm.SessionList.ValidateForm | src/components/SessionForm.tsx:115-159 | the loop builds exactly the error dictionary (only sessions with errors), and the result is true exactly when no session has an error, that is when the dictionary is empty |
| SessionForm.SessionList.HandleSubmit | src/components/SessionForm.tsx:162-186 | the payload list is prepared exactly when validation passes |
| SessionForm.SessionList.ResetForm | src/components/SessionForm.tsx:189-192 | one empty session and no errors |
| SpeakerRules.NameError | src/components/admin/SpeakerForm.tsx:113-117 | no error exactly when the trimmed name has at least 2 characters; "required" when it trims to empty, "too short" for one character |
| SpeakerRules.EmailError | src/components/admin/SpeakerForm.tsx:120-124 | no error exactly when the trimmed e-mail is non-empty and the untrimmed one matches the pattern; "required" or "invalid" otherwise |
| SpeakerRules.BioError | src/components/admin/SpeakerForm.tsx:127-133 | no error exactly when the trimmed biography has 10 to 500 characters (so 9 and 501 fail, 10 and 500 pass); required, short or long message otherwise |
| SpeakerRules.ValidateSpeaker | src/components/admin/SpeakerForm.tsx:109-136 | one entry per failing field, with that rule's message, and none for a passing field |
| SpeakerRules.Trimmed | src/components/admin/SpeakerForm.tsx:153-157 | each sent text is the typed one without its surrounding white space: empty exactly when the typed text is all white space, otherwise bounded by non-space characters, and a piece of the typed text with only white space outside it |
| SpeakerRules.TrimmedIdempotent | src/components/admin/SpeakerForm.tsx:153-157 | trimming the sent texts again changes nothing |
| SpeakerRules.ValidEmailIsTrimmed | src/components/admin/SpeakerForm.tsx:103-106 | an e-mail the pattern accepts is its own trim |
| SpeakerRules.ValidSpeakerPayload | src/components/admin/SpeakerForm.tsx:143-157 | a passing speaker sends a name of at least 2 characters, the e-mail as typed, a biography of 10 to 500 characters, and what is sent passes the rules again |
| SpeakerRules.PaddedEmailRefused | src/components/admin/SpeakerForm.tsx:120-124 | " a@b.co" passes the required test but is refused by the pattern |
| AdminSpeakerForm.EmptySpeakerErrors | src/components/admin/SpeakerForm.tsx:53-59 | a new speaker fails every rule with its "required" message |
| AdminSpeakerForm.EmptySpeaker | src/components/admin/SpeakerForm.tsx:53-59 | definition; no ensures of its own: `createNewEmptySpeaker`; pinned by EmptySpeakerErrors and SpeakerList.AddNewSpeaker |
| AdminSpeakerForm.ChangeKeepsOtherRules | src/components/admin/SpeakerForm.tsx:109-136 | changing one field leaves the other fields' errors and messages as they were |
| AdminSpeakerForm.Find | src/components/admin/SpeakerForm.tsx:140 | nothing found exactly when no speaker has the id; otherwise the first speaker with it |
| AdminSpeakerForm.SpeakerList.constructor | src/components/admin/SpeakerForm.tsx:24-26 | no speakers, no errors, reload counter 0 |
| AdminSpeakerForm.SpeakerList.LoadSpeakers | src/components/admin/SpeakerForm.tsx:33-42 | every loaded speaker has its id as backend id and is clean |
| AdminSpeakerForm.SpeakerList.AddNewSpeaker | src/components/admin/SpeakerForm.tsx:62-65 | one empty speaker appended |
| AdminSpeakerForm.SpeakerList.RemoveSpeaker | src/components/admin/SpeakerForm.tsx:68-78 | a one-element list is unchanged; otherwise the speakers with the id and their errors go; with distinct ids one stays |
| AdminSpeakerForm.SpeakerList.HandleSpeakerChange | src/components/admin/SpeakerForm.tsx:81-100 | only the speakers with the id get the field and become dirty; only that field's error is cleared |
| AdminSpeakerForm.SpeakerList.CreateSpeaker | src/components/admin/SpeakerForm.tsx:139-177 | unknown id: nothing; invalid: only its error record, no call; valid: the trimmed texts are sent and, unless the call throws, the matching speakers get the placeholder backend id and become clean |
| AdminSpeakerForm.SpeakerList.UpdateSpeaker | src/components/admin/SpeakerForm.tsx:180-221 | unknown or without backend id: nothing; invalid: only its error record; valid: backend id and trimmed texts are sent, the list is untouched and the reload counter grows unless the call throws |
| AdminSpeakerForm.SpeakerList.DeleteSpeaker | src/components/admin/SpeakerForm.tsx:225-249 | a draft goes through `removeSpeaker` without a call; a stored speaker is deleted by its backend id, the list is untouched, and only a successful answer bumps the reload counter |
| SpeakerForm.ProfileForm.constructor | src/components/SpeakerForm.tsx:21-28 | empty texts and no errors |
| SpeakerForm.ProfileForm.HandleChange | src/components/SpeakerForm.tsx:31-45 | only the named field changes and only its error is cleared |
| SpeakerForm.ProfileForm.ValidateForm | src/components/SpeakerForm.tsx:54-82 | the errors become the speaker rules' record, and the result is true exactly when it is empty |
| SpeakerForm.ProfileForm.HandleSubmit | src/components/SpeakerForm.tsx:85-99 | a passing form prepares its three texts trimmed |
| SpeakerForm.ProfileForm.ResetForm | src/components/SpeakerForm.tsx:102-105 | empty texts and no errors |
| AdminEventForm.FirstStartError | src/components/admin/CreatedEvent.tsx:112-116 | no error exactly when a start date is given and does not come before now; "required" or "in the past" otherwise |
| AdminEventForm.StartError | src/components/admin/CreatedEvent.tsx:129-139 | after both start-date tests the entry is exactly the first test's: the changed-date test never lifts it |
| AdminEventForm.EndError | src/components/admin/CreatedEvent.tsx:118-122 | no error exactly when an end date is given and, with a start present, comes after it; "required" or "Debe ser posterior a inicio" otherwise |
| AdminEventForm.CapacityError | src/components/admin/CreatedEvent.tsx:124-128 | no error exactly when given and not parsed to 0 or less; `NaN` passes |
| AdminEventForm.ValidateEvent | src/components/admin/CreatedEvent.tsx:106-143 | title and description errors exactly when they trim to empty; start, end and capacity as their rules say; each with its message |
| AdminEventForm.OriginalDatesIgnored | src/components/admin/CreatedEvent.tsx:129-139 | the loaded original dates have no influence on validation |
| AdminEventForm.EmptyEventErrors | src/components/admin/CreatedEvent.tsx:39-50 | a new event fails all five rules with their "required" messages |
| AdminEventForm.EmptyEvent | src/components/admin/CreatedEvent.tsx:39-50 | definition; no ensures of its own: `createNewEmptyEvent`, a published draft; pinned by EmptyEventErrors and EventList.AddNewEvent |
| AdminEventForm.PayloadOf | src/components/admin/CreatedEvent.tsx:158-165 | texts and dates as typed, the capacity parsed, the status kept |
| AdminEventForm.ValidPayload | src/components/admin/CreatedEvent.tsx:149-165 | a valid event sends a positive capacity or `NaN`, an end not at or before its start, and a start not before now |
| AdminEventForm.Find | src/components/admin/CreatedEvent.tsx:146 | nothing found exactly when no event has the id; otherwise the first event with it |
| AdminEventForm.EventList.constructor | src/components/admin/CreatedEvent.tsx:7-8 | no events and no errors |
| AdminEventForm.EventList.LoadEvents | src/components/admin/CreatedEvent.tsx:10-36 | each loaded event is stored under its id, clean, with its dates also as original dates |
| AdminEventForm.LoadedEvent | src/components/admin/CreatedEvent.tsx:15-27 | definition; no ensures of its own: the loader mapping, id as backendId, the dates also as original dates, clean; pinned by EventList.LoadEvents |
| AdminEventForm.EventList.AddNewEvent | src/components/admin/CreatedEvent.tsx:52-55 | one empty published draft appended |
| AdminEventForm.EventList.RemoveEvent | src/components/admin/CreatedEvent.tsx:57-66 | a one-element list is unchanged; otherwise the events with the id and their errors go; with distinct ids one stays |
| AdminEventForm.EventList.HandleEventChange | src/components/admin/CreatedEvent.tsx:68-87 | only the events with the id get the field and become dirty; only that field's error is cleared |
| AdminEventForm.EventList.HandleStatusChange | src/components/admin/CreatedEvent.tsx:89-95 | only the events with the id get the status and become dirty |
| AdminEventForm.EventList.CreateEvent | src/components/admin/CreatedEvent.tsx:145-176 | unknown id: nothing; invalid: only its error record, no call; valid: the payload is sent and the matching events get the "backend-" placeholder and become clean whatever the backend does |
| AdminEventForm.EventList.UpdateEvent | src/components/admin/CreatedEvent.tsx:178-210 | unknown or without backend id: nothing; invalid: only its error record; valid: backend id and payload are sent and only the matching events become clean |
| AdminEventForm.EventList.DeleteEvent | src/components/admin/CreatedEvent.tsx:212-237 | a draft goes through `removeEvent` without a call; a stored event is deleted by its backend id and goes through `removeEvent` only on a successful answer; otherwise nothing changes |
| CreatedEvent.EndError | src/components/CreatedEvent.tsx:55-58 | no error exactly when an end date is given and, with a start present, comes after it; the ordering message overwrites "required" |
| CreatedEvent.FieldError | src/components/CreatedEvent.tsx:52-61 | per rule: title and description fail exactly when they are all white space, so trim to empty, the start date exactly when empty, the end date as its rule says, the capacity exactly when empty or parsed to at most 0; each failure carries its rule's message |
| CreatedEvent.FormErrors | src/components/CreatedEvent.tsx:49-65 | the error object has an entry for exactly the failing rules, each holding that rule's message |
| CreatedEvent.PayloadOf | src/components/CreatedEvent.tsx:73-80 | texts and dates as typed, capacity parsed, status kept |
| CreatedEvent.ValidPayload | src/components/CreatedEvent.tsx:52-61 | a passing form has both dates, the end not at or before the start, and a positive or `NaN` capacity |
| CreatedEvent.InitialDataErrors | src/components/CreatedEvent.tsx:27-34 | the initial form fails all five rules |
| CreatedEvent.EventForm.constructor | src/components/CreatedEvent.tsx:36-37 | the initial data, published, and no errors |
| CreatedEvent.EventForm.HandleChange | src/components/CreatedEvent.tsx:40-46 | only the named field changes |
| CreatedEvent.EventForm.HandleStatusChange | src/components/CreatedEvent.tsx:40-46 | only the status changes |
| CreatedEvent.EventForm.ValidateForm | src/components/CreatedEvent.tsx:49-65 | the errors become the form's error object, and the result is true exactly when it is empty |
| CreatedEvent.EventForm.HandleSubmit | src/components/CreatedEvent.tsx:68-84 | a passing form prepares its payload |
| CreatedEvent.EventForm.ResetForm | src/components/CreatedEvent.tsx:87-90 | the initial data, published, and no errors |
| AssignmentForm.CountPairPositive | src/components/admin/AssignmentForm.tsx:126-129 | an assignment pair is counted at least once exactly when some assignment has it |
| AssignmentForm.DuplicateIffOther | src/components/admin/AssignmentForm.tsx:126-129 | the filter finds more than one match exactly when another assignment has the same pair |
| AssignmentForm.AssignmentErrors | src/components/admin/AssignmentForm.tsx:110-135 | session and speaker errors exactly when empty; the duplicate error exactly when both are chosen and the pair occurs more than once; each with its message |
| AssignmentForm.PairFlagged | src/components/admin/AssignmentForm.tsx:126-134 | an assignment gets the duplicate error exactly when both ids are set and another assignment has the same pair |
| AssignmentForm.DuplicateGroupFlagged | src/components/admin/AssignmentForm.tsx:126-134 | every member of a repeated pair is flagged, not only the later ones |
| AssignmentForm.ValidIffUniquePairs | src/components/admin/AssignmentForm.tsx:106-143 | the list passes exactly when every pair is complete and no two assignments share a pair |
| AssignmentForm.ErrorsOfDistinct | src/components/admin/AssignmentForm.tsx:136-138 | with distinct ids an assignment appears in the dictionary exactly when it has errors, with those errors |
| AssignmentForm.PayloadsOf | src/components/admin/AssignmentForm.tsx:151-154 | one session/speaker pair per assignment, in order |
| AssignmentForm.EmptyAssignment | src/components/admin/AssignmentForm.tsx:80-84 | definition; no ensures of its own: the empty assignment of `initialAssignment` and `addNewAssignment`; pinned by EmptyAssignmentErrors |
| AssignmentForm.EmptyAssignmentErrors | src/components/admin/AssignmentForm.tsx:80-84 | a new assignment, among any others, fails on both selects with their messages and is never a duplicate |
| AssignmentForm.AssignmentList.constructor | src/components/admin/AssignmentForm.tsx:40-47 | one empty assignment and no errors |
| AssignmentForm.AssignmentList.HandleAssignmentChange | src/components/admin/AssignmentForm.tsx:56-76 | only the assignments with the id get the field; only that field's error is cleared |
| AssignmentForm.AssignmentList.AddNewAssignment | src/components/admin/AssignmentForm.tsx:79-87 | one empty assignment appended |
| AssignmentForm.AssignmentList.RemoveAssignment | src/components/admin/AssignmentForm.tsx:90-103 | a one-element list is unchanged; otherwise the assignments with the id and their error record go |
| AssignmentForm.AssignmentList.ValidateForm | src/components/admin/AssignmentForm.tsx:106-143 | the loop builds exactly the error dictionary, and the result is true exactly when no assignment has an error, that is when the dictionary is empty |
| AssignmentForm.AssignmentList.HandleSubmit | src/components/admin/AssignmentForm.tsx:146-167 | the pair list is prepared exactly when validation passes |
| AssignmentForm.AssignmentList.ResetForm | src/components/admin/AssignmentForm.tsx:170-173 | one empty assignment and no errors |
| Pagination.Pages | src/components/common/Pagination.tsx:13 | exactly the numbers 1 to the total, in order, none for a total of 0 or less |
| Pagination.ExactlyOneActive | src/components/common/Pagination.tsx:33-40 | within range exactly one button, at position page - 1, is highlighted; out of range none is |
| Pagination.ArrowsStayInRange | src/components/common/Pagination.tsx:21-65 | from a page within range an enabled arrow asks for a page within range |
| EventDiscovery.FormatTime | src/components/home/EventDiscovery.tsx:63-66 | "00:00" for no time |
| EventDiscovery.FormatTimeKeepsShort | src/components/home/EventDiscovery.tsx:63-66 | a time with at most one colon is shown as it is |
| EventDiscovery.SplitWithSeconds | src/components/home/EventDiscovery.tsx:65 | a time with a seconds part splits into its hour, its minutes and the rest |
| EventDiscovery.FormatTimeDropsSeconds | src/components/home/EventDiscovery.tsx:63-66 | seconds and anything after them are dropped |
| EventDiscovery.StoredTimeShownAsEntered | src/components/home/EventDiscovery.tsx:65 | a time stored through `ensureSeconds` is shown as it was entered |
| EventDiscovery.OrElse | src/components/home/EventDiscovery.tsx:49-50 | a present non-zero number is kept, a missing or zero one gives the fallback |
| EventDiscovery.Discovery.constructor | src/components/home/EventDiscovery.tsx:33-40 | nothing loaded, loading, no registrations, page 1 of 1 |
| EventDiscovery.Discovery.FetchEventsData | src/components/home/EventDiscovery.tsx:43-57 | a successful answer with events replaces the page, its total (1 when missing) and its number; any other answer keeps them; loading ends either way |
| EventDiscovery.Discovery.HandlePageChange | src/components/home/EventDiscovery.tsx:123-126 | the page asked for becomes the current page |
| EventDiscovery.Discovery.HandleAttendance | src/components/home/EventDiscovery.tsx:68-121 | registering calls the service and on success files the new registration id under the session; unregistering without an entry makes no call and changes nothing, otherwise deletes by the stored id and on success drops exactly that key; `success: false` and a thrown call leave the map as on entry |
| Roles.Ids | src/components/admin/Roles.tsx:35 | the ids of the users, position by position |
| Roles.RoleScreen.constructor | src/components/admin/Roles.tsx:12-23 | the two initial users, a blank form, no user being edited |
| Roles.RoleScreen.HandleInputChange | src/components/admin/Roles.tsx:25-28 | only the named text of the form changes |
| Roles.RoleScreen.HandleRoleChange | src/components/admin/Roles.tsx:25-28 | only the role of the form changes |
| Roles.RoleScreen.HandleSubmit | src/components/admin/Roles.tsx:30-46 | accepted exactly when name and e-mail are non-empty, else nothing changes; while editing, the users with that id take the form and keep their id, all others and all ids are kept, editing ends; otherwise one user with the fresh id is appended, and ids stay distinct when the id is fresh; the form is cleared |
| Roles.RoleScreen.HandleEdit | src/components/admin/Roles.tsx:48-55 | the user's id is being edited and the form holds its fields |
| Roles.RoleScreen.HandleDelete | src/components/admin/Roles.tsx:57-61 | when confirmed the users with the id go, otherwise the list is unchanged |
| Roles.RoleScreen.CancelEdit | src/components/admin/Roles.tsx:63-66 | editing ends and the form is cleared |
| UserRegistration.RegistrationError | src/components/register/UserRegistrationForm.tsx:16-27 | no error exactly when the e-mail matches and the password has at least 8 characters; the e-mail message comes first, then the password message |
| UserRegistration.ReplyFeedback | src/components/register/UserRegistrationForm.tsx:42-52 | success exactly for an answer whose status is not 400, with "¡Registro exitoso! Ya puedes iniciar sesión."; 400 gives "El usuario ya existe."; a thrown call shows its message, or the generic one when it has none |
| UserRegistration.RegistrationForm.constructor | src/components/register/UserRegistrationForm.tsx:8-14 | empty form, not loading, no feedback |
| UserRegistration.RegistrationForm.ChangeEmail | src/components/register/UserRegistrationForm.tsx:89 | only the e-mail changes |
| UserRegistration.RegistrationForm.ChangePassword | src/components/register/UserRegistrationForm.tsx:114 | only the password changes |
| UserRegistration.RegistrationForm.ValidateForm | src/components/register/UserRegistrationForm.tsx:16-27 | true exactly when there is no error; otherwise the feedback shows the first failing rule's message |
| UserRegistration.RegistrationForm.HandleSubmit | src/components/register/UserRegistrationForm.tsx:29-56 | an invalid form sends nothing and shows its error; a valid one sends e-mail, password and role "assistant", shows the answer's feedback, is cleared only on success, and loading ends |

## Left out

- The services under `src/services`, `src/contexts/AuthContext.tsx` and `src/components/login/UserLoginForm.tsx` are network I/O and login/logout, so they are not modelled. The login form's only logic is the e-mail pattern, which is modelled once in `EmailPattern`.
- Layout and routing are not modelled: `src/App.tsx`, `src/components/layout/*`, `src/components/buttons/ResetFormat.tsx`, all JSX rendering, framer-motion, `alert`, `console` and `window.scrollTo`.
- The `formatDate` helpers of both event forms are not modelled. They depend on `toISOString` and time zones.
- Date parsing is a parameter, not a model of the date grammar.
- Each `Date.now()` call becomes one `freshId` or `stamp` parameter per operation. `createNewEmptySchedule` calls `Date.now()` twice, for the schedule and for its range; the model gives both the same value, as two calls in the same millisecond would.
- Overlapping in-flight requests are not modelled. The source does not guard against them. Each backend call is one atomic step, so a response that resolves after later edits, and the rollback such interleavings would need, are outside the model.
- `AdminSessionForm.SessionList.UpdateSession` models only the local effect. The call on line 314 of src/components/admin/SessionForm.tsx goes to the component's own `updateSession`, not to a service.
- The mount effects that load the speaker and event-slot lists of src/components/admin/SessionForm.tsx (lines 97-128) only copy the answer into state, so they are not modelled. `AdminSessionForm.TimeSlotsForSession` takes that list as a parameter.
- The `global` entry of the bulk session form's error object is never set by the code, so it is not modelled.
- The registration form's `showPassword` toggle only affects rendering, so it is not modelled.
- `sendUser` answers are modelled as a body carrying a `status` field, or a thrown call with its message; the HTTP layer is not modelled.
- `AdminEventForm.EventObject` keeps the capacity as text. The loader's `String(event.capacity)` of a stored number is not spelled out there, but it is for sessions (`AdminSessionForm.LoadedSessionCapacity`).
- The admin field-change handlers (`HandleSessionChange`, `HandleSpeakerChange`, `HandleEventChange`) take only the fields the inputs bind, not arbitrary keys such as `id` or `backendId`.
- `Roles.RoleScreen.HandleSubmit` follows JavaScript truthiness: an `editingId` of "" takes the append path.
- JsNumbers.ParseInt: its contract states only that blank text is `NaN`. Signs, the `0x` prefix and stopping at the first non-digit are in its body, and its round trip with `String` is proved in `JsNumbers.ParseIntOfIntToString`.
- JsNumbers.ToNumber: covers signed decimal integers and blank text only. Fractions, exponents, `Infinity` and the `0x`/`0b`/`0o` forms of `Number()` are not modelled, because time fields never hold them.
- JsText.PadStart: its contract states the length and the fill prefix but not that the original text follows. That fact comes from its body and is used through `JsText.PadStartOfLong` and `JsNumbers.ToNumberOfPadded`.
- EventDiscovery.FormatTime: its contract states only the empty case. The other cases are the lemmas `EventDiscovery.FormatTimeKeepsShort` and `EventDiscovery.FormatTimeDropsSeconds`.
- String lengths are counted in Unicode characters. JavaScript counts UTF-16 code units, so the two differ for characters outside the Basic Multilingual Plane.
- A session is shown as registered exactly when the map has its id (`EventDiscovery.Discovery.IsRegistered`). Pagination is shown only once loaded and with more than one page (`EventDiscovery.Discovery.ShowsPagination`). Both are predicates without a separate contract.
