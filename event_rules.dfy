/** What the two event forms share: the event status, the fields that carry an
    error, and how they compare dates. A date text is read by a `parseDate`
    parameter standing for `new Date(text)`: `None` is an Invalid Date, whose time
    value is `NaN`, and any comparison with `NaN` is false. */
module EventRules {
  import opened Wrappers

  datatype EventStatus = Published | Closed

  datatype EventField = TitleField | DescriptionField | StartDateField | EndDateField | CapacityField

  const AllEventFields: set<EventField> := {TitleField, DescriptionField, StartDateField, EndDateField, CapacityField}

  /** `new Date(a) < new Date(b)`. */
  predicate DateBefore(a: Option<int>, b: Option<int>)
  {
    a.Some? && b.Some? && a.value < b.value
  }

  /** `new Date(a) <= new Date(b)`. */
  predicate DateNotAfter(a: Option<int>, b: Option<int>)
  {
    a.Some? && b.Some? && a.value <= b.value
  }

  /** The body `sendEvents` and `updateEvents` receive: the texts as typed and the
      capacity through `parseInt` (`None` is `NaN`). */
  datatype EventPayload = EventPayload(
    title: string, description: string, startDate: string, endDate: string,
    capacity: Option<int>, status: EventStatus)
}
