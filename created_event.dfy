/** The public event form: one event's texts, dates, capacity and status,
    validated together on submit. */
module CreatedEvent {
  import opened Wrappers
  import JsText
  import JsNumbers
  import opened EventRules

  datatype FormData = FormData(
    title: string, description: string, startDate: string, endDate: string, capacity: string, status: EventStatus)

  const TitleRequiredMessage := "Título requerido"
  const DescriptionRequiredMessage := "Descripción requerida"
  const StartRequiredMessage := "Fecha inicio requerida"
  const EndRequiredMessage := "Fecha fin requerida"
  const EndOrderMessage := "La fecha fin debe ser posterior a la fecha inicio"
  const CapacityMessage := "Capacidad debe ser mayor a 0"

  /** `initialFormData`: empty texts, published. */
  function InitialData(): FormData
  {
    FormData("", "", "", "", "", Published)
  }

  /** The end-date entry: required, and overwritten by the ordering message when
      both dates are given and the end does not come after the start. */
  function EndError(d: FormData, parseDate: string -> Option<int>): (r: Option<string>)
    ensures r.None? <==>
              d.endDate != [] && !(d.startDate != [] && DateNotAfter(parseDate(d.endDate), parseDate(d.startDate)))
    ensures r.Some? ==>
              r.value == if d.endDate == [] then EndRequiredMessage else EndOrderMessage
  {
    var required := if d.endDate == [] then Some(EndRequiredMessage) else None;
    if d.startDate != [] && d.endDate != [] && DateNotAfter(parseDate(d.endDate), parseDate(d.startDate))
    then Some(EndOrderMessage)
    else required
  }

  /** The message of one rule of `validateForm`, when that rule fails: title and
      description required once trimmed, the start date required, the end date
      as `EndError` says, and a capacity that is given and does not parse to 0 or
      less (`NaN` passes). */
  function FieldError(d: FormData, parseDate: string -> Option<int>, f: EventField): (e: Option<string>)
    ensures f == TitleField ==>
              (e.Some? <==> forall i :: 0 <= i < |d.title| ==> JsText.IsSpace(d.title[i])) &&
              (e.Some? ==> e.value == TitleRequiredMessage)
    ensures f == DescriptionField ==>
              (e.Some? <==> forall i :: 0 <= i < |d.description| ==> JsText.IsSpace(d.description[i])) &&
              (e.Some? ==> e.value == DescriptionRequiredMessage)
    ensures f == StartDateField ==> (e.Some? <==> d.startDate == []) && (e.Some? ==> e.value == StartRequiredMessage)
    ensures f == EndDateField ==> e == EndError(d, parseDate)
    ensures f == CapacityField ==>
              (e.Some? <==> d.capacity == [] || (JsNumbers.ParseInt(d.capacity).Some? && JsNumbers.ParseInt(d.capacity).value <= 0)) &&
              (e.Some? ==> e.value == CapacityMessage)
  {
    match f
    case TitleField => if JsText.Trim(d.title) == [] then Some(TitleRequiredMessage) else None
    case DescriptionField => if JsText.Trim(d.description) == [] then Some(DescriptionRequiredMessage) else None
    case StartDateField => if d.startDate == [] then Some(StartRequiredMessage) else None
    case EndDateField => EndError(d, parseDate)
    case CapacityField =>
      var n := JsNumbers.ParseInt(d.capacity);
      if d.capacity == [] || (n.Some? && n.value <= 0) then Some(CapacityMessage) else None
  }

  /** `validateForm`'s error object: an entry for exactly the failing rules, each
      with its rule's message. */
  function FormErrors(d: FormData, parseDate: string -> Option<int>): (r: map<EventField, string>)
    ensures forall f :: f in r <==> FieldError(d, parseDate, f).Some?
    ensures forall f :: f in r ==> r[f] == FieldError(d, parseDate, f).value
  {
    map f | f in AllEventFields && FieldError(d, parseDate, f).Some? :: FieldError(d, parseDate, f).value
  }

  /** The data logged on a valid submit. */
  function PayloadOf(d: FormData): (p: EventPayload)
    ensures p.title == d.title && p.description == d.description && p.status == d.status
    ensures p.startDate == d.startDate && p.endDate == d.endDate
    ensures p.capacity == JsNumbers.ParseInt(d.capacity)
  {
    EventPayload(d.title, d.description, d.startDate, d.endDate, JsNumbers.ParseInt(d.capacity), d.status)
  }

  /** A form that passes has both dates, in order when both can be read, and a
      capacity that is positive or `NaN`. */
  lemma ValidPayload(d: FormData, parseDate: string -> Option<int>)
    requires FormErrors(d, parseDate) == map[]
    ensures PayloadOf(d).startDate != [] && PayloadOf(d).endDate != []
    ensures !DateNotAfter(parseDate(PayloadOf(d).endDate), parseDate(PayloadOf(d).startDate))
    ensures PayloadOf(d).capacity.None? || PayloadOf(d).capacity.value > 0
  {
    assert FieldError(d, parseDate, StartDateField).None?;
    assert FieldError(d, parseDate, EndDateField).None?;
    assert FieldError(d, parseDate, CapacityField).None?;
  }

  /** The initial form fails every rule with its "required" message. */
  lemma InitialDataErrors(parseDate: string -> Option<int>)
    ensures FormErrors(InitialData(), parseDate) ==
            map[TitleField := TitleRequiredMessage, DescriptionField := DescriptionRequiredMessage,
                StartDateField := StartRequiredMessage, EndDateField := EndRequiredMessage,
                CapacityField := CapacityMessage]
  {
    var e := FormErrors(InitialData(), parseDate);
    assert JsText.Trim("") == [];
    assert e.Keys == AllEventFields by {
      forall f | f in AllEventFields ensures f in e {
        assert FieldError(InitialData(), parseDate, f).Some?;
      }
    }
  }

  /** `{ ...prev, [name]: value }` for the text inputs. */
  function WithField(d: FormData, f: EventField, value: string): FormData
  {
    match f
    case TitleField => d.(title := value)
    case DescriptionField => d.(description := value)
    case StartDateField => d.(startDate := value)
    case EndDateField => d.(endDate := value)
    case CapacityField => d.(capacity := value)
  }

  class EventForm {
    var formData: FormData
    var errors: map<EventField, string>

    constructor()
      ensures formData == InitialData() && errors == map[]
    {
      formData := InitialData();
      errors := map[];
    }

    /** `handleChange` from a text input: only that field changes; errors stay
        until the next submit. */
    method HandleChange(f: EventField, value: string)
      modifies this`formData
      ensures formData == WithField(old(formData), f, value)
    {
      formData := WithField(formData, f, value);
    }

    /** `handleChange` from the status select. */
    method HandleStatusChange(status: EventStatus)
      modifies this`formData
      ensures formData == old(formData).(status := status)
    {
      formData := formData.(status := status);
    }

    /** `validateForm`: the error object replaces the errors, and the form is
        valid exactly when it is empty. */
    method ValidateForm(parseDate: string -> Option<int>) returns (ok: bool)
      modifies this`errors
      ensures errors == FormErrors(formData, parseDate)
      ensures ok <==> errors == map[]
    {
      errors := FormErrors(formData, parseDate);
      ok := errors == map[];
    }

    /** `handleSubmit`: a valid form prepares its payload (no call is made). */
    method HandleSubmit(parseDate: string -> Option<int>) returns (prepared: Option<EventPayload>)
      modifies this`errors
      ensures errors == FormErrors(formData, parseDate)
      ensures prepared.Some? <==> errors == map[]
      ensures prepared.Some? ==> prepared.value == PayloadOf(formData)
    {
      var ok := ValidateForm(parseDate);
      prepared := if ok then Some(PayloadOf(formData)) else None;
    }

    /** `resetForm`: the initial data, published, and no errors. */
    method ResetForm()
      modifies this`formData, this`errors
      ensures formData == InitialData() && errors == map[]
    {
      formData := InitialData();
      errors := map[];
    }
  }
}
