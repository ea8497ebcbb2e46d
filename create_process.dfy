/**
 * The create-process page: its form state, the date-order guard on its
 * date inputs, the dates it derives from them, and its handlers over the
 * registration-field list.
 */
module CreateProcessPage {
  import opened Wrappers
  import opened FieldList

  /** A date input's value: empty, or a calendar day counted in days. */
  datatype DateValue = NoDate | Day(n: int)

  /** The form state `processFormData`. */
  datatype ProcessForm = ProcessForm(
    name: string,
    places: string,
    miniDescription: string,
    description: string,
    researchFieldRequired: bool,
    startDate: DateValue,
    endDate: DateValue,
    endAnalysisDate: DateValue,
    registrationFieldsInfo: seq<Field>)

  const InitialForm := ProcessForm("", "", "", "", false, NoDate, NoDate, NoDate, [])

  /** The text inputs of the form. */
  datatype TextInput = NameInput | PlacesInput | MiniDescriptionInput | DescriptionInput

  /**
   * A change event from one of the inputs the user can operate; the
   * analysis-deadline input is disabled and fires none.
   */
  datatype Change =
    | TextChange(input: TextInput, value: string)
    | ResearchFieldToggle(checked: bool)
    | StartDateChange(date: DateValue)
    | EndDateChange(date: DateValue)

  const EndBeforeStartAlert := "A data de término deve ser posterior à data de início"
  const StartAfterEndAlert := "A data de início deve ser anterior à data de término"

  /** minEndDate: the day after the start date, when one is set. */
  function MinEndDate(start: DateValue): (r: DateValue)
    ensures r.Day? <==> start.Day?
    ensures r.Day? ==> r.n == start.n + 1
  {
    match start
    case NoDate => NoDate
    case Day(n) => Day(n + 1)
  }

  /** The analysis deadline: ten days after the end date. */
  function AnalysisDeadline(end: DateValue): (r: DateValue)
    ensures r.Day? <==> end.Day?
    ensures r.Day? ==> r.n == end.n + 10
  {
    match end
    case NoDate => NoDate
    case Day(n) => Day(n + 10)
  }

  /**
   * The guard of handleChange. A cleared date (an invalid `Date`) compares
   * false and passes; so does any date while the other one is empty.
   */
  function ChangeAlert(form: ProcessForm, change: Change): (alert: Option<string>)
    ensures alert.Some? <==>
      || (change.EndDateChange? && form.startDate.Day? && change.date.Day? && change.date.n <= form.startDate.n)
      || (change.StartDateChange? && form.endDate.Day? && change.date.Day? && change.date.n >= form.endDate.n)
    ensures alert.Some? ==> alert.value == if change.EndDateChange? then EndBeforeStartAlert else StartAfterEndAlert
  {
    match change
    case EndDateChange(v) =>
      if form.startDate.Day? && v.Day? && v.n <= form.startDate.n then Some(EndBeforeStartAlert) else None
    case StartDateChange(v) =>
      if form.endDate.Day? && v.Day? && v.n >= form.endDate.n then Some(StartAfterEndAlert) else None
    case _ => None
  }

  /** `[name]: type === 'checkbox' ? checked : value`: sets the changed input's field. */
  function ApplyChange(form: ProcessForm, change: Change): (r: ProcessForm)
    ensures r.registrationFieldsInfo == form.registrationFieldsInfo && r.endAnalysisDate == form.endAnalysisDate
    ensures r.startDate == if change.StartDateChange? then change.date else form.startDate
    ensures r.endDate == if change.EndDateChange? then change.date else form.endDate
    ensures r.name == if change.TextChange? && change.input == NameInput then change.value else form.name
    ensures r.places == if change.TextChange? && change.input == PlacesInput then change.value else form.places
    ensures r.miniDescription ==
              if change.TextChange? && change.input == MiniDescriptionInput then change.value else form.miniDescription
    ensures r.description ==
              if change.TextChange? && change.input == DescriptionInput then change.value else form.description
    ensures r.researchFieldRequired ==
              if change.ResearchFieldToggle? then change.checked else form.researchFieldRequired
  {
    match change
    case TextChange(NameInput, v) => form.(name := v)
    case TextChange(PlacesInput, v) => form.(places := v)
    case TextChange(MiniDescriptionInput, v) => form.(miniDescription := v)
    case TextChange(DescriptionInput, v) => form.(description := v)
    case ResearchFieldToggle(c) => form.(researchFieldRequired := c)
    case StartDateChange(v) => form.(startDate := v)
    case EndDateChange(v) => form.(endDate := v)
  }

  /**
   * The effect on `endDate`: a non-empty end date sets the analysis
   * deadline; an empty one leaves the deadline as it was.
   */
  function SyncAnalysisDeadline(form: ProcessForm): (r: ProcessForm)
    ensures r.endAnalysisDate == if form.endDate.Day? then AnalysisDeadline(form.endDate) else form.endAnalysisDate
    ensures r == form.(endAnalysisDate := r.endAnalysisDate)
  {
    if form.endDate.Day? then form.(endAnalysisDate := AnalysisDeadline(form.endDate)) else form
  }

  /** The state after an accepted change, once the endDate effect has run. */
  function AfterChange(form: ProcessForm, change: Change): (r: ProcessForm)
  {
    var changed := ApplyChange(form, change);
    if change.EndDateChange? then SyncAnalysisDeadline(changed) else changed
  }

  /** Both dates set means the start is strictly before the end. */
  predicate DatesOrdered(form: ProcessForm) {
    form.startDate.Day? && form.endDate.Day? ==> form.startDate.n < form.endDate.n
  }

  /** A set end date has its analysis deadline ten days later. */
  predicate DeadlineFollowsEnd(form: ProcessForm) {
    form.endDate.Day? ==> form.endAnalysisDate == AnalysisDeadline(form.endDate)
  }

  /** With a start date set, a new end date passes the guard exactly when it is on or after minEndDate. */
  lemma EndDateGuardIsMinEndDate(form: ProcessForm, end: int)
    requires form.startDate.Day?
    ensures ChangeAlert(form, EndDateChange(Day(end))).None? <==> end >= MinEndDate(form.startDate).n
  {
  }

  /** With an end date set, a new start date passes the guard exactly when it is before the end. */
  lemma StartDateGuardIsBeforeEnd(form: ProcessForm, start: int)
    requires form.endDate.Day?
    ensures ChangeAlert(form, StartDateChange(Day(start))).None? <==> start < form.endDate.n
  {
  }

  /** Every change the guard lets through keeps both form invariants. */
  lemma AcceptedChangeKeepsInvariants(form: ProcessForm, change: Change)
    requires DatesOrdered(form) && DeadlineFollowsEnd(form)
    requires ChangeAlert(form, change).None?
    ensures DatesOrdered(AfterChange(form, change)) && DeadlineFollowsEnd(AfterChange(form, change))
  {
  }

  /** Setting an end date sets the deadline ten days on; clearing it keeps the old deadline. */
  lemma EndDateDrivesDeadline(form: ProcessForm, end: DateValue)
    ensures end.Day? ==> AfterChange(form, EndDateChange(end)).endAnalysisDate == Day(end.n + 10)
    ensures end.NoDate? ==> AfterChange(form, EndDateChange(end)).endAnalysisDate == form.endAnalysisDate
  {
  }

  /** The page: its form state and its event handlers. */
  class CreateProcessForm {
    var form: ProcessForm

    ghost predicate Valid()
      reads this
    {
      DatesOrdered(form) && DeadlineFollowsEnd(form)
    }

    constructor()
      ensures Valid() && form == InitialForm
    {
      form := InitialForm;
    }

    /** handleChange, followed by the endDate effect. */
    method HandleChange(change: Change) returns (alert: Option<string>)
      requires Valid()
      modifies this
      ensures Valid()
      ensures alert == ChangeAlert(old(form), change)
      ensures alert.Some? ==> form == old(form)
      ensures alert.None? ==> form == AfterChange(old(form), change)
    {
      alert := ChangeAlert(form, change);
      if alert.Some? {
        return;
      }
      AcceptedChangeKeepsInvariants(form, change);
      form := ApplyChange(form, change);
      if change.EndDateChange? {
        form := SyncAnalysisDeadline(form);
      }
    }

    /** handleAddField */
    method HandleAddField(field: Field) returns (alert: Option<string>)
      requires Valid()
      modifies this
      ensures Valid()
      ensures alert.Some? <==> NameTaken(old(form.registrationFieldsInfo), field.name)
      ensures alert.Some? ==> alert.value == DuplicateFieldAlert && form == old(form)
      ensures alert.None? ==> form == old(form).(registrationFieldsInfo := old(form.registrationFieldsInfo) + [field])
    {
      var added := AddField(form.registrationFieldsInfo, field);
      if added.Failure? {
        return Some(added.error);
      }
      form := form.(registrationFieldsInfo := added.value);
      return None;
    }

    /** handleImportFields */
    method HandleImportFields(imported: seq<Field>) returns (alert: Option<string>)
      requires Valid()
      modifies this
      ensures Valid()
      ensures alert == ImportFields(old(form.registrationFieldsInfo), imported).1
      ensures form == old(form).(registrationFieldsInfo := ImportFields(old(form.registrationFieldsInfo), imported).0)
    {
      var result := ImportFields(form.registrationFieldsInfo, imported);
      alert := result.1;
      form := form.(registrationFieldsInfo := result.0);
    }

    /** handleDeleteField */
    method HandleDeleteField(index: int)
      requires Valid()
      modifies this
      ensures Valid()
      ensures form == old(form).(registrationFieldsInfo := DeleteField(old(form.registrationFieldsInfo), index))
    {
      form := form.(registrationFieldsInfo := DeleteField(form.registrationFieldsInfo, index));
    }

    /** handleSaveEditedField, for the row the edit was opened on. */
    method HandleSaveEditedField(edited: Field, index: nat)
      requires Valid() && index < |form.registrationFieldsInfo|
      modifies this
      ensures Valid()
      ensures form == old(form).(registrationFieldsInfo := old(form.registrationFieldsInfo)[index := edited])
    {
      var updated := ReplaceField(form.registrationFieldsInfo, edited, index);
      assert updated == form.registrationFieldsInfo[index := edited];
      form := form.(registrationFieldsInfo := updated);
    }
  }
}
