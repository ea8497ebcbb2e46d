/**
 * The edit-process page: the loaded process record, its field list, its
 * unguarded change handler, and the update request its submit sends.
 */
module EditProcessPage {
  import opened Wrappers
  import opened Documents
  import opened Applications
  import opened Repository
  import opened FieldList

  /** The inputs of the page, each bound to the record field of the same name. */
  datatype Input =
    | NameInput | PlacesInput | MiniDescriptionInput | DescriptionInput
    | ResearchFieldRequiredInput | StartDateInput | EndDateInput | EndAnalysisDateInput

  function InputName(input: Input): (name: string)
    ensures name != "id" && name != FieldsKey
  {
    match input
    case NameInput => "name"
    case PlacesInput => "places"
    case MiniDescriptionInput => "miniDescription"
    case DescriptionInput => "description"
    case ResearchFieldRequiredInput => "researchFieldRequired"
    case StartDateInput => "startDate"
    case EndDateInput => "endDate"
    case EndAnalysisDateInput => "endAnalysisDate"
  }

  /** Different inputs write different record fields. */
  lemma InputNamesDistinct(a: Input, b: Input)
    requires a != b
    ensures InputName(a) != InputName(b)
  {
  }

  const FieldsKey := "registrationFieldsInfo"

  /** The only checkbox of the page. */
  predicate IsCheckbox(input: Input) {
    input == ResearchFieldRequiredInput
  }

  /** handleChange: `[name]: type === 'checkbox' ? checked : value`, with no date check. */
  function SetInput(data: Doc, input: Input, value: string, checked: bool): (r: Doc)
    ensures r.Keys == data.Keys + {InputName(input)}
    ensures r[InputName(input)] == if IsCheckbox(input) then Bool(checked) else Str(value)
    ensures forall f :: f in data && f != InputName(input) ==> r[f] == data[f]
  {
    data[InputName(input) := if IsCheckbox(input) then Bool(checked) else Str(value)]
  }

  /** Unlike the create page, an end date before the start date is taken as it is. */
  lemma MisorderedDatesAccepted(data: Doc)
    ensures var after := SetInput(SetInput(data, StartDateInput, "2024-05-10", false), EndDateInput, "2024-05-01", false);
            after["startDate"] == Str("2024-05-10") && after["endDate"] == Str("2024-05-01")
  {
  }

  /** One field descriptor as stored: `{name, type, required}`. */
  function EncodeField(f: Field): (v: Value)
    ensures v.Object? && v.fields.Keys == {"name", "type", "required"}
  {
    Object(map["name" := Str(f.name), "type" := Str(f.kind), "required" := Bool(f.required)])
  }

  function EncodeFields(fields: seq<Field>): (v: Value)
    ensures v.List? && |v.items| == |fields|
    ensures forall i :: 0 <= i < |fields| ==> v.items[i] == EncodeField(fields[i])
  {
    List(seq(|fields|, i requires 0 <= i < |fields| => EncodeField(fields[i])))
  }

  function DecodeField(v: Value): (r: Option<Field>)
  {
    if v.Object? && "name" in v.fields && v.fields["name"].Str?
       && "type" in v.fields && v.fields["type"].Str?
       && "required" in v.fields && v.fields["required"].Bool?
    then Some(Field(v.fields["name"].s, v.fields["type"].s, v.fields["required"].b))
    else None
  }

  /** The stored list, read back; None when some element is not a field descriptor. */
  function DecodeFields(items: seq<Value>): (r: Option<seq<Field>>)
    ensures r.Some? ==> |r.value| == |items|
  {
    if items == [] then Some([])
    else
      var head := DecodeField(items[0]);
      var tail := DecodeFields(items[1..]);
      if head.Some? && tail.Some? then Some([head.value] + tail.value) else None
  }

  /** Storing the field list and reading it back gives the same list. */
  lemma {:induction false} DecodeEncodeFields(fields: seq<Field>)
    ensures DecodeFields(EncodeFields(fields).items) == Some(fields)
  {
    if fields != [] {
      var items := EncodeFields(fields).items;
      assert items[1..] == EncodeFields(fields[1..]).items;
      DecodeEncodeFields(fields[1..]);
      assert fields == [fields[0]] + fields[1..];
    }
  }

  /**
   * handleSubmit: `const {id, ...dataWithoutId} = record`, sent as
   * updateProcess(id, dataWithoutId). A record whose `id` is not a string
   * makes the update throw.
   */
  function SubmitRequest(data: Doc, fields: seq<Field>): (r: Option<(string, Doc)>)
    ensures r.Some? <==> "id" in data && data["id"].Str?
    ensures r.Some? ==> r.value.0 == data["id"].s
    ensures r.Some? ==> r.value.1.Keys == data.Keys - {"id"} + {FieldsKey}
    ensures r.Some? ==> r.value.1[FieldsKey] == EncodeFields(fields)
    ensures r.Some? ==> forall f :: f in data && f != "id" && f != FieldsKey ==> r.value.1[f] == data[f]
  {
    if "id" in data && data["id"].Str? then
      Some((data["id"].s, (data - {"id"})[FieldsKey := EncodeFields(fields)]))
    else None
  }

  /** The field list an update request stores is the one the page loads back. */
  lemma SubmittedFieldsLoadBack(data: Doc, fields: seq<Field>)
    requires SubmitRequest(data, fields).Some?
    ensures var payload := SubmitRequest(data, fields).value.1;
            FieldsKey in payload && payload[FieldsKey].List?
            && DecodeFields(payload[FieldsKey].items) == Some(fields)
  {
    DecodeEncodeFields(fields);
  }

  /** The page state and its handlers. */
  class EditProcessForm {
    /** The record getProcess returned, without its field list. */
    var data: Doc
    var fields: seq<Field>
    var hasApplications: bool

    /**
     * The load effect: the record getProcess returned, with its stored
     * field list decoded, and processHasApplications. The page maps over
     * that list, so it must be a list of field descriptors.
     */
    constructor(loaded: Doc, applications: Collection)
      requires applications.Valid()
      requires FieldsKey in loaded && loaded[FieldsKey].List?
      requires DecodeFields(loaded[FieldsKey].items).Some?
      ensures data == loaded - {FieldsKey}
      ensures Some(fields) == DecodeFields(loaded[FieldsKey].items)
      ensures |fields| == |loaded[FieldsKey].items|
      ensures hasApplications == HasApplications(applications)
    {
      data := loaded - {FieldsKey};
      fields := DecodeFields(loaded[FieldsKey].items).value;
      hasApplications := HasApplications(applications);
    }

    /** The researchFieldRequired control is disabled exactly when the process has applications. */
    function ResearchFieldDisabled(): (disabled: bool)
      reads this
      ensures disabled <==> hasApplications
    {
      hasApplications
    }

    /** The notice shown beside the disabled control. */
    function DisabledNotice(): (notice: Option<string>)
      reads this
      ensures notice.Some? <==> ResearchFieldDisabled()
    {
      if hasApplications then Some("Este campo não pode ser alterado, pois o processo seletivo já possui inscritos")
      else None
    }

    /** handleChange; a disabled control fires no change. */
    method HandleChange(input: Input, value: string, checked: bool)
      modifies this
      ensures fields == old(fields) && hasApplications == old(hasApplications)
      ensures input == ResearchFieldRequiredInput && hasApplications ==> data == old(data)
      ensures !(input == ResearchFieldRequiredInput && hasApplications) ==> data == SetInput(old(data), input, value, checked)
    {
      if input == ResearchFieldRequiredInput && hasApplications {
        return;
      }
      data := SetInput(data, input, value, checked);
    }

    method HandleAddField(field: Field) returns (alert: Option<string>)
      modifies this
      ensures data == old(data) && hasApplications == old(hasApplications)
      ensures alert.Some? <==> NameTaken(old(fields), field.name)
      ensures alert.Some? ==> alert.value == DuplicateFieldAlert && fields == old(fields)
      ensures alert.None? ==> fields == old(fields) + [field]
    {
      var added := AddField(fields, field);
      if added.Failure? {
        return Some(added.error);
      }
      fields := added.value;
      return None;
    }

    method HandleImportFields(imported: seq<Field>) returns (alert: Option<string>)
      modifies this
      ensures data == old(data) && hasApplications == old(hasApplications)
      ensures alert == ImportFields(old(fields), imported).1
      ensures fields == ImportFields(old(fields), imported).0
    {
      var result := ImportFields(fields, imported);
      alert := result.1;
      fields := result.0;
    }

    method HandleDeleteField(index: int)
      modifies this
      ensures data == old(data) && hasApplications == old(hasApplications)
      ensures fields == DeleteField(old(fields), index)
    {
      fields := DeleteField(fields, index);
    }

    method HandleSaveEditedField(edited: Field, index: nat)
      requires index < |fields|
      modifies this
      ensures data == old(data) && hasApplications == old(hasApplications)
      ensures fields == old(fields)[index := edited]
    {
      var updated := ReplaceField(fields, edited, index);
      assert updated == fields[index := edited];
      fields := updated;
    }

    /** handleSubmit: the update request; a failure is only logged by the page. */
    method HandleSubmit(store: Store) returns (r: Outcome<StoreError>)
      requires store.Valid()
      modifies store
      ensures store.Valid()
      ensures SubmitRequest(data, fields).None? ==> r == Fail(InvalidId) && unchanged(store)
      ensures SubmitRequest(data, fields).Some? ==>
                var (id, payload) := SubmitRequest(data, fields).value;
                && (r.Pass? <==> IsDocId(id) && id in old(store.processes.docs))
                && (r.Pass? ==> store.processes == old(store.processes).Put(id, old(store.processes.docs[id]) + payload))
                && (r.Pass? ==> store.applications == old(store.applications) && store.news == old(store.news))
                && (r.Fail? ==> unchanged(store))
    {
      var request := SubmitRequest(data, fields);
      if request.None? {
        return Fail(InvalidId);
      }
      var (id, payload) := request.value;
      r := store.UpdateProcess(id, payload);
    }
  }
}
