/**
 * The list of registration fields a process asks its candidates for, as
 * both process pages edit it: add, import from another process, delete by
 * row and replace by row, with field names meant to be unique.
 */
module FieldList {
  import opened Wrappers

  /** One registration field: its name, its input type and whether it must be filled in. */
  datatype Field = Field(name: string, kind: string, required: bool)

  predicate NameTaken(fields: seq<Field>, name: string) {
    exists f :: f in fields && f.name == name
  }

  predicate DistinctNames(fields: seq<Field>) {
    forall i, j :: 0 <= i < j < |fields| ==> fields[i].name != fields[j].name
  }

  /** `a` is `b` with some elements left out, the rest in their order. */
  ghost predicate Subsequence<T>(a: seq<T>, b: seq<T>)
    decreases |b|
  {
    if a == [] then true
    else if b == [] then false
    else (a[0] == b[0] && Subsequence(a[1..], b[1..])) || Subsequence(a, b[1..])
  }

  const DuplicateFieldAlert := "Um campo com esse nome já existe."
  const SkippedFieldsAlert := "Alguns campos não foram importados porque já existem."

  /**
   * handleAddField: refuses a field whose name is already in the list
   * (the alert, list unchanged); otherwise appends it.
   */
  function AddField(fields: seq<Field>, field: Field): (r: Result<seq<Field>, string>)
    ensures r.Failure? <==> NameTaken(fields, field.name)
    ensures r.Failure? ==> r.error == DuplicateFieldAlert
    ensures r.Success? ==> |r.value| == |fields| + 1 && r.value[..|fields|] == fields && r.value[|fields|] == field
  {
    if NameTaken(fields, field.name) then Failure(DuplicateFieldAlert) else Success(fields + [field])
  }

  /** The imported fields whose names the current list does not hold, in their order. */
  function NewFields(fields: seq<Field>, imported: seq<Field>): (r: seq<Field>)
    ensures forall g :: g in r <==> g in imported && !NameTaken(fields, g.name)
    ensures Subsequence(r, imported)
    ensures |r| == |imported| <==> forall g :: g in imported ==> !NameTaken(fields, g.name)
  {
    if imported == [] then []
    else
      var rest := NewFields(fields, imported[1..]);
      assert forall g :: g in imported <==> g == imported[0] || g in imported[1..];
      if NameTaken(fields, imported[0].name) then
        assert |rest| <= |imported[1..]| by { SubsequenceLength(rest, imported[1..]); }
        rest
      else
        [imported[0]] + rest
  }

  /**
   * Every copy of an imported field whose name is free is kept, a repeat
   * inside the imported list included, and no copy of any other.
   */
  lemma {:induction false} NewFieldsCounts(fields: seq<Field>, imported: seq<Field>)
    ensures forall g :: multiset(NewFields(fields, imported))[g] ==
              if NameTaken(fields, g.name) then 0 else multiset(imported)[g]
  {
    if imported != [] {
      NewFieldsCounts(fields, imported[1..]);
      assert imported == [imported[0]] + imported[1..];
    }
  }

  lemma {:induction false} SubsequenceLength<T>(a: seq<T>, b: seq<T>)
    requires Subsequence(a, b)
    ensures |a| <= |b|
    decreases |b|
  {
    if a != [] {
      if a[0] == b[0] && Subsequence(a[1..], b[1..]) {
        SubsequenceLength(a[1..], b[1..]);
      } else {
        SubsequenceLength(a, b[1..]);
      }
    }
  }

  /**
   * handleImportFields: appends the new fields, and raises the alert when
   * some imported field was left out.
   */
  function ImportFields(fields: seq<Field>, imported: seq<Field>): (r: (seq<Field>, Option<string>))
    ensures r.0 == fields + NewFields(fields, imported)
    ensures r.1.Some? <==> exists g :: g in imported && NameTaken(fields, g.name)
    ensures r.1.Some? ==> r.1.value == SkippedFieldsAlert
  {
    var added := NewFields(fields, imported);
    SubsequenceLength(added, imported);
    (fields + added, if |added| < |imported| then Some(SkippedFieldsAlert) else None)
  }

  /** With distinct names to start with, adding keeps them distinct. */
  lemma AddKeepsNamesDistinct(fields: seq<Field>, field: Field)
    requires DistinctNames(fields)
    ensures AddField(fields, field).Success? ==> DistinctNames(AddField(fields, field).value)
  {
    if !NameTaken(fields, field.name) {
      var r := fields + [field];
      forall i, j | 0 <= i < j < |r| ensures r[i].name != r[j].name {
        if j == |fields| {
          assert r[i] in fields;
        }
      }
    }
  }

  lemma {:induction false} NewFieldsDistinct(fields: seq<Field>, imported: seq<Field>)
    requires DistinctNames(imported)
    ensures DistinctNames(NewFields(fields, imported))
  {
    if imported != [] {
      var tail := imported[1..];
      assert DistinctNames(tail) by {
        forall i, j | 0 <= i < j < |tail| ensures tail[i].name != tail[j].name {
          assert tail[i] == imported[i + 1] && tail[j] == imported[j + 1];
        }
      }
      NewFieldsDistinct(fields, tail);
      var rest := NewFields(fields, tail);
      if !NameTaken(fields, imported[0].name) {
        assert NewFields(fields, imported) == [imported[0]] + rest;
        forall g | g in rest ensures g.name != imported[0].name {
          var k :| 0 <= k < |tail| && tail[k] == g;
          assert imported[k + 1] == g;
        }
        DistinctNamesCons(imported[0], rest);
      } else {
        assert NewFields(fields, imported) == rest;
      }
    }
  }

  lemma DistinctNamesCons(f: Field, rest: seq<Field>)
    requires DistinctNames(rest)
    requires forall g :: g in rest ==> g.name != f.name
    ensures DistinctNames([f] + rest)
  {
    var r := [f] + rest;
    forall i, j | 0 <= i < j < |r| ensures r[i].name != r[j].name {
      assert r[j] == rest[j - 1];
      if i > 0 {
        assert r[i] == rest[i - 1];
      }
    }
  }

  /**
   * Importing keeps names distinct when the current list and the imported
   * list each have distinct names: what is appended is new and free of
   * repeats.
   */
  lemma ImportKeepsNamesDistinct(fields: seq<Field>, imported: seq<Field>)
    requires DistinctNames(fields) && DistinctNames(imported)
    ensures DistinctNames(ImportFields(fields, imported).0)
  {
    var added := NewFields(fields, imported);
    NewFieldsDistinct(fields, imported);
    var r := fields + added;
    forall i, j | 0 <= i < j < |r| ensures r[i].name != r[j].name {
      if j >= |fields| {
        assert r[j] == added[j - |fields|];
        assert r[j] in added;
        if i < |fields| {
          assert r[i] in fields;
        } else {
          assert r[i] == added[i - |fields|];
        }
      }
    }
  }

  /** Repeated names inside the imported list itself are not filtered out. */
  lemma ImportKeepsRepeatsOfTheImportedList()
    ensures var f := Field("CPF", "text", true);
            ImportFields([], [f, f]).0 == [f, f] && !DistinctNames(ImportFields([], [f, f]).0)
  {
    var f := Field("CPF", "text", true);
    assert !NameTaken([], f.name);
  }

  /**
   * handleDeleteField: `filter((_, i) => i !== index)`, continued from
   * position `from` of the original list.
   */
  function KeepOthers(fields: seq<Field>, index: int, from: int): (r: seq<Field>)
    ensures |r| <= |fields|
  {
    if fields == [] then []
    else (if from != index then [fields[0]] else []) + KeepOthers(fields[1..], index, from + 1)
  }

  function DeleteField(fields: seq<Field>, index: int): (r: seq<Field>)
    ensures |r| <= |fields|
  {
    KeepOthers(fields, index, 0)
  }

  lemma {:induction false} KeepOthersOutside(fields: seq<Field>, index: int, from: int)
    requires index < from || index >= from + |fields|
    ensures KeepOthers(fields, index, from) == fields
  {
    if fields != [] {
      KeepOthersOutside(fields[1..], index, from + 1);
      assert fields == [fields[0]] + fields[1..];
    }
  }

  lemma {:induction false} KeepOthersInside(fields: seq<Field>, index: int, from: int)
    requires from <= index < from + |fields|
    ensures KeepOthers(fields, index, from) == fields[..index - from] + fields[index - from + 1..]
  {
    var tail, m := fields[1..], index - from;
    if m == 0 {
      assert KeepOthers(fields, index, from) == KeepOthers(tail, index, from + 1);
      KeepOthersOutside(tail, index, from + 1);
      assert fields[..0] + fields[1..] == tail;
    } else {
      assert KeepOthers(fields, index, from) == [fields[0]] + KeepOthers(tail, index, from + 1);
      KeepOthersInside(tail, index, from + 1);
      assert fields[..m] == [fields[0]] + tail[..m - 1];
      assert fields[m + 1..] == tail[m..];
      assert [fields[0]] + (tail[..m - 1] + tail[m..]) == ([fields[0]] + tail[..m - 1]) + tail[m..];
    }
  }

  /**
   * Deleting a row removes exactly that element and keeps the others in
   * order; an index outside the list changes nothing.
   */
  lemma DeleteRemovesOnlyThatRow(fields: seq<Field>, index: int)
    ensures 0 <= index < |fields| ==> DeleteField(fields, index) == fields[..index] + fields[index + 1..]
    ensures !(0 <= index < |fields|) ==> DeleteField(fields, index) == fields
  {
    if 0 <= index < |fields| {
      KeepOthersInside(fields, index, 0);
    } else {
      KeepOthersOutside(fields, index, 0);
    }
  }

  /** Deleting keeps distinct names distinct. */
  lemma DeleteKeepsNamesDistinct(fields: seq<Field>, index: int)
    requires DistinctNames(fields)
    ensures DistinctNames(DeleteField(fields, index))
  {
    DeleteRemovesOnlyThatRow(fields, index);
    if 0 <= index < |fields| {
      var r := DeleteField(fields, index);
      forall i, j | 0 <= i < j < |r| ensures r[i].name != r[j].name {
        var i' := if i < index then i else i + 1;
        var j' := if j < index then j else j + 1;
        assert r[i] == fields[i'] && r[j] == fields[j'];
      }
    }
  }

  /**
   * handleSaveEditedField: copies the list into a fresh array and writes
   * the edited field at its row.
   */
  method ReplaceField(fields: seq<Field>, edited: Field, index: nat) returns (r: seq<Field>)
    requires index < |fields|
    ensures |r| == |fields|
    ensures r[index] == edited
    ensures forall j :: 0 <= j < |fields| && j != index ==> r[j] == fields[j]
  {
    var updated := new Field[|fields|](j requires 0 <= j < |fields| => fields[j]);
    updated[index] := edited;
    r := updated[..];
  }

  /** Saving an edit does not check names: renaming a row to another row's name is accepted. */
  lemma EditCanRepeatAName()
    ensures var fields := [Field("CPF", "text", true), Field("RG", "text", false)];
            DistinctNames(fields) && !DistinctNames(fields[1 := Field("CPF", "number", false)])
  {
    var edited := [Field("CPF", "text", true), Field("RG", "text", false)][1 := Field("CPF", "number", false)];
    assert edited[0].name == edited[1].name;
  }

  const KnownTypes: set<string> := {"text", "number", "date", "email", "file"}
  const TypeLabels: set<string> := {"Texto", "Número", "Data", "Email", "Arquivo"}

  /** The label the fields table shows for each known input type. */
  const TypeLabel: map<string, string> :=
    map["text" := "Texto", "number" := "Número", "date" := "Data", "email" := "Email", "file" := "Arquivo"]

  /** The label table covers exactly the known types and the labels. */
  lemma TypeLabelCoversKnownTypes()
    ensures TypeLabel.Keys == KnownTypes
    ensures TypeLabel.Values == TypeLabels
  {
    assert TypeLabel["text"] == "Texto" && TypeLabel["number"] == "Número" && TypeLabel["date"] == "Data";
    assert TypeLabel["email"] == "Email" && TypeLabel["file"] == "Arquivo";
  }

  /** mapFieldType: the display label of a known input type; any other string as it is. */
  function MapFieldType(kind: string): (shown: string)
    ensures kind in TypeLabel ==> shown == TypeLabel[kind]
    ensures kind in KnownTypes ==> shown in TypeLabels
    ensures kind !in KnownTypes ==> shown == kind
  {
    match kind
    case "text" => "Texto"
    case "number" => "Número"
    case "date" => "Data"
    case "email" => "Email"
    case "file" => "Arquivo"
    case _ => kind
  }

  /** The five known types get five different labels, none of which is a known type. */
  lemma KnownTypesGetDistinctLabels(a: string, b: string)
    requires a in KnownTypes && b in KnownTypes && a != b
    ensures MapFieldType(a) != MapFieldType(b)
    ensures MapFieldType(a) != a
  {
  }

  /** How the table shows `required`. */
  function RequiredLabel(required: bool): (shown: string)
    ensures shown == "Sim" <==> required
    ensures shown == "Não" <==> !required
  {
    if required then "Sim" else "Não"
  }

  /** One row of the fields table: NOME, TIPO, OBRIGATÓRIO. */
  datatype Row = Row(name: string, kind: string, required: string)

  /** The fields table: one row per field, in the list's order. */
  function TableRows(fields: seq<Field>): (rows: seq<Row>)
    ensures |rows| == |fields|
    ensures forall i :: 0 <= i < |fields| ==> rows[i].name == fields[i].name
    ensures forall i :: 0 <= i < |fields| ==>
              rows[i].kind == if fields[i].kind in TypeLabel then TypeLabel[fields[i].kind] else fields[i].kind
    ensures forall i :: 0 <= i < |fields| ==> (rows[i].required == "Sim" <==> fields[i].required)
    ensures forall i :: 0 <= i < |fields| ==> (rows[i].required == "Não" <==> !fields[i].required)
  {
    TypeLabelCoversKnownTypes();
    seq(|fields|, i requires 0 <= i < |fields| =>
      Row(fields[i].name, MapFieldType(fields[i].kind), RequiredLabel(fields[i].required)))
  }
}
