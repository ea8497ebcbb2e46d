/**
 * The candidate's application form: the file validator, the normalisation
 * of the submitted values, the per-field validation rules, and when the
 * registration fields are shown.
 */
module ApplicationForm {
  import opened Wrappers
  import opened FieldList

  /** An uploaded file: its MIME type and its size in bytes. */
  datatype File = File(mime: string, size: nat)

  /** A react-hook-form value. */
  datatype FormValue =
    | Undefined
    | Text(s: string)
    | FileList(files: seq<File>)
    | SingleFile(file: File)

  /** The outcome of a validate function: `true`, or the error message. */
  datatype Verdict = Accept | Reject(message: string)

  const AllowedTypes: set<string> := {"image/jpeg", "image/png", "application/pdf"}
  const MaxFileSize := 2 * 1024 * 1024
  const UnsupportedTypeMessage := "Tipo de arquivo não suportado."
  const TooLargeMessage := "O arquivo deve ter no máximo 2MB."

  /**
   * validateFile: no file list, or an empty one, passes; otherwise the
   * first file's type is checked before its size.
   */
  function ValidateFile(value: Option<seq<File>>): (v: Verdict)
    ensures value.None? || value.value == [] ==> v == Accept
    ensures value.Some? && value.value != [] ==>
              var file := value.value[0];
              && (v == Reject(UnsupportedTypeMessage) <==> file.mime !in AllowedTypes)
              && (v == Reject(TooLargeMessage) <==> file.mime in AllowedTypes && file.size > MaxFileSize)
              && (v == Accept <==> file.mime in AllowedTypes && file.size <= MaxFileSize)
  {
    if value.None? || value.value == [] then Accept
    else
      var file := value.value[0];
      if file.mime !in AllowedTypes then Reject(UnsupportedTypeMessage)
      else if file.size > MaxFileSize then Reject(TooLargeMessage)
      else Accept
  }

  /** The size cap is inclusive: a file of exactly 2 MiB passes, one byte more does not. */
  lemma SizeLimitIsInclusive(mime: string)
    requires mime in AllowedTypes
    ensures ValidateFile(Some([File(mime, 2097152)])) == Accept
    ensures ValidateFile(Some([File(mime, 2097153)])) == Reject(TooLargeMessage)
  {
  }

  /** With a wrong type and a wrong size, the type is what is reported. */
  lemma TypeErrorComesFirst(file: File, rest: seq<File>)
    requires file.mime !in AllowedTypes && file.size > MaxFileSize
    ensures ValidateFile(Some([file] + rest)) == Reject(UnsupportedTypeMessage)
  {
  }

  /** A FileList becomes its first file (undefined when empty); other values are kept. */
  function FirstFile(v: FormValue): (r: FormValue)
    ensures !r.FileList?
    ensures !v.FileList? ==> r == v
  {
    match v
    case FileList(files) => if |files| > 0 then SingleFile(files[0]) else Undefined
    case _ => v
  }

  /** The value after normalisation, key by key. */
  ghost predicate Normalised(data: map<string, FormValue>, r: map<string, FormValue>) {
    r.Keys == data.Keys && forall k :: k in data ==> r[k] == FirstFile(data[k])
  }

  /**
   * The `for (const key in formData)` loop of onSubmit on a copy of the
   * submitted values: each FileList is replaced by its first element.
   */
  method ReplaceFileLists(data: map<string, FormValue>) returns (formData: map<string, FormValue>)
    ensures Normalised(data, formData)
  {
    formData := data;
    var pending := data.Keys;
    while pending != {}
      invariant pending <= data.Keys
      invariant formData.Keys == data.Keys
      invariant forall k :: k in pending ==> formData[k] == data[k]
      invariant forall k :: k in data && k !in pending ==> formData[k] == FirstFile(data[k])
      decreases |pending|
    {
      var key :| key in pending;
      if formData[key].FileList? {
        formData := formData[key := FirstFile(formData[key])];
      }
      pending := pending - {key};
    }
  }

  /** `Object.fromEntries(... .filter(([_, value]) => value !== undefined))` */
  function DropUndefined(m: map<string, FormValue>): (r: map<string, FormValue>)
    ensures forall k :: k in r <==> k in m && !m[k].Undefined?
    ensures forall k :: k in r ==> r[k] == m[k]
  {
    map k | k in m && !m[k].Undefined? :: m[k]
  }

  /**
   * onSubmit's payload: the FileLists replaced by their first file, and
   * every undefined value dropped, so an empty FileList disappears.
   */
  method SubmittedData(data: map<string, FormValue>) returns (r: map<string, FormValue>)
    ensures forall k :: k in r <==> k in data && !data[k].Undefined? && data[k] != FileList([])
    ensures forall k :: k in r ==> r[k] == FirstFile(data[k]) && !r[k].FileList?
    ensures forall k :: k in r && !data[k].FileList? ==> r[k] == data[k]
  {
    var formData := ReplaceFileLists(data);
    r := DropUndefined(formData);
  }

  /** The rule object a registration field is registered with. */
  datatype Rules = Rules(required: Option<string>, validatesFile: bool)

  /** `required: info.required ? "<name> é obrigatório." : false`, plus validateFile for file inputs. */
  function RulesFor(info: Field): (rules: Rules)
    ensures rules.required.Some? <==> info.required
    ensures rules.required.Some? ==> rules.required.value == info.name + " é obrigatório."
    ensures rules.validatesFile <==> info.kind == "file"
  {
    Rules(if info.required then Some(info.name + " é obrigatório.") else None, info.kind == "file")
  }

  /**
   * `watch("researchArea") !== ""`: the registration fields and the submit
   * button are shown once a research area is picked, or while the select
   * has no value yet (undefined).
   */
  function IsResearchAreaSelected(watched: Option<string>): (selected: bool)
    ensures !selected <==> watched == Some("")
  {
    !(watched.Some? && watched.value == "")
  }

  /** What the form shows below the research-area select. */
  datatype View = View(fields: seq<Field>, submitButton: bool)

  function VisibleForm(watched: Option<string>, fields: seq<Field>): (view: View)
    ensures view.submitButton <==> IsResearchAreaSelected(watched)
    ensures view.fields == if view.submitButton then fields else []
  {
    if IsResearchAreaSelected(watched) then View(fields, true) else View([], false)
  }
}
