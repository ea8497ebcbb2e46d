/**
 * An in-memory stand-in for the document database: documents are flat
 * records of field values, and a collection maps document ids to documents
 * and enumerates them in ascending id order, as a Firestore collection scan
 * does.
 */
module Documents {
  import opened StringOrder
  import Wrappers

  /** A Firestore field value. `Stamp` is the opaque value `serverTimestamp()` resolves to. */
  datatype Value =
    | Str(s: string)
    | Num(n: int)
    | Bool(b: bool)
    | Null
    | Stamp(t: nat)
    | List(items: seq<Value>)
    | Object(fields: map<string, Value>)

  /** A document body: field name to value. */
  type Doc = map<string, Value>

  /** A usable path segment: non-empty and free of '/'. */
  predicate IsDocId(s: string) {
    s != "" && '/' !in s
  }

  type DocId = s: string | IsDocId(s) witness "placeholder"

  /**
   * The errors the repository surfaces. The first group are the SDK's own
   * failures (an unusable document path, `updateDoc` on a missing document);
   * the rest are thrown by the repository with the texts given by Message.
   */
  datatype StoreError =
    | InvalidId
    | NoDocumentToUpdate
    | DuplicateProcess(id: string)
    | ProcessHasApplications
    | ApplicationNotFound
    | NewsNotFound
  {
    function Message(): (m: Wrappers.Option<string>)
      ensures m.None? <==> (InvalidId? || NoDocumentToUpdate?)
    {
      match this
      case InvalidId => Wrappers.None
      case NoDocumentToUpdate => Wrappers.None
      case DuplicateProcess(id) => Wrappers.Some("Um processo com o nome \"" + id + "\" já existe.")
      case ProcessHasApplications => Wrappers.Some("Não é possível deletar o processo, pois ele possui inscrições")
      case ApplicationNotFound => Wrappers.Some("Inscrição não encontrada.")
      case NewsNotFound => Wrappers.Some("Aviso não encontrados")
    }
  }

  ghost predicate StrictlyIncreasing(ids: seq<string>) {
    forall i, j :: 0 <= i < j < |ids| ==> Below(ids[i], ids[j])
  }

  predicate Distinct<T(==)>(s: seq<T>) {
    forall i, j :: 0 <= i < j < |s| ==> s[i] != s[j]
  }

  lemma StrictlyIncreasingDistinct(ids: seq<string>)
    requires StrictlyIncreasing(ids)
    ensures Distinct(ids)
  {
    forall i, j | 0 <= i < j < |ids| ensures ids[i] != ids[j] {
      BelowIrreflexive(ids[i]);
    }
  }

  /** Inserts a fresh id at its place in a sorted id list. */
  function InsertId(ids: seq<string>, k: string): (r: seq<string>)
    requires StrictlyIncreasing(ids) && k !in ids
    ensures StrictlyIncreasing(r)
    ensures forall x :: x in r <==> x in ids || x == k
    ensures |r| == |ids| + 1
  {
    if ids == [] then [k]
    else if Below(k, ids[0]) then
      assert forall j :: 0 < j < |ids| ==> Below(k, ids[j]) by {
        forall j | 0 < j < |ids| ensures Below(k, ids[j]) {
          BelowTransitive(k, ids[0], ids[j]);
        }
      }
      [k] + ids
    else
      BelowTotal(k, ids[0]);
      var rest := InsertId(ids[1..], k);
      assert forall x :: x in rest ==> Below(ids[0], x) by {
        forall x | x in rest ensures Below(ids[0], x) {
          if x != k {
            var j :| 1 <= j < |ids| && ids[j] == x;
          }
        }
      }
      [ids[0]] + rest
  }

  /**
   * Keeps the ids `keep` accepts, in their order: the document filter of
   * a query over a scan.
   */
  function Filter(ids: seq<string>, keep: string -> bool): (r: seq<string>)
    ensures forall x :: x in r <==> x in ids && keep(x)
    ensures StrictlyIncreasing(ids) ==> StrictlyIncreasing(r)
    ensures |r| <= |ids|
  {
    if ids == [] then []
    else
      var rest := Filter(ids[1..], keep);
      if keep(ids[0]) then
        assert StrictlyIncreasing(ids) ==> forall x :: x in rest ==> Below(ids[0], x);
        [ids[0]] + rest
      else rest
  }

  lemma {:induction false} FilterSnoc(ids: seq<string>, x: string, keep: string -> bool)
    ensures Filter(ids + [x], keep) == Filter(ids, keep) + (if keep(x) then [x] else [])
  {
    if ids != [] {
      assert (ids + [x])[1..] == ids[1..] + [x];
      FilterSnoc(ids[1..], x, keep);
    }
  }

  /** Filtering one more element of a sequence's prefix. */
  lemma FilterPrefixStep(ids: seq<string>, i: nat, keep: string -> bool)
    requires i < |ids|
    ensures Filter(ids[..i + 1], keep) == Filter(ids[..i], keep) + (if keep(ids[i]) then [ids[i]] else [])
  {
    assert ids[..i + 1] == ids[..i] + [ids[i]];
    FilterSnoc(ids[..i], ids[i], keep);
  }

  /** A collection: its documents, and their ids in ascending order. */
  datatype Collection = Collection(docs: map<string, Doc>, ids: seq<string>) {

    ghost predicate Valid() {
      && StrictlyIncreasing(ids)
      && (forall k :: k in ids ==> k in docs)
      && (forall k :: k in docs ==> k in ids)
    }

    /** `setDoc`: writes (creating or overwriting) the document `id`. */
    function Put(id: string, d: Doc): (r: Collection)
      requires Valid()
      ensures r.Valid()
      ensures r.docs == docs[id := d]
      ensures id in docs ==> r.ids == ids
    {
      if id in docs then Collection(docs[id := d], ids)
      else Collection(docs[id := d], InsertId(ids, id))
    }

    /** `deleteDoc`: removes the document `id`; a missing id is no error. */
    function Delete(id: string): (r: Collection)
      requires Valid()
      ensures r.Valid()
      ensures r.docs == docs - {id}
      ensures r.ids == Filter(ids, x => x != id)
    {
      Collection(docs - {id}, Filter(ids, x => x != id))
    }
  }

  const EmptyCollection := Collection(map[], [])

  /**
   * The key of the empty document every process gets in each of its
   * sub-collections, so that the sub-collection exists.
   */
  const PlaceholderKey := "placeholder"

  /**
   * The ids a listing of a sub-collection keeps: all but the placeholder
   * document's, in scan order.
   */
  function ListedKeys(c: Collection): (r: seq<string>)
    requires c.Valid()
    ensures forall k :: k in r <==> k in c.docs && k != PlaceholderKey
    ensures StrictlyIncreasing(r)
  {
    Filter(c.ids, k => k != PlaceholderKey)
  }

  /** A sub-collection that was never written is empty. */
  function Sub(m: map<string, Collection>, key: string): (c: Collection)
    ensures key in m ==> c == m[key]
    ensures key !in m ==> c == EmptyCollection
  {
    if key in m then m[key] else EmptyCollection
  }

  ghost predicate AllValid(m: map<string, Collection>) {
    forall k :: k in m ==> m[k].Valid()
  }

  lemma SubValid(m: map<string, Collection>, key: string)
    requires AllValid(m)
    ensures Sub(m, key).Valid()
  {
  }

  /** `{...data, id: key}`: the document key overrides any stored `id` field. */
  function WithKey(key: string, d: Doc): (r: Doc)
    ensures r.Keys == d.Keys + {"id"} && r["id"] == Str(key)
    ensures forall f :: f in d && f != "id" ==> r[f] == d[f]
  {
    d["id" := Str(key)]
  }

  /** `{id: key, ...data}`: a stored `id` field overrides the document key. */
  function KeyThenData(key: string, d: Doc): (r: Doc)
    ensures r.Keys == d.Keys + {"id"}
    ensures forall f :: f in d ==> r[f] == d[f]
    ensures "id" !in d ==> r["id"] == Str(key)
  {
    map["id" := Str(key)] + d
  }

  /** Documents of a scan, shaped `{...data, id}`. */
  function ScanRecords(c: Collection, keys: seq<string>): (r: seq<Doc>)
    requires forall k :: k in keys ==> k in c.docs
    ensures |r| == |keys|
    ensures forall i :: 0 <= i < |keys| ==> r[i] == WithKey(keys[i], c.docs[keys[i]])
  {
    seq(|keys|, i requires 0 <= i < |keys| => WithKey(keys[i], c.docs[keys[i]]))
  }

  /** Documents of a query result, shaped `{id, ...data}`. */
  function QueryRecords(c: Collection, keys: seq<string>): (r: seq<Doc>)
    requires forall k :: k in keys ==> k in c.docs
    ensures |r| == |keys|
    ensures forall i :: 0 <= i < |keys| ==> r[i] == KeyThenData(keys[i], c.docs[keys[i]])
  {
    seq(|keys|, i requires 0 <= i < |keys| => KeyThenData(keys[i], c.docs[keys[i]]))
  }

  /** A query result holds the record of each matched key, and nothing else. */
  lemma QueryRecordsMembers(c: Collection, keys: seq<string>)
    requires forall k :: k in keys ==> k in c.docs
    ensures forall k :: k in keys ==> KeyThenData(k, c.docs[k]) in QueryRecords(c, keys)
    ensures forall d :: d in QueryRecords(c, keys) ==> exists k :: k in keys && d == KeyThenData(k, c.docs[k])
  {
    var r := QueryRecords(c, keys);
    forall k | k in keys ensures KeyThenData(k, c.docs[k]) in r {
      var i :| 0 <= i < |keys| && keys[i] == k;
      assert r[i] == KeyThenData(k, c.docs[k]);
    }
    forall d | d in r ensures exists k :: k in keys && d == KeyThenData(k, c.docs[k]) {
      var i :| 0 <= i < |r| && r[i] == d;
      assert keys[i] in keys;
    }
  }

  lemma ScanRecordsSnoc(c: Collection, keys: seq<string>, k: string)
    requires forall x :: x in keys ==> x in c.docs
    requires k in c.docs
    ensures ScanRecords(c, keys + [k]) == ScanRecords(c, keys) + [WithKey(k, c.docs[k])]
  {
  }

  /** The records of a query over a scan prefix, one id further. */
  lemma ScanFilterStep(c: Collection, i: nat, keep: string -> bool)
    requires c.Valid() && i < |c.ids|
    ensures forall x :: x in Filter(c.ids[..i], keep) ==> x in c.docs
    ensures ScanRecords(c, Filter(c.ids[..i + 1], keep))
            == ScanRecords(c, Filter(c.ids[..i], keep)) + (if keep(c.ids[i]) then [WithKey(c.ids[i], c.docs[c.ids[i]])] else [])
  {
    FilterPrefixStep(c.ids, i, keep);
    if keep(c.ids[i]) {
      ScanRecordsSnoc(c, Filter(c.ids[..i], keep), c.ids[i]);
    }
  }
}
