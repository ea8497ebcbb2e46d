/**
 * Reads over a process's "applications" sub-collection. Every process is
 * created with a "placeholder" document there, so the listings skip it and
 * "has applications" means some other document exists.
 */
module Applications {
  import opened Wrappers
  import opened StringOrder
  import opened Documents

  /**
   * processHasApplications: false for an empty snapshot; otherwise true
   * unless the only document is the placeholder.
   */
  function HasApplications(apps: Collection): (r: bool)
    requires apps.Valid()
    ensures r <==> exists k :: k in apps.docs && k != PlaceholderKey
  {
    StrictlyIncreasingDistinct(apps.ids);
    if |apps.ids| == 0 then
      false
    else
      var placeholderOnly := |apps.ids| == 1 && apps.ids[0] == PlaceholderKey;
      assert placeholderOnly ==> forall k :: k in apps.docs ==> k == apps.ids[0];
      assert !placeholderOnly ==> exists k :: k in apps.docs && k != PlaceholderKey by {
        if !placeholderOnly {
          if |apps.ids| > 1 {
            assert apps.ids[0] != apps.ids[1];
          }
          var i := if apps.ids[0] != PlaceholderKey then 0 else 1;
          assert apps.ids[i] in apps.ids;
        }
      }
      !placeholderOnly
  }

  /** getApplications: the data of every application, without document ids. */
  function GetApplications(apps: Collection): (r: seq<Doc>)
    requires apps.Valid()
    ensures |r| == |ListedKeys(apps)|
    ensures forall i :: 0 <= i < |r| ==> r[i] == apps.docs[ListedKeys(apps)[i]]
  {
    var keys := ListedKeys(apps);
    seq(|keys|, i requires 0 <= i < |keys| => apps.docs[keys[i]])
  }

  /** The listing is empty exactly when processHasApplications reports false. */
  lemma ListingEmptyIffNoApplications(apps: Collection)
    requires apps.Valid()
    ensures GetApplications(apps) == [] <==> !HasApplications(apps)
  {
    var keys := ListedKeys(apps);
    if keys != [] {
      assert keys[0] in keys;
    }
  }

  /**
   * userHasApplication: the query `__name__ == uid`. An id the SDK cannot
   * use as a document name makes the query throw.
   */
  function UserHasApplication(apps: Collection, uid: string): (r: Result<bool, StoreError>)
    requires apps.Valid()
    ensures r.Failure? <==> !IsDocId(uid)
    ensures r.Failure? ==> r.error == InvalidId
    ensures r.Success? ==> (r.value <==> uid in apps.docs)
  {
    if !IsDocId(uid) then Failure(InvalidId)
    else
      var matches := Filter(apps.ids, k => k == uid);
      assert uid in apps.docs ==> uid in matches;
      assert matches != [] ==> matches[0] in matches;
      Success(|matches| > 0)
  }

  /** The test applied per process by getProcessesWithUserApplications. */
  function HoldsApplicationOf(applications: map<string, Collection>, uid: string): (keep: string -> bool)
    requires AllValid(applications) && IsDocId(uid)
    ensures forall k :: keep(k) <==> uid in Sub(applications, k).docs
  {
    k => uid in Sub(applications, k).docs
  }

  /** The ids getProcessesWithUserApplications lists, in scan order. */
  function UserProcessKeys(processes: Collection, applications: map<string, Collection>, uid: string): (r: seq<string>)
    requires processes.Valid() && AllValid(applications) && IsDocId(uid)
    ensures forall k :: k in r <==> k in processes.docs && uid in Sub(applications, k).docs
    ensures StrictlyIncreasing(r)
  {
    Filter(processes.ids, HoldsApplicationOf(applications, uid))
  }

  /** getUserApplication: the application with its key as `id`, or "Inscrição não encontrada.". */
  function GetUserApplication(apps: Collection, uid: string): (r: Result<Doc, StoreError>)
    ensures r.Failure? <==> !IsDocId(uid) || uid !in apps.docs
    ensures r.Failure? ==> r.error == if IsDocId(uid) then ApplicationNotFound else InvalidId
    ensures r.Success? ==> r.value.Keys == apps.docs[uid].Keys + {"id"} && r.value["id"] == Str(uid)
    ensures r.Success? ==> forall f :: f in apps.docs[uid] && f != "id" ==> r.value[f] == apps.docs[uid][f]
  {
    if !IsDocId(uid) then Failure(InvalidId)
    else if uid !in apps.docs then Failure(ApplicationNotFound)
    else Success(WithKey(uid, apps.docs[uid]))
  }

  /** The record addApplication writes. */
  function ApplicationRecord(data: Doc, name: Value, uid: string, userEmail: Value, stamp: nat): (r: Doc)
    ensures r.Keys == {"candidateProvidedData", "name", "uid", "userEmail", "status", "createdAt"}
    ensures r["status"] == Str("Não analisada") && r["uid"] == Str(uid) && r["createdAt"] == Stamp(stamp)
    ensures r["candidateProvidedData"] == Object(data) && r["name"] == name && r["userEmail"] == userEmail
  {
    map[
      "candidateProvidedData" := Object(data),
      "name" := name,
      "uid" := Str(uid),
      "userEmail" := userEmail,
      "status" := Str("Não analisada"),
      "createdAt" := Stamp(stamp)
    ]
  }

  /**
   * After an application by `uid` is written to process `pid`, the user
   * is found there, and an existing process appears in the user's list.
   */
  lemma AddedApplicationIsFound(processes: Collection, applications: map<string, Collection>, pid: string, uid: string, d: Doc)
    requires processes.Valid() && AllValid(applications) && IsDocId(uid)
    ensures var after := applications[pid := Sub(applications, pid).Put(uid, d)];
            && AllValid(after)
            && UserHasApplication(after[pid], uid) == Success(true)
            && (pid in processes.docs ==> pid in UserProcessKeys(processes, after, uid))
  {
    SubValid(applications, pid);
  }

  /**
   * An application written to one process leaves every other process's
   * applications, and whether the user is listed for them, as they were.
   */
  lemma AddApplicationIsLocal(processes: Collection, applications: map<string, Collection>, pid: string, uid: string, d: Doc, other: string)
    requires processes.Valid() && AllValid(applications) && IsDocId(uid) && other != pid
    ensures var after := applications[pid := Sub(applications, pid).Put(uid, d)];
            && Sub(after, other) == Sub(applications, other)
            && (other in UserProcessKeys(processes, after, uid) <==> other in UserProcessKeys(processes, applications, uid))
  {
    SubValid(applications, pid);
  }

  /** Deleting the placeholder leaves "has applications" as it was. */
  lemma PlaceholderDoesNotCount(apps: Collection)
    requires apps.Valid()
    ensures HasApplications(apps.Delete(PlaceholderKey)) == HasApplications(apps)
    ensures HasApplications(apps.Put(PlaceholderKey, map[])) == HasApplications(apps)
  {
    var del := apps.Delete(PlaceholderKey);
    var put := apps.Put(PlaceholderKey, map[]);
    if HasApplications(apps) {
      var k :| k in apps.docs && k != PlaceholderKey;
      assert k in del.docs && k in put.docs;
    }
    if HasApplications(del) {
      var k :| k in del.docs && k != PlaceholderKey;
      assert k in apps.docs;
    }
    if HasApplications(put) {
      var k :| k in put.docs && k != PlaceholderKey;
      assert k in apps.docs;
    }
  }
}
