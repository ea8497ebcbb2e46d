/**
 * The repository's writes, as methods on one in-memory database: the
 * "processes" collection and, per process key, its "applications" and
 * "news" sub-collections. A sub-collection lives on its own path, so it is
 * kept apart from the process document and outlives it.
 */
module Repository {
  import opened Wrappers
  import opened StringOrder
  import opened Documents
  import opened Processes
  import opened Applications
  import opened News

  /** `data.name`, when it is a string the SDK accepts as a document id. */
  function ProcessKey(data: Doc): (r: Option<DocId>)
    ensures r.Some? <==> "name" in data && data["name"].Str? && IsDocId(data["name"].s)
    ensures r.Some? ==> data["name"] == Str(r.value)
  {
    if "name" in data && data["name"].Str? && IsDocId(data["name"].s) then Some(data["name"].s) else None
  }

  /** The record createProcess writes: `{...data, id, createdAt}`. */
  function ProcessRecord(data: Doc, id: string, stamp: nat): (r: Doc)
    ensures r.Keys == data.Keys + {"id", "createdAt"}
    ensures r["id"] == Str(id) && r["createdAt"] == Stamp(stamp)
    ensures forall f :: f in data && f !in {"id", "createdAt"} ==> r[f] == data[f]
  {
    data["id" := Str(id)]["createdAt" := Stamp(stamp)]
  }

  /** A created process is found under its name, with `id` equal to that name. */
  lemma CreatedProcessIsFound(processes: Collection, data: Doc, stamp: nat)
    requires processes.Valid() && ProcessKey(data).Some?
    ensures var key := ProcessKey(data).value;
            var found := GetProcess(processes.Put(key, ProcessRecord(data, key, stamp)), key);
            && found.Some?
            && found.value["id"] == Str(key) == data["name"]
            && found.value["createdAt"] == Stamp(stamp)
  {
  }

  /**
   * Once the guard has passed, deleting the placeholder leaves the
   * applications sub-collection with no documents at all.
   */
  lemma DeletionEmptiesApplications(apps: Collection)
    requires apps.Valid() && !HasApplications(apps)
    ensures apps.Delete(PlaceholderKey).docs == map[]
  {
    var rest := apps.Delete(PlaceholderKey).docs;
    assert forall k :: k in rest ==> k in apps.docs && k != PlaceholderKey;
  }

  /** Deleting the news placeholder keeps every real news item. */
  lemma DeletionKeepsNews(news: Collection)
    requires news.Valid()
    ensures forall k :: k in news.docs && k != PlaceholderKey ==>
              k in news.Delete(PlaceholderKey).docs && news.Delete(PlaceholderKey).docs[k] == news.docs[k]
    ensures PlaceholderKey !in news.Delete(PlaceholderKey).docs
  {
  }

  class Store {
    var processes: Collection
    var applications: map<string, Collection>
    var news: map<string, Collection>

    ghost predicate Valid()
      reads this
    {
      processes.Valid() && AllValid(applications) && AllValid(news)
    }

    /** An empty database. */
    constructor()
      ensures Valid()
      ensures processes == EmptyCollection && applications == map[] && news == map[]
    {
      processes := EmptyCollection;
      applications := map[];
      news := map[];
    }

    /**
     * createProcess: keyed by `data.name`; an existing key is refused and
     * nothing is written. Otherwise the process document and one
     * placeholder in each sub-collection are written.
     */
    method CreateProcess(data: Doc, stamp: nat) returns (r: Outcome<StoreError>)
      requires Valid()
      modifies this
      ensures Valid()
      ensures ProcessKey(data).None? ==> r == Fail(InvalidId) && unchanged(this)
      ensures ProcessKey(data).Some? && ProcessKey(data).value in old(processes.docs) ==>
                r == Fail(DuplicateProcess(ProcessKey(data).value)) && unchanged(this)
      ensures ProcessKey(data).Some? && ProcessKey(data).value !in old(processes.docs) ==>
                var key := ProcessKey(data).value;
                && r == Pass
                && processes == old(processes).Put(key, ProcessRecord(data, key, stamp))
                && applications == old(applications)[key := Sub(old(applications), key).Put(PlaceholderKey, map[])]
                && news == old(news)[key := Sub(old(news), key).Put(PlaceholderKey, map[])]
      ensures r.Pass? ==> (PlaceholderKey in Sub(applications, ProcessKey(data).value).docs
                           && PlaceholderKey in Sub(news, ProcessKey(data).value).docs)
    {
      var key := ProcessKey(data);
      if key.None? {
        return Fail(InvalidId);
      }
      var id := key.value;
      var existing := GetProcess(processes, id);
      if existing.Some? {
        return Fail(DuplicateProcess(id));
      }
      processes := processes.Put(id, ProcessRecord(data, id, stamp));
      SubValid(applications, id);
      applications := applications[id := Sub(applications, id).Put(PlaceholderKey, map[])];
      SubValid(news, id);
      news := news[id := Sub(news, id).Put(PlaceholderKey, map[])];
      return Pass;
    }

    /** updateProcess: merges `data` into an existing process document. */
    method UpdateProcess(id: string, data: Doc) returns (r: Outcome<StoreError>)
      requires Valid()
      modifies this
      ensures Valid()
      ensures !IsDocId(id) ==> r == Fail(InvalidId) && unchanged(this)
      ensures IsDocId(id) && id !in old(processes.docs) ==> r == Fail(NoDocumentToUpdate) && unchanged(this)
      ensures IsDocId(id) && id in old(processes.docs) ==>
                && r == Pass
                && processes == old(processes).Put(id, old(processes.docs[id]) + data)
                && applications == old(applications) && news == old(news)
    {
      if !IsDocId(id) {
        return Fail(InvalidId);
      }
      if id !in processes.docs {
        return Fail(NoDocumentToUpdate);
      }
      processes := processes.Put(id, processes.docs[id] + data);
      return Pass;
    }

    /**
     * deleteProcess: refused while the process has applications; otherwise
     * one batch deletes the two placeholders and the process document.
     */
    method DeleteProcess(id: string) returns (r: Outcome<StoreError>)
      requires Valid()
      modifies this
      ensures Valid()
      ensures !IsDocId(id) ==> r == Fail(InvalidId) && unchanged(this)
      ensures IsDocId(id) && HasApplications(Sub(old(applications), id)) ==>
                r == Fail(ProcessHasApplications) && unchanged(this)
      ensures IsDocId(id) && !HasApplications(Sub(old(applications), id)) ==>
                && r == Pass
                && processes == old(processes).Delete(id)
                && applications == old(applications)[id := Sub(old(applications), id).Delete(PlaceholderKey)]
                && news == old(news)[id := Sub(old(news), id).Delete(PlaceholderKey)]
      ensures r.Pass? ==> id !in processes.docs && Sub(applications, id).docs == map[]
    {
      if !IsDocId(id) {
        return Fail(InvalidId);
      }
      SubValid(applications, id);
      var hasApplications := HasApplications(Sub(applications, id));
      if hasApplications {
        return Fail(ProcessHasApplications);
      }
      SubValid(news, id);
      DeletionEmptiesApplications(Sub(applications, id));
      applications := applications[id := Sub(applications, id).Delete(PlaceholderKey)];
      news := news[id := Sub(news, id).Delete(PlaceholderKey)];
      processes := processes.Delete(id);
      return Pass;
    }

    /**
     * addApplication: writes the application under the applicant's uid,
     * replacing any earlier one by the same user.
     */
    method AddApplication(pid: string, data: Doc, name: Value, uid: string, userEmail: Value, stamp: nat)
      returns (r: Outcome<StoreError>)
      requires Valid()
      modifies this
      ensures Valid()
      ensures !IsDocId(pid) || !IsDocId(uid) ==> r == Fail(InvalidId) && unchanged(this)
      ensures IsDocId(pid) && IsDocId(uid) ==>
                && r == Pass
                && applications == old(applications)[pid := Sub(old(applications), pid).Put(uid, ApplicationRecord(data, name, uid, userEmail, stamp))]
                && processes == old(processes) && news == old(news)
      ensures r.Pass? ==> UserHasApplication(Sub(applications, pid), uid) == Success(true)
    {
      if !IsDocId(pid) || !IsDocId(uid) {
        return Fail(InvalidId);
      }
      SubValid(applications, pid);
      applications := applications[pid := Sub(applications, pid).Put(uid, ApplicationRecord(data, name, uid, userEmail, stamp))];
      return Pass;
    }

    /** updateApplicationStatus: sets only `status` on one existing application. */
    method UpdateApplicationStatus(pid: string, aid: string, status: Value) returns (r: Outcome<StoreError>)
      requires Valid()
      modifies this
      ensures Valid()
      ensures !IsDocId(pid) || !IsDocId(aid) ==> r == Fail(InvalidId) && unchanged(this)
      ensures IsDocId(pid) && IsDocId(aid) && aid !in Sub(old(applications), pid).docs ==>
                r == Fail(NoDocumentToUpdate) && unchanged(this)
      ensures IsDocId(pid) && IsDocId(aid) && aid in Sub(old(applications), pid).docs ==>
                var before := Sub(old(applications), pid);
                && r == Pass
                && applications == old(applications)[pid := before.Put(aid, before.docs[aid]["status" := status])]
                && processes == old(processes) && news == old(news)
    {
      if !IsDocId(pid) || !IsDocId(aid) {
        return Fail(InvalidId);
      }
      var apps := Sub(applications, pid);
      if aid !in apps.docs {
        return Fail(NoDocumentToUpdate);
      }
      SubValid(applications, pid);
      applications := applications[pid := apps.Put(aid, apps.docs[aid]["status" := status])];
      return Pass;
    }

    /** deleteApplication: removes one application; a missing one is no error. */
    method DeleteApplication(pid: string, aid: string) returns (r: Outcome<StoreError>)
      requires Valid()
      modifies this
      ensures Valid()
      ensures !IsDocId(pid) || !IsDocId(aid) ==> r == Fail(InvalidId) && unchanged(this)
      ensures IsDocId(pid) && IsDocId(aid) ==>
                && r == Pass
                && applications == old(applications)[pid := Sub(old(applications), pid).Delete(aid)]
                && processes == old(processes) && news == old(news)
    {
      if !IsDocId(pid) || !IsDocId(aid) {
        return Fail(InvalidId);
      }
      SubValid(applications, pid);
      applications := applications[pid := Sub(applications, pid).Delete(aid)];
      return Pass;
    }

    /**
     * addProcessNews: adds the item under the id `addDoc` generates, which
     * no item of that process has yet, stamped with its publisher and
     * creation time.
     */
    method AddProcessNews(pid: string, publisherName: Value, data: Doc, newId: AutoId, stamp: nat)
      returns (r: Outcome<StoreError>)
      requires Valid()
      requires newId !in Sub(news, pid).docs
      modifies this
      ensures Valid()
      ensures !IsDocId(pid) ==> r == Fail(InvalidId) && unchanged(this)
      ensures IsDocId(pid) ==>
                && r == Pass
                && news == old(news)[pid := Sub(old(news), pid).Put(newId, NewsRecord(data, publisherName, stamp))]
                && processes == old(processes) && applications == old(applications)
      ensures r.Pass? ==> (PlaceholderKey in Sub(news, pid).docs <==> PlaceholderKey in Sub(old(news), pid).docs)
    {
      if !IsDocId(pid) {
        return Fail(InvalidId);
      }
      AutoIdIsNotPlaceholder(newId);
      SubValid(news, pid);
      news := news[pid := Sub(news, pid).Put(newId, NewsRecord(data, publisherName, stamp))];
      return Pass;
    }

    /** updateProcessNews: merges `data` into an existing item and stamps `updatedAt`. */
    method UpdateProcessNews(pid: string, newsId: string, data: Doc, stamp: nat) returns (r: Outcome<StoreError>)
      requires Valid()
      modifies this
      ensures Valid()
      ensures !IsDocId(pid) || !IsDocId(newsId) ==> r == Fail(InvalidId) && unchanged(this)
      ensures IsDocId(pid) && IsDocId(newsId) && newsId !in Sub(old(news), pid).docs ==>
                r == Fail(NoDocumentToUpdate) && unchanged(this)
      ensures IsDocId(pid) && IsDocId(newsId) && newsId in Sub(old(news), pid).docs ==>
                var before := Sub(old(news), pid);
                && r == Pass
                && news == old(news)[pid := before.Put(newsId, UpdatedNews(before.docs[newsId], data, stamp))]
                && processes == old(processes) && applications == old(applications)
    {
      if !IsDocId(pid) || !IsDocId(newsId) {
        return Fail(InvalidId);
      }
      var items := Sub(news, pid);
      if newsId !in items.docs {
        return Fail(NoDocumentToUpdate);
      }
      SubValid(news, pid);
      news := news[pid := items.Put(newsId, UpdatedNews(items.docs[newsId], data, stamp))];
      return Pass;
    }

    /** deleteProcessNews: removes one item; a missing one is no error. */
    method DeleteProcessNews(pid: string, newsId: string) returns (r: Outcome<StoreError>)
      requires Valid()
      modifies this
      ensures Valid()
      ensures !IsDocId(pid) || !IsDocId(newsId) ==> r == Fail(InvalidId) && unchanged(this)
      ensures IsDocId(pid) && IsDocId(newsId) ==>
                && r == Pass
                && news == old(news)[pid := Sub(old(news), pid).Delete(newsId)]
                && processes == old(processes) && applications == old(applications)
    {
      if !IsDocId(pid) || !IsDocId(newsId) {
        return Fail(InvalidId);
      }
      SubValid(news, pid);
      news := news[pid := Sub(news, pid).Delete(newsId)];
      return Pass;
    }

    /**
     * getProcessesWithUserApplications: scans the processes and keeps, in
     * scan order, each one whose applications hold a document named `uid`.
     * The first per-process query is where an unusable uid throws, so with
     * no processes at all the answer is an empty list.
     */
    method GetProcessesWithUserApplications(uid: string) returns (r: Result<seq<Doc>, StoreError>)
      requires Valid()
      ensures !IsDocId(uid) ==> r == if processes.ids == [] then Success([]) else Failure(InvalidId)
      ensures IsDocId(uid) ==> r == Success(ScanRecords(processes, UserProcessKeys(processes, applications, uid)))
    {
      var ids := processes.ids;
      var found: seq<Doc> := [];
      var i := 0;
      while i < |ids|
        invariant 0 <= i <= |ids|
        invariant i > 0 ==> IsDocId(uid)
        invariant !IsDocId(uid) ==> found == []
        invariant IsDocId(uid) ==> found == ScanRecords(processes, Filter(ids[..i], HoldsApplicationOf(applications, uid)))
      {
        var k := ids[i];
        SubValid(applications, k);
        var has := UserHasApplication(Sub(applications, k), uid);
        if has.Failure? {
          return Failure(has.error);
        }
        ScanFilterStep(processes, i, HoldsApplicationOf(applications, uid));
        if has.value {
          found := found + [WithKey(k, processes.docs[k])];
        }
        i := i + 1;
      }
      assert ids[..i] == ids;
      return Success(found);
    }
  }
}
