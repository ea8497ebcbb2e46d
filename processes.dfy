/**
 * Reads over the "processes" collection: the point lookup, the full scan,
 * and the two lifecycle queries that split processes into those open for
 * applications on a given day and those that are not.
 */
module Processes {
  import opened Wrappers
  import opened StringOrder
  import opened Documents

  /** getProcess: the document with its key as `id`, or null when absent. */
  function GetProcess(processes: Collection, id: string): (r: Option<Doc>)
    ensures r.Some? <==> id in processes.docs
    ensures r.Some? ==> r.value.Keys == processes.docs[id].Keys + {"id"} && r.value["id"] == Str(id)
    ensures r.Some? ==> forall f :: f in processes.docs[id] && f != "id" ==> r.value[f] == processes.docs[id][f]
  {
    if id in processes.docs then Some(WithKey(id, processes.docs[id])) else None
  }

  /** getProcesses: every process, in document-id order. */
  function GetProcesses(processes: Collection): (r: seq<Doc>)
    requires processes.Valid()
    ensures |r| == |processes.ids| == |processes.docs|
    ensures forall i :: 0 <= i < |r| ==> "id" in r[i] && r[i]["id"] == Str(processes.ids[i])
    ensures forall i :: 0 <= i < |r| ==> r[i].Keys == processes.docs[processes.ids[i]].Keys + {"id"}
    ensures forall i, f :: 0 <= i < |r| && f in processes.docs[processes.ids[i]] && f != "id" ==>
              r[i][f] == processes.docs[processes.ids[i]][f]
  {
    StrictlyIncreasingDistinct(processes.ids);
    assert |processes.docs| == |processes.ids| by {
      DistinctCardinality(processes.ids);
      assert processes.docs.Keys == set k | k in processes.ids;
    }
    ScanRecords(processes, processes.ids)
  }

  lemma {:induction false} DistinctCardinality(s: seq<string>)
    requires Distinct(s)
    ensures |set k | k in s| == |s|
  {
    if s != [] {
      DistinctCardinality(s[1..]);
      assert (set k | k in s) == (set k | k in s[1..]) + {s[0]};
      assert s[0] !in s[1..];
    }
  }

  // The where-clauses of the lifecycle queries. An inequality filter
  // matches only documents whose field holds a string.

  /** `startDate <= today` */
  predicate StartsBy(d: Doc, today: string) {
    "startDate" in d && d["startDate"].Str? && AtMost(d["startDate"].s, today)
  }

  /** `endDate >= today` */
  predicate EndsFrom(d: Doc, today: string) {
    "endDate" in d && d["endDate"].Str? && AtMost(today, d["endDate"].s)
  }

  predicate Active(d: Doc, today: string) {
    StartsBy(d, today) && EndsFrom(d, today)
  }

  /** `endDate < today` */
  predicate Ended(d: Doc, today: string) {
    "endDate" in d && d["endDate"].Str? && Below(d["endDate"].s, today)
  }

  /** `startDate > today` */
  predicate NotStarted(d: Doc, today: string) {
    "startDate" in d && d["startDate"].Str? && Below(today, d["startDate"].s)
  }

  /** Both dates are present as strings. */
  predicate Dated(d: Doc) {
    "startDate" in d && d["startDate"].Str? && "endDate" in d && d["endDate"].Str?
  }

  /** Both dates present, and the start not after the end. */
  predicate WellDated(d: Doc) {
    Dated(d) && AtMost(d["startDate"].s, d["endDate"].s)
  }

  ghost predicate AllWellDated(c: Collection) {
    forall k :: k in c.docs ==> WellDated(c.docs[k])
  }

  ghost predicate AllDated(c: Collection) {
    forall k :: k in c.docs ==> Dated(c.docs[k])
  }

  /** The single range query of getActiveProcesses. */
  function ActiveKeys(c: Collection, today: string): (r: seq<string>)
    requires c.Valid()
    ensures forall k :: k in r <==> k in c.docs && Active(c.docs[k], today)
    ensures StrictlyIncreasing(r)
  {
    Filter(c.ids, k => k in c.docs && Active(c.docs[k], today))
  }

  /** The first query of getInactiveProcesses. */
  function EndedKeys(c: Collection, today: string): (r: seq<string>)
    requires c.Valid()
    ensures forall k :: k in r <==> k in c.docs && Ended(c.docs[k], today)
    ensures StrictlyIncreasing(r)
  {
    Filter(c.ids, k => k in c.docs && Ended(c.docs[k], today))
  }

  /** The second query of getInactiveProcesses. */
  function NotStartedKeys(c: Collection, today: string): (r: seq<string>)
    requires c.Valid()
    ensures forall k :: k in r <==> k in c.docs && NotStarted(c.docs[k], today)
    ensures StrictlyIncreasing(r)
  {
    Filter(c.ids, k => k in c.docs && NotStarted(c.docs[k], today))
  }

  /** The ended processes followed by the not-yet-started ones. */
  function InactiveKeys(c: Collection, today: string): (r: seq<string>)
    requires c.Valid()
    ensures forall k :: k in r <==> k in c.docs && (Ended(c.docs[k], today) || NotStarted(c.docs[k], today))
  {
    EndedKeys(c, today) + NotStartedKeys(c, today)
  }

  /**
   * getActiveProcesses(today): one `{id, ...data}` record per process open
   * on `today`, in key order, and no other.
   */
  function GetActiveProcesses(processes: Collection, today: string): (r: seq<Doc>)
    requires processes.Valid()
    ensures |r| == |ActiveKeys(processes, today)|
    ensures forall k :: k in processes.docs && Active(processes.docs[k], today) ==>
              KeyThenData(k, processes.docs[k]) in r
    ensures forall d :: d in r ==>
              exists k :: k in processes.docs && Active(processes.docs[k], today) && d == KeyThenData(k, processes.docs[k])
  {
    var keys := ActiveKeys(processes, today);
    QueryRecordsMembers(processes, keys);
    QueryRecords(processes, keys)
  }

  /**
   * getInactiveProcesses(today): the ended processes' records followed by
   * the not-yet-started ones', without de-duplication.
   */
  function GetInactiveProcesses(processes: Collection, today: string): (r: seq<Doc>)
    requires processes.Valid()
    ensures |r| == |EndedKeys(processes, today)| + |NotStartedKeys(processes, today)|
    ensures forall k :: k in processes.docs && (Ended(processes.docs[k], today) || NotStarted(processes.docs[k], today)) ==>
              KeyThenData(k, processes.docs[k]) in r
    ensures forall d :: d in r ==>
              exists k :: k in processes.docs && (Ended(processes.docs[k], today) || NotStarted(processes.docs[k], today))
                           && d == KeyThenData(k, processes.docs[k])
  {
    var ended, notStarted := EndedKeys(processes, today), NotStartedKeys(processes, today);
    QueryRecordsMembers(processes, ended);
    QueryRecordsMembers(processes, notStarted);
    QueryRecords(processes, ended) + QueryRecords(processes, notStarted)
  }

  /**
   * The inactive listing holds the ended processes' records first, in the
   * first query's order, then the not-started ones', in the second's.
   */
  lemma InactiveEndedFirst(processes: Collection, today: string)
    requires processes.Valid()
    ensures |GetInactiveProcesses(processes, today)| == |EndedKeys(processes, today)| + |NotStartedKeys(processes, today)|
    ensures forall i :: 0 <= i < |EndedKeys(processes, today)| ==>
              var k := EndedKeys(processes, today)[i];
              k in processes.docs && Ended(processes.docs[k], today)
              && GetInactiveProcesses(processes, today)[i] == KeyThenData(k, processes.docs[k])
    ensures forall i :: 0 <= i < |NotStartedKeys(processes, today)| ==>
              var k := NotStartedKeys(processes, today)[i];
              k in processes.docs && NotStarted(processes.docs[k], today)
              && GetInactiveProcesses(processes, today)[|EndedKeys(processes, today)| + i] == KeyThenData(k, processes.docs[k])
  {
    var ended, notStarted := EndedKeys(processes, today), NotStartedKeys(processes, today);
    var first, second := QueryRecords(processes, ended), QueryRecords(processes, notStarted);
    assert GetInactiveProcesses(processes, today) == first + second;
    forall i | 0 <= i < |ended|
      ensures ended[i] in processes.docs && Ended(processes.docs[ended[i]], today)
    {
      assert ended[i] in ended;
    }
    forall i | 0 <= i < |notStarted|
      ensures notStarted[i] in processes.docs && NotStarted(processes.docs[notStarted[i]], today)
      ensures (first + second)[|ended| + i] == second[i]
    {
      assert notStarted[i] in notStarted;
    }
  }

  /** A process open today was not ended and has started. */
  lemma ActiveIsNeitherEndedNorNotStarted(d: Doc, today: string)
    requires Active(d, today)
    ensures !Ended(d, today) && !NotStarted(d, today)
  {
    AtMostIffNotBelow(today, d["endDate"].s);
    AtMostIffNotBelow(d["startDate"].s, today);
  }

  /** No process is listed both as active and as inactive, whatever its dates. */
  lemma ActiveAndInactiveDisjoint(c: Collection, today: string)
    requires c.Valid()
    ensures forall k :: k in ActiveKeys(c, today) ==> k !in InactiveKeys(c, today)
  {
    forall k | k in ActiveKeys(c, today) ensures k !in InactiveKeys(c, today) {
      ActiveIsNeitherEndedNorNotStarted(c.docs[k], today);
    }
  }

  /** With its start not after its end, a process cannot be both ended and not started. */
  lemma EndedIsStarted(d: Doc, today: string)
    requires WellDated(d) && Ended(d, today)
    ensures !NotStarted(d, today)
  {
    AtMostBelowTransitive(d["startDate"].s, d["endDate"].s, today);
    BelowAsymmetric(d["startDate"].s, today);
  }

  /** getInactiveProcesses lists no process twice when every start is not after its end. */
  lemma InactiveHasNoDuplicates(c: Collection, today: string)
    requires c.Valid() && AllWellDated(c)
    ensures Distinct(InactiveKeys(c, today))
  {
    var e, n := EndedKeys(c, today), NotStartedKeys(c, today);
    StrictlyIncreasingDistinct(e);
    StrictlyIncreasingDistinct(n);
    forall k | k in e ensures k !in n {
      EndedIsStarted(c.docs[k], today);
    }
    DistinctConcat(e, n);
  }

  lemma DistinctConcat(a: seq<string>, b: seq<string>)
    requires Distinct(a) && Distinct(b)
    requires forall x :: x in a ==> x !in b
    ensures Distinct(a + b)
  {
    var r := a + b;
    forall i, j | 0 <= i < j < |r| ensures r[i] != r[j] {
      if j < |a| {
        assert r[i] == a[i] && r[j] == a[j];
      } else if i < |a| {
        assert r[i] == a[i] && r[j] == b[j - |a|];
        assert a[i] in a && b[j - |a|] in b;
      } else {
        assert r[i] == b[i - |a|] && r[j] == b[j - |a|];
      }
    }
  }

  /** A process with both dates set is active or inactive. */
  lemma DatedIsClassified(d: Doc, today: string)
    requires Dated(d)
    ensures Active(d, today) || Ended(d, today) || NotStarted(d, today)
  {
    AtMostIffNotBelow(today, d["endDate"].s);
    AtMostIffNotBelow(d["startDate"].s, today);
  }

  /**
   * When every process has both dates, with the start not after the end,
   * each process is in exactly one of the two listings, and in the inactive
   * listing only once.
   */
  lemma ProcessesArePartitioned(c: Collection, today: string)
    requires c.Valid() && AllWellDated(c)
    ensures forall k :: k in c.docs ==> (k in ActiveKeys(c, today) <==> k !in InactiveKeys(c, today))
    ensures Distinct(InactiveKeys(c, today))
  {
    ActiveAndInactiveDisjoint(c, today);
    InactiveHasNoDuplicates(c, today);
    forall k | k in c.docs ensures k in ActiveKeys(c, today) || k in InactiveKeys(c, today) {
      DatedIsClassified(c.docs[k], today);
    }
  }

  /**
   * The store itself does not keep `startDate <= endDate`: a process whose
   * start is after its end is, between the two dates, both ended and not
   * started, and getInactiveProcesses lists it twice.
   */
  lemma MisorderedProcessListedTwice(k: string, d: Doc, today: string)
    requires Dated(d) && Below(d["endDate"].s, today) && Below(today, d["startDate"].s)
    ensures var c := Collection(map[k := d], [k]);
            c.Valid() && InactiveKeys(c, today) == [k, k]
  {
    var c := Collection(map[k := d], [k]);
    assert c.Valid();
    FilterSingleton(k, x => x in c.docs && Ended(c.docs[x], today));
    FilterSingleton(k, x => x in c.docs && NotStarted(c.docs[x], today));
  }

  /** Dates that meet MisorderedProcessListedTwice: start 2024-05-10, end 2024-05-01, today 2024-05-05. */
  lemma MisorderedDatesExample()
    ensures Below("2024-05-01", "2024-05-05") && Below("2024-05-05", "2024-05-10")
  {
    EndBeforeToday();
    TodayBeforeStart();
  }

  lemma EndBeforeToday()
    ensures Below("2024-05-01", "2024-05-05")
  {
    var p := "2024-05-0";
    BelowAfterCommonPrefix(p, "1", "5");
    assert p + "1" == "2024-05-01";
    assert p + "5" == "2024-05-05";
  }

  lemma TodayBeforeStart()
    ensures Below("2024-05-05", "2024-05-10")
  {
    var p := "2024-05-";
    BelowAfterCommonPrefix(p, "05", "10");
    assert p + "05" == "2024-05-05";
    assert p + "10" == "2024-05-10";
  }

  lemma FilterSingleton(x: string, keep: string -> bool)
    ensures Filter([x], keep) == if keep(x) then [x] else []
  {
    FilterSnoc([], x, keep);
    assert [] + [x] == [x];
  }
}
