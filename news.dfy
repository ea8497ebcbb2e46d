/**
 * Reads over a process's "news" sub-collection: the point lookup and the
 * listing, which skips the placeholder and puts later `date`s first.
 */
module News {
  import opened Wrappers
  import opened StringOrder
  import opened Documents

  /** The `date` of a news item, when it holds a date string. */
  function DateOf(d: Doc): (r: Option<string>)
    ensures r.Some? <==> "date" in d && d["date"].Str?
    ensures r.Some? ==> r.value == d["date"].s
  {
    if "date" in d && d["date"].Str? then Some(d["date"].s) else None
  }

  /**
   * The comparator `new Date(b.date) - new Date(a.date)` puts `a` ahead of
   * `b` exactly when both items are dated and `a`'s date is the later one;
   * an undated item compares as NaN, which the sort takes as "equal".
   */
  predicate Later(a: Doc, b: Doc) {
    DateOf(a).Some? && DateOf(b).Some? && Below(DateOf(b).value, DateOf(a).value)
  }

  lemma LaterIrreflexive(a: Doc)
    ensures !Later(a, a)
  {
    if DateOf(a).Some? {
      BelowIrreflexive(DateOf(a).value);
    }
  }

  /** An item not later than `y` is not later than anything `y` is behind. */
  lemma NotLaterStep(z: Doc, x: Doc, y: Doc)
    requires Later(x, y) && !Later(z, y)
    ensures !Later(z, x)
  {
    if DateOf(z).Some? {
      var dz, dy, dx := DateOf(z).value, DateOf(y).value, DateOf(x).value;
      AtMostIffNotBelow(dz, dy);
      AtMostBelowTransitive(dz, dy, dx);
      BelowAsymmetric(dz, dx);
    }
  }

  /** No item is placed after one it is later than. */
  ghost predicate LatestFirst(s: seq<Doc>) {
    forall i, j :: 0 <= i < j < |s| ==> !Later(s[j], s[i])
  }

  /**
   * Inserts `x` into a sorted list ahead of the first item it is later
   * than, so that it stays behind every item it ties with.
   */
  function Insert(x: Doc, s: seq<Doc>): seq<Doc>
  {
    if s == [] then [x]
    else if Later(x, s[0]) then [x] + s
    else [s[0]] + Insert(x, s[1..])
  }

  /** Insertion adds exactly the one item. */
  lemma {:induction false} InsertPermutes(x: Doc, s: seq<Doc>)
    ensures multiset(Insert(x, s)) == multiset(s) + multiset{x}
  {
    if s != [] && !Later(x, s[0]) {
      InsertPermutes(x, s[1..]);
      assert s == [s[0]] + s[1..];
    }
  }

  /** An item ahead of `[y] + s` that `y` is not later than stays ahead of it. */
  lemma PrependKeepsLatestFirst(y: Doc, s: seq<Doc>)
    requires LatestFirst(s)
    requires forall z :: z in s ==> !Later(z, y)
    ensures LatestFirst([y] + s)
  {
    var t := [y] + s;
    forall i, j | 0 <= i < j < |t| ensures !Later(t[j], t[i]) {
      assert t[j] == s[j - 1];
      if i > 0 {
        assert t[i] == s[i - 1];
      } else {
        assert t[j] in s;
      }
    }
  }

  lemma {:induction false} InsertKeepsLatestFirst(x: Doc, s: seq<Doc>)
    requires LatestFirst(s)
    ensures LatestFirst(Insert(x, s))
  {
    if s == [] {
    } else if Later(x, s[0]) {
      forall z | z in s ensures !Later(z, x) {
        var k :| 0 <= k < |s| && s[k] == z;
        if k == 0 {
          LaterIrreflexive(z);
        } else {
          assert !Later(s[k], s[0]);
        }
        NotLaterStep(z, x, s[0]);
      }
      PrependKeepsLatestFirst(x, s);
    } else {
      var tail := s[1..];
      assert LatestFirst(tail) by {
        forall i, j | 0 <= i < j < |tail| ensures !Later(tail[j], tail[i]) {
          assert tail[i] == s[i + 1] && tail[j] == s[j + 1];
        }
      }
      InsertKeepsLatestFirst(x, tail);
      InsertPermutes(x, tail);
      var rest := Insert(x, tail);
      forall z | z in rest ensures !Later(z, s[0]) {
        assert z in multiset(rest);
        if z != x {
          assert z in multiset(tail);
          var k :| 0 <= k < |tail| && tail[k] == z;
          assert s[k + 1] == z;
        }
      }
      PrependKeepsLatestFirst(s[0], rest);
    }
  }

  /** Array.prototype.sort with the news comparator, as a stable insertion sort. */
  function Sort(s: seq<Doc>): seq<Doc>
  {
    if s == [] then [] else Insert(s[|s| - 1], Sort(s[..|s| - 1]))
  }

  /** The sorted list is a permutation of the input. */
  lemma {:induction false} SortPermutes(s: seq<Doc>)
    ensures multiset(Sort(s)) == multiset(s)
  {
    if s != [] {
      var init, last := s[..|s| - 1], s[|s| - 1];
      SortPermutes(init);
      InsertPermutes(last, Sort(init));
      assert s == init + [last];
    }
  }

  /** No item of the sorted list is behind one it is later than. */
  lemma {:induction false} SortIsLatestFirst(s: seq<Doc>)
    ensures LatestFirst(Sort(s))
  {
    if s != [] {
      var init := s[..|s| - 1];
      SortIsLatestFirst(init);
      InsertKeepsLatestFirst(s[|s| - 1], Sort(init));
    }
  }

  ghost predicate AllDated(s: seq<Doc>) {
    forall d :: d in s ==> DateOf(d).Some?
  }

  ghost predicate NoneDated(s: seq<Doc>) {
    forall i :: 0 <= i < |s| ==> DateOf(s[i]).None?
  }

  /** Every item is dated, and no date is later than one ahead of it. */
  ghost predicate DatesDescending(r: seq<Doc>) {
    && AllDated(r)
    && forall i, j :: 0 <= i < j < |r| ==> AtMost(DateOf(r[j]).value, DateOf(r[i]).value)
  }

  /** When every item carries a date, the listing runs from the latest date to the earliest. */
  lemma SortedByDateDescending(s: seq<Doc>)
    requires AllDated(s)
    ensures DatesDescending(Sort(s))
  {
    var r := Sort(s);
    SortPermutes(s);
    SortIsLatestFirst(s);
    assert AllDated(r) by {
      forall d | d in r ensures DateOf(d).Some? {
        assert d in multiset(s);
      }
    }
    forall i, j | 0 <= i < j < |r| ensures AtMost(DateOf(r[j]).value, DateOf(r[i]).value) {
      OrderedPair(r, i, j);
    }
  }

  lemma OrderedPair(r: seq<Doc>, i: int, j: int)
    requires AllDated(r) && LatestFirst(r)
    requires 0 <= i < j < |r|
    ensures AtMost(DateOf(r[j]).value, DateOf(r[i]).value)
  {
    assert r[i] in r && r[j] in r;
    assert !Later(r[j], r[i]);
    AtMostIffNotBelow(DateOf(r[j]).value, DateOf(r[i]).value);
  }

  lemma {:induction false} InsertUndated(x: Doc, s: seq<Doc>)
    requires DateOf(x).None?
    ensures Insert(x, s) == s + [x]
  {
    if s != [] {
      assert !Later(x, s[0]);
      assert Insert(x, s) == [s[0]] + Insert(x, s[1..]);
      InsertUndated(x, s[1..]);
      assert [s[0]] + (s[1..] + [x]) == s + [x];
    }
  }

  /** When no item carries a date, the listing keeps the scan order. */
  lemma {:induction false} UndatedKeepScanOrder(s: seq<Doc>)
    requires NoneDated(s)
    ensures Sort(s) == s
  {
    if s != [] {
      var init, last := s[..|s| - 1], s[|s| - 1];
      assert NoneDated(init) by {
        forall i | 0 <= i < |init| ensures DateOf(init[i]).None? {
          assert init[i] == s[i];
        }
      }
      UndatedKeepScanOrder(init);
      InsertUndated(last, init);
      assert s == init + [last];
    }
  }

  /** A listed item carries, as `id`, the key of a real news item. */
  predicate HasNewsId(news: Collection, d: Doc) {
    "id" in d && d["id"].Str? && d["id"].s in news.docs && d["id"].s != PlaceholderKey
  }

  /** Every record of a scan of real news items carries its key as `id`. */
  lemma ScannedNewsHaveIds(news: Collection, keys: seq<string>)
    requires forall k :: k in keys ==> k in news.docs && k != PlaceholderKey
    ensures forall d :: d in ScanRecords(news, keys) ==> HasNewsId(news, d)
  {
    var scanned := ScanRecords(news, keys);
    forall d | d in scanned ensures HasNewsId(news, d) {
      var j :| 0 <= j < |scanned| && scanned[j] == d;
      assert keys[j] in keys;
    }
  }

  /** Sorting keeps a property every item has. */
  lemma SortedNewsHaveIds(news: Collection, scanned: seq<Doc>)
    requires forall d :: d in scanned ==> HasNewsId(news, d)
    ensures forall i :: 0 <= i < |Sort(scanned)| ==> HasNewsId(news, Sort(scanned)[i])
  {
    var r := Sort(scanned);
    SortPermutes(scanned);
    forall i | 0 <= i < |r| ensures HasNewsId(news, r[i]) {
      assert r[i] in multiset(scanned);
    }
  }

  /**
   * getProcessNews: each kept item as `{...data, id}`, sorted latest first.
   * No item of the listing is the placeholder.
   */
  function GetProcessNews(news: Collection): (r: seq<Doc>)
    requires news.Valid()
    ensures multiset(r) == multiset(ScanRecords(news, ListedKeys(news)))
    ensures LatestFirst(r)
    ensures forall i :: 0 <= i < |r| ==> HasNewsId(news, r[i])
  {
    var scanned := ScanRecords(news, ListedKeys(news));
    ScannedNewsHaveIds(news, ListedKeys(news));
    SortedNewsHaveIds(news, scanned);
    SortPermutes(scanned);
    SortIsLatestFirst(scanned);
    Sort(scanned)
  }

  /** getSpecificProcessNews: the item with its key as `id`, or "Aviso não encontrados". */
  function GetSpecificProcessNews(news: Collection, newsId: string): (r: Result<Doc, StoreError>)
    ensures r.Failure? <==> !IsDocId(newsId) || newsId !in news.docs
    ensures r.Failure? ==> r.error == if IsDocId(newsId) then NewsNotFound else InvalidId
    ensures r.Success? ==> r.value.Keys == news.docs[newsId].Keys + {"id"} && r.value["id"] == Str(newsId)
    ensures r.Success? ==> forall f :: f in news.docs[newsId] && f != "id" ==> r.value[f] == news.docs[newsId][f]
  {
    if !IsDocId(newsId) then Failure(InvalidId)
    else if newsId !in news.docs then Failure(NewsNotFound)
    else Success(WithKey(newsId, news.docs[newsId]))
  }

  /** The record addProcessNews writes: `{...data, publisherName, createdAt}`. */
  function NewsRecord(data: Doc, publisherName: Value, stamp: nat): (r: Doc)
    ensures r.Keys == data.Keys + {"publisherName", "createdAt"}
    ensures r["publisherName"] == publisherName && r["createdAt"] == Stamp(stamp)
    ensures forall f :: f in data && f !in {"publisherName", "createdAt"} ==> r[f] == data[f]
  {
    data["publisherName" := publisherName]["createdAt" := Stamp(stamp)]
  }

  /** The document updateProcessNews leaves: the old fields merged with `{...data, updatedAt}`. */
  function UpdatedNews(current: Doc, data: Doc, stamp: nat): (r: Doc)
    ensures r.Keys == current.Keys + data.Keys + {"updatedAt"}
    ensures r["updatedAt"] == Stamp(stamp)
    ensures forall f :: f in data && f != "updatedAt" ==> r[f] == data[f]
    ensures forall f :: f in current && f !in data && f != "updatedAt" ==> r[f] == current[f]
  {
    current + data["updatedAt" := Stamp(stamp)]
  }

  /** The 20-character ids addDoc generates. */
  predicate IsAutoId(s: string) {
    |s| == 20 && forall i :: 0 <= i < |s| ==> ('a' <= s[i] <= 'z' || 'A' <= s[i] <= 'Z' || '0' <= s[i] <= '9')
  }

  type AutoId = s: string | IsAutoId(s) witness "AAAAAAAAAAAAAAAAAAAA"

  /** A generated id is a usable document id and never the placeholder. */
  lemma AutoIdIsNotPlaceholder(s: AutoId)
    ensures IsDocId(s) && s != PlaceholderKey
  {
    assert s[0] in s;
    assert forall i :: 0 <= i < |s| ==> s[i] != '/';
  }
}
