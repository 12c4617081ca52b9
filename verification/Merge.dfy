/** The k-way merge that drains a batch of memtables into one ascending run of entries. */
module Merges {
  import opened Counting
  import opened Keys
  import opened SkipLevels
  import opened SkipLists

  // An entry of the output, with the position of the list it came from.
  datatype Tagged = Tagged(entry: Entry, list: nat)

  // The list the scan settles on among the first n: the first one whose front key is least,
  // provided that key is below INT64_MAX; -1 when there is none.
  function Best(lists: seq<seq<Entry>>, n: nat): (m: int)
    requires n <= |lists|
    ensures -1 <= m < n
    ensures m >= 0 ==> lists[m] != [] && lists[m][0].key < INT64_MAX
  {
    if n == 0 then -1 else
    var b := Best(lists, n - 1);
    if FrontBelow(lists[n - 1], KeyAt(lists, b)) then n - 1 else b
  }

  predicate FrontBelow(es: seq<Entry>, key: int) {
    es != [] && es[0].key < key
  }

  // The least key seen so far: the front of list b, or INT64_MAX when no list was chosen.
  function KeyAt(lists: seq<seq<Entry>>, b: int): int {
    if 0 <= b < |lists| && lists[b] != [] then lists[b][0].key else INT64_MAX
  }

  // No front beats the best one, and no list before it matches it.
  lemma {:induction false} BestIsFirstLeast(lists: seq<seq<Entry>>, n: nat)
    requires n <= |lists|
    ensures var m := Best(lists, n);
            forall j :: 0 <= j < n && lists[j] != [] ==>
              if m < 0 then lists[j][0].key >= INT64_MAX
              else if j < m then lists[m][0].key < lists[j][0].key
              else lists[m][0].key <= lists[j][0].key
  {
    if n > 0 {
      BestIsFirstLeast(lists, n - 1);
    }
  }

  function Total(lists: seq<seq<Entry>>): nat {
    if lists == [] then 0 else |lists[0]| + Total(lists[1..])
  }

  lemma {:induction false} TotalPopped(lists: seq<seq<Entry>>, m: nat)
    requires m < |lists| && lists[m] != []
    ensures Total(lists[m := lists[m][1..]]) == Total(lists) - 1
  {
    var popped := lists[m := lists[m][1..]];
    if m == 0 {
      assert popped[1..] == lists[1..];
    } else {
      assert popped[1..] == lists[1..][m - 1 := lists[m][1..]];
      TotalPopped(lists[1..], m - 1);
    }
  }

  function Popped(lists: seq<seq<Entry>>, m: nat): (r: seq<seq<Entry>>)
    requires m < |lists| && lists[m] != []
    ensures Total(r) < Total(lists)
  {
    TotalPopped(lists, m);
    lists[m := lists[m][1..]]
  }

  // The merge as it runs: take the front of the best list until there is none.
  function KMerge(lists: seq<seq<Entry>>): seq<Tagged>
    decreases Total(lists)
  {
    var m := Best(lists, |lists|);
    if m < 0 then [] else [Tagged(lists[m][0], m)] + KMerge(Popped(lists, m))
  }

  function Untag(s: seq<Tagged>): (r: seq<Entry>)
    ensures |r| == |s| && forall i :: 0 <= i < |s| ==> r[i] == s[i].entry
  {
    if s == [] then [] else [s[0].entry] + Untag(s[1..])
  }

  ghost predicate AllSorted(lists: seq<seq<Entry>>) {
    forall j :: 0 <= j < |lists| ==> Sorted(lists[j])
  }

  // Ascending keys, equal keys in list order.
  ghost predicate Precedes(a: Tagged, b: Tagged) {
    a.entry.key < b.entry.key || (a.entry.key == b.entry.key && a.list < b.list)
  }

  ghost predicate MergeOrder(s: seq<Tagged>) {
    forall i, j :: 0 <= i < j < |s| ==> Precedes(s[i], s[j])
  }

  // The output entries that came from list j, in output order.
  function FromList(s: seq<Tagged>, j: nat): seq<Entry> {
    if s == [] then [] else (if s[0].list == j then [s[0].entry] else []) + FromList(s[1..], j)
  }

  // The entries of a list the merge can see: those with keys below INT64_MAX.
  function Visible(es: seq<Entry>): seq<Entry> {
    if es == [] then [] else (if es[0].key < INT64_MAX then [es[0]] else []) + Visible(es[1..])
  }

  // What the fronts of the lists bound.
  ghost predicate AfterFronts(lists: seq<seq<Entry>>, t: Tagged) {
    && t.list < |lists|
    && lists[t.list] != [] && lists[t.list][0].key <= t.entry.key
  }

  lemma {:induction false} MergeAfterFronts(lists: seq<seq<Entry>>)
    requires AllSorted(lists)
    ensures forall t :: t in KMerge(lists) ==> AfterFronts(lists, t)
    decreases Total(lists)
  {
    BestIsFirstLeast(lists, |lists|);
    var m := Best(lists, |lists|);
    if m >= 0 {
      var rest := Popped(lists, m);
      MergeAfterFronts(rest);
      forall t | t in KMerge(rest) ensures AfterFronts(lists, t) {
        assert AfterFronts(rest, t);
      }
    }
  }

  // The merge is stable: its output is in key order, ties in list order.
  lemma {:induction false} MergeIsOrdered(lists: seq<seq<Entry>>)
    requires AllSorted(lists)
    ensures MergeOrder(KMerge(lists))
    decreases Total(lists)
  {
    BestIsFirstLeast(lists, |lists|);
    var m := Best(lists, |lists|);
    if m >= 0 {
      var rest, first := Popped(lists, m), Tagged(lists[m][0], m);
      MergeIsOrdered(rest);
      MergeAfterFronts(rest);
      forall t | t in KMerge(rest) ensures Precedes(first, t) {
        assert AfterFronts(rest, t);
      }
    }
  }

  lemma {:induction false} InvisibleTail(es: seq<Entry>)
    requires Sorted(es) && es != [] && es[0].key >= INT64_MAX
    ensures Visible(es) == []
  {
    if |es| > 1 {
      InvisibleTail(es[1..]);
    }
  }

  // The merge drops, repeats and reorders nothing within a list, up to the sentinel.
  lemma {:induction false} MergeKeepsEachList(lists: seq<seq<Entry>>, j: nat)
    requires AllSorted(lists) && j < |lists|
    ensures FromList(KMerge(lists), j) == Visible(lists[j])
    decreases Total(lists)
  {
    BestIsFirstLeast(lists, |lists|);
    var m := Best(lists, |lists|);
    if m >= 0 {
      MergeKeepsEachList(Popped(lists, m), j);
    } else if lists[j] != [] {
      InvisibleTail(lists[j]);
    }
  }

  // What a stable merge of the visible entries is, said without an algorithm.
  ghost predicate IsStableMerge(s: seq<Tagged>, lists: seq<seq<Entry>>) {
    && MergeOrder(s)
    && (forall t :: t in s ==> t.list < |lists|)
    && forall j :: 0 <= j < |lists| ==> KeepsList(s, lists, j)
  }

  ghost predicate KeepsList(s: seq<Tagged>, lists: seq<seq<Entry>>, j: nat)
    requires j < |lists|
  {
    FromList(s, j) == Visible(lists[j])
  }

  // The code's merge is the stable merge, and there is only one.
  lemma {:induction false} MergeIsTheStableMerge(s: seq<Tagged>, lists: seq<seq<Entry>>)
    requires AllSorted(lists)
    ensures IsStableMerge(s, lists) <==> s == KMerge(lists)
  {
    if s == KMerge(lists) {
      MergeIsOrdered(lists);
      MergeAfterFronts(lists);
      forall t | t in s ensures t.list < |lists| {
        assert AfterFronts(lists, t);
      }
      forall j | 0 <= j < |lists| ensures KeepsList(s, lists, j) {
        MergeKeepsEachList(lists, j);
      }
    }
    if IsStableMerge(s, lists) {
      MergeIsUnique(s, lists);
    }
  }

  lemma {:induction false} MergeIsUnique(s: seq<Tagged>, lists: seq<seq<Entry>>)
    requires AllSorted(lists) && IsStableMerge(s, lists)
    ensures s == KMerge(lists)
    decreases |s|
  {
    var m := Best(lists, |lists|);
    if m >= 0 {
      FirstIsBest(s, lists, m);
      TailMeets(s, lists, m);
      MergeIsUnique(s[1..], Popped(lists, m));
    } else if s != [] {
      assert KeepsList(s, lists, s[0].list);
      NothingFront(lists, s[0].list);
      assert false;
    }
  }

  lemma {:induction false} FromListHas(s: seq<Tagged>, j: nat, e: Entry)
    requires e in FromList(s, j)
    ensures Tagged(e, j) in s
  {
    if !(s[0].list == j && s[0].entry == e) {
      FromListHas(s[1..], j, e);
      assert Tagged(e, j) in s[1..];
    }
  }

  lemma {:induction false} NothingFront(lists: seq<seq<Entry>>, j: nat)
    requires AllSorted(lists) && Best(lists, |lists|) < 0 && j < |lists|
    ensures Visible(lists[j]) == []
  {
    BestIsFirstLeast(lists, |lists|);
    if lists[j] != [] {
      InvisibleTail(lists[j]);
    }
  }

  lemma {:induction false} FirstIsBest(s: seq<Tagged>, lists: seq<seq<Entry>>, m: nat)
    requires AllSorted(lists) && IsStableMerge(s, lists)
    requires m < |lists| && m == Best(lists, |lists|)
    ensures s != [] && s[0] == Tagged(lists[m][0], m)
  {
    BestIsFirstLeast(lists, |lists|);
    assert forall k :: 0 < k < |s| ==> Precedes(s[0], s[k]);
    assert KeepsList(s, lists, m) && Visible(lists[m])[0] == lists[m][0];
    FromListHas(s, m, lists[m][0]);
    var j := s[0].list;
    assert KeepsList(s, lists, j) && FromList(s, j)[0] == s[0].entry;
    if lists[j][0].key >= INT64_MAX {
      InvisibleTail(lists[j]);
    }
    assert s[0].entry == lists[j][0];
  }

  lemma {:induction false} TailMeets(s: seq<Tagged>, lists: seq<seq<Entry>>, m: nat)
    requires AllSorted(lists) && IsStableMerge(s, lists) && s != []
    requires m < |lists| && lists[m] != [] && lists[m][0].key < INT64_MAX && s[0] == Tagged(lists[m][0], m)
    ensures AllSorted(Popped(lists, m)) && IsStableMerge(s[1..], Popped(lists, m))
    ensures s == [s[0]] + s[1..]
  {
    forall j | 0 <= j < |lists| ensures KeepsList(s[1..], Popped(lists, m), j) {
      var rest := FromList(s[1..], j);
      assert KeepsList(s, lists, j);
      if j == m {
        assert FromList(s, j) == [s[0].entry] + rest;
        assert rest == ([s[0].entry] + rest)[1..] == Visible(lists[m])[1..] == Visible(lists[m][1..]);
      } else {
        assert FromList(s, j) == rest;
      }
    }
  }

  // All entries of all lists, counted with multiplicity.
  ghost function Bag(lists: seq<seq<Entry>>): multiset<Entry> {
    if lists == [] then multiset{} else multiset(lists[0]) + Bag(lists[1..])
  }

  function VisibleLists(lists: seq<seq<Entry>>): (r: seq<seq<Entry>>)
    ensures |r| == |lists| && forall j :: 0 <= j < |lists| ==> r[j] == Visible(lists[j])
  {
    seq(|lists|, j requires 0 <= j < |lists| => Visible(lists[j]))
  }

  lemma {:induction false} BagPopped(lists: seq<seq<Entry>>, m: nat)
    requires m < |lists| && lists[m] != []
    ensures Bag(lists) == Bag(Popped(lists, m)) + multiset{lists[m][0]}
  {
    var popped := Popped(lists, m);
    if m == 0 {
      assert popped[1..] == lists[1..];
      BagOfTail(lists[0]);
    } else {
      assert popped[0] == lists[0];
      PoppedTail(lists, m);
      BagPopped(lists[1..], m - 1);
    }
  }

  lemma {:induction false} BagOfTail(es: seq<Entry>)
    requires es != []
    ensures multiset(es) == multiset{es[0]} + multiset(es[1..])
  {
    assert es == [es[0]] + es[1..];
  }

  lemma {:induction false} PoppedTail(lists: seq<seq<Entry>>, m: nat)
    requires 0 < m < |lists| && lists[m] != []
    ensures Popped(lists, m)[1..] == Popped(lists[1..], m - 1)
  {
  }

  lemma {:induction false} VisiblePopped(lists: seq<seq<Entry>>, m: nat)
    requires m < |lists| && lists[m] != [] && lists[m][0].key < INT64_MAX
    ensures Visible(lists[m]) != [] && Visible(lists[m])[0] == lists[m][0]
    ensures VisibleLists(Popped(lists, m)) == Popped(VisibleLists(lists), m)
  {
    assert Visible(lists[m])[1..] == Visible(lists[m][1..]);
  }

  lemma {:induction false} MergeStep(lists: seq<seq<Entry>>, m: nat)
    requires m < |lists| && m == Best(lists, |lists|)
    ensures Untag(KMerge(lists)) == [lists[m][0]] + Untag(KMerge(Popped(lists, m)))
  {
  }

  // The output is exactly the visible entries, each as often as the lists hold it.
  lemma {:induction false} MergeKeepsBag(lists: seq<seq<Entry>>)
    requires AllSorted(lists)
    ensures multiset(Untag(KMerge(lists))) == Bag(VisibleLists(lists))
    decreases Total(lists)
  {
    var m := Best(lists, |lists|);
    if m >= 0 {
      MergeKeepsBag(Popped(lists, m));
      MergeStep(lists, m);
      BagOfTail([lists[m][0]] + Untag(KMerge(Popped(lists, m))));
      VisiblePopped(lists, m);
      BagPopped(VisibleLists(lists), m);
    } else {
      NothingVisible(lists);
    }
  }

  lemma {:induction false} NothingVisible(lists: seq<seq<Entry>>)
    requires AllSorted(lists) && Best(lists, |lists|) < 0
    ensures Bag(VisibleLists(lists)) == multiset{} && Untag(KMerge(lists)) == []
  {
    forall j | 0 <= j < |lists| ensures Visible(lists[j]) == [] {
      NothingFront(lists, j);
    }
    EmptyBag(VisibleLists(lists));
  }

  lemma {:induction false} EmptyBag(lists: seq<seq<Entry>>)
    requires forall j :: 0 <= j < |lists| ==> lists[j] == []
    ensures Bag(lists) == multiset{}
  {
    if lists != [] {
      EmptyBag(lists[1..]);
    }
  }

  lemma {:induction false} InBag(lists: seq<seq<Entry>>, e: Entry)
    ensures e in Bag(lists) <==> exists j :: 0 <= j < |lists| && e in lists[j]
  {
    if lists != [] {
      InBag(lists[1..], e);
      assert forall j :: 0 <= j < |lists| - 1 ==> lists[1..][j] == lists[j + 1];
    }
  }

  lemma {:induction false} InVisible(es: seq<Entry>, e: Entry)
    ensures e in Visible(es) <==> e in es && e.key < INT64_MAX
  {
    if es != [] {
      InVisible(es[1..], e);
    }
  }

  // Every list is drained to the end exactly when every key is below the sentinel.
  lemma {:induction false} MergeDrainsAll(lists: seq<seq<Entry>>)
    requires AllSorted(lists)
    ensures multiset(Untag(KMerge(lists))) == Bag(lists)
       <==> forall j, i :: 0 <= j < |lists| && 0 <= i < |lists[j]| ==> lists[j][i].key < INT64_MAX
  {
    MergeKeepsBag(lists);
    if multiset(Untag(KMerge(lists))) == Bag(lists) {
      forall j, i | 0 <= j < |lists| && 0 <= i < |lists[j]| ensures lists[j][i].key < INT64_MAX {
        var e := lists[j][i];
        InBag(lists, e);
        InBag(VisibleLists(lists), e);
        var k :| 0 <= k < |lists| && e in VisibleLists(lists)[k];
        InVisible(lists[k], e);
      }
    }
    if forall j, i :: 0 <= j < |lists| && 0 <= i < |lists[j]| ==> lists[j][i].key < INT64_MAX {
      forall j | 0 <= j < |lists| ensures Visible(lists[j]) == lists[j] {
        AllVisible(lists[j]);
      }
      assert VisibleLists(lists) == lists;
    }
  }

  lemma {:induction false} AllVisible(es: seq<Entry>)
    requires forall i :: 0 <= i < |es| ==> es[i].key < INT64_MAX
    ensures Visible(es) == es
  {
    if es != [] {
      AllVisible(es[1..]);
    }
  }

  // Dropping an exhausted list changes no entry of the output.
  function Without<T>(s: seq<T>, e: nat): (r: seq<T>)
    requires e < |s|
    ensures |r| == |s| - 1 && forall i :: 0 <= i < |r| ==> r[i] == if i < e then s[i] else s[i + 1]
  {
    s[..e] + s[e + 1..]
  }

  function Shifted(b: int, e: nat): int {
    if b > e then b - 1 else b
  }

  lemma {:induction false} BestWithout(lists: seq<seq<Entry>>, e: nat, n: nat)
    requires e < n <= |lists| && lists[e] == []
    ensures Best(Without(lists, e), n - 1) == Shifted(Best(lists, n), e)
  {
    var w := Without(lists, e);
    if n - 1 == e {
      BestAgrees(lists, w, e);
      BestStep(lists, n);
    } else {
      BestWithout(lists, e, n - 1);
      SameKeyAt(lists, e, Best(lists, n - 1));
      assert w[n - 2] == lists[n - 1];
      BestStep(lists, n);
      BestStep(w, n - 1);
    }
  }

  lemma {:induction false} SameKeyAt(lists: seq<seq<Entry>>, e: nat, b: int)
    requires e < |lists| && lists[e] == [] && b < |lists| && (b >= 0 ==> lists[b] != [])
    ensures KeyAt(Without(lists, e), Shifted(b, e)) == KeyAt(lists, b)
  {
    assert b >= 0 ==> Without(lists, e)[Shifted(b, e)] == lists[b];
  }

  lemma {:induction false} BestStep(lists: seq<seq<Entry>>, n: nat)
    requires 0 < n <= |lists|
    ensures var b := Best(lists, n - 1);
            Best(lists, n) == if FrontBelow(lists[n - 1], KeyAt(lists, b)) then n - 1 else b
  {
  }

  lemma {:induction false} BestAgrees(lists: seq<seq<Entry>>, lists': seq<seq<Entry>>, n: nat)
    requires n <= |lists| && n <= |lists'| && forall j :: 0 <= j < n ==> lists[j] == lists'[j]
    ensures Best(lists, n) == Best(lists', n)
  {
    if n > 0 {
      BestAgrees(lists, lists', n - 1);
    }
  }

  lemma {:induction false} PoppedWithout(lists: seq<seq<Entry>>, e: nat, m: nat)
    requires e < |lists| && lists[e] == [] && m < |lists| && lists[m] != []
    ensures Popped(lists, m)[e] == [] && Without(lists, e)[Shifted(m, e)] == lists[m]
    ensures Without(Popped(lists, m), e) == Popped(Without(lists, e), Shifted(m, e))
  {
  }

  lemma {:induction false} MergeWithout(lists: seq<seq<Entry>>, e: nat)
    requires e < |lists| && lists[e] == []
    ensures Untag(KMerge(Without(lists, e))) == Untag(KMerge(lists))
    decreases Total(lists)
  {
    BestWithout(lists, e, |lists|);
    var m := Best(lists, |lists|);
    if m >= 0 {
      var m' := Shifted(m, e);
      PoppedWithout(lists, e, m);
      MergeWithout(Popped(lists, m), e);
      MergeStep(lists, m);
      MergeStep(Without(lists, e), m');
      assert Without(lists, e)[m'] == lists[m];
    } else {
      assert KMerge(lists) == [] && KMerge(Without(lists, e)) == [];
    }
  }

  // The memtables hold the entries `views` lists for them.
  ghost predicate Hold(lists: seq<SkipList>, views: seq<seq<Entry>>)
    reads lists
  {
    && |views| == |lists|
    && forall j :: 0 <= j < |lists| ==> HoldsAt(lists, views, j)
  }

  ghost predicate HoldsAt(lists: seq<SkipList>, views: seq<seq<Entry>>, j: nat)
    requires j < |lists| == |views|
    reads lists
  {
    lists[j].Drainable() && lists[j].Entries() == views[j]
  }

  // One pass over the lists: the one to pop, and the last one found exhausted.
  method Scan(lists: seq<SkipList>, ghost views: seq<seq<Entry>>) returns (minIter: int, erase: int)
    requires Hold(lists, views)
    ensures minIter == Best(views, |views|)
    ensures -1 <= erase < |lists| && (erase >= 0 ==> views[erase] == [])
  {
    var minK: int := INT64_MAX;
    erase, minIter := -1, -1;
    var i := 0;
    while i < |lists|
      invariant 0 <= i <= |lists|
      invariant minIter == Best(views, i) && minK == KeyAt(views, minIter)
      invariant -1 <= erase < i && (erase >= 0 ==> views[erase] == [])
    {
      assert HoldsAt(lists, views, i);
      var tmp := lists[i].FrontLvl0();
      BestStep(views, i + 1);
      if tmp.Some? {
        if tmp.value.key < minK {
          minK := tmp.value.key;
          minIter := i;
        }
      } else {
        erase := i;
      }
      i := i + 1;
    }
  }

  // Pops the front of list m; only that list changes.
  method PopBest(lists: seq<SkipList>, ghost views: seq<seq<Entry>>, m: nat) returns (record: Entry)
    requires Distinct(lists) && Hold(lists, views)
    requires m < |lists| && views[m] != []
    modifies lists[m]
    ensures Hold(lists, Popped(views, m))
    ensures record == views[m][0]
  {
    assert HoldsAt(lists, views, m);
    var popped := lists[m].PopLvl0();
    record := popped.value;
    forall j | 0 <= j < |lists| ensures HoldsAt(lists, Popped(views, m), j) {
      assert old(HoldsAt(lists, views, j));
      assert j < m ==> Differ(lists, j, m);
      assert m < j ==> Differ(lists, m, j);
    }
  }

  // Drains a batch: what comes out is the merge of what the lists held.
  method BuffersDumper(batch: seq<SkipList>, ghost held: seq<seq<Entry>>) returns (kvs: seq<Entry>)
    requires Distinct(batch) && Hold(batch, held)
    modifies batch
    ensures kvs == Untag(KMerge(held))
  {
    var lists := batch;
    ghost var views := held;
    kvs := [];
    while true
      invariant Distinct(lists) && Hold(lists, views) && Within(lists, batch)
      invariant Remains(kvs, views, held)
      decreases Total(views)
    {
      var minIter, erase := Scan(lists, views);
      if minIter < 0 {
        break;
      }
      assert lists[minIter] in lists;
      RemainsPopped(kvs, views, held, minIter);
      var record := PopBest(lists, views, minIter);
      kvs, views := kvs + [record], Popped(views, minIter);
      if erase >= 0 {
        Erase(lists, views, erase);
        lists, views := Without(lists, erase), Without(views, erase);
      }
    }
  }

  // What was put out and what the lists still yield make up the merge of what they held.
  ghost predicate Remains(kvs: seq<Entry>, views: seq<seq<Entry>>, held: seq<seq<Entry>>) {
    kvs + Untag(KMerge(views)) == Untag(KMerge(held))
  }

  lemma {:induction false} RemainsPopped(kvs: seq<Entry>, views: seq<seq<Entry>>, held: seq<seq<Entry>>, m: nat)
    requires Remains(kvs, views, held) && m < |views| && m == Best(views, |views|)
    ensures Remains(kvs + [views[m][0]], Popped(views, m), held)
  {
    MergeStep(views, m);
    JoinAssoc(kvs, [views[m][0]], Untag(KMerge(Popped(views, m))));
  }

  ghost predicate Within(lists: seq<SkipList>, batch: seq<SkipList>) {
    forall l :: l in lists ==> l in batch
  }

  // Dropping an exhausted list from the batch changes nothing of what will come out.
  lemma {:induction false} Erase(lists: seq<SkipList>, views: seq<seq<Entry>>, e: nat)
    requires Distinct(lists) && Hold(lists, views) && e < |lists| && views[e] == []
    ensures Distinct(Without(lists, e)) && Hold(Without(lists, e), Without(views, e)) && Within(Without(lists, e), lists)
    ensures Untag(KMerge(Without(views, e))) == Untag(KMerge(views))
    ensures Total(Without(views, e)) == Total(views)
  {
    MergeWithout(views, e);
    TotalWithout(views, e);
    DistinctWithout(lists, e);
    forall j | 0 <= j < |lists| - 1 ensures HoldsAt(Without(lists, e), Without(views, e), j) {
      assert HoldsAt(lists, views, if j < e then j else j + 1);
    }
  }

  lemma {:induction false} TotalWithout(lists: seq<seq<Entry>>, e: nat)
    requires e < |lists| && lists[e] == []
    ensures Total(Without(lists, e)) == Total(lists)
  {
    if e == 0 {
      assert Without(lists, 0) == lists[1..];
    } else {
      TotalWithout(lists[1..], e - 1);
      assert Without(lists, e)[1..] == Without(lists[1..], e - 1);
    }
  }

  lemma {:induction false} DistinctWithout<T>(s: seq<T>, e: nat)
    requires Distinct(s) && e < |s|
    ensures Distinct(Without(s, e)) && forall x :: x in Without(s, e) ==> x in s
  {
    forall i, j | 0 <= i < j < |s| - 1 ensures Differ(Without(s, e), i, j) {
      assert Differ(s, if i < e then i else i + 1, if j < e then j else j + 1);
    }
  }
}
