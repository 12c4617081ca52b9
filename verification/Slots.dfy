/** The buffer slots that lists of memtable entries refer to, counted with multiplicity. */
module SlotBags {
  import opened Keys
  import opened Indexes
  import opened Places
  import opened SkipLevels
  import opened Merges

  // All entries of a batch of memtables, list after list.
  function Flat(lists: seq<seq<Entry>>): seq<Entry> {
    if lists == [] then [] else lists[0] + Flat(lists[1..])
  }

  function SlotSeq(es: seq<Entry>): (r: seq<nat>)
    ensures |r| == |es| && forall i :: 0 <= i < |es| ==> r[i] == SlotOf(es[i].idx)
  {
    if es == [] then [] else [SlotOf(es[0].idx)] + SlotSeq(es[1..])
  }

  // The slots the entries refer to.
  function Slots(es: seq<Entry>): multiset<nat> {
    multiset(SlotSeq(es))
  }

  lemma {:induction false} SlotsJoin(a: seq<Entry>, b: seq<Entry>)
    ensures Slots(a + b) == Slots(a) + Slots(b)
  {
    assert SlotSeq(a + b) == SlotSeq(a) + SlotSeq(b);
  }

  lemma {:induction false} SlotsOne(a: seq<Entry>, e: Entry, b: seq<Entry>)
    ensures Slots(a + [e] + b) == Slots(a) + multiset{SlotOf(e.idx)} + Slots(b)
    ensures Slots(a + [e] + b) == Slots(a + b) + multiset{SlotOf(e.idx)}
  {
    SlotsJoin(a + [e], b);
    SlotsJoin(a, [e]);
    SlotsJoin(a, b);
    assert SlotSeq([e]) == [SlotOf(e.idx)];
  }

  lemma {:induction false} InSlots(es: seq<Entry>, p: nat)
    ensures p in Slots(es) <==> exists e :: e in es && SlotOf(e.idx) == p
  {
    assert p in Slots(es) <==> p in SlotSeq(es);
    if p in SlotSeq(es) {
      var i :| 0 <= i < |es| && SlotSeq(es)[i] == p;
      assert es[i] in es;
    }
    if e :| e in es && SlotOf(e.idx) == p {
      var i :| 0 <= i < |es| && es[i] == e;
      assert SlotSeq(es)[i] == p;
    }
  }

  lemma {:induction false} FlatSize(lists: seq<seq<Entry>>)
    ensures |Flat(lists)| == Total(lists)
  {
    if lists != [] {
      FlatSize(lists[1..]);
    }
  }

  // One list among the others.
  lemma {:induction false} FlatAt(lists: seq<seq<Entry>>, j: nat) returns (a: seq<Entry>, b: seq<Entry>)
    requires j < |lists|
    ensures Flat(lists) == a + lists[j] + b
    ensures forall es: seq<Entry> :: Flat(lists[j := es]) == a + es + b
  {
    if j == 0 {
      a, b := [], Flat(lists[1..]);
      forall es: seq<Entry> ensures Flat(lists[0 := es]) == a + es + b {
        assert lists[0 := es][1..] == lists[1..];
      }
      assert lists[0 := lists[0]] == lists;
    } else {
      var a';
      a', b := FlatAt(lists[1..], j - 1);
      a := lists[0] + a';
      forall es: seq<Entry> ensures Flat(lists[j := es]) == a + es + b {
        assert lists[j := es][1..] == lists[1..][j - 1 := es];
        assert lists[0] + (a' + es + b) == a + es + b;
      }
      assert lists[j := lists[j]] == lists;
    }
  }

  // The entry an update of `key` displaces, if there is one.
  function Displaced(es: seq<Entry>, key: Key): seq<Entry> {
    var r := Rank(es, key);
    if r < |es| && es[r].key == key then [es[r]] else []
  }

  // Storing in one list exchanges the displaced entry for the new one.
  lemma {:induction false} FlatPut(lists: seq<seq<Entry>>, j: nat, key: Key, x: Index) returns (a: seq<Entry>, b: seq<Entry>)
    requires j < |lists|
    ensures Flat(lists) == a + Displaced(lists[j], key) + b
    ensures Flat(lists[j := Put(lists[j], key, x)]) == a + [Entry(key, x)] + b
  {
    var es, r := lists[j], Rank(lists[j], key);
    var out := Displaced(es, key);
    var a', b' := FlatAt(lists, j);
    var tail := es[r + |out|..];
    a, b := a' + es[..r], tail + b';
    assert es == es[..r] + out + tail;
    assert Put(es, key, x) == es[..r] + [Entry(key, x)] + tail;
    Regroup(a', es[..r], out, tail, b');
    Regroup(a', es[..r], [Entry(key, x)], tail, b');
  }

  lemma {:induction false} Regroup(a: seq<Entry>, b: seq<Entry>, c: seq<Entry>, d: seq<Entry>, e: seq<Entry>)
    ensures a + (b + c + d) + e == (a + b) + c + (d + e)
  {
  }

  // What a merge leaves behind in the lists.
  function Left(lists: seq<seq<Entry>>): seq<seq<Entry>>
    decreases Total(lists)
  {
    var m := Best(lists, |lists|);
    if m < 0 then lists else Left(Popped(lists, m))
  }

  lemma {:induction false} FlatPop(lists: seq<seq<Entry>>, m: nat) returns (a: seq<Entry>, b: seq<Entry>)
    requires m < |lists| && lists[m] != []
    ensures Flat(lists) == a + [lists[m][0]] + b && Flat(Popped(lists, m)) == a + b
  {
    var b';
    a, b' := FlatAt(lists, m);
    b := lists[m][1..] + b';
    assert lists[m] == [lists[m][0]] + lists[m][1..];
    assert a + ([lists[m][0]] + lists[m][1..]) + b' == a + [lists[m][0]] + (lists[m][1..] + b');
    assert a + lists[m][1..] + b' == a + (lists[m][1..] + b');
  }

  // A merge and what it leaves behind share out the slots of the batch, and its entries.
  lemma {:induction false} MergeSharesSlots(lists: seq<seq<Entry>>)
    ensures Slots(Flat(lists)) == Slots(Untag(KMerge(lists))) + Slots(Flat(Left(lists)))
    ensures |Untag(KMerge(lists))| + |Flat(Left(lists))| == |Flat(lists)|
    ensures forall e :: e in Untag(KMerge(lists)) || e in Flat(Left(lists)) ==> e in Flat(lists)
    decreases Total(lists)
  {
    var m := Best(lists, |lists|);
    if m >= 0 {
      var a, b := FlatPop(lists, m);
      MergeSharesSlots(Popped(lists, m));
      MergeStep(lists, m);
      SlotsOne(a, lists[m][0], b);
      SlotsOne([], lists[m][0], Untag(KMerge(Popped(lists, m))));
      assert [] + [lists[m][0]] + Untag(KMerge(Popped(lists, m))) == Untag(KMerge(lists));
      assert [] + Untag(KMerge(Popped(lists, m))) == Untag(KMerge(Popped(lists, m)));
    }
  }

  ghost predicate AllBelow(es: seq<Entry>) {
    forall e :: e in es ==> e.key < INT64_MAX
  }

  // A merge leaves something behind exactly when some key reaches the sentinel.
  lemma {:induction false} LeftIsInvisible(lists: seq<seq<Entry>>)
    requires AllSorted(lists)
    ensures Flat(Left(lists)) == [] <==> AllBelow(Flat(lists))
    decreases Total(lists)
  {
    BestIsFirstLeast(lists, |lists|);
    var m := Best(lists, |lists|);
    if m >= 0 {
      var a, b := FlatPop(lists, m);
      LeftIsInvisible(Popped(lists, m));
      assert forall e :: e in Flat(lists) <==> e in Flat(Popped(lists, m)) || e == lists[m][0];
    } else {
      FlatOfHigh(lists);
    }
  }

  lemma {:induction false} FlatOfHigh(lists: seq<seq<Entry>>)
    requires forall j :: 0 <= j < |lists| && lists[j] != [] ==> lists[j][0].key >= INT64_MAX
    ensures Flat(lists) == [] <==> AllBelow(Flat(lists))
  {
    if Flat(lists) != [] {
      if lists[0] != [] {
        assert Flat(lists)[0] == lists[0][0];
      } else {
        assert Flat(lists) == Flat(lists[1..]);
        FlatOfHigh(lists[1..]);
      }
      assert exists e :: e in Flat(lists) && e.key >= INT64_MAX;
    }
  }

  // What a merge puts out is below the sentinel, what it leaves behind is not.
  lemma {:induction false} MergeSplitsAtSentinel(lists: seq<seq<Entry>>)
    requires AllSorted(lists)
    ensures AllBelow(Untag(KMerge(lists))) && NoneBelow(Flat(Left(lists)))
    decreases Total(lists)
  {
    BestIsFirstLeast(lists, |lists|);
    var m := Best(lists, |lists|);
    if m >= 0 {
      MergeSplitsAtSentinel(Popped(lists, m));
      MergeStep(lists, m);
    } else {
      HighFronts(lists);
    }
  }

  ghost predicate NoneBelow(es: seq<Entry>) {
    forall e :: e in es ==> e.key >= INT64_MAX
  }

  lemma {:induction false} HighFronts(lists: seq<seq<Entry>>)
    requires AllSorted(lists)
    requires forall j :: 0 <= j < |lists| && lists[j] != [] ==> lists[j][0].key >= INT64_MAX
    ensures NoneBelow(Flat(lists))
  {
    if lists != [] {
      HighFronts(lists[1..]);
      var es := lists[0];
      assert Sorted(es);
      forall e | e in es ensures e.key >= INT64_MAX {
        var i :| 0 <= i < |es| && es[i] == e;
        assert i > 0 ==> es[0].key < es[i].key;
      }
    }
  }
}
