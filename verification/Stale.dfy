/** A run in which the hash index ends up at an old value of a key written twice. */
module StaleDumps {
  import opened Keys
  import opened Options
  import opened Indexes
  import opened Places
  import opened SkipLevels
  import opened Merges
  import opened SlotBags
  import opened Systems
  import opened Accounting
  import opened Resolution
  import opened LatestValues
  import opened Manifests
  import opened Rounds

  lemma {:induction false} TotalUpdated(lists: seq<seq<Entry>>, j: nat, es: seq<Entry>)
    requires j < |lists|
    ensures Total(lists[j := es]) == Total(lists) - |lists[j]| + |es|
  {
    var a, b := FlatAt(lists, j);
    assert Flat(lists[j := es]) == a + es + b;
    FlatSize(lists);
    FlatSize(lists[j := es]);
  }

  ghost predicate KeysWithin(es: seq<Entry>, lo: nat, hi: nat) {
    forall e :: e in es ==> lo < e.key <= hi
  }

  ghost predicate HighKeys(lists: seq<seq<Entry>>, n: nat) {
    forall j :: 2 <= j < |lists| ==> KeysWithin(lists[j], 0, n)
  }

  // n keys, none of them 0, in the memtables from the third on.
  ghost predicate FilledLists(lists: seq<seq<Entry>>, n: nat) {
    && |lists| > 2 && Total(lists) == n && lists[0] == [] && lists[1] == [] && HighKeys(lists, n)
    && (n > 0 ==> lists[2] != [])
  }

  ghost predicate Filled(w: World, n: nat) {
    && Accounted(w) && w.s.queue == [] && w.s.dump.Idle? && w.s.manifest == []
    && |w.s.pool.empty| == RECORD_BUFF_SIZE - n && FilledLists(w.s.memtables, n)
  }

  // Storing a key a list does not hold adds the one entry.
  lemma {:induction false} NewEntry(es: seq<Entry>, key: Key, x: Index, e: Entry)
    requires Find(es, key).None?
    ensures |Upsert(es, key, x, 0)| == |es| + 1
    ensures e in Upsert(es, key, x, 0) ==> e in es || e == Entry(key, x)
  {
    var r := Rank(es, key);
    assert Upsert(es, key, x, 0) == es[..r] + [Entry(key, x)] + es[r..];
  }

  lemma {:induction false} KeyNotFound(es: seq<Entry>, key: Key)
    requires forall e :: e in es ==> e.key != key
    ensures Find(es, key).None?
  {
    var r := Rank(es, key);
    if r < |es| {
      assert es[r] in es;
    }
  }

  lemma {:induction false} FillLists(lists: seq<seq<Entry>>, n: nat, x: Index)
    requires FilledLists(lists, n) && n < RECORD_BUFF_SIZE
    ensures FilledLists(lists[2 := Upsert(lists[2], n + 1, x, 0)], n + 1)
  {
    var es := Upsert(lists[2], n + 1, x, 0);
    var lists' := lists[2 := es];
    assert KeysWithin(lists[2], 0, n);
    KeyNotFound(lists[2], n + 1);
    NewEntry(lists[2], n + 1, x, Entry(n + 1, x));
    forall e | e in es ensures 0 < e.key <= n + 1 {
      NewEntry(lists[2], n + 1, x, e);
    }
    TotalUpdated(lists, 2, es);
    forall j | 2 <= j < |lists'| ensures KeysWithin(lists'[j], 0, n + 1) {
      assert KeysWithin(lists[j], 0, n);
    }
  }

  function FillStep(key: Key): Step {
    Write(Record(key, []), 2)
  }

  lemma {:induction false} FillOne(w: World, n: nat)
    requires Filled(w, n) && n < RECORD_BUFF_SIZE
    ensures Enabled(w.s, FillStep(n + 1))
    ensures Filled(Next(w, FillStep(n + 1)), n + 1)
  {
    FillLists(w.s.memtables, n, SlotIndex(NextSlot(w.s.pool)));
    WriteAccounted(w, Record(n + 1, []), 2);
  }

  lemma {:induction false} FillNext(w: World, steps: seq<Step>, m: nat, n: nat)
    requires CanTake(w, steps) && Filled(After(w, steps), m) && n == m + 1 < RECORD_BUFF_SIZE
    ensures CanTake(w, steps + [FillStep(n)]) && Filled(After(w, steps + [FillStep(n)]), n)
  {
    FillOne(After(w, steps), m);
    AfterOne(w, steps, FillStep(n));
  }

  lemma {:induction false} NoSteps(w: World)
    ensures CanTake(w, []) && After(w, []) == w
  {
  }

  lemma {:induction false} Fill(w: World, n: nat) returns (steps: seq<Step>)
    requires Filled(w, 0) && n < RECORD_BUFF_SIZE
    ensures CanTake(w, steps) && Filled(After(w, steps), n)
  {
    if n == 0 {
      NoSteps(w);
      steps := [];
    } else {
      var before := Fill(w, n - 1);
      FillNext(w, before, n - 1, n);
      steps := before + [FillStep(n)];
    }
  }

  // The first two entries a merge puts out when key 0 is in the first two lists only.
  lemma {:induction false} TieComesOutInListOrder(lists: seq<seq<Entry>>, a: Entry, b: Entry, n: nat)
    requires AllSorted(lists) && |lists| >= 2 && lists[0] == [a] && lists[1] == [b] && a.key == b.key == 0
    requires HighKeys(lists, n)
    ensures |Untag(KMerge(lists))| >= 2 && Untag(KMerge(lists))[0] == a && Untag(KMerge(lists))[1] == b
  {
    var m := FirstOf(lists, 0, n);
    MergeStep(lists, 0);
    var rest := Popped(lists, 0);
    assert rest[1] == [b] && rest[0] == [];
    assert AllSorted(rest) && HighKeys(rest, n);
    var m' := FirstOf(rest, 1, n);
    MergeStep(rest, 1);
  }

  lemma {:induction false} FirstOf(lists: seq<seq<Entry>>, k: nat, n: nat) returns (m: int)
    requires |lists| >= 2 && k < 2 && lists[k] != [] && lists[k][0].key == 0 && (k == 1 ==> lists[0] == [])
    requires HighKeys(lists, n)
    ensures m == k == Best(lists, |lists|)
  {
    m := Best(lists, |lists|);
    BestIsFirstLeast(lists, |lists|);
    forall j | 2 <= j < |lists| && lists[j] != [] ensures lists[j][0].key > 0 {
      assert KeysWithin(lists[j], 0, n) && lists[j][0] in lists[j];
    }
  }

  ghost predicate HoldsAt(s: State, e: Entry, v: Value) {
    SlotOf(e.idx) < |s.data| && s.data[SlotOf(e.idx)].value == v
  }

  // One entry of key 0, whose slot holds v.
  ghost predicate ZeroHeld(s: State, es: seq<Entry>, v: Value) {
    |es| == 1 && es[0].key == 0 && HoldsAt(s, es[0], v)
  }

  // A write of key 0 through an empty memtable.
  lemma {:induction false} WriteZero(w: World, v: Value, j: nat)
    requires Accounted(w) && Enabled(w.s, Write(Record(0, v), j)) && w.s.memtables[j] == []
    ensures var s' := WriteStep(w.s, Record(0, v), j);
            && ZeroHeld(s', s'.memtables[j], v)
            && s'.memtables == w.s.memtables[j := s'.memtables[j]]
            && Total(s'.memtables) == Total(w.s.memtables) + 1
            && |s'.pool.empty| == |w.s.pool.empty| - 1
  {
    var p := NextSlot(w.s.pool);
    FreshSlot(w);
    FirstEntry(0, SlotIndex(p));
    SlotReadsBack(p);
    TotalUpdated(w.s.memtables, j, [Entry(0, SlotIndex(p))]);
  }

  lemma {:induction false} OtherValue(data: seq<Record>, es: seq<Entry>, e: Entry, p: nat, record: Record)
    requires e in es && p !in Slots(es) && p < |data| && SlotOf(e.idx) < |data|
    ensures data[p := record][SlotOf(e.idx)] == data[SlotOf(e.idx)]
  {
    InSlots(es, SlotOf(e.idx));
  }

  // Another write does not touch a slot that is referred to.
  lemma {:induction false} ZeroStays(w: World, record: Record, j: nat, i: nat, v: Value)
    requires SlotsOwned(w) && |w.s.data| == RECORD_BUFF_SIZE && Enabled(w.s, Write(record, j))
    requires i < |w.s.memtables| && ZeroHeld(w.s, w.s.memtables[i], v)
    ensures ZeroHeld(WriteStep(w.s, record, j), w.s.memtables[i], v)
  {
    var e := w.s.memtables[i][0];
    var a, b := FlatAt(w.s.memtables, i);
    assert e in Flat(w.s.memtables);
    FreshSlot(w);
    OtherValue(w.s.data, Flat(w.s.memtables), e, NextSlot(w.s.pool), record);
  }

  // Key 0 in the first two memtables, newer record first, and a full buffer.
  ghost predicate Rewritten(w: World, v1: Value, v2: Value, n: nat) {
    && Accounted(w) && w.s.queue == [] && w.s.dump.Idle? && Due(w.s)
    && ZeroHeld(w.s, w.s.memtables[0], v2) && ZeroHeld(w.s, w.s.memtables[1], v1)
    && HighKeys(w.s.memtables, n)
  }

  // The two writes of key 0, the older one through the second memtable.
  lemma {:induction false} WriteTwice(w: World, v1: Value, v2: Value, n: nat)
    requires Filled(w, n) && n == RECORD_BUFF_SIZE - 2
    ensures Enabled(w.s, Write(Record(0, v1), 1))
    ensures Enabled(Next(w, Write(Record(0, v1), 1)).s, Write(Record(0, v2), 0))
    ensures Rewritten(Next(Next(w, Write(Record(0, v1), 1)), Write(Record(0, v2), 0)), v1, v2, n)
  {
    var w1 := Next(w, Write(Record(0, v1), 1));
    WriteAccounted(w, Record(0, v1), 1);
    WriteZero(w, v1, 1);
    HighStays(w.s.memtables, 1, w1.s.memtables[1], n);
    WriteSecond(w1, v1, v2, n);
  }

  lemma {:induction false} WriteSecond(w: World, v1: Value, v2: Value, n: nat)
    requires Accounted(w) && w.s.queue == [] && w.s.dump.Idle? && Total(w.s.memtables) == n + 1 && n + 2 == RECORD_BUFF_SIZE
    requires |w.s.pool.empty| == 1 && w.s.memtables[0] == [] && ZeroHeld(w.s, w.s.memtables[1], v1)
    requires HighKeys(w.s.memtables, n)
    ensures Enabled(w.s, Write(Record(0, v2), 0)) && Rewritten(Next(w, Write(Record(0, v2), 0)), v1, v2, n)
  {
    WriteAccounted(w, Record(0, v2), 0);
    WriteZero(w, v2, 0);
    ZeroStays(w, Record(0, v2), 0, 1, v1);
    HighStays(w.s.memtables, 0, WriteStep(w.s, Record(0, v2), 0).memtables[0], n);
  }

  lemma {:induction false} HighStays(lists: seq<seq<Entry>>, j: nat, es: seq<Entry>, n: nat)
    requires HighKeys(lists, n) && j < 2 <= |lists|
    ensures HighKeys(lists[j := es], n)
  {
    var lists' := lists[j := es];
    forall i | 2 <= i < |lists'| ensures KeysWithin(lists'[i], 0, n) {
      assert KeysWithin(lists[i], 0, n);
    }
  }

  // The batch is submitted and its dump begins; the older record comes out second.
  lemma {:induction false} SubmitAndStart(w: World, v1: Value, v2: Value, n: nat)
    requires Sound(w) && Rewritten(w, v1, v2, n)
    ensures Enabled(w.s, Switch) && Enabled(Next(w, Switch).s, StartDump)
    ensures var w' := Next(Next(w, Switch), StartDump);
            && w'.s.dump.Writing? && w'.s.dump.done == 0 && |w'.s.dump.kvs| >= 2
            && w'.s.dump.kvs[0].key == 0 == w'.s.dump.kvs[1].key && HoldsAt(w'.s, w'.s.dump.kvs[1], v1)
            && w'.s.manifest == w.s.manifest
  {
    var lists := w.s.memtables;
    assert lists[0] == [lists[0][0]] && lists[1] == [lists[1][0]];
    TieComesOutInListOrder(lists, lists[0][0], lists[1][0], n);
    assert SwitchStep(w.s).queue == [lists];
  }

  lemma {:induction false} FirstDumped(s: State, v1: Value)
    requires Enabled(s, DumpOne) && s.dump.done == 0 && |s.dump.kvs| >= 2 && HoldsAt(s, s.dump.kvs[1], v1)
    ensures var s' := DumpOneStep(s);
            && s'.dump == Writing(s.dump.kvs, 1) && s'.manifest == s.manifest && HoldsAt(s', s.dump.kvs[1], v1)
  {
  }

  lemma {:induction false} SecondDumped(w: World, v1: Value)
    requires Sound(w) && w.s.dump.Writing? && w.s.dump.done == 1 && |w.s.dump.kvs| >= 2 && w.s.manifest == []
    requires w.s.dump.kvs[1].key == 0 && HoldsAt(w.s, w.s.dump.kvs[1], v1)
    ensures Enabled(w.s, DumpOne) && Resolve(DumpOneStep(w.s), 0) == Some(Record(0, v1))
  {
    ReleaseNeverAborts(w);
    DumpedEntry(w);
    DumpResolves(w, 0);
  }

  // Two steps of the dump later, key 0 leads to the record written first.
  lemma {:induction false} DumpedStale(w: World, v1: Value)
    requires Sound(w) && w.s.dump.Writing? && w.s.dump.done == 0 && |w.s.dump.kvs| >= 2 && w.s.manifest == []
    requires w.s.dump.kvs[0].key == 0 == w.s.dump.kvs[1].key && HoldsAt(w.s, w.s.dump.kvs[1], v1)
    ensures Enabled(w.s, DumpOne) && Enabled(Next(w, DumpOne).s, DumpOne)
    ensures Resolve(Next(Next(w, DumpOne), DumpOne).s, 0) == Some(Record(0, v1))
  {
    ReleaseNeverAborts(w);
    FirstDumped(w.s, v1);
    StepSound(w, DumpOne);
    SecondDumped(Next(w, DumpOne), v1);
  }

  lemma {:induction false} SubmitAndDump(w: World, v1: Value, v2: Value, n: nat) returns (steps: seq<Step>)
    requires Sound(w) && Rewritten(w, v1, v2, n) && w.s.manifest == []
    ensures CanTake(w, steps)
    ensures After(w, steps).acked == w.acked && Resolve(After(w, steps).s, 0) == Some(Record(0, v1))
  {
    SubmitAndStart(w, v1, v2, n);
    var w1 := Next(w, Switch);
    var w2 := Next(w1, StartDump);
    StepSound(w, Switch);
    StepSound(w1, StartDump);
    DumpedStale(w2, v1);
    NoSteps(Next(Next(w2, DumpOne), DumpOne));
    Unroll(Next(w2, DumpOne), DumpOne, []);
    Unroll(w2, DumpOne, [DumpOne] + []);
    Unroll(w1, StartDump, [DumpOne] + ([DumpOne] + []));
    steps := [Switch] + ([StartDump] + ([DumpOne] + ([DumpOne] + [])));
    Unroll(w, Switch, [StartDump] + ([DumpOne] + ([DumpOne] + [])));
  }

  // Everything together: the latest record of key 0 is v2, the index leads to v1.
  lemma {:induction false} StaleFrom(w: World, v1: Value, v2: Value, n: nat) returns (steps: seq<Step>)
    requires Sound(w) && Filled(w, n) && n == RECORD_BUFF_SIZE - 2 && w.s.manifest == []
    ensures CanTake(w, steps)
    ensures var w' := After(w, steps);
            w'.acked == w.acked + [Record(0, v1)] + [Record(0, v2)] && Resolve(w'.s, 0) == Some(Record(0, v1))
  {
    var s1, s2 := Write(Record(0, v1), 1), Write(Record(0, v2), 0);
    WriteTwice(w, v1, v2, n);
    var w1 := Next(w, s1);
    var w2 := Next(w1, s2);
    StepSound(w, s1);
    StepSound(w1, s2);
    var rest := SubmitAndDump(w2, v1, v2, n);
    Unroll(w1, s2, rest);
    Unroll(w, s1, [s2] + rest);
    steps := [s1] + ([s2] + rest);
  }

  lemma {:induction false} EmptyLists(lists: seq<seq<Entry>>)
    requires lists == NoMemtables()
    ensures FilledLists(lists, 0)
  {
    NothingHeld();
    assert forall j :: 0 <= j < |lists| ==> lists[j] == [];
    assert forall j :: 2 <= j < |lists| ==> KeysWithin(lists[j], 0, 0);
  }

  lemma {:induction false} EmptyFilled(w: World)
    requires Accounted(w) && w.s.queue == [] && w.s.dump.Idle? && w.s.manifest == [] && |w.s.pool.empty| == RECORD_BUFF_SIZE
    requires FilledLists(w.s.memtables, 0)
    ensures Filled(w, 0)
  {
  }

  lemma {:induction false} StaleAfterFill(w: World, steps: seq<Step>, v1: Value, v2: Value, n: nat) returns (all: seq<Step>)
    requires CanTake(w, steps) && Sound(After(w, steps)) && Filled(After(w, steps), n) && n == RECORD_BUFF_SIZE - 2
    ensures CanTake(w, all)
    ensures var w' := After(w, all);
            && |w'.acked| > 1 && w'.acked[|w'.acked| - 2] == Record(0, v1) && w'.acked[|w'.acked| - 1] == Record(0, v2)
            && Resolve(w'.s, 0) == Some(Record(0, v1))
  {
    var rest := StaleFrom(After(w, steps), v1, v2, n);
    AfterJoin(w, steps, rest);
    all := steps + rest;
  }

  lemma {:induction false} StaleRun(w: World, v1: Value, v2: Value, n: nat) returns (steps: seq<Step>)
    requires Sound(w) && Filled(w, 0) && n == RECORD_BUFF_SIZE - 2
    ensures CanTake(w, steps)
    ensures var w' := After(w, steps);
            && |w'.acked| > 1 && w'.acked[|w'.acked| - 2] == Record(0, v1) && w'.acked[|w'.acked| - 1] == Record(0, v2)
            && Resolve(w'.s, 0) == Some(Record(0, v1))
  {
    var filling := Fill(w, n);
    RunSound(w, filling);
    steps := StaleAfterFill(w, filling, v1, v2, n);
  }

  lemma {:induction false} StartSound()
    ensures Sound(Start())
  {
    NoSteps(Start());
    AllSound([]);
  }

  lemma {:induction false} StartFilled()
    ensures Filled(Start(), 0)
  {
    StartAccounted();
    EmptyLists(Start().s.memtables);
    EmptyFilled(Start());
  }

  // A key written twice can end up at its older value: 1022 other keys, then key 0 through
  // the second memtable and again through the first, then a dump.
  lemma {:induction false} RewrittenKeyGoesStale(v1: Value, v2: Value) returns (steps: seq<Step>)
    ensures CanTake(Start(), steps)
    ensures var w := After(Start(), steps);
            && |w.acked| > 1 && w.acked[|w.acked| - 2] == Record(0, v1) && w.acked[|w.acked| - 1] == Record(0, v2)
            && Resolve(w.s, 0) == Some(Record(0, v1))
  {
    StartSound();
    StartFilled();
    steps := StaleRun(Start(), v1, v2, RECORD_BUFF_SIZE - 2);
  }
}
