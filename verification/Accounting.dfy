/** What every step of the engine keeps: each written slot has exactly one owner. */
module Accounting {
  import opened Keys
  import opened Options
  import opened Indexes
  import opened Places
  import opened SkipLevels
  import opened Merges
  import opened SlotBags
  import opened Systems
  import Buffers

  // The entries submitted whose slots the dumper has not released yet.
  function Pending(s: State): seq<Entry> {
    if s.queue != [] then Flat(s.queue[0])
    else if s.dump.Writing? && s.dump.done <= |s.dump.kvs| then s.dump.kvs[s.dump.done..]
    else []
  }

  // An entry names a slot, and the slot holds a record of the entry's key.
  ghost predicate EntryOk(data: seq<Record>, e: Entry) {
    && SlotOf(e.idx) < |data| == RECORD_BUFF_SIZE
    && e.idx == SlotIndex(SlotOf(e.idx))
    && data[SlotOf(e.idx)].key == e.key
  }

  ghost predicate EntriesOk(data: seq<Record>, es: seq<Entry>) {
    forall e :: e in es ==> EntryOk(data, e)
  }

  // One batch at most is on its way to disk, and the died log is there exactly meanwhile.
  ghost predicate OneBatch(s: State) {
    && |s.queue| <= 1
    && (s.queue != [] ==> s.dump.Idle?)
    && (s.died.Some? <==> s.queue != [] || !s.dump.Idle?)
    && (s.dump.Writing? ==> s.dump.done <= |s.dump.kvs|)
  }

  // The lists are sorted, and a batch waiting to be dumped fills the buffer.
  ghost predicate ListsOk(s: State) {
    && |s.memtables| == MEMTABLE_CO_WRITE_NUM && AllSorted(s.memtables)
    && (s.queue != [] ==> AllSorted(s.queue[0]) && Total(s.queue[0]) >= RECORD_BUFF_SIZE)
  }

  // Each written slot is referred to once: from a current memtable, from the batch being
  // dumped, or, when it has leaked, not at all.
  ghost predicate SlotsOwned(w: World) {
    Owned(w.s.pool, Slots(Flat(w.s.memtables)), Slots(Pending(w.s)), w.leaked)
  }

  ghost predicate Owned(pool: Buffers.Pool, current: multiset<nat>, pending: multiset<nat>, leaked: multiset<nat>) {
    && Buffers.PoolOk(pool, RECORD_BUFF_SIZE)
    && multiset(pool.wrote) == current + pending + leaked
  }

  ghost predicate RefsOk(s: State) {
    && |s.data| == RECORD_BUFF_SIZE
    && EntriesOk(s.data, Flat(s.memtables))
    && EntriesOk(s.data, Pending(s))
  }

  // A merge that comes out empty has leaked its whole batch; the file being written is there.
  ghost predicate DumpOk(w: World) {
    w.s.dump.Writing? ==> |w.s.manifest| in w.s.files && (w.s.dump.kvs == [] ==> w.leaked != multiset{})
  }

  ghost predicate Accounted(w: World) {
    OneBatch(w.s) && ListsOk(w.s) && SlotsOwned(w) && RefsOk(w.s) && DumpOk(w)
  }

  lemma {:induction false} FlatOfEmpty(lists: seq<seq<Entry>>)
    requires forall j :: 0 <= j < |lists| ==> lists[j] == []
    ensures Flat(lists) == [] && AllSorted(lists)
  {
    if lists != [] {
      FlatOfEmpty(lists[1..]);
    }
  }

  lemma {:induction false} NothingHeld()
    ensures Flat(NoMemtables()) == [] && AllSorted(NoMemtables()) && Total(NoMemtables()) == 0
  {
    FlatOfEmpty(NoMemtables());
    FlatSize(NoMemtables());
  }

  lemma {:induction false} StartAccounted()
    ensures Accounted(Start())
  {
    NothingHeld();
    FullPool(RECORD_BUFF_SIZE);
  }

  lemma {:induction false} FullPool(n: nat)
    ensures multiset(seq(n, i => i)) == multiset(Buffers.Slots(n))
  {
    if n > 0 {
      FullPool(n - 1);
      assert seq(n, i => i) == seq(n - 1, i => i) + [n - 1];
      assert Buffers.Slots(n) == Buffers.Slots(n - 1) + {n - 1};
    }
  }

  // A written slot belongs to one owner only, and an empty one to none.
  lemma {:induction false} SoleOwner(w: World, p: nat)
    requires SlotsOwned(w)
    ensures Slots(Flat(w.s.memtables))[p] + Slots(Pending(w.s))[p] + w.leaked[p] == multiset(w.s.pool.wrote)[p]
    ensures multiset(w.s.pool.wrote)[p] + multiset(w.s.pool.empty)[p] == if p < RECORD_BUFF_SIZE then 1 else 0
  {
    Buffers.OnceIn(w.s.pool, RECORD_BUFF_SIZE, p);
  }

  lemma {:induction false} OtherSlot(data: seq<Record>, es: seq<Entry>, p: nat, r: Record)
    requires EntriesOk(data, es) && p !in Slots(es) && p < |data|
    ensures EntriesOk(data[p := r], es)
  {
    forall e | e in es ensures EntryOk(data[p := r], e) {
      InSlots(es, p);
      assert EntryOk(data, e);
    }
  }

  // An update of a list whose entries name slots stores the new slot's word as it is.
  lemma {:induction false} UpsertIsPut(data: seq<Record>, es: seq<Entry>, key: Key, p: nat)
    requires EntriesOk(data, es) && p < RECORD_BUFF_SIZE
    ensures Upsert(es, key, SlotIndex(p), 0) == Put(es, key, SlotIndex(p))
  {
    var r := Rank(es, key);
    if Find(es, key).Some? {
      assert es[r] in es && EntryOk(data, es[r]);
      NumberReadsBack(p);
      NumberReadsBack(SlotOf(es[r].idx));
      StoredSlot(WordOf(p), WordOf(SlotOf(es[r].idx)));
    }
  }

  lemma {:induction false} StoredSlot(i: bv32, j: bv32)
    requires i <= 0x3ff && j <= 0x3ff
    ensures Stored(Some(OfSlot(j)), OfSlot(i), 0) == OfSlot(i)
  {
    OfSlotLaw(i, j);
  }

  // What a write does to the current memtables' entries.
  lemma {:induction false} WriteExchanges(lists: seq<seq<Entry>>, data: seq<Record>, key: Key, p: nat, j: nat)
    returns (a: seq<Entry>, b: seq<Entry>)
    requires EntriesOk(data, Flat(lists)) && p < RECORD_BUFF_SIZE && j < |lists|
    ensures Flat(lists) == a + Displaced(lists[j], key) + b
    ensures Flat(lists[j := Upsert(lists[j], key, SlotIndex(p), 0)]) == a + [Entry(key, SlotIndex(p))] + b
  {
    var a', b' := FlatAt(lists, j);
    assert forall e :: e in lists[j] ==> e in Flat(lists);
    UpsertIsPut(data, lists[j], key, p);
    a, b := FlatPut(lists, j, key, SlotIndex(p));
  }

  lemma {:induction false} UpsertSorted(lists: seq<seq<Entry>>, key: Key, x: Index, j: nat)
    requires AllSorted(lists) && j < |lists|
    ensures AllSorted(lists[j := Upsert(lists[j], key, x, 0)])
  {
    PutSorted(lists[j], key, Stored(Find(lists[j], key), x, 0));
  }

  // An empty slot is nobody's.
  lemma {:induction false} FreshSlot(w: World)
    requires SlotsOwned(w) && w.s.pool.empty != []
    ensures var p := NextSlot(w.s.pool);
            && p < RECORD_BUFF_SIZE && p !in w.s.pool.wrote
            && p !in Slots(Flat(w.s.memtables)) && p !in Slots(Pending(w.s)) && p !in w.leaked
  {
    var p := NextSlot(w.s.pool);
    SoleOwner(w, p);
    assert multiset(w.s.pool.empty)[p] > 0;
  }

  lemma {:induction false} ExchangedSlots(a: seq<Entry>, out: seq<Entry>, b: seq<Entry>, e: Entry)
    ensures Slots(a + [e] + b) + Slots(out) == Slots(a + out + b) + multiset{SlotOf(e.idx)}
  {
    SlotsOne(a, e, b);
    SlotsJoin(a + out, b);
    SlotsJoin(a, out);
  }

  lemma {:induction false} WriteBags(lists: seq<seq<Entry>>, data: seq<Record>, key: Key, p: nat, j: nat)
    requires EntriesOk(data, Flat(lists)) && p < RECORD_BUFF_SIZE && j < |lists|
    ensures Slots(Flat(lists[j := Upsert(lists[j], key, SlotIndex(p), 0)])) + Slots(Displaced(lists[j], key))
         == Slots(Flat(lists)) + multiset{p}
  {
    var a, b := WriteExchanges(lists, data, key, p, j);
    SlotReadsBack(p);
    ExchangedSlots(a, Displaced(lists[j], key), b, Entry(key, SlotIndex(p)));
  }

  lemma {:induction false} OwnedByRequest(pool: Buffers.Pool, current: multiset<nat>, pending: multiset<nat>, leaked: multiset<nat>,
                                          current': multiset<nat>, out: multiset<nat>)
    requires Owned(pool, current, pending, leaked) && pool.empty != []
    requires current' + out == current + multiset{NextSlot(pool)}
    ensures Owned(Buffers.Do(pool, Buffers.Request), current', pending, leaked + out)
  {
    Buffers.DoKeepsPool(pool, Buffers.Request, RECORD_BUFF_SIZE);
    assert current' + pending + (leaked + out) == (current' + out) + pending + leaked;
  }

  lemma {:induction false} WriteOwns(w: World, record: Record, j: nat)
    requires SlotsOwned(w) && RefsOk(w.s) && Enabled(w.s, Write(record, j))
    ensures SlotsOwned(Next(w, Write(record, j)))
  {
    var p, s := NextSlot(w.s.pool), w.s;
    var out := Slots(Displaced(s.memtables[j], record.key));
    var lists := s.memtables[j := Upsert(s.memtables[j], record.key, SlotIndex(p), 0)];
    FreshSlot(w);
    WriteBags(s.memtables, s.data, record.key, p, j);
    OwnedByRequest(s.pool, Slots(Flat(s.memtables)), Slots(Pending(s)), w.leaked, Slots(Flat(lists)), out);
  }

  lemma {:induction false} WriteEntries(lists: seq<seq<Entry>>, data: seq<Record>, record: Record, p: nat, j: nat)
    requires EntriesOk(data, Flat(lists)) && |data| == RECORD_BUFF_SIZE && p < RECORD_BUFF_SIZE && j < |lists|
    requires p !in Slots(Flat(lists))
    ensures EntriesOk(data[p := record], Flat(lists[j := Upsert(lists[j], record.key, SlotIndex(p), 0)]))
  {
    var a, b := WriteExchanges(lists, data, record.key, p, j);
    OtherSlot(data, Flat(lists), p, record);
    SlotReadsBack(p);
    NewRef(data[p := record], a, Displaced(lists[j], record.key), b, Entry(record.key, SlotIndex(p)));
  }

  lemma {:induction false} WriteRefs(w: World, record: Record, j: nat)
    requires SlotsOwned(w) && RefsOk(w.s) && Enabled(w.s, Write(record, j))
    ensures RefsOk(WriteStep(w.s, record, j))
  {
    var p, s := NextSlot(w.s.pool), w.s;
    FreshSlot(w);
    WriteEntries(s.memtables, s.data, record, p, j);
    OtherSlot(s.data, Pending(s), p, record);
  }

  lemma {:induction false} NewRef(data: seq<Record>, a: seq<Entry>, out: seq<Entry>, b: seq<Entry>, e: Entry)
    requires EntriesOk(data, a + out + b) && EntryOk(data, e)
    ensures EntriesOk(data, a + [e] + b)
  {
    forall d | d in a + [e] + b ensures EntryOk(data, d) {
      assert d == e || d in a + out + b;
    }
  }

  lemma {:induction false} WriteAccounted(w: World, record: Record, j: nat)
    requires Accounted(w) && Enabled(w.s, Write(record, j))
    ensures Accounted(Next(w, Write(record, j)))
  {
    UpsertSorted(w.s.memtables, record.key, SlotIndex(NextSlot(w.s.pool)), j);
    WriteOwns(w, record, j);
    WriteRefs(w, record, j);
  }

  // Everything current becomes pending.
  lemma {:induction false} SwitchMoves(s: State)
    requires OneBatch(s) && Enabled(s, Switch)
    ensures Pending(s) == [] && s.queue == []
    ensures Pending(SwitchStep(s)) == Flat(s.memtables) && Flat(SwitchStep(s).memtables) == []
  {
    NothingHeld();
    assert SwitchStep(s).queue == [s.memtables];
  }

  lemma {:induction false} SwitchOwns(w: World)
    requires OneBatch(w.s) && SlotsOwned(w) && Enabled(w.s, Switch)
    ensures SlotsOwned(Next(w, Switch))
  {
    SwitchMoves(w.s);
    assert Slots([]) == multiset{};
    OwnedMoves(w.s.pool, Slots(Flat(w.s.memtables)), w.leaked);
  }

  lemma {:induction false} OwnedMoves(pool: Buffers.Pool, slots: multiset<nat>, leaked: multiset<nat>)
    requires Owned(pool, slots, multiset{}, leaked)
    ensures Owned(pool, multiset{}, slots, leaked)
  {
  }

  lemma {:induction false} SwitchLists(s: State)
    requires OneBatch(s) && ListsOk(s) && RefsOk(s) && Enabled(s, Switch)
    ensures OneBatch(SwitchStep(s)) && ListsOk(SwitchStep(s)) && RefsOk(SwitchStep(s))
  {
    NothingHeld();
    SwitchMoves(s);
  }

  lemma {:induction false} SwitchAccounted(w: World)
    requires Accounted(w) && Enabled(w.s, Switch)
    ensures Accounted(Next(w, Switch))
  {
    SwitchLists(w.s);
    SwitchOwns(w);
  }

  // The merge shares the batch out between the table to be and what it leaves behind.
  lemma {:induction false} StartDumpShares(s: State)
    requires OneBatch(s) && Enabled(s, StartDump)
    ensures Slots(Pending(s)) == Slots(Pending(StartDumpStep(s))) + Slots(Flat(Left(s.queue[0])))
    ensures forall e :: e in Pending(StartDumpStep(s)) ==> e in Pending(s)
  {
    MergeSharesSlots(s.queue[0]);
    assert Pending(StartDumpStep(s)) == Untag(KMerge(s.queue[0]));
  }

  // If nothing of a batch is to be written, all of it is left behind.
  lemma {:induction false} EmptyMergeLeaks(batch: seq<seq<Entry>>, leaked: multiset<nat>)
    requires Untag(KMerge(batch)) == [] && Total(batch) > 0
    ensures leaked + Slots(Flat(Left(batch))) != multiset{}
  {
    MergeSharesSlots(batch);
    FlatSize(batch);
    GrowsUnlessEmpty(leaked, Flat(Left(batch)));
  }

  lemma {:induction false} GrowsUnlessEmpty(leaked: multiset<nat>, es: seq<Entry>)
    ensures leaked + Slots(es) == leaked <==> es == []
    ensures leaked + Slots(es) == multiset{} ==> es == []
  {
    assert |leaked + Slots(es)| == |leaked| + |es|;
    assert es == [] ==> Slots(es) == multiset{};
  }

  lemma {:induction false} StartDumpOk(w: World)
    requires ListsOk(w.s) && Enabled(w.s, StartDump)
    ensures DumpOk(Next(w, StartDump))
  {
    if Untag(KMerge(w.s.queue[0])) == [] {
      EmptyMergeLeaks(w.s.queue[0], w.leaked);
    }
  }

  lemma {:induction false} StartDumpLists(s: State)
    requires OneBatch(s) && ListsOk(s) && RefsOk(s) && Enabled(s, StartDump)
    ensures OneBatch(StartDumpStep(s)) && ListsOk(StartDumpStep(s)) && RefsOk(StartDumpStep(s))
  {
    StartDumpShares(s);
  }

  lemma {:induction false} StartDumpAccounted(w: World)
    requires Accounted(w) && Enabled(w.s, StartDump)
    ensures Accounted(Next(w, StartDump))
  {
    StartDumpLists(w.s);
    StartDumpShares(w.s);
    StartDumpOk(w);
  }

  lemma {:induction false} SlotsHead(es: seq<Entry>, i: nat)
    requires i < |es|
    ensures es[i..] == [es[i]] + es[i + 1..]
    ensures Slots(es[i..]) == Slots(es[i + 1..]) + multiset{SlotOf(es[i].idx)}
  {
    SlotsOne([], es[i], es[i + 1..]);
    assert [] + [es[i]] + es[i + 1..] == es[i..];
    assert [] + es[i + 1..] == es[i + 1..];
  }

  lemma {:induction false} DumpOneReleases(s: State)
    requires OneBatch(s) && Enabled(s, DumpOne)
    ensures Pending(s) == s.dump.kvs[s.dump.done..] && Pending(DumpOneStep(s)) == s.dump.kvs[s.dump.done + 1..]
    ensures Pending(s) == [s.dump.kvs[s.dump.done]] + Pending(DumpOneStep(s))
    ensures Slots(Pending(s)) == Slots(Pending(DumpOneStep(s))) + multiset{SlotOf(s.dump.kvs[s.dump.done].idx)}
  {
    SlotsHead(s.dump.kvs, s.dump.done);
  }

  lemma {:induction false} OwnedByRelease(pool: Buffers.Pool, current: multiset<nat>, pending: multiset<nat>, leaked: multiset<nat>,
                                          pending': multiset<nat>, id: nat)
    requires Owned(pool, current, pending, leaked) && id in pool.wrote
    requires pending == pending' + multiset{id}
    ensures Owned(Buffers.Do(pool, Buffers.Release(id)), current, pending', leaked)
  {
    Buffers.DoKeepsPool(pool, Buffers.Release(id), RECORD_BUFF_SIZE);
  }

  lemma {:induction false} DumpOneOwns(w: World)
    requires OneBatch(w.s) && SlotsOwned(w) && Enabled(w.s, DumpOne)
    ensures SlotsOwned(Next(w, DumpOne))
  {
    var s, s' := w.s, DumpOneStep(w.s);
    DumpOneReleases(s);
    OwnedByRelease(s.pool, Slots(Flat(s.memtables)), Slots(Pending(s)), w.leaked, Slots(Pending(s')), SlotOf(s.dump.kvs[s.dump.done].idx));
  }

  lemma {:induction false} DumpOneAccounted(w: World)
    requires Accounted(w) && Enabled(w.s, DumpOne)
    ensures Accounted(Next(w, DumpOne))
  {
    DumpOneReleases(w.s);
    DumpOneOwns(w);
  }

  lemma {:induction false} ListTableAccounted(w: World)
    requires Accounted(w) && Enabled(w.s, ListTable)
    ensures Accounted(Next(w, ListTable))
  {
    assert Pending(w.s) == [] == Pending(ListTableStep(w.s));
  }

  lemma {:induction false} StepAccounted(w: World, step: Step)
    requires Accounted(w) && Enabled(w.s, step)
    ensures Accounted(Next(w, step))
  {
    match step
    case Write(record, j) => WriteAccounted(w, record, j);
    case Switch => SwitchAccounted(w);
    case StartDump => StartDumpAccounted(w);
    case DumpOne => DumpOneAccounted(w);
    case ListTable => ListTableAccounted(w);
    case EndDump =>
  }

  // Over every run, each written slot has exactly one owner.
  lemma {:induction false} RunAccounted(w: World, steps: seq<Step>)
    requires Accounted(w) && CanTake(w, steps)
    ensures Accounted(After(w, steps))
    decreases steps
  {
    if steps != [] {
      StepAccounted(w, steps[0]);
      RunAccounted(Next(w, steps[0]), steps[1..]);
    }
  }

  lemma {:induction false} CountSlots(w: World)
    requires Accounted(w)
    ensures |w.s.pool.empty| + Total(w.s.memtables) + |Pending(w.s)| + |w.leaked| == RECORD_BUFF_SIZE
    ensures w.s.queue != [] ==> |Pending(w.s)| >= RECORD_BUFF_SIZE
  {
    FlatSize(w.s.memtables);
    if w.s.queue != [] {
      FlatSize(w.s.queue[0]);
    }
    SlotsNumber(RECORD_BUFF_SIZE);
    assert |multiset(w.s.pool.empty) + multiset(w.s.pool.wrote)| == |w.s.pool.empty| + |w.s.pool.wrote|;
    assert |multiset(w.s.pool.wrote)| == |Slots(Flat(w.s.memtables))| + |Slots(Pending(w.s))| + |w.leaked|;
  }

  lemma {:induction false} SlotsNumber(n: nat)
    ensures |multiset(Buffers.Slots(n))| == n
  {
    FullPool(n);
    assert |multiset(seq(n, i => i))| == n;
  }

  // A switch is due exactly when no slot is empty, nothing waits to be released and nothing
  // has leaked; so until it is taken no write is, no batch is waiting and no table half written.
  lemma {:induction false} DueExactly(w: World)
    requires Accounted(w)
    ensures Due(w.s) <==> w.s.pool.empty == [] && Pending(w.s) == [] && w.leaked == multiset{}
    ensures Due(w.s) ==> forall r, j :: !Enabled(w.s, Write(r, j))
    ensures Due(w.s) ==> w.s.queue == [] && (w.s.dump.Writing? ==> w.s.dump.kvs != [] && w.s.dump.done == |w.s.dump.kvs|)
  {
    CountSlots(w);
  }

  // When no slot is empty and no switch is due, either a batch is pending that will release
  // one, or a slot has leaked.
  lemma {:induction false} FullBufferHasRelief(w: World)
    requires Accounted(w) && w.s.pool.empty == []
    ensures !Due(w.s) <==> Pending(w.s) != [] || w.leaked != multiset{}
  {
    DueExactly(w);
  }

  // The dumper's release always finds its slot written.
  lemma {:induction false} ReleaseNeverAborts(w: World)
    requires Accounted(w) && w.s.dump.Writing? && w.s.dump.done < |w.s.dump.kvs|
    ensures Enabled(w.s, DumpOne)
  {
    var e := w.s.dump.kvs[w.s.dump.done];
    SlotsHead(w.s.dump.kvs, w.s.dump.done);
    assert Pending(w.s) == w.s.dump.kvs[w.s.dump.done..] && e in Pending(w.s);
    InSlots(Pending(w.s), SlotOf(e.idx));
    assert SlotOf(e.idx) in multiset(w.s.pool.wrote);
    assert EntryOk(w.s.data, e);
  }

  ghost predicate Stuck(s: State) {
    forall step: Step :: !Enabled(s, step)
  }

  lemma {:induction false} StuckSteps(s: State)
    requires |s.memtables| > 0
    ensures Stuck(s) <==>
      && s.pool.empty == [] && !(Due(s) && s.died.None? && |s.queue| < DUMP_QUEUE_SIZE)
      && !(s.dump.Idle? && s.queue != []) && !Enabled(s, DumpOne)
      && !(s.dump.Writing? && s.dump.done == |s.dump.kvs| && s.dump.kvs != []) && !s.dump.Listed?
  {
    if Stuck(s) {
      assert !Enabled(s, Write(NO_RECORD, 0)) && !Enabled(s, Switch) && !Enabled(s, StartDump);
      assert !Enabled(s, DumpOne) && !Enabled(s, ListTable) && !Enabled(s, EndDump);
    }
  }

  // No step is possible in exactly these states: every slot is taken, at least one of them
  // leaked, and the dumper has nothing to release, or a table without keys to list.
  lemma {:induction false} StuckExactly(w: World)
    requires Accounted(w)
    ensures Stuck(w.s) <==>
      && w.s.pool.empty == [] && w.leaked != multiset{} && w.s.queue == []
      && (w.s.dump.Idle? || (w.s.dump.Writing? && w.s.dump.kvs == []))
  {
    var s := w.s;
    StuckSteps(s);
    DueExactly(w);
    if s.dump.Writing? && s.dump.done < |s.dump.kvs| {
      ReleaseNeverAborts(w);
    }
  }

  // A write of a key its memtable does not hold, the dump of a batch the merge sees all of,
  // or any other step.
  ghost predicate KeepsSlots(s: State, step: Step)
    requires Enabled(s, step)
  {
    match step
    case Write(record, j) => !HasKey(s.memtables[j], record.key)
    case StartDump => AllBelow(Flat(s.queue[0]))
    case _ => true
  }

  // A step leaks a slot exactly when it writes a key its memtable already holds, or starts
  // to dump a batch with a key the merge does not see.
  lemma {:induction false} LeaksExactly(w: World, step: Step)
    requires Accounted(w) && Enabled(w.s, step)
    ensures w.leaked <= Next(w, step).leaked
    ensures Next(w, step).leaked == w.leaked <==> KeepsSlots(w.s, step)
  {
    match step
    case Write(record, j) =>
      FindIsHasKey(w.s.memtables[j], record.key);
      GrowsUnlessEmpty(w.leaked, Displaced(w.s.memtables[j], record.key));
    case StartDump =>
      LeftIsInvisible(w.s.queue[0]);
      GrowsUnlessEmpty(w.leaked, Flat(Left(w.s.queue[0])));
    case _ =>
  }

  // Each step of a run keeps its slots.
  ghost predicate LeakFree(w: World, steps: seq<Step>)
    requires CanTake(w, steps)
    decreases steps
  {
    steps != [] ==> KeepsSlots(w.s, steps[0]) && LeakFree(Next(w, steps[0]), steps[1..])
  }

  // A run leaks nothing exactly when none of its steps does.
  lemma {:induction false} RunLeaksExactly(w: World, steps: seq<Step>)
    requires Accounted(w) && CanTake(w, steps)
    ensures w.leaked <= After(w, steps).leaked
    ensures After(w, steps).leaked == w.leaked <==> LeakFree(w, steps)
    decreases steps
  {
    if steps != [] {
      LeaksExactly(w, steps[0]);
      StepAccounted(w, steps[0]);
      RunLeaksExactly(Next(w, steps[0]), steps[1..]);
    }
  }

  // So an engine whose writes never meet their key in their memtable, and whose batches have
  // no key the merge does not see, leaks nothing and can always take a step.
  lemma {:induction false} LeakFreeNeverStalls(steps: seq<Step>)
    requires CanTake(Start(), steps)
    ensures After(Start(), steps).leaked == multiset{} <==> LeakFree(Start(), steps)
    ensures LeakFree(Start(), steps) ==> !Stuck(After(Start(), steps).s)
  {
    StartAccounted();
    RunAccounted(Start(), steps);
    RunLeaksExactly(Start(), steps);
    StuckExactly(After(Start(), steps));
  }

  // Once a slot has leaked there is never a switch again.
  lemma {:induction false} LeakEndsSwitching(w: World, steps: seq<Step>)
    requires Accounted(w) && CanTake(w, steps) && w.leaked != multiset{}
    ensures Switch !in steps && !Due(After(w, steps).s)
    decreases steps
  {
    DueExactly(w);
    if steps != [] {
      LeaksExactly(w, steps[0]);
      StepAccounted(w, steps[0]);
      LeakEndsSwitching(Next(w, steps[0]), steps[1..]);
    }
  }

  function Repeated(step: Step, n: nat): seq<Step> {
    if n == 0 then [] else [step] + Repeated(step, n - 1)
  }

  // One entry, in the first memtable, and a dumper with nothing to do.
  ghost predicate OneKeyHeld(s: State, key: Key) {
    && Total(s.memtables) == 1 && |s.memtables| > 0 && HasKey(s.memtables[0], key)
    && s.queue == [] && s.dump.Idle?
  }

  lemma {:induction false} RewriteHolds(s: State, record: Record)
    requires OneKeyHeld(s, record.key) && AllSorted(s.memtables) && s.pool.empty != []
    ensures OneKeyHeld(WriteStep(s, record, 0), record.key)
    ensures |WriteStep(s, record, 0).pool.empty| == |s.pool.empty| - 1
  {
    var es, x := s.memtables[0], SlotIndex(NextSlot(s.pool));
    var stored := Stored(Find(es, record.key), x, 0);
    PutAgain(es, record.key, stored);
    TotalHead(s.memtables, Put(es, record.key, stored));
  }

  lemma {:induction false} RewriteKeeps(w: World, record: Record)
    requires Accounted(w) && OneKeyHeld(w.s, record.key) && w.s.pool.empty != []
    ensures Enabled(w.s, Write(record, 0))
    ensures var w' := Next(w, Write(record, 0));
            Accounted(w') && OneKeyHeld(w'.s, record.key) && w'.leaked != multiset{} && |w'.s.pool.empty| == |w.s.pool.empty| - 1
  {
    WriteAccounted(w, record, 0);
    LeaksExactly(w, Write(record, 0));
    RewriteHolds(w.s, record);
  }

  lemma {:induction false} PutAgain(es: seq<Entry>, key: Key, x: Index)
    requires Sorted(es) && HasKey(es, key)
    ensures HasKey(Put(es, key, x), key) && |Put(es, key, x)| == |es|
  {
    FindIsHasKey(es, key);
    PutSorted(es, key, x);
    PutFinds(es, key, x, key);
    FindIsHasKey(Put(es, key, x), key);
  }

  lemma {:induction false} TotalHead(lists: seq<seq<Entry>>, es: seq<Entry>)
    requires lists != []
    ensures Total(lists[0 := es]) == Total(lists) - |lists[0]| + |es|
  {
    assert lists[0 := es][1..] == lists[1..];
  }

  lemma {:induction false} RewritingFrom(w: World, record: Record, n: nat)
    requires Accounted(w) && OneKeyHeld(w.s, record.key) && |w.s.pool.empty| == n > 0
    ensures CanTake(w, Repeated(Write(record, 0), n)) && Stuck(After(w, Repeated(Write(record, 0), n)).s)
    decreases n
  {
    var step := Write(record, 0);
    RewriteKeeps(w, record);
    var w' := Next(w, step);
    assert Repeated(step, n)[0] == step && Repeated(step, n)[1..] == Repeated(step, n - 1);
    if n > 1 {
      RewritingFrom(w', record, n - 1);
    } else {
      StuckExactly(w');
      assert Repeated(step, 0) == [];
    }
  }

  lemma {:induction false} FirstWrite(s: State, record: Record)
    requires s.memtables != [] && s.memtables[0] == [] && Total(s.memtables) == 0
    requires s.queue == [] && s.dump.Idle? && s.pool.empty != []
    ensures Enabled(s, Write(record, 0))
    ensures OneKeyHeld(WriteStep(s, record, 0), record.key)
  {
    var x := SlotIndex(NextSlot(s.pool));
    FirstEntry(record.key, x);
    TotalHead(s.memtables, Upsert([], record.key, x, 0));
  }

  lemma {:induction false} FirstEntry(key: Key, x: Index)
    ensures Upsert([], key, x, 0) == [Entry(key, x)] && HasKey(Upsert([], key, x, 0), key)
  {
    assert Rank([], key) == 0;
    assert Upsert([], key, x, 0)[0].key == key;
  }

  lemma {:induction false} RewritingStallsFrom(w: World, record: Record, n: nat)
    requires Accounted(w) && Total(w.s.memtables) == 0 && w.s.memtables[0] == []
    requires w.s.queue == [] && w.s.dump.Idle? && |w.s.pool.empty| == n > 1
    ensures CanTake(w, Repeated(Write(record, 0), n)) && Stuck(After(w, Repeated(Write(record, 0), n)).s)
  {
    var step := Write(record, 0);
    FirstWrite(w.s, record);
    WriteAccounted(w, record, 0);
    RewritingFrom(Next(w, step), record, n - 1);
    assert Repeated(step, n)[0] == step && Repeated(step, n)[1..] == Repeated(step, n - 1);
  }

  lemma {:induction false} RewritingStallsStart(record: Record, n: nat)
    requires n == RECORD_BUFF_SIZE
    ensures CanTake(Start(), Repeated(Write(record, 0), n)) && Stuck(After(Start(), Repeated(Write(record, 0), n)).s)
  {
    StartAccounted();
    NothingHeld();
    assert |Start().s.pool.empty| == n;
    RewritingStallsFrom(Start(), record, n);
  }

  // One record written over and over through one memtable brings the engine to a halt.
  lemma {:induction false} RewritingStalls(record: Record)
    ensures var steps := Repeated(Write(record, 0), RECORD_BUFF_SIZE);
            CanTake(Start(), steps) && Stuck(After(Start(), steps).s)
  {
    RewritingStallsStart(record, RECORD_BUFF_SIZE);
  }
}
