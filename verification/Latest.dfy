/** When the hash index leads each key to its latest value, rewritten keys included. */
module LatestValues {
  import opened Keys
  import opened Options
  import opened Indexes
  import opened Places
  import opened SkipLevels
  import opened Merges
  import opened SlotBags
  import opened Systems
  import opened Accounting
  import opened Durability
  import opened Resolution
  import opened WriteOnce

  // The hash index leads the key to the record acknowledged last for it, if there is one.
  ghost predicate Current(w: World, k: Key) {
    Resolve(w.s, k) == LastOf(w.acked, k)
  }

  // A place keeps its record while its slot and its row stay as they are.
  lemma {:induction false} SameResolve(s: State, s': State, k: Key)
    requires k in s.hash ==> k in s'.hash && s'.hash[k] == s.hash[k]
    requires k !in s.hash ==> k !in s'.hash
    requires k in s.hash ==> PlaceHolds(s, k, PlaceOf(s.hash[k])) && StaysAt(s, s', PlaceOf(s.hash[k]))
    ensures Resolve(s', k) == Resolve(s, k)
  {
  }

  ghost predicate StaysAt(s: State, s': State, place: Place) {
    match place
    case InSlot(p) => p in s.pool.wrote && p < |s.data| ==> p < |s'.data| && s'.data[p] == s.data[p]
    case InTable(t, i) => t in s.files ==> t in s'.files && RowStays(s.files[t], s'.files[t], i)
  }

  ghost predicate RowStays(table: Table, table': Table, i: nat) {
    i < |table.keys| && i < |table.values| ==>
      && i < |table'.keys| && table'.keys[i] == table.keys[i]
      && i < |table'.values| && table'.values[i] == table.values[i]
  }

  lemma {:induction false} WriteStays(w: World, record: Record, j: nat, place: Place)
    requires Accounted(w) && Enabled(w.s, Write(record, j))
    ensures StaysAt(w.s, WriteStep(w.s, record, j), place)
  {
    FreshSlot(w);
  }

  lemma {:induction false} WrittenResolves(w: World, record: Record, j: nat)
    requires Accounted(w) && Enabled(w.s, Write(record, j))
    ensures Resolve(WriteStep(w.s, record, j), record.key) == Some(record)
  {
    FreshSlot(w);
    SlotPlaceReadsBack(NextSlot(w.s.pool));
  }

  lemma {:induction false} WriteResolves(w: World, record: Record, j: nat, k: Key)
    requires Accounted(w) && LeadsRight(w.s, k) && Enabled(w.s, Write(record, j))
    ensures Resolve(WriteStep(w.s, record, j), k) == if k == record.key then Some(record) else Resolve(w.s, k)
  {
    if k == record.key {
      WrittenResolves(w, record, j);
    } else {
      if k in w.s.hash {
        WriteStays(w, record, j, PlaceOf(w.s.hash[k]));
      }
      SameResolve(w.s, WriteStep(w.s, record, j), k);
    }
  }

  lemma {:induction false} DumpResolves(w: World, k: Key)
    requires Accounted(w) && FilesOk(w.s) && Traceable(w) && Enabled(w.s, DumpOne) && TablesBegun(w.s) <= TABLE_LIMIT
    ensures var e := w.s.dump.kvs[w.s.dump.done];
            && SlotOf(e.idx) < |w.s.data|
            && Resolve(DumpOneStep(w.s), k) == if k == e.key then Some(w.s.data[SlotOf(e.idx)]) else Resolve(w.s, k)
  {
    DumpedEntry(w);
    if k == w.s.dump.kvs[w.s.dump.done].key {
      DumpedResolves(w);
    } else {
      assert LeadsRight(w.s, k);
      SameResolve(w.s, DumpOneStep(w.s), k);
    }
  }

  lemma {:induction false} DumpedResolves(w: World)
    requires Accounted(w) && FilesOk(w.s) && Traceable(w) && Enabled(w.s, DumpOne) && TablesBegun(w.s) <= TABLE_LIMIT
    ensures var e := w.s.dump.kvs[w.s.dump.done];
            SlotOf(e.idx) < |w.s.data| && Resolve(DumpOneStep(w.s), e.key) == Some(w.s.data[SlotOf(e.idx)])
  {
    var s := w.s;
    var e, t, i := s.dump.kvs[s.dump.done], |s.manifest|, s.dump.done;
    DumpedEntry(w);
    RankPlaceReadsBack(t, i);
    assert DumpOneStep(s).files[t].values[i] == s.data[SlotOf(e.idx)].value;
  }

  lemma {:induction false} OtherResolves(w: World, step: Step, k: Key)
    requires FilesOk(w.s) && LeadsRight(w.s, k) && Enabled(w.s, step) && !step.Write? && !step.DumpOne?
    ensures Resolve(Next(w, step).s, k) == Resolve(w.s, k)
  {
  }

  // A write makes its key current, a dump step leaves its key current exactly when the slot
  // it writes out holds the latest record, and nothing else changes where a key leads.
  lemma {:induction false} StepCurrent(w: World, step: Step, k: Key)
    requires Accounted(w) && FilesOk(w.s) && Traceable(w) && Enabled(w.s, step)
    requires TablesBegun(Next(w, step).s) <= TABLE_LIMIT
    ensures step.DumpOne? ==> SlotOf(w.s.dump.kvs[w.s.dump.done].idx) < |w.s.data|
    ensures Current(Next(w, step), k) <==>
      match step
      case Write(record, j) => k == record.key || Current(w, k)
      case DumpOne =>
        var e := w.s.dump.kvs[w.s.dump.done];
        if k == e.key then LastOf(w.acked, k) == Some(w.s.data[SlotOf(e.idx)]) else Current(w, k)
      case _ => Current(w, k)
  {
    assert LeadsRight(w.s, k);
    match step
    case Write(record, j) =>
      WriteResolves(w, record, j, k);
      LastOfMore(w.acked, record, k);
    case DumpOne => DumpResolves(w, k);
    case _ => OtherResolves(w, step, k);
  }

  // No entry of the pending batch, and no memtable but the j-th, holds the key.
  ghost predicate FreeBeside(s: State, key: Key, j: nat) {
    && (forall e :: e in Pending(s) ==> e.key != key)
    && (forall i :: 0 <= i < |s.memtables| && i != j ==> !HasKey(s.memtables[i], key))
  }

  // At each write of a run its key is in no memtable but the one written to, and in no batch
  // on its way to disk.
  ghost predicate Tidy(w: World, steps: seq<Step>)
    requires CanTake(w, steps)
    decreases steps
  {
    steps != [] ==>
      && (steps[0].Write? ==> FreeBeside(w.s, steps[0].record.key, steps[0].j))
      && Tidy(Next(w, steps[0]), steps[1..])
  }

  ghost predicate EntriesPointed(s: State) {
    AllPointed(s.hash, Flat(s.memtables)) && AllPointed(s.hash, Pending(s))
  }

  // Each entry still to be dumped is where its key leads, and each key leads to its latest record.
  ghost predicate LatestOk(w: World) {
    TablesBegun(w.s) <= TABLE_LIMIT ==> EntriesPointed(w.s) && forall k :: Current(w, k)
  }

  lemma {:induction false} InFlat(lists: seq<seq<Entry>>, e: Entry)
    ensures e in Flat(lists) <==> exists i :: 0 <= i < |lists| && e in lists[i]
  {
    if lists != [] {
      InFlat(lists[1..], e);
      assert forall i :: 0 <= i < |lists| - 1 ==> lists[1..][i] == lists[i + 1];
    }
  }

  lemma {:induction false} InPut(es: seq<Entry>, key: Key, x: Index, e: Entry)
    requires Sorted(es) && e in Put(es, key, x)
    ensures e == Entry(key, x) || (e in es && e.key != key)
  {
    var r := Rank(es, key);
    assert forall i :: r < i < |es| ==> es[r].key < es[i].key;
  }

  // The entries after a write that no other list holds the key of: the new one, and old ones
  // with other keys.
  lemma {:induction false} InWritten(lists: seq<seq<Entry>>, data: seq<Record>, key: Key, p: nat, j: nat, e: Entry)
    requires AllSorted(lists) && EntriesOk(data, Flat(lists)) && p < RECORD_BUFF_SIZE && j < |lists|
    requires forall i :: 0 <= i < |lists| && i != j ==> !HasKey(lists[i], key)
    requires e in Flat(lists[j := Upsert(lists[j], key, SlotIndex(p), 0)])
    ensures e == Entry(key, SlotIndex(p)) || (e in Flat(lists) && e.key != key)
  {
    var a, b := FlatAt(lists, j);
    assert forall d :: d in lists[j] ==> d in Flat(lists);
    UpsertIsPut(data, lists[j], key, p);
    InFlat(lists[j := Put(lists[j], key, SlotIndex(p))], e);
    InFlat(lists, e);
    if e in Put(lists[j], key, SlotIndex(p)) {
      InPut(lists[j], key, SlotIndex(p), e);
    }
  }

  lemma {:induction false} WriteEntriesPointed(w: World, record: Record, j: nat)
    requires Accounted(w) && EntriesPointed(w.s) && Enabled(w.s, Write(record, j)) && FreeBeside(w.s, record.key, j)
    ensures EntriesPointed(WriteStep(w.s, record, j))
  {
    var s, p := w.s, NextSlot(w.s.pool);
    var x, hash' := SlotIndex(p).SetInHash(true), s.hash[record.key := SlotIndex(p).SetInHash(true)];
    FreshSlot(w);
    SlotReadsBack(p);
    SlotPlaceReadsBack(p);
    forall e | e in Flat(WriteStep(s, record, j).memtables) ensures PointsAt(hash', e) {
      InWritten(s.memtables, s.data, record.key, p, j, e);
      assert e.key != record.key ==> PointsAt(s.hash, e);
    }
    WriteKeepsBatch(s, record, j);
    OthersPointed(s.hash, Pending(s), record.key, x);
  }

  lemma {:induction false} SwitchEntriesPointed(w: World)
    requires OneBatch(w.s) && EntriesPointed(w.s) && Enabled(w.s, Switch)
    ensures EntriesPointed(SwitchStep(w.s))
  {
    SwitchMoves(w.s);
  }

  lemma {:induction false} DumpEntriesPointed(w: World)
    requires Accounted(w) && EntriesPointed(w.s) && Enabled(w.s, DumpOne)
    ensures EntriesPointed(DumpOneStep(w.s))
  {
    var s, d := w.s, w.s.dump.kvs[w.s.dump.done];
    DumpOneReleases(s);
    forall e | e in Flat(s.memtables) || e in Pending(DumpOneStep(s)) ensures e.key != d.key {
      DumpedKeyAlone(w, e);
    }
    var x := RankIndex(|s.manifest|, s.dump.done).SetInHash(true);
    OthersPointed(s.hash, Flat(s.memtables), d.key, x);
    OthersPointed(s.hash, Pending(DumpOneStep(s)), d.key, x);
  }

  lemma {:induction false} StepEntriesPointed(w: World, step: Step)
    requires Accounted(w) && EntriesPointed(w.s) && Enabled(w.s, step)
    requires step.Write? ==> FreeBeside(w.s, step.record.key, step.j)
    ensures EntriesPointed(Next(w, step).s)
  {
    match step
    case Write(record, j) => WriteEntriesPointed(w, record, j);
    case Switch => SwitchEntriesPointed(w);
    case StartDump => StartDumpPointed(w.s);
    case DumpOne => DumpEntriesPointed(w);
    case _ => assert Pending(Next(w, step).s) == [];
  }

  // The record being dumped is the one its key leads to.
  lemma {:induction false} DumpedIsLatest(w: World)
    requires Accounted(w) && EntriesPointed(w.s) && Enabled(w.s, DumpOne)
    requires Current(w, w.s.dump.kvs[w.s.dump.done].key)
    ensures var e := w.s.dump.kvs[w.s.dump.done];
            SlotOf(e.idx) < |w.s.data| && LastOf(w.acked, e.key) == Some(w.s.data[SlotOf(e.idx)])
  {
    var e := w.s.dump.kvs[w.s.dump.done];
    DumpOneReleases(w.s);
    assert e in Pending(w.s) && PointsAt(w.s.hash, e) && EntryOk(w.s.data, e);
  }

  lemma {:induction false} StepLatest(w: World, step: Step)
    requires Accounted(w) && FilesOk(w.s) && Traceable(w) && LatestOk(w) && Enabled(w.s, step)
    requires step.Write? ==> FreeBeside(w.s, step.record.key, step.j)
    ensures LatestOk(Next(w, step))
  {
    if TablesBegun(Next(w, step).s) <= TABLE_LIMIT {
      StepEntriesPointed(w, step);
      if step.DumpOne? {
        DumpedIsLatest(w);
      }
      forall k ensures Current(Next(w, step), k) {
        StepCurrent(w, step, k);
      }
    }
  }

  lemma {:induction false} RunLatest(w: World, steps: seq<Step>)
    requires Accounted(w) && Durable(w) && Traceable(w) && LatestOk(w) && CanTake(w, steps) && Tidy(w, steps)
    ensures LatestOk(After(w, steps))
    decreases steps
  {
    if steps != [] {
      StepAccounted(w, steps[0]);
      StepDurable(w, steps[0]);
      StepTraceable(w, steps[0]);
      StepLatest(w, steps[0]);
      RunLatest(Next(w, steps[0]), steps[1..]);
    }
  }

  lemma {:induction false} EmptyLatest(w: World)
    requires w.acked == [] && w.s.hash == map[] && Flat(w.s.memtables) == [] && w.s.queue == [] && w.s.dump.Idle?
    ensures LatestOk(w)
  {
    forall k ensures Current(w, k) {
    }
  }

  lemma {:induction false} TidyLatest(steps: seq<Step>)
    requires CanTake(Start(), steps) && Tidy(Start(), steps)
    ensures LatestOk(After(Start(), steps))
  {
    StartAccounted();
    EmptyTraceable(Start());
    NothingHeld();
    EmptyLatest(Start());
    RunLatest(Start(), steps);
  }

  // Over every run with at most 256 tables in which each key is written while no other memtable
  // and no batch on its way to disk holds it, each key leads to its latest record, however
  // often it was rewritten.
  lemma {:induction false} ResolvesToLatest(steps: seq<Step>, k: Key)
    requires CanTake(Start(), steps) && Tidy(Start(), steps)
    requires TablesBegun(After(Start(), steps).s) <= TABLE_LIMIT
    ensures Resolve(After(Start(), steps).s, k) == LastOf(After(Start(), steps).acked, k)
  {
    TidyLatest(steps);
    assert Current(After(Start(), steps), k);
  }
}
