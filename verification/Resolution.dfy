/** Where the hash index leads, in every reachable state. */
module Resolution {
  import opened Keys
  import opened Options
  import opened Places
  import opened SlotBags
  import opened Systems
  import opened Accounting
  import opened Durability
  import Buffers

  ghost predicate Acked(w: World, k: Key) {
    exists r :: r in w.acked && r.key == k
  }

  // The last record of a key among these.
  function LastOf(log: seq<Record>, k: Key): Option<Record> {
    if log == [] then None
    else if LastOf(log[1..], k).Some? then LastOf(log[1..], k)
    else if log[0].key == k then Some(log[0]) else None
  }

  lemma {:induction false} LastOfMore(log: seq<Record>, r: Record, k: Key)
    ensures LastOf(log + [r], k) == if r.key == k then Some(r) else LastOf(log, k)
  {
    if log == [] {
      assert [] + [r] == [r] && [r][1..] == [];
    } else {
      assert (log + [r])[1..] == log[1..] + [r];
      LastOfMore(log[1..], r, k);
    }
  }

  function TablesBegun(s: State): nat {
    |s.manifest| + if s.dump.Writing? then 1 else 0
  }

  // What the hash index leads to for a key: the record in a slot, or a row of a table.
  function Resolve(s: State, k: Key): Option<Record> {
    if k !in s.hash then None
    else match PlaceOf(s.hash[k])
      case InSlot(p) => if p < |s.data| then Some(s.data[p]) else None
      case InTable(t, i) =>
        if t in s.files && i < |s.files[t].keys| && i < |s.files[t].values|
        then Some(Record(s.files[t].keys[i], s.files[t].values[i])) else None
  }

  ghost predicate SlotGenuine(w: World, p: nat) {
    p in w.s.pool.wrote ==> p < |w.s.data| && w.s.data[p] in w.acked
  }

  ghost predicate GenuineIn(acked: seq<Record>, table: Table, i: nat) {
    i < |table.values| ==> i < |table.keys| && Record(table.keys[i], table.values[i]) in acked
  }

  ghost predicate RowGenuine(w: World, t: nat, i: nat) {
    t in w.s.files ==> GenuineIn(w.acked, w.s.files[t], i)
  }

  // Logs, written slots and tables hold acknowledged records only.
  ghost predicate Genuine(w: World) {
    && (forall r :: r in w.s.hot ==> r in w.acked)
    && (w.s.died.Some? ==> forall r :: r in w.s.died.value ==> r in w.acked)
    && (forall p :: SlotGenuine(w, p))
    && (forall t: nat, i: nat :: RowGenuine(w, t, i))
  }

  // The place is there, and it is the key's own.
  ghost predicate PlaceHolds(s: State, k: Key, place: Place) {
    match place
    case InSlot(p) => p in s.pool.wrote && p < |s.data| && s.data[p].key == k
    case InTable(t, i) => t in s.files && i < |s.files[t].values| && i < |s.files[t].keys| && s.files[t].keys[i] == k
  }

  ghost predicate LeadsRight(s: State, k: Key) {
    k in s.hash ==> PlaceHolds(s, k, PlaceOf(s.hash[k]))
  }

  // The index knows the acknowledged keys, and while table numbers fit their field it leads
  // each one to a place of its own. (A batch never has more entries than ranks can number.)
  ghost predicate HashOk(w: World) {
    && (forall k :: k in w.s.hash <==> Acked(w, k))
    && (TablesBegun(w.s) <= TABLE_LIMIT ==> forall k :: LeadsRight(w.s, k))
    && (w.s.dump.Writing? ==> |w.s.dump.kvs| <= SLOT_LIMIT)
  }

  ghost predicate Traceable(w: World) {
    Genuine(w) && HashOk(w)
  }

  lemma {:induction false} FilledSlotGenuine(acked: seq<Record>, data: seq<Record>, wrote: seq<nat>, p0: nat, record: Record, p: nat)
    requires p in wrote ==> p < |data| && data[p] in acked
    requires p0 < |data|
    ensures p in [p0] + wrote ==> p < |data| && data[p0 := record][p] in acked + [record]
  {
  }

  lemma {:induction false} WriteSlotGenuine(w: World, record: Record, j: nat, p: nat)
    requires Accounted(w) && SlotGenuine(w, p) && Enabled(w.s, Write(record, j))
    ensures SlotGenuine(Next(w, Write(record, j)), p)
  {
    assert NextSlot(w.s.pool) < |w.s.data| by {
      FreshSlot(w);
    }
    FilledSlotGenuine(w.acked, w.s.data, w.s.pool.wrote, NextSlot(w.s.pool), record, p);
  }

  lemma {:induction false} WriteGenuine(w: World, record: Record, j: nat)
    requires Accounted(w) && Genuine(w) && Enabled(w.s, Write(record, j))
    ensures Genuine(Next(w, Write(record, j)))
  {
    var w' := Next(w, Write(record, j));
    forall p ensures SlotGenuine(w', p) {
      WriteSlotGenuine(w, record, j, p);
    }
    forall t: nat, i: nat ensures RowGenuine(w', t, i) {
      assert RowGenuine(w, t, i);
    }
  }

  lemma {:induction false} StillHolds(s: State, s': State, k: Key, place: Place, p0: nat, record: Record)
    requires PlaceHolds(s, k, place) && p0 < |s.data| && p0 !in s.pool.wrote
    requires s'.data == s.data[p0 := record] && s'.files == s.files && s'.pool.wrote == [p0] + s.pool.wrote
    ensures PlaceHolds(s', k, place)
  {
  }

  lemma {:induction false} WriteLeads(w: World, record: Record, j: nat, k: Key)
    requires Accounted(w) && LeadsRight(w.s, k) && Enabled(w.s, Write(record, j))
    ensures LeadsRight(WriteStep(w.s, record, j), k)
  {
    var p0, s' := NextSlot(w.s.pool), WriteStep(w.s, record, j);
    FreshSlot(w);
    if k == record.key {
      SlotPlaceReadsBack(p0);
      assert PlaceHolds(s', k, InSlot(p0));
    } else if k in w.s.hash {
      StillHolds(w.s, s', k, PlaceOf(w.s.hash[k]), p0, record);
    }
  }

  lemma {:induction false} AckedMore(w: World, w': World, record: Record, k: Key)
    requires w'.acked == w.acked + [record]
    ensures Acked(w', k) <==> Acked(w, k) || k == record.key
  {
    assert record in w'.acked;
    assert forall r :: r in w'.acked <==> r in w.acked || r == record;
  }

  lemma {:induction false} WriteTraceable(w: World, record: Record, j: nat)
    requires Accounted(w) && Traceable(w) && Enabled(w.s, Write(record, j))
    ensures Traceable(Next(w, Write(record, j)))
  {
    var w' := Next(w, Write(record, j));
    WriteGenuine(w, record, j);
    forall k ensures k in w'.s.hash <==> Acked(w', k) {
      AckedMore(w, w', record, k);
    }
    if TablesBegun(w.s) <= TABLE_LIMIT {
      forall k ensures LeadsRight(w'.s, k) {
        WriteLeads(w, record, j, k);
      }
    }
  }

  lemma {:induction false} SwitchTraceable(w: World)
    requires Accounted(w) && Traceable(w) && Enabled(w.s, Switch)
    ensures Traceable(Next(w, Switch))
  {
    var w' := Next(w, Switch);
    SameAcked(w, w');
    forall p ensures SlotGenuine(w', p) {
      assert SlotGenuine(w, p);
    }
    forall t: nat, i: nat ensures RowGenuine(w', t, i) {
      assert RowGenuine(w, t, i);
    }
    if TablesBegun(w.s) <= TABLE_LIMIT {
      forall k ensures LeadsRight(w'.s, k) {
        assert LeadsRight(w.s, k);
      }
    }
  }

  lemma {:induction false} SameAcked(w: World, w': World)
    requires w'.acked == w.acked
    ensures forall k :: Acked(w', k) <==> Acked(w, k)
  {
  }

  lemma {:induction false} StartDumpTraceable(w: World)
    requires Accounted(w) && FilesOk(w.s) && Traceable(w) && Enabled(w.s, StartDump)
    ensures Traceable(Next(w, StartDump))
  {
    var w' := Next(w, StartDump);
    SameAcked(w, w');
    forall p ensures SlotGenuine(w', p) {
      assert SlotGenuine(w, p);
    }
    forall t: nat, i: nat ensures RowGenuine(w', t, i) {
      assert RowGenuine(w, t, i);
    }
    if TablesBegun(w'.s) <= TABLE_LIMIT {
      forall k ensures LeadsRight(w'.s, k) {
        assert LeadsRight(w.s, k);
      }
    }
    MergeSharesSlots(w.s.queue[0]);
    CountSlots(w);
  }

  // The entry being dumped names a slot with an acknowledged record of its key.
  lemma {:induction false} DumpedEntry(w: World)
    requires Accounted(w) && Genuine(w) && Enabled(w.s, DumpOne)
    ensures var e := w.s.dump.kvs[w.s.dump.done];
            && EntryOk(w.s.data, e) && w.s.data[SlotOf(e.idx)] in w.acked && w.s.data[SlotOf(e.idx)].key == e.key && Acked(w, e.key)
  {
    var e := w.s.dump.kvs[w.s.dump.done];
    DumpOneReleases(w.s);
    assert e in Pending(w.s) && EntryOk(w.s.data, e) && SlotGenuine(w, SlotOf(e.idx));
  }

  lemma {:induction false} StillWritten(wrote: seq<nat>, id: nat, p: nat)
    requires id in wrote
    ensures p in Buffers.Removed(wrote, id) ==> p in wrote
    ensures p in wrote && p != id ==> p in Buffers.Removed(wrote, id)
  {
    Buffers.RemovedBag(wrote, id);
    assert p in multiset(wrote) <==> p in wrote;
    assert p in multiset(Buffers.Removed(wrote, id)) <==> p in Buffers.Removed(wrote, id);
  }

  lemma {:induction false} AppendedRow(acked: seq<Record>, table: Table, value: Value, i: nat)
    requires GenuineIn(acked, table, i) && |table.values| < |table.keys|
    requires Record(table.keys[|table.values|], value) in acked
    ensures GenuineIn(acked, Table(table.keys, table.values + [value]), i)
  {
  }

  lemma {:induction false} DumpOneRow(w: World, t: nat, i: nat)
    requires Accounted(w) && FilesOk(w.s) && Genuine(w) && Enabled(w.s, DumpOne)
    ensures RowGenuine(Next(w, DumpOne), t, i)
  {
    var s := w.s;
    var r := s.data[SlotOf(s.dump.kvs[s.dump.done].idx)];
    DumpedEntry(w);
    assert RowGenuine(w, t, i) && r == Record(r.key, r.value);
    if t == |s.manifest| {
      AppendedRow(w.acked, s.files[t], r.value, i);
    }
  }

  lemma {:induction false} DumpOneGenuine(w: World)
    requires Accounted(w) && FilesOk(w.s) && Genuine(w) && Enabled(w.s, DumpOne)
    ensures Genuine(Next(w, DumpOne))
  {
    var w', id := Next(w, DumpOne), SlotOf(w.s.dump.kvs[w.s.dump.done].idx);
    forall p ensures SlotGenuine(w', p) {
      assert SlotGenuine(w, p);
      StillWritten(w.s.pool.wrote, id, p);
    }
    forall t: nat, i: nat ensures RowGenuine(w', t, i) {
      DumpOneRow(w, t, i);
    }
  }

  // Releasing a slot leaves no key behind that leads there: the slot's key is re-pointed.
  lemma {:induction false} DumpOneLeads(w: World, k: Key)
    requires Accounted(w) && FilesOk(w.s) && HashOk(w) && Enabled(w.s, DumpOne)
    requires TablesBegun(w.s) <= TABLE_LIMIT
    ensures LeadsRight(DumpOneStep(w.s), k)
  {
    var s, s', e := w.s, DumpOneStep(w.s), w.s.dump.kvs[w.s.dump.done];
    DumpOneReleases(s);
    assert e in Pending(s) && EntryOk(s.data, e);
    if k == e.key {
      RankPlaceReadsBack(|s.manifest|, s.dump.done);
    } else if k in s.hash {
      assert LeadsRight(s, k);
      var place := PlaceOf(s.hash[k]);
      if place.InSlot? {
        StillWritten(s.pool.wrote, SlotOf(e.idx), place.slot);
      }
    }
  }

  lemma {:induction false} DumpOneTraceable(w: World)
    requires Accounted(w) && FilesOk(w.s) && Traceable(w) && Enabled(w.s, DumpOne)
    ensures Traceable(Next(w, DumpOne))
  {
    var w' := Next(w, DumpOne);
    SameAcked(w, w');
    DumpOneGenuine(w);
    DumpedEntry(w);
    if TablesBegun(w.s) <= TABLE_LIMIT {
      forall k ensures LeadsRight(w'.s, k) {
        DumpOneLeads(w, k);
      }
    }
  }

  lemma {:induction false} CloseTraceable(w: World, step: Step)
    requires Accounted(w) && FilesOk(w.s) && Traceable(w) && Enabled(w.s, step) && (step.ListTable? || step.EndDump?)
    ensures Traceable(Next(w, step))
  {
    var w' := Next(w, step);
    SameAcked(w, w');
    forall p ensures SlotGenuine(w', p) {
      assert SlotGenuine(w, p);
    }
    forall t: nat, i: nat ensures RowGenuine(w', t, i) {
      assert RowGenuine(w, t, i);
    }
    if TablesBegun(w'.s) <= TABLE_LIMIT {
      forall k ensures LeadsRight(w'.s, k) {
        assert LeadsRight(w.s, k);
      }
    }
  }

  lemma {:induction false} StepTraceable(w: World, step: Step)
    requires Accounted(w) && FilesOk(w.s) && Traceable(w) && Enabled(w.s, step)
    ensures Traceable(Next(w, step))
  {
    match step
    case Write(record, j) => WriteTraceable(w, record, j);
    case Switch => SwitchTraceable(w);
    case StartDump => StartDumpTraceable(w);
    case DumpOne => DumpOneTraceable(w);
    case ListTable => CloseTraceable(w, step);
    case EndDump => CloseTraceable(w, step);
  }

  lemma {:induction false} RunTraceable(w: World, steps: seq<Step>)
    requires Accounted(w) && Durable(w) && Traceable(w) && CanTake(w, steps)
    ensures Accounted(After(w, steps)) && Durable(After(w, steps)) && Traceable(After(w, steps))
    decreases steps
  {
    if steps != [] {
      StepAccounted(w, steps[0]);
      StepDurable(w, steps[0]);
      StepTraceable(w, steps[0]);
      RunTraceable(Next(w, steps[0]), steps[1..]);
    }
  }

  lemma {:induction false} EmptyTraceable(w: World)
    requires w.acked == [] && w.s.pool.wrote == [] && w.s.hot == [] && w.s.died.None? && w.s.hash == map[]
    requires w.s.files == map[] && w.s.manifest == [] && w.s.dump.Idle?
    ensures Durable(w) && Traceable(w)
  {
  }

  // What holds in every reachable state.
  lemma {:induction false} ReachableOk(steps: seq<Step>)
    requires CanTake(Start(), steps)
    ensures Accounted(After(Start(), steps)) && Durable(After(Start(), steps)) && Traceable(After(Start(), steps))
  {
    StartAccounted();
    EmptyTraceable(Start());
    RunTraceable(Start(), steps);
  }

  lemma {:induction false} ResolvesIn(w: World, k: Key)
    requires Traceable(w) && TablesBegun(w.s) <= TABLE_LIMIT
    ensures Resolve(w.s, k).Some? <==> Acked(w, k)
    ensures Resolve(w.s, k).Some? ==> Resolve(w.s, k).value.key == k && Resolve(w.s, k).value in w.acked
  {
    assert LeadsRight(w.s, k);
    if k in w.s.hash {
      var place := PlaceOf(w.s.hash[k]);
      match place
      case InSlot(p) => assert SlotGenuine(w, p);
      case InTable(t, i) => assert RowGenuine(w, t, i);
    }
  }

  // Over every run with at most 256 tables, whatever keys are rewritten: the hash index
  // leads each acknowledged key, and no other, to a record once acknowledged under that key.
  lemma {:induction false} ResolvesToOwnRecord(steps: seq<Step>, k: Key)
    requires CanTake(Start(), steps) && TablesBegun(After(Start(), steps).s) <= TABLE_LIMIT
    ensures var w := After(Start(), steps);
            && (Resolve(w.s, k).Some? <==> Acked(w, k))
            && (Resolve(w.s, k).Some? ==> Resolve(w.s, k).value.key == k && Resolve(w.s, k).value in w.acked)
  {
    ReachableOk(steps);
    ResolvesIn(After(Start(), steps), k);
  }

  lemma {:induction false} ListedIsAcked(w: World, r: Record)
    requires Genuine(w) && InListed(w.s, r)
    ensures r in w.acked
  {
    var t: nat :| t < |w.s.manifest| && InFile(w.s.files, t, r);
    var i: nat :| RowIs(w.s.files[t], i, r);
    assert RowGenuine(w, t, i);
  }

  // Every record in a log or a table was acknowledged.
  lemma {:induction false} NothingInvented(steps: seq<Step>, r: Record)
    requires CanTake(Start(), steps)
    ensures var w := After(Start(), steps);
            Logged(w.s, r) ==> r in w.acked
  {
    ReachableOk(steps);
    if InListed(After(Start(), steps).s, r) {
      ListedIsAcked(After(Start(), steps), r);
    }
  }

  // In every reachable state an acknowledged record is in a log or in a listed table exactly
  // when its key is below the merge's sentinel or it is in a log still.
  lemma {:induction false} AcknowledgedIsLogged(steps: seq<Step>, r: Record)
    requires CanTake(Start(), steps) && r in After(Start(), steps).acked
    ensures var s := After(Start(), steps).s; Logged(s, r) <==> r.key < INT64_MAX || InLogs(s, r)
  {
    ReachableOk(steps);
    LoggedExactly(After(Start(), steps), r);
  }
}
