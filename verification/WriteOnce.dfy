/** Runs that write each key once: nothing leaks, the hash index always leads to the value
    written, and a dumped key leads to its own row. */
module WriteOnce {
  import opened Keys
  import opened Indexes
  import opened Places
  import opened SkipLevels
  import opened SlotBags
  import opened Systems
  import opened Accounting
  import opened Durability
  import opened Resolution

  ghost predicate KeysDiffer(rs: seq<Record>, i: nat, j: nat)
    requires i < j < |rs|
  {
    rs[i].key != rs[j].key
  }

  // No key is written twice.
  ghost predicate Once(acked: seq<Record>) {
    forall i, j :: 0 <= i < j < |acked| ==> KeysDiffer(acked, i, j)
  }

  ghost predicate BelowSentinel(acked: seq<Record>) {
    forall r :: r in acked ==> r.key < INT64_MAX
  }

  lemma {:induction false} OncePrefix(acked: seq<Record>, r: Record)
    requires Once(acked + [r])
    ensures Once(acked)
    ensures forall q :: q in acked ==> q.key != r.key
  {
    var all := acked + [r];
    forall i, j | 0 <= i < j < |acked| ensures KeysDiffer(acked, i, j) {
      assert KeysDiffer(all, i, j);
    }
    forall q | q in acked ensures q.key != r.key {
      var i :| 0 <= i < |acked| && acked[i] == q;
      assert KeysDiffer(all, i, |acked|);
    }
  }

  lemma {:induction false} OnceSame(acked: seq<Record>, q: Record, r: Record)
    requires Once(acked) && q in acked && r in acked && q.key == r.key
    ensures q == r
  {
    var i :| 0 <= i < |acked| && acked[i] == q;
    var j :| 0 <= j < |acked| && acked[j] == r;
    assert i < j ==> KeysDiffer(acked, i, j);
    assert j < i ==> KeysDiffer(acked, j, i);
  }

  // Every key an entry carries was acknowledged.
  lemma {:induction false} EntryAcked(w: World, e: Entry)
    requires Accounted(w) && Genuine(w) && (e in Flat(w.s.memtables) || e in Pending(w.s))
    ensures Acked(w, e.key)
  {
    var p := SlotOf(e.idx);
    assert EntryOk(w.s.data, e);
    InSlots(Flat(w.s.memtables), p);
    InSlots(Pending(w.s), p);
    assert p in multiset(w.s.pool.wrote);
    assert SlotGenuine(w, p);
  }

  ghost predicate NoLeak(w: World) {
    Once(w.acked) && BelowSentinel(w.acked) ==> w.leaked == multiset{}
  }

  lemma {:induction false} StepNoLeak(w: World, step: Step)
    requires Accounted(w) && Genuine(w) && NoLeak(w) && Enabled(w.s, step)
    ensures NoLeak(Next(w, step))
  {
    var w' := Next(w, step);
    if Once(w'.acked) && BelowSentinel(w'.acked) {
      LeaksExactly(w, step);
      match step
      case Write(record, j) =>
        OncePrefix(w.acked, record);
        if HasKey(w.s.memtables[j], record.key) {
          var i :| 0 <= i < |w.s.memtables[j]| && w.s.memtables[j][i].key == record.key;
          var a, b := FlatAt(w.s.memtables, j);
          assert w.s.memtables[j][i] in Flat(w.s.memtables);
          EntryAcked(w, w.s.memtables[j][i]);
        }
      case StartDump =>
        forall e | e in Flat(w.s.queue[0]) ensures e.key < INT64_MAX {
          EntryAcked(w, e);
        }
      case _ =>
    }
  }

  // The hash index leads an entry's key to the entry's slot.
  ghost predicate PointsAt(hash: map<Key, Index>, e: Entry) {
    e.key in hash && PlaceOf(hash[e.key]) == InSlot(SlotOf(e.idx))
  }

  ghost predicate AllPointed(hash: map<Key, Index>, es: seq<Entry>) {
    forall e :: e in es ==> PointsAt(hash, e)
  }

  // The hash index leads a row's key to the row.
  ghost predicate RowAt(hash: map<Key, Index>, table: Table, t: nat, i: nat) {
    i < |table.keys| && i < |table.values| ==>
      table.keys[i] in hash && PlaceOf(hash[table.keys[i]]) == InTable(t, i)
  }

  ghost predicate RowPointed(s: State, t: nat, i: nat) {
    t in s.files ==> RowAt(s.hash, s.files[t], t, i)
  }

  ghost predicate Pointed(s: State) {
    && AllPointed(s.hash, Flat(s.memtables))
    && AllPointed(s.hash, Pending(s))
    && forall t: nat, i: nat :: RowPointed(s, t, i)
  }

  ghost predicate OnceOk(w: World) {
    Once(w.acked) && TablesBegun(w.s) <= TABLE_LIMIT ==> Pointed(w.s)
  }

  lemma {:induction false} OthersPointed(hash: map<Key, Index>, es: seq<Entry>, k: Key, x: Index)
    requires AllPointed(hash, es) && forall e :: e in es ==> e.key != k
    ensures AllPointed(hash[k := x], es)
  {
    forall e | e in es ensures PointsAt(hash[k := x], e) {
      assert PointsAt(hash, e);
    }
  }

  lemma {:induction false} WrittenPointed(w: World, record: Record, j: nat)
    requires Accounted(w) && Genuine(w) && AllPointed(w.s.hash, Flat(w.s.memtables)) && Enabled(w.s, Write(record, j))
    requires !Acked(w, record.key)
    ensures AllPointed(WriteStep(w.s, record, j).hash, Flat(WriteStep(w.s, record, j).memtables))
  {
    var s, p := w.s, NextSlot(w.s.pool);
    FreshSlot(w);
    SlotReadsBack(p);
    SlotPlaceReadsBack(p);
    var a, b := WriteExchanges(s.memtables, s.data, record.key, p, j);
    var hash', fresh' := s.hash[record.key := SlotIndex(p).SetInHash(true)], Entry(record.key, SlotIndex(p));
    forall e | e in a + [fresh'] + b ensures PointsAt(hash', e) {
      if e != fresh' {
        assert e in Flat(s.memtables) && PointsAt(s.hash, e);
        EntryAcked(w, e);
      }
    }
  }

  lemma {:induction false} WriteRow(w: World, record: Record, j: nat, t: nat, i: nat)
    requires Genuine(w) && RowPointed(w.s, t, i) && Enabled(w.s, Write(record, j)) && !Acked(w, record.key)
    ensures RowPointed(WriteStep(w.s, record, j), t, i)
  {
    assert RowGenuine(w, t, i);
  }

  lemma {:induction false} WritePointed(w: World, record: Record, j: nat)
    requires Accounted(w) && Genuine(w) && Pointed(w.s) && Enabled(w.s, Write(record, j)) && !Acked(w, record.key)
    ensures Pointed(WriteStep(w.s, record, j))
  {
    WrittenPointed(w, record, j);
    forall e | e in Pending(w.s) ensures e.key != record.key {
      EntryAcked(w, e);
    }
    OthersPointed(w.s.hash, Pending(w.s), record.key, SlotIndex(NextSlot(w.s.pool)).SetInHash(true));
    WriteKeepsBatch(w.s, record, j);
    forall t: nat, i: nat ensures RowPointed(WriteStep(w.s, record, j), t, i) {
      WriteRow(w, record, j, t, i);
    }
  }

  lemma {:induction false} WriteOnceOk(w: World, record: Record, j: nat)
    requires Accounted(w) && Genuine(w) && OnceOk(w) && Enabled(w.s, Write(record, j))
    ensures OnceOk(Next(w, Write(record, j)))
  {
    var w' := Next(w, Write(record, j));
    if Once(w'.acked) && TablesBegun(w'.s) <= TABLE_LIMIT {
      OncePrefix(w.acked, record);
      assert !Acked(w, record.key);
      WritePointed(w, record, j);
    }
  }

  lemma {:induction false} SwitchOnceOk(w: World)
    requires Accounted(w) && OnceOk(w) && Enabled(w.s, Switch)
    ensures OnceOk(Next(w, Switch))
  {
    var w' := Next(w, Switch);
    SwitchMoves(w.s);
    if Once(w.acked) && TablesBegun(w.s) <= TABLE_LIMIT {
      forall t: nat, i: nat ensures RowPointed(w'.s, t, i) {
        assert RowPointed(w.s, t, i);
      }
    }
  }

  lemma {:induction false} StartDumpRow(s: State, t: nat, i: nat)
    requires RowPointed(s, t, i) && Enabled(s, StartDump)
    ensures RowPointed(StartDumpStep(s), t, i)
  {
  }

  lemma {:induction false} StartDumpPointed(s: State)
    requires OneBatch(s) && AllPointed(s.hash, Pending(s)) && Enabled(s, StartDump)
    ensures AllPointed(s.hash, Pending(StartDumpStep(s)))
  {
    StartDumpShares(s);
  }

  lemma {:induction false} StartDumpOnceOk(w: World)
    requires Accounted(w) && OnceOk(w) && Enabled(w.s, StartDump)
    ensures OnceOk(Next(w, StartDump))
  {
    var s' := StartDumpStep(w.s);
    if Once(w.acked) && TablesBegun(s') <= TABLE_LIMIT {
      StartDumpPointed(w.s);
      forall t: nat, i: nat ensures RowPointed(s', t, i) {
        StartDumpRow(w.s, t, i);
      }
    }
  }

  // The key of the entry being dumped belongs to no other entry.
  lemma {:induction false} DumpedKeyAlone(w: World, e: Entry)
    requires Accounted(w) && Enabled(w.s, DumpOne)
    requires AllPointed(w.s.hash, Flat(w.s.memtables)) && AllPointed(w.s.hash, Pending(w.s))
    requires e in Flat(w.s.memtables) || e in Pending(DumpOneStep(w.s))
    ensures e.key != w.s.dump.kvs[w.s.dump.done].key
  {
    var s, d := w.s, w.s.dump.kvs[w.s.dump.done];
    DumpOneReleases(s);
    var p := SlotOf(d.idx);
    SoleOwner(w, p);
    InSlots(Flat(s.memtables), p);
    InSlots(Pending(DumpOneStep(s)), p);
    assert d in Pending(s) && PointsAt(s.hash, d);
    assert e in Pending(DumpOneStep(s)) ==> e in Pending(s);
    assert PointsAt(s.hash, e);
  }

  lemma {:induction false} OtherRow(hash: map<Key, Index>, table: Table, t: nat, i: nat, e: Entry, x: Index)
    requires RowAt(hash, table, t, i) && PointsAt(hash, e)
    ensures RowAt(hash[e.key := x], table, t, i)
  {
  }

  lemma {:induction false} NewRow(hash: map<Key, Index>, table: Table, t: nat, value: Value, i: nat)
    requires i != |table.values| ==> RowAt(hash, table, t, i)
    requires |table.values| < |table.keys|
    requires table.keys[|table.values|] in hash && PlaceOf(hash[table.keys[|table.values|]]) == InTable(t, |table.values|)
    ensures RowAt(hash, Table(table.keys, table.values + [value]), t, i)
  {
  }

  lemma {:induction false} DumpOneNewRow(s: State, i: nat)
    requires FilesOk(s) && Enabled(s, DumpOne) && |s.manifest| < TABLE_LIMIT && s.dump.done < SLOT_LIMIT
    requires i != s.dump.done ==> RowAt(s.hash[s.dump.kvs[s.dump.done].key := RankIndex(|s.manifest|, s.dump.done).SetInHash(true)],
                                        s.files[|s.manifest|], |s.manifest|, i)
    ensures RowPointed(DumpOneStep(s), |s.manifest|, i)
  {
    var t, d, x := |s.manifest|, s.dump.kvs[s.dump.done], RankIndex(|s.manifest|, s.dump.done).SetInHash(true);
    RankPlaceReadsBack(t, s.dump.done);
    NewRow(s.hash[d.key := x], s.files[t], t, s.data[SlotOf(d.idx)].value, i);
  }

  lemma {:induction false} DumpOneOldRow(s: State, t: nat, i: nat)
    requires Enabled(s, DumpOne) && t != |s.manifest|
    requires t in s.files ==>
      RowAt(s.hash[s.dump.kvs[s.dump.done].key := RankIndex(|s.manifest|, s.dump.done).SetInHash(true)], s.files[t], t, i)
    ensures RowPointed(DumpOneStep(s), t, i)
  {
  }

  lemma {:induction false} DumpOneRowPointed(s: State, t: nat, i: nat)
    requires FilesOk(s) && Enabled(s, DumpOne) && |s.manifest| < TABLE_LIMIT && s.dump.done < SLOT_LIMIT
    requires RowPointed(s, t, i) && PointsAt(s.hash, s.dump.kvs[s.dump.done])
    ensures RowPointed(DumpOneStep(s), t, i)
  {
    if t in s.files {
      OtherRow(s.hash, s.files[t], t, i, s.dump.kvs[s.dump.done], RankIndex(|s.manifest|, s.dump.done).SetInHash(true));
    }
    if t == |s.manifest| {
      DumpOneNewRow(s, i);
    } else {
      DumpOneOldRow(s, t, i);
    }
  }

  lemma {:induction false} DumpOneOnceOk(w: World)
    requires Accounted(w) && FilesOk(w.s) && HashOk(w) && OnceOk(w) && Enabled(w.s, DumpOne)
    ensures OnceOk(Next(w, DumpOne))
  {
    var s, s', d := w.s, DumpOneStep(w.s), w.s.dump.kvs[w.s.dump.done];
    if Once(w.acked) && TablesBegun(s) <= TABLE_LIMIT {
      DumpOneReleases(s);
      forall e | e in Flat(s.memtables) || e in Pending(s') ensures e.key != d.key {
        DumpedKeyAlone(w, e);
      }
      var x := RankIndex(|s.manifest|, s.dump.done).SetInHash(true);
      OthersPointed(s.hash, Flat(s.memtables), d.key, x);
      OthersPointed(s.hash, Pending(s'), d.key, x);
      assert d in Pending(s) && PointsAt(s.hash, d);
      forall t: nat, i: nat ensures RowPointed(s', t, i) {
        assert RowPointed(s, t, i);
        DumpOneRowPointed(s, t, i);
      }
    }
  }

  lemma {:induction false} CloseOnceOk(w: World, step: Step)
    requires Accounted(w) && OnceOk(w) && Enabled(w.s, step) && (step.ListTable? || step.EndDump?)
    ensures OnceOk(Next(w, step))
  {
    var w' := Next(w, step);
    assert Pending(w'.s) == [];
    if Once(w.acked) && TablesBegun(w'.s) <= TABLE_LIMIT {
      forall t: nat, i: nat ensures RowPointed(w'.s, t, i) {
        assert RowPointed(w.s, t, i);
      }
    }
  }

  lemma {:induction false} StepOnceOk(w: World, step: Step)
    requires Accounted(w) && FilesOk(w.s) && Traceable(w) && OnceOk(w) && Enabled(w.s, step)
    ensures OnceOk(Next(w, step))
  {
    match step
    case Write(record, j) => WriteOnceOk(w, record, j);
    case Switch => SwitchOnceOk(w);
    case StartDump => StartDumpOnceOk(w);
    case DumpOne => DumpOneOnceOk(w);
    case ListTable => CloseOnceOk(w, step);
    case EndDump => CloseOnceOk(w, step);
  }
}
