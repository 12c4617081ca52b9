/** No acknowledged record is dropped on its way from the log into a listed table. */
module Durability {
  import opened Keys
  import opened Options
  import opened Places
  import opened SkipLevels
  import opened Merges
  import opened SlotBags
  import opened Systems
  import opened Accounting

  ghost predicate HoldsRecord(data: seq<Record>, p: nat, r: Record) {
    p < |data| && data[p] == r
  }

  // One of these slots holds the record.
  ghost predicate HeldIn(data: seq<Record>, slots: multiset<nat>, r: Record) {
    exists p :: p in slots && HoldsRecord(data, p, r)
  }

  ghost predicate RowIs(table: Table, i: nat, r: Record) {
    i < |table.keys| && i < |table.values| && table.keys[i] == r.key && table.values[i] == r.value
  }

  // The record is a row of table t: its key, and its value block already written.
  ghost predicate InFile(files: map<nat, Table>, t: nat, r: Record) {
    t in files && exists i: nat :: RowIs(files[t], i, r)
  }

  ghost predicate InListed(s: State, r: Record) {
    exists t: nat :: t < |s.manifest| && InFile(s.files, t, r)
  }

  // The table the pending batch goes into, or has just gone into.
  function TableOfBatch(s: State): nat {
    if s.dump.Listed? && s.manifest != [] then |s.manifest| - 1 else |s.manifest|
  }

  // The table files there are: those listed, and the one being written.
  ghost predicate FilesOk(s: State) {
    && (forall t: nat :: t in s.files <==> t < |s.manifest| + if s.dump.Writing? then 1 else 0)
    && (s.dump.Listed? ==> s.manifest != [])
    && (s.dump.Writing? ==> s.files[|s.manifest|].keys == KeysIn(s.dump.kvs) && |s.files[|s.manifest|].values| == s.dump.done)
  }

  ghost predicate AllHeld(data: seq<Record>, slots: multiset<nat>, records: seq<Record>) {
    forall r :: r in records ==> HeldIn(data, slots, r)
  }

  ghost predicate HotSafe(w: World) {
    AllHeld(w.s.data, Slots(Flat(w.s.memtables)) + w.leaked, w.s.hot)
  }

  ghost predicate HeldOrFiled(data: seq<Record>, slots: multiset<nat>, files: map<nat, Table>, t: nat, r: Record) {
    HeldIn(data, slots, r) || InFile(files, t, r)
  }

  // A record of the died log is still in a slot of the batch, or a row of the batch's table,
  // or its key keeps it out of the merge.
  ghost predicate DiedRecordSafe(w: World, r: Record) {
    HeldOrFiled(w.s.data, Slots(Pending(w.s)), w.s.files, TableOfBatch(w.s), r) || r.key >= INT64_MAX
  }

  ghost predicate DiedSafe(w: World) {
    w.s.died.Some? ==> forall r :: r in w.s.died.value ==> DiedRecordSafe(w, r)
  }

  ghost predicate InLogs(s: State, r: Record) {
    r in s.hot || (s.died.Some? && r in s.died.value)
  }

  // The record is on disk where recovery looks: in one of the logs, or in a listed table.
  ghost predicate Logged(s: State, r: Record) {
    InLogs(s, r) || InListed(s, r)
  }

  ghost predicate AckedSafe(w: World) {
    forall r :: r in w.acked ==> Logged(w.s, r) || r.key >= INT64_MAX
  }

  ghost predicate KeysBelow(files: map<nat, Table>, t: nat) {
    t in files ==> forall k :: k in files[t].keys ==> k < INT64_MAX
  }

  ghost predicate Durable(w: World) {
    FilesOk(w.s) && HotSafe(w) && DiedSafe(w) && AckedSafe(w) && forall t: nat :: KeysBelow(w.s.files, t)
  }

  lemma {:induction false} HeldInMore(data: seq<Record>, slots: multiset<nat>, more: multiset<nat>, r: Record)
    requires HeldIn(data, slots, r) && slots <= more
    ensures HeldIn(data, more, r)
  {
    var p :| p in slots && HoldsRecord(data, p, r);
    assert p in more;
  }

  lemma {:induction false} HeldBeside(data: seq<Record>, slots: multiset<nat>, r: Record, p: nat, record: Record)
    requires HeldIn(data, slots, r) && p !in slots && p < |data|
    ensures HeldIn(data[p := record], slots, r)
  {
    var q :| q in slots && HoldsRecord(data, q, r);
    assert HoldsRecord(data[p := record], q, r);
  }

  // A record held before a write is held after it, in the same slots and any more.
  lemma {:induction false} HeldAfterWrite(data: seq<Record>, slots: multiset<nat>, more: multiset<nat>, r: Record, p: nat, record: Record)
    requires HeldIn(data, slots, r) && p !in slots && p < |data| && slots <= more
    ensures HeldIn(data[p := record], more, r)
  {
    HeldBeside(data, slots, r, p, record);
    HeldInMore(data[p := record], slots, more, r);
  }

  lemma {:induction false} LoggedIsHeld(data: seq<Record>, slots: multiset<nat>, more: multiset<nat>, hot: seq<Record>, p: nat, record: Record)
    requires AllHeld(data, slots, hot) && p !in slots && p < |data| && slots <= more && p in more
    ensures AllHeld(data[p := record], more, hot + [record])
  {
    forall r | r in hot + [record] ensures HeldIn(data[p := record], more, r) {
      if r in hot {
        HeldAfterWrite(data, slots, more, r, p, record);
      } else {
        assert HoldsRecord(data[p := record], p, r);
      }
    }
  }

  lemma {:induction false} WriteHot(w: World, record: Record, j: nat)
    requires Accounted(w) && HotSafe(w) && Enabled(w.s, Write(record, j))
    ensures HotSafe(Next(w, Write(record, j)))
  {
    var s, p := w.s, NextSlot(w.s.pool);
    var lists := s.memtables[j := Upsert(s.memtables[j], record.key, SlotIndex(p), 0)];
    var current, current', out := Slots(Flat(s.memtables)), Slots(Flat(lists)), Slots(Displaced(s.memtables[j], record.key));
    FreshSlot(w);
    WriteBags(s.memtables, s.data, record.key, p, j);
    GrownBag(current, w.leaked, current', out, p);
    LoggedIsHeld(s.data, current + w.leaked, current' + (w.leaked + out), s.hot, p, record);
  }

  lemma {:induction false} GrownBag(current: multiset<nat>, leaked: multiset<nat>, current': multiset<nat>, out: multiset<nat>, p: nat)
    requires current' + out == current + multiset{p}
    ensures current + leaked <= current' + (leaked + out) && p in current' + (leaked + out)
  {
    assert current' + (leaked + out) == (current' + out) + leaked;
  }

  lemma {:induction false} FiledAfterWrite(data: seq<Record>, slots: multiset<nat>, more: multiset<nat>, files: map<nat, Table>, t: nat,
                                           r: Record, p: nat, record: Record)
    requires HeldOrFiled(data, slots, files, t, r) && p !in slots && p < |data| && slots <= more
    ensures HeldOrFiled(data[p := record], more, files, t, r)
  {
    if HeldIn(data, slots, r) {
      HeldAfterWrite(data, slots, more, r, p, record);
    }
  }

  lemma {:induction false} WriteKeepsBatch(s: State, record: Record, j: nat)
    requires Enabled(s, Write(record, j))
    ensures Pending(WriteStep(s, record, j)) == Pending(s) && TableOfBatch(WriteStep(s, record, j)) == TableOfBatch(s)
    ensures WriteStep(s, record, j).files == s.files && WriteStep(s, record, j).died == s.died
    ensures NextSlot(s.pool) < |s.data| ==> WriteStep(s, record, j).data == s.data[NextSlot(s.pool) := record]
  {
  }

  lemma {:induction false} WriteDiedRecord(w: World, w': World, record: Record, j: nat, r: Record)
    requires SlotsOwned(w) && |w.s.data| == RECORD_BUFF_SIZE && DiedRecordSafe(w, r) && Enabled(w.s, Write(record, j))
    requires w'.s == WriteStep(w.s, record, j)
    ensures DiedRecordSafe(w', r)
  {
    var s, p := w.s, NextSlot(w.s.pool);
    FreshSlot(w);
    WriteKeepsBatch(s, record, j);
    if r.key < INT64_MAX {
      FiledAfterWrite(s.data, Slots(Pending(s)), Slots(Pending(w'.s)), s.files, TableOfBatch(s), r, p, record);
    }
  }

  lemma {:induction false} WriteDied(w: World, record: Record, j: nat)
    requires Accounted(w) && DiedSafe(w) && Enabled(w.s, Write(record, j))
    ensures DiedSafe(Next(w, Write(record, j)))
  {
    var w' := Next(w, Write(record, j));
    WriteKeepsBatch(w.s, record, j);
    if w.s.died.Some? {
      forall r | r in w.s.died.value ensures DiedRecordSafe(w', r) {
        WriteDiedRecord(w, w', record, j, r);
      }
    }
  }

  // A listed row stays listed while the manifest only grows and listed files stay.
  lemma {:induction false} ListedStays(s: State, s': State, r: Record)
    requires InListed(s, r)
    requires |s.manifest| <= |s'.manifest|
    requires forall t: nat :: t < |s.manifest| && t in s.files ==> t in s'.files && s'.files[t] == s.files[t]
    ensures InListed(s', r)
  {
    var t: nat :| t < |s.manifest| && InFile(s.files, t, r);
    var i: nat :| RowIs(s.files[t], i, r);
    assert RowIs(s'.files[t], i, r);
    assert InFile(s'.files, t, r);
  }

  // A step that drops nothing from the logs and touches no listed file keeps a record logged.
  ghost predicate KeepsRecords(s: State, s': State) {
    && (forall r :: InLogs(s, r) ==> InLogs(s', r))
    && |s.manifest| <= |s'.manifest|
    && forall t: nat :: t < |s.manifest| && t in s.files ==> t in s'.files && s'.files[t] == s.files[t]
  }

  lemma {:induction false} AckedStays(w: World, w': World)
    requires KeepsRecords(w.s, w'.s) && AckedSafe(w)
    requires forall r :: r in w'.acked ==> r in w.acked || r in w'.s.hot
    ensures AckedSafe(w')
  {
    forall r | r in w'.acked ensures Logged(w'.s, r) || r.key >= INT64_MAX {
      if r in w.acked && InListed(w.s, r) {
        ListedStays(w.s, w'.s, r);
      }
    }
  }

  lemma {:induction false} WriteDurable(w: World, record: Record, j: nat)
    requires Accounted(w) && Durable(w) && Enabled(w.s, Write(record, j))
    ensures Durable(Next(w, Write(record, j)))
  {
    WriteHot(w, record, j);
    WriteDied(w, record, j);
    AckedStays(w, Next(w, Write(record, j)));
  }

  // The switch takes the hot log for the died log, which is not there before. As nothing has
  // leaked by then, each of its records is in a slot of the batch.
  lemma {:induction false} SwitchDurable(w: World)
    requires Accounted(w) && Durable(w) && Enabled(w.s, Switch)
    ensures Durable(Next(w, Switch))
    ensures w.s.died.None? && Next(w, Switch).s.died == Some(w.s.hot)
    ensures forall r :: r in w.s.hot ==> HeldIn(w.s.data, Slots(Pending(Next(w, Switch).s)), r)
  {
    var w' := Next(w, Switch);
    SwitchMoves(w.s);
    DueExactly(w);
    assert Slots(Flat(w.s.memtables)) + w.leaked == Slots(Pending(w'.s));
    AckedStays(w, w');
  }

  // A record in a slot of the batch is in a slot of the entries to dump, unless the merge
  // does not see its key.
  lemma {:induction false} StartDumpHolds(s: State, r: Record)
    requires OneBatch(s) && ListsOk(s) && RefsOk(s) && Enabled(s, StartDump)
    requires HeldIn(s.data, Slots(Pending(s)), r)
    ensures HeldIn(s.data, Slots(Pending(StartDumpStep(s))), r) || r.key >= INT64_MAX
  {
    StartDumpShares(s);
    MergeSharesSlots(s.queue[0]);
    MergeSplitsAtSentinel(s.queue[0]);
    var left := Flat(Left(s.queue[0]));
    var p :| p in Slots(Pending(s)) && HoldsRecord(s.data, p, r);
    if p in Slots(left) {
      InSlots(left, p);
      var e :| e in left && SlotOf(e.idx) == p;
      assert EntryOk(s.data, e);
    } else {
      assert p in Slots(Pending(StartDumpStep(s)));
    }
  }

  lemma {:induction false} StartDumpDied(w: World)
    requires Accounted(w) && FilesOk(w.s) && DiedSafe(w) && Enabled(w.s, StartDump)
    ensures DiedSafe(Next(w, StartDump))
  {
    var w' := Next(w, StartDump);
    if w.s.died.Some? {
      forall r | r in w.s.died.value ensures DiedRecordSafe(w', r) {
        assert DiedRecordSafe(w, r);
        if r.key < INT64_MAX {
          StartDumpHolds(w.s, r);
        }
      }
    }
  }

  lemma {:induction false} StartDumpFiles(s: State)
    requires OneBatch(s) && ListsOk(s) && FilesOk(s) && Enabled(s, StartDump)
    requires forall t: nat :: KeysBelow(s.files, t)
    ensures FilesOk(StartDumpStep(s)) && forall t: nat :: KeysBelow(StartDumpStep(s).files, t)
  {
    var kvs, s' := Untag(KMerge(s.queue[0])), StartDumpStep(s);
    MergeSplitsAtSentinel(s.queue[0]);
    forall t: nat ensures KeysBelow(s'.files, t) {
      assert KeysBelow(s.files, t);
      forall k | k in KeysIn(kvs) ensures k < INT64_MAX {
        var i :| 0 <= i < |kvs| && KeysIn(kvs)[i] == k;
        assert kvs[i] in kvs;
      }
    }
  }

  lemma {:induction false} AllHeldInMore(data: seq<Record>, slots: multiset<nat>, more: multiset<nat>, records: seq<Record>)
    requires AllHeld(data, slots, records) && slots <= more
    ensures AllHeld(data, more, records)
  {
    forall r | r in records ensures HeldIn(data, more, r) {
      HeldInMore(data, slots, more, r);
    }
  }

  lemma {:induction false} StartDumpDurable(w: World)
    requires Accounted(w) && Durable(w) && Enabled(w.s, StartDump)
    ensures Durable(Next(w, StartDump))
  {
    var w' := Next(w, StartDump);
    var current := Slots(Flat(w.s.memtables));
    StartDumpFiles(w.s);
    StartDumpDied(w);
    AllHeldInMore(w.s.data, current + w.leaked, current + w'.leaked, w.s.hot);
    AckedStays(w, w');
  }

  // The record whose slot is released has just become a row of the table.
  lemma {:induction false} FiledAfterRelease(data: seq<Record>, slots: multiset<nat>, less: multiset<nat>, files: map<nat, Table>, t: nat,
                                             r: Record, e: Entry)
    requires HeldOrFiled(data, slots, files, t, r) && EntryOk(data, e) && slots == less + multiset{SlotOf(e.idx)}
    requires t in files && |files[t].values| < |files[t].keys| && files[t].keys[|files[t].values|] == e.key
    ensures HeldOrFiled(data, less, files[t := Table(files[t].keys, files[t].values + [data[SlotOf(e.idx)].value])], t, r)
  {
    var p0 := SlotOf(e.idx);
    var table := Table(files[t].keys, files[t].values + [data[p0].value]);
    assert files[t := table][t] == table;
    if InFile(files, t, r) {
      var k: nat :| RowIs(files[t], k, r);
      assert RowIs(table, k, r);
    } else {
      var p :| p in slots && HoldsRecord(data, p, r);
      if p == p0 {
        assert RowIs(table, |files[t].values|, r);
      } else {
        assert p in less;
      }
    }
  }

  lemma {:induction false} DumpOneDied(w: World, r: Record)
    requires Accounted(w) && FilesOk(w.s) && Enabled(w.s, DumpOne) && DiedRecordSafe(w, r)
    ensures DiedRecordSafe(Next(w, DumpOne), r)
  {
    var s, s' := w.s, DumpOneStep(w.s);
    var e := s.dump.kvs[s.dump.done];
    DumpOneReleases(s);
    assert e in Pending(s);
    if r.key < INT64_MAX {
      FiledAfterRelease(s.data, Slots(Pending(s)), Slots(Pending(s')), s.files, |s.manifest|, r, e);
    }
  }

  lemma {:induction false} DumpOneDurable(w: World)
    requires Accounted(w) && Durable(w) && Enabled(w.s, DumpOne)
    ensures Durable(Next(w, DumpOne))
  {
    var w' := Next(w, DumpOne);
    if w.s.died.Some? {
      forall r | r in w.s.died.value ensures DiedRecordSafe(w', r) {
        DumpOneDied(w, r);
      }
    }
    forall t: nat ensures KeysBelow(w'.s.files, t) {
      assert KeysBelow(w.s.files, t);
    }
    AckedStays(w, w');
  }

  lemma {:induction false} ListTableDied(w: World)
    requires OneBatch(w.s) && DiedSafe(w) && Enabled(w.s, ListTable)
    ensures DiedSafe(Next(w, ListTable))
  {
    var w' := Next(w, ListTable);
    assert Pending(w.s) == [] == Pending(w'.s) && TableOfBatch(w'.s) == TableOfBatch(w.s);
    if w.s.died.Some? {
      forall r | r in w.s.died.value ensures DiedRecordSafe(w', r) {
        assert DiedRecordSafe(w, r);
      }
    }
  }

  lemma {:induction false} ListTableDurable(w: World)
    requires Accounted(w) && Durable(w) && Enabled(w.s, ListTable)
    ensures Durable(Next(w, ListTable))
  {
    ListTableDied(w);
    AckedStays(w, Next(w, ListTable));
  }

  lemma {:induction false} EndDumpRecord(w: World, r: Record)
    requires OneBatch(w.s) && FilesOk(w.s) && Enabled(w.s, EndDump) && DiedRecordSafe(w, r) && r.key < INT64_MAX
    ensures InListed(EndDumpStep(w.s), r)
  {
    assert Pending(w.s) == [] && Slots([]) == multiset{};
    assert InFile(EndDumpStep(w.s).files, TableOfBatch(w.s), r);
  }

  // The died log is removed only when each of its records that the merge sees is in the
  // listed table.
  lemma {:induction false} EndDumpDurable(w: World)
    requires Accounted(w) && Durable(w) && Enabled(w.s, EndDump)
    ensures Durable(Next(w, EndDump))
    ensures w.s.died.Some? && forall r :: r in w.s.died.value && r.key < INT64_MAX ==> InListed(EndDumpStep(w.s), r)
  {
    var w' := Next(w, EndDump);
    forall r | r in w.s.died.value && r.key < INT64_MAX ensures InListed(w'.s, r) {
      assert DiedRecordSafe(w, r);
      EndDumpRecord(w, r);
    }
    forall r | r in w'.acked ensures Logged(w'.s, r) || r.key >= INT64_MAX {
      if InListed(w.s, r) {
        ListedStays(w.s, w'.s, r);
      }
    }
  }

  lemma {:induction false} StepDurable(w: World, step: Step)
    requires Accounted(w) && Durable(w) && Enabled(w.s, step)
    ensures Durable(Next(w, step))
  {
    match step
    case Write(record, j) => WriteDurable(w, record, j);
    case Switch => SwitchDurable(w);
    case StartDump => StartDumpDurable(w);
    case DumpOne => DumpOneDurable(w);
    case ListTable => ListTableDurable(w);
    case EndDump => EndDumpDurable(w);
  }

  lemma {:induction false} RunDurable(w: World, steps: seq<Step>)
    requires Accounted(w) && Durable(w) && CanTake(w, steps)
    ensures Accounted(After(w, steps)) && Durable(After(w, steps))
    decreases steps
  {
    if steps != [] {
      StepAccounted(w, steps[0]);
      StepDurable(w, steps[0]);
      RunDurable(Next(w, steps[0]), steps[1..]);
    }
  }

  lemma {:induction false} ListedIsBelow(s: State, r: Record)
    requires (forall t: nat :: KeysBelow(s.files, t)) && InListed(s, r)
    ensures r.key < INT64_MAX
  {
    var t: nat :| t < |s.manifest| && InFile(s.files, t, r);
    var i: nat :| RowIs(s.files[t], i, r);
    assert KeysBelow(s.files, t) && s.files[t].keys[i] in s.files[t].keys;
  }

  // An acknowledged record is on disk exactly when its key is below the sentinel or it is in a log.
  lemma {:induction false} LoggedExactly(w: World, r: Record)
    requires Durable(w) && r in w.acked
    ensures Logged(w.s, r) <==> r.key < INT64_MAX || InLogs(w.s, r)
  {
    if InListed(w.s, r) {
      ListedIsBelow(w.s, r);
    }
  }
}
