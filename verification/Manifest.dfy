/** What the manifest says of each table, and what whole runs therefore guarantee. */
module Manifests {
  import opened Keys
  import opened Options
  import opened Places
  import opened SkipLevels
  import opened Merges
  import opened SlotBags
  import opened Systems
  import opened Accounting
  import opened Durability
  import opened Resolution
  import opened WriteOnce

  ghost predicate InOrder(ks: seq<Key>, i: nat, j: nat)
    requires i < j < |ks|
  {
    ks[i] <= ks[j]
  }

  ghost predicate Ascending(ks: seq<Key>) {
    forall i, j :: 0 <= i < j < |ks| ==> InOrder(ks, i, j)
  }

  // The manifest's record of a table names it, bounds its keys and counts them.
  ghost predicate Describes(m: MFRecord, t: nat, table: Table) {
    && m.lvl == 0 && m.file == t
    && |table.keys| == |table.values| == m.nrecord > 0
    && m.kstart == table.keys[0] && m.kend == table.keys[|table.keys| - 1]
    && Ascending(table.keys)
  }

  ghost predicate ListedOk(s: State, t: nat) {
    t < |s.manifest| ==> t in s.files && Describes(s.manifest[t], t, s.files[t])
  }

  ghost predicate ManifestOk(s: State) {
    && (forall t: nat :: ListedOk(s, t))
    && (s.dump.Writing? ==> Ascending(KeysIn(s.dump.kvs)))
  }

  lemma {:induction false} MergeAscends(lists: seq<seq<Entry>>)
    requires AllSorted(lists)
    ensures Ascending(KeysIn(Untag(KMerge(lists))))
  {
    var ts := KMerge(lists);
    MergeIsOrdered(lists);
    var ks := KeysIn(Untag(ts));
    forall i, j | 0 <= i < j < |ks| ensures InOrder(ks, i, j) {
      assert Precedes(ts[i], ts[j]);
    }
  }

  lemma {:induction false} StartDumpManifest(s: State)
    requires ListsOk(s) && ManifestOk(s) && Enabled(s, StartDump)
    ensures ManifestOk(StartDumpStep(s))
  {
    MergeAscends(s.queue[0]);
    forall t: nat ensures ListedOk(StartDumpStep(s), t) {
      assert ListedOk(s, t);
    }
  }

  lemma {:induction false} ListTableManifest(s: State)
    requires FilesOk(s) && ManifestOk(s) && Enabled(s, ListTable)
    ensures ManifestOk(ListTableStep(s))
  {
    forall t: nat ensures ListedOk(ListTableStep(s), t) {
      assert ListedOk(s, t);
    }
  }

  lemma {:induction false} StepManifest(w: World, step: Step)
    requires ListsOk(w.s) && FilesOk(w.s) && ManifestOk(w.s) && Enabled(w.s, step)
    ensures ManifestOk(Next(w, step).s)
  {
    match step
    case StartDump => StartDumpManifest(w.s);
    case ListTable => ListTableManifest(w.s);
    case _ =>
      forall t: nat ensures ListedOk(Next(w, step).s, t) {
        assert ListedOk(w.s, t);
      }
  }

  ghost predicate Sound(w: World) {
    Accounted(w) && Durable(w) && Traceable(w) && NoLeak(w) && OnceOk(w) && ManifestOk(w.s)
  }

  lemma {:induction false} StepSound(w: World, step: Step)
    requires Sound(w) && Enabled(w.s, step)
    ensures Sound(Next(w, step))
  {
    StepAccounted(w, step);
    StepDurable(w, step);
    StepTraceable(w, step);
    StepNoLeak(w, step);
    StepOnceOk(w, step);
    StepManifest(w, step);
  }

  lemma {:induction false} RunSound(w: World, steps: seq<Step>)
    requires Sound(w) && CanTake(w, steps)
    ensures Sound(After(w, steps))
    decreases steps
  {
    if steps != [] {
      StepSound(w, steps[0]);
      RunSound(Next(w, steps[0]), steps[1..]);
    }
  }

  lemma {:induction false} EmptySound(w: World)
    requires Accounted(w) && w.acked == [] && w.leaked == multiset{} && Flat(w.s.memtables) == []
    requires w.s.pool.wrote == [] && w.s.hot == [] && w.s.died.None? && w.s.hash == map[]
    requires w.s.files == map[] && w.s.manifest == [] && w.s.dump.Idle? && w.s.queue == []
    ensures Sound(w)
  {
    EmptyTraceable(w);
  }

  // What holds in every reachable state.
  lemma {:induction false} AllSound(steps: seq<Step>)
    requires CanTake(Start(), steps)
    ensures Sound(After(Start(), steps))
  {
    StartAccounted();
    NothingHeld();
    EmptySound(Start());
    RunSound(Start(), steps);
  }

  lemma {:induction false} DescribedBounds(m: MFRecord, t: nat, table: Table, i: nat)
    requires Describes(m, t, table)
    ensures i < m.nrecord ==> m.kstart <= table.keys[i] <= m.kend
  {
    if i < m.nrecord {
      assert i > 0 ==> InOrder(table.keys, 0, i);
      assert i < |table.keys| - 1 ==> InOrder(table.keys, i, |table.keys| - 1);
    }
  }

  // Over every run, each listed table holds as many values as keys, as many as the manifest
  // says, in key order between the bounds the manifest gives.
  lemma {:induction false} ManifestBoundsTables(steps: seq<Step>, t: nat, i: nat)
    requires CanTake(Start(), steps) && t < |After(Start(), steps).s.manifest|
    ensures var s := After(Start(), steps).s;
            && t in s.files && s.manifest[t].file == t
            && |s.files[t].keys| == |s.files[t].values| == s.manifest[t].nrecord > 0
            && (i < s.manifest[t].nrecord ==> s.manifest[t].kstart <= s.files[t].keys[i] <= s.manifest[t].kend)
  {
    AllSound(steps);
    var s := After(Start(), steps).s;
    assert ListedOk(s, t);
    DescribedBounds(s.manifest[t], t, s.files[t], i);
  }

  lemma {:induction false} DumpedRowIn(w: World, t: nat, i: nat, j: nat)
    requires Sound(w) && Once(w.acked) && TablesBegun(w.s) <= TABLE_LIMIT
    requires t < |w.s.manifest| && i < w.s.manifest[t].nrecord
    ensures t in w.s.files && i < |w.s.files[t].keys| && i < |w.s.files[t].values|
    ensures var k, v := w.s.files[t].keys[i], w.s.files[t].values[i];
            k in w.s.hash && PlaceOf(w.s.hash[k]) == InTable(t, i) && Record(k, v) in w.acked
    ensures i < j < w.s.manifest[t].nrecord ==> j < |w.s.files[t].keys| && w.s.files[t].keys[i] < w.s.files[t].keys[j]
  {
    assert ListedOk(w.s, t) && RowPointed(w.s, t, i) && RowGenuine(w, t, i);
    if i < j < w.s.manifest[t].nrecord {
      assert InOrder(w.s.files[t].keys, i, j) && RowPointed(w.s, t, j);
    }
  }

  // When keys are written once and table numbers fit their field, each key of a listed table
  // leads to that table and to its own rank there, the value block of that rank is the value
  // acknowledged for the key, and the keys ascend strictly, so nrecord counts them.
  lemma {:induction false} DumpedRow(steps: seq<Step>, t: nat, i: nat, j: nat)
    requires CanTake(Start(), steps)
    requires Once(After(Start(), steps).acked) && TablesBegun(After(Start(), steps).s) <= TABLE_LIMIT
    requires t < |After(Start(), steps).s.manifest| && i < After(Start(), steps).s.manifest[t].nrecord
    ensures var w := After(Start(), steps);
            && t in w.s.files && i < |w.s.files[t].keys| && i < |w.s.files[t].values|
            && w.s.files[t].keys[i] in w.s.hash && PlaceOf(w.s.hash[w.s.files[t].keys[i]]) == InTable(t, i)
            && Record(w.s.files[t].keys[i], w.s.files[t].values[i]) in w.acked
            && (i < j < w.s.manifest[t].nrecord ==> j < |w.s.files[t].keys| && w.s.files[t].keys[i] < w.s.files[t].keys[j])
  {
    AllSound(steps);
    DumpedRowIn(After(Start(), steps), t, i, j);
  }

  // When keys are written once, the hash index leads each of them to the record written.
  lemma {:induction false} ResolvesToTheRecord(steps: seq<Step>, r: Record)
    requires CanTake(Start(), steps) && r in After(Start(), steps).acked
    requires Once(After(Start(), steps).acked) && TablesBegun(After(Start(), steps).s) <= TABLE_LIMIT
    ensures Resolve(After(Start(), steps).s, r.key) == Some(r)
  {
    var w := After(Start(), steps);
    ResolvesToOwnRecord(steps, r.key);
    assert Acked(w, r.key);
    OnceSame(w.acked, Resolve(w.s, r.key).value, r);
  }

  // When keys below the sentinel are written once, no slot leaks, some step is always
  // possible, and each acknowledged record is in a log or in a listed table.
  lemma {:induction false} WriteOnceNeverStalls(steps: seq<Step>, r: Record)
    requires CanTake(Start(), steps)
    requires Once(After(Start(), steps).acked) && BelowSentinel(After(Start(), steps).acked)
    ensures var w := After(Start(), steps);
            && w.leaked == multiset{} && !Stuck(w.s)
            && (r in w.acked ==> Logged(w.s, r))
  {
    AllSound(steps);
    var w := After(Start(), steps);
    StuckExactly(w);
    if r in w.acked {
      LoggedExactly(w, r);
    }
  }
}
