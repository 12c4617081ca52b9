/** What an undisturbed dump leaves behind: each key at its row, each row the latest value. */
module DumpLaws {
  import opened Options
  import opened Places
  import opened SkipLevels
  import opened Merges
  import opened Systems
  import opened Accounting
  import opened Durability
  import opened Resolution
  import opened WriteOnce
  import opened LatestValues
  import opened Rounds

  // No write among these steps.
  ghost predicate Quiet(steps: seq<Step>) {
    forall step :: step in steps ==> !step.Write?
  }

  lemma {:induction false} QuietTail(steps: seq<Step>)
    requires Quiet(steps) && steps != []
    ensures !steps[0].Write? && Quiet(steps[1..])
  {
    assert steps[0] in steps;
  }

  lemma {:induction false} QuietRepeated(n: nat)
    ensures Quiet(Repeated(DumpOne, n))
  {
    if n > 0 {
      QuietRepeated(n - 1);
    }
  }

  lemma {:induction false} QuietRound(n: nat)
    ensures Quiet(Round(n))
  {
    QuietRepeated(n);
  }

  lemma {:induction false} BegunGrows(w: World, steps: seq<Step>)
    requires CanTake(w, steps)
    ensures TablesBegun(w.s) <= TablesBegun(After(w, steps).s)
    decreases steps
  {
    if steps != [] {
      BegunGrows(Next(w, steps[0]), steps[1..]);
    }
  }

  // While nothing is written, a key that leads to its row goes on leading there.
  lemma {:induction false} StepKeepsRow(w: World, step: Step, t: nat, i: nat)
    requires Accounted(w) && FilesOk(w.s) && HashOk(w) && EntriesPointed(w.s) && Enabled(w.s, step) && !step.Write?
    requires TablesBegun(w.s) <= TABLE_LIMIT && RowPointed(w.s, t, i)
    ensures RowPointed(Next(w, step).s, t, i)
  {
    match step
    case StartDump => StartDumpRow(w.s, t, i);
    case DumpOne =>
      var d := w.s.dump.kvs[w.s.dump.done];
      DumpOneReleases(w.s);
      assert d in Pending(w.s) && PointsAt(w.s.hash, d);
      DumpOneRowPointed(w.s, t, i);
    case _ =>
  }

  lemma {:induction false} QuietKeepsRow(w: World, steps: seq<Step>, t: nat, i: nat)
    requires Accounted(w) && Durable(w) && Traceable(w) && LatestOk(w) && CanTake(w, steps) && Quiet(steps)
    requires TablesBegun(After(w, steps).s) <= TABLE_LIMIT && RowPointed(w.s, t, i)
    ensures RowPointed(After(w, steps).s, t, i) && LatestOk(After(w, steps))
    decreases steps
  {
    if steps != [] {
      var step := steps[0];
      QuietTail(steps);
      BegunGrows(w, steps);
      StepKeepsRow(w, step, t, i);
      StepAccounted(w, step);
      StepDurable(w, step);
      StepTraceable(w, step);
      StepLatest(w, step);
      QuietKeepsRow(Next(w, step), steps[1..], t, i);
    }
  }

  // Table t has the keys of these entries, and as many values.
  ghost predicate FullTable(files: map<nat, Table>, t: nat, kvs: seq<Entry>) {
    t in files && files[t].keys == KeysIn(kvs) && |files[t].values| == |kvs|
  }

  lemma {:induction false} LoopFiles(w: World, kvs: seq<Entry>, n: nat) returns (w': World)
    requires Accounted(w) && Durable(w) && WritingAt(w.s.dump, kvs, 0) && n == |kvs|
    ensures Dumped(w, w', n) && WritingAt(w'.s.dump, kvs, n) && FullTable(w'.s.files, |w.s.manifest|, kvs)
  {
    w' := DumpAll(w, kvs, n);
    RunDurable(w, Repeated(DumpOne, n));
    assert FilesOk(w'.s);
  }

  lemma {:induction false} CloseFiles(w: World, kvs: seq<Entry>, n: nat)
    requires WritingAt(w.s.dump, kvs, n) && n == |kvs| > 0
    ensures Enabled(w.s, ListTable) && Enabled(Next(w, ListTable).s, EndDump)
    ensures var w' := Next(Next(w, ListTable), EndDump);
            && w'.s.files == w.s.files
            && w'.s.manifest == w.s.manifest + [MFRecord(0, |w.s.manifest|, kvs[0].key, kvs[n - 1].key, n)]
  {
  }

  // The table a round leaves: the keys of the merge, as many values, and the manifest's record.
  lemma {:induction false} RoundFiles(w: World, kvs: seq<Entry>, n: nat)
    requires Accounted(w) && Durable(w) && Enabled(w.s, StartDump) && kvs == Untag(KMerge(w.s.queue[0])) && n == |kvs| > 0
    ensures CanTake(w, Round(n))
    ensures var s', t := After(w, Round(n)).s, |w.s.manifest|;
            FullTable(s'.files, t, kvs) && s'.manifest == w.s.manifest + [MFRecord(0, t, kvs[0].key, kvs[n - 1].key, n)]
  {
    StepAccounted(w, StartDump);
    StepDurable(w, StartDump);
    var w' := LoopFiles(Next(w, StartDump), kvs, n);
    CloseFiles(w', kvs, n);
    RoundJoins(w, w', n);
  }

  lemma {:induction false} RowHolds(w: World, t: nat, i: nat)
    requires LatestOk(w) && TablesBegun(w.s) <= TABLE_LIMIT && RowPointed(w.s, t, i)
    requires t in w.s.files && i < |w.s.files[t].keys| && i < |w.s.files[t].values|
    ensures var k, v := w.s.files[t].keys[i], w.s.files[t].values[i];
            k in w.s.hash && PlaceOf(w.s.hash[k]) == InTable(t, i) && LastOf(w.acked, k) == Resolve(w.s, k) == Some(Record(k, v))
  {
    assert Current(w, w.s.files[t].keys[i]);
  }

  // From w to w' the first batch has become the next table: its i-th key leads to that table
  // and rank i, the value block there is the latest value of the key, its slot is empty again,
  // and the manifest bounds and counts the keys.
  ghost predicate RowDumped(w: World, w': World, i: nat)
    requires w.s.queue != []
  {
    var t, kvs := |w.s.manifest|, Untag(KMerge(w.s.queue[0]));
    && i < |kvs| && FullTable(w'.s.files, t, kvs)
    && kvs[i].key in w'.s.hash && PlaceOf(w'.s.hash[kvs[i].key]) == InTable(t, i)
    && LastOf(w.acked, kvs[i].key) == Some(Record(kvs[i].key, w'.s.files[t].values[i]))
    && SlotOf(kvs[i].idx) in w'.s.pool.empty
    && w'.s.manifest == w.s.manifest + [MFRecord(0, t, kvs[0].key, kvs[|kvs| - 1].key, |kvs|)]
  }

  // So it is after an undisturbed dump. Rewriting is allowed: what is asked of the state before
  // is that entries are where their keys lead and keys lead to their latest records.
  lemma {:induction false} DumpLaw(w: World, n: nat, i: nat)
    requires Accounted(w) && Durable(w) && Traceable(w) && LatestOk(w) && Enabled(w.s, StartDump)
    requires i < n == |KMerge(w.s.queue[0])| && |w.s.manifest| < TABLE_LIMIT
    ensures CanTake(w, Round(n)) && RowDumped(w, After(w, Round(n)), i)
  {
    var t, kvs := |w.s.manifest|, Untag(KMerge(w.s.queue[0]));
    RoundFiles(w, kvs, n);
    RoundEnds(w, n);
    assert kvs[i] in kvs;
    RoundFrees(w, n, kvs[i]);
    QuietRound(n);
    QuietKeepsRow(w, Round(n), t, i);
    RowHolds(After(w, Round(n)), t, i);
  }

  // In particular after any run that writes a key only while no other memtable and no batch on
  // its way to disk holds it.
  lemma {:induction false} TidyDumpLaw(steps: seq<Step>, n: nat, i: nat)
    requires CanTake(Start(), steps) && Tidy(Start(), steps) && Enabled(After(Start(), steps).s, StartDump)
    requires i < n == |KMerge(After(Start(), steps).s.queue[0])| && |After(Start(), steps).s.manifest| < TABLE_LIMIT
    ensures var w := After(Start(), steps); CanTake(w, Round(n)) && RowDumped(w, After(w, Round(n)), i)
  {
    ReachableOk(steps);
    TidyLatest(steps);
    DumpLaw(After(Start(), steps), n, i);
  }
}
