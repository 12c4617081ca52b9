/** Undisturbed rounds of the dumper, and how runs compose. */
module Rounds {
  import opened Counting
  import opened Places
  import opened SkipLevels
  import opened Merges
  import opened SlotBags
  import opened Systems
  import opened Accounting

  lemma {:induction false} RepeatedMore(step: Step, n: nat)
    ensures Repeated(step, n + 1) == Repeated(step, n) + [step]
  {
    if n > 0 {
      RepeatedMore(step, n - 1);
    }
  }

  lemma {:induction false} Unroll(w: World, step: Step, rest: seq<Step>)
    requires Enabled(w.s, step) && CanTake(Next(w, step), rest)
    ensures CanTake(w, [step] + rest) && After(w, [step] + rest) == After(Next(w, step), rest)
  {
    assert ([step] + rest)[1..] == rest;
  }

  // Runs compose.
  lemma {:induction false} AfterJoin(w: World, a: seq<Step>, b: seq<Step>)
    requires CanTake(w, a) && CanTake(After(w, a), b)
    ensures CanTake(w, a + b) && After(w, a + b) == After(After(w, a), b)
    decreases |a|, 0
  {
    if a == [] {
      assert a + b == b;
    } else {
      JoinStep(w, Next(w, a[0]), a[0], a[1..], b);
      HeadTail(a);
    }
  }

  lemma {:induction false} JoinStep(w: World, w1: World, step: Step, a: seq<Step>, b: seq<Step>)
    requires Enabled(w.s, step) && w1 == Next(w, step) && CanTake(w1, a) && CanTake(After(w1, a), b)
    ensures CanTake(w, [step] + a + b) && After(w, [step] + a + b) == After(After(w1, a), b)
    decreases |a|, 1
  {
    AfterJoin(w1, a, b);
    Unroll(w, step, a + b);
    JoinAssoc([step], a, b);
  }

  lemma {:induction false} AfterOne(w: World, a: seq<Step>, step: Step)
    requires CanTake(w, a) && Enabled(After(w, a).s, step)
    ensures CanTake(w, a + [step]) && After(w, a + [step]) == Next(After(w, a), step)
  {
    var w1 := After(w, a);
    assert [step][1..] == [];
    assert CanTake(Next(w1, step), []);
    AfterJoin(w, a, [step]);
  }

  // The steps of one round of the dumper over a batch of n entries.
  function Round(n: nat): seq<Step> {
    [StartDump] + Repeated(DumpOne, n) + ([ListTable] + [EndDump])
  }

  // What a round leaves alone until its end.
  ghost predicate SameBeside(w: World, w': World) {
    && w'.acked == w.acked && w'.leaked == w.leaked
    && w'.s.memtables == w.s.memtables && w'.s.queue == w.s.queue && w'.s.hot == w.s.hot && w'.s.manifest == w.s.manifest
  }

  predicate WritingAt(dump: Dump, kvs: seq<Entry>, n: nat) {
    dump.Writing? && dump.kvs == kvs && dump.done == n
  }

  // w' is w after n steps of the dumper that release a slot each.
  ghost predicate Dumped(w: World, w': World, n: nat) {
    && CanTake(w, Repeated(DumpOne, n)) && w' == After(w, Repeated(DumpOne, n))
    && Accounted(w') && SameBeside(w, w')
  }

  lemma {:induction false} DumpedNone(w: World)
    requires Accounted(w)
    ensures Dumped(w, w, 0)
  {
  }

  lemma {:induction false} DumpOneMore(w: World, w': World, m: nat, n: nat) returns (w'': World)
    requires Dumped(w, w', m) && n == m + 1 && w'.s.dump.Writing? && w'.s.dump.done < |w'.s.dump.kvs|
    ensures Enabled(w'.s, DumpOne) && w'' == Next(w', DumpOne) && Dumped(w, w'', n)
    ensures w''.s == DumpOneStep(w'.s) && WritingAt(w''.s.dump, w'.s.dump.kvs, w'.s.dump.done + 1)
  {
    ReleaseNeverAborts(w');
    StepAccounted(w', DumpOne);
    AfterOne(w, Repeated(DumpOne, m), DumpOne);
    RepeatedMore(DumpOne, m);
    w'' := Next(w', DumpOne);
  }

  lemma {:induction false} RoundJoins(w: World, w': World, n: nat)
    requires Enabled(w.s, StartDump) && CanTake(Next(w, StartDump), Repeated(DumpOne, n))
    requires w' == After(Next(w, StartDump), Repeated(DumpOne, n))
    requires Enabled(w'.s, ListTable)
    ensures Enabled(Next(w', ListTable).s, EndDump)
    ensures CanTake(w, Round(n)) && After(w, Round(n)) == Next(Next(w', ListTable), EndDump)
  {
    var dumped := [StartDump] + Repeated(DumpOne, n);
    Unroll(w, StartDump, Repeated(DumpOne, n));
    AfterOne(w, dumped, ListTable);
    AfterOne(w, dumped + [ListTable], EndDump);
    JoinAssoc(dumped, [ListTable], [EndDump]);
  }

  // The dump loop can be taken to its end.
  lemma {:induction false} DumpAll(w: World, kvs: seq<Entry>, n: nat) returns (w': World)
    requires Accounted(w) && WritingAt(w.s.dump, kvs, 0) && n <= |kvs|
    ensures Dumped(w, w', n) && WritingAt(w'.s.dump, kvs, n)
  {
    DumpedNone(w);
    w' := w;
    var i: nat := 0;
    while i < n
      invariant i <= n && Dumped(w, w', i) && WritingAt(w'.s.dump, kvs, i)
    {
      w' := DumpOneMore(w, w', i, i + 1);
      i := i + 1;
    }
  }

  // A round over a batch that the merge sees something of can be taken to its end; it leaves
  // memtables and hot log alone, removes the died log, and leaks what the merge leaves behind.
  lemma {:induction false} RoundEnds(w: World, n: nat)
    requires Accounted(w) && Enabled(w.s, StartDump) && n == |KMerge(w.s.queue[0])| > 0
    ensures CanTake(w, Round(n)) && Accounted(After(w, Round(n)))
    ensures var w' := After(w, Round(n));
            && w'.acked == w.acked && w'.leaked == w.leaked + Slots(Flat(Left(w.s.queue[0])))
            && w'.s.memtables == w.s.memtables && w'.s.hot == w.s.hot && w'.s.died.None? && w'.s.dump.Idle? && w'.s.queue == []
  {
    StepAccounted(w, StartDump);
    var w' := DumpAll(Next(w, StartDump), Untag(KMerge(w.s.queue[0])), n);
    RoundJoins(w, w', n);
    StepAccounted(w', ListTable);
    StepAccounted(Next(w', ListTable), EndDump);
  }

  // After a round the written slots are those of the current memtables and the leaked ones.
  lemma {:induction false} IdleAccounts(w: World)
    requires Accounted(w) && w.s.dump.Idle? && w.s.queue == []
    ensures multiset(w.s.pool.wrote) == Slots(Flat(w.s.memtables)) + w.leaked
  {
    assert Pending(w.s) == [] && Slots([]) == multiset{};
    assert Slots(Flat(w.s.memtables)) + multiset{} + w.leaked == Slots(Flat(w.s.memtables)) + w.leaked;
  }

  // A slot the merge puts out is neither left behind nor owned by anything else.
  lemma {:induction false} MergedSlotAlone(w: World, e: Entry)
    requires Accounted(w) && Enabled(w.s, StartDump) && e in Untag(KMerge(w.s.queue[0]))
    ensures var p := SlotOf(e.idx);
            p < RECORD_BUFF_SIZE && p !in Slots(Flat(w.s.memtables)) && p !in w.leaked + Slots(Flat(Left(w.s.queue[0])))
  {
    var p, kvs, left := SlotOf(e.idx), Untag(KMerge(w.s.queue[0])), Flat(Left(w.s.queue[0]));
    MergeSharesSlots(w.s.queue[0]);
    assert e in Pending(w.s) && EntryOk(w.s.data, e);
    InSlots(kvs, p);
    SoleOwner(w, p);
    assert Slots(Pending(w.s))[p] == Slots(kvs)[p] + Slots(left)[p];
  }

  // Every slot of the batch that was written out is empty again after the round.
  lemma {:induction false} RoundFrees(w: World, n: nat, e: Entry)
    requires Accounted(w) && Enabled(w.s, StartDump) && n == |KMerge(w.s.queue[0])| > 0
    requires e in Untag(KMerge(w.s.queue[0]))
    ensures CanTake(w, Round(n)) && SlotOf(e.idx) in After(w, Round(n)).s.pool.empty
  {
    var p := SlotOf(e.idx);
    RoundEnds(w, n);
    var w' := After(w, Round(n));
    MergedSlotAlone(w, e);
    IdleAccounts(w');
    SoleOwner(w', p);
    assert p !in multiset(w'.s.pool.wrote);
    assert p in multiset(w'.s.pool.empty);
  }
}
