/** A record whose key the merge does not see is lost: acknowledged, then in no log and no table. */
module LostRecords {
  import opened Keys
  import opened Places
  import opened SkipLevels
  import opened Merges
  import opened Systems
  import opened Accounting
  import opened Durability
  import opened Resolution
  import opened Manifests
  import opened Rounds
  import opened StaleDumps

  // A switch and the dump of the batch it submits.
  function SwitchAndDump(n: nat): seq<Step> {
    [Switch] + Round(n)
  }

  lemma {:induction false} DumpEmptiesLogs(w: World, n: nat)
    requires Accounted(w) && Enabled(w.s, Switch) && n == |KMerge(w.s.memtables)| > 0
    ensures CanTake(w, SwitchAndDump(n))
    ensures var w' := After(w, SwitchAndDump(n)); w'.acked == w.acked && w'.s.hot == [] && w'.s.died.None?
  {
    SwitchMoves(w.s);
    SwitchAccounted(w);
    assert SwitchStep(w.s).queue == [w.s.memtables];
    RoundEnds(Next(w, Switch), n);
    Unroll(w, Switch, Round(n));
  }

  // Of the records in the hot log, the switch and the dump leave on disk exactly those with
  // keys below the sentinel.
  lemma {:induction false} DumpKeepsExactly(w: World, n: nat, r: Record)
    requires Accounted(w) && Durable(w) && Genuine(w) && r in w.s.hot
    requires Enabled(w.s, Switch) && n == |KMerge(w.s.memtables)| > 0
    ensures CanTake(w, SwitchAndDump(n)) && r in After(w, SwitchAndDump(n)).acked
    ensures Logged(After(w, SwitchAndDump(n)).s, r) <==> r.key < INT64_MAX
  {
    DumpEmptiesLogs(w, n);
    RunDurable(w, SwitchAndDump(n));
    LoggedExactly(After(w, SwitchAndDump(n)), r);
  }

  // One more key, through the first memtable, when one slot is left.
  lemma {:induction false} LastWrite(w: World, r: Record)
    requires Filled(w, RECORD_BUFF_SIZE - 1)
    ensures Enabled(w.s, Write(r, 0))
    ensures var w' := Next(w, Write(r, 0));
            && Enabled(w'.s, Switch) && r in w'.s.hot
            && |w'.s.memtables| > 2 && w'.s.memtables[2] == w.s.memtables[2]
  {
    var x := SlotIndex(NextSlot(w.s.pool));
    FirstEntry(r.key, x);
    TotalHead(w.s.memtables, Upsert([], r.key, x, 0));
  }

  lemma {:induction false} SomethingMerges(lists: seq<seq<Entry>>, n: nat)
    requires |lists| > 2 && lists[2] != [] && KeysWithin(lists[2], 0, n) && n < RECORD_BUFF_SIZE
    ensures KMerge(lists) != []
  {
    assert lists[2][0] in lists[2];
    BestIsFirstLeast(lists, |lists|);
  }

  lemma {:induction false} LostFrom(w: World, r: Record) returns (steps: seq<Step>)
    requires Sound(w) && Filled(w, RECORD_BUFF_SIZE - 1) && r.key >= INT64_MAX
    ensures CanTake(w, steps) && r in After(w, steps).acked && !Logged(After(w, steps).s, r)
  {
    var w' := Next(w, Write(r, 0));
    LastWrite(w, r);
    StepSound(w, Write(r, 0));
    assert KeysWithin(w.s.memtables[2], 0, RECORD_BUFF_SIZE - 1);
    SomethingMerges(w'.s.memtables, RECORD_BUFF_SIZE - 1);
    var n := |KMerge(w'.s.memtables)|;
    DumpKeepsExactly(w', n, r);
    Unroll(w, Write(r, 0), SwitchAndDump(n));
    steps := [Write(r, 0)] + SwitchAndDump(n);
  }

  // From an empty engine: 1023 ordinary keys, then a key the merge does not see, then the
  // switch and the dump of that batch. The last record is acknowledged and no longer on disk.
  lemma {:induction false} HighKeyIsLost(r: Record) returns (steps: seq<Step>)
    requires r.key >= INT64_MAX
    ensures CanTake(Start(), steps) && r in After(Start(), steps).acked && !Logged(After(Start(), steps).s, r)
  {
    StartSound();
    StartFilled();
    var filling := Fill(Start(), RECORD_BUFF_SIZE - 1);
    RunSound(Start(), filling);
    var rest := LostFrom(After(Start(), filling), r);
    AfterJoin(Start(), filling, rest);
    steps := filling + rest;
  }
}
