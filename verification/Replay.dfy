/** Start-up: a log is read back record by record into an engine that has room for all of it. */
module Replays {
  import opened Counting
  import opened Keys
  import opened Options
  import opened Places
  import opened SkipLevels
  import opened Systems
  import opened Accounting
  import opened Resolution
  import opened HashIndexes
  import opened Engines
  import Buffers

  // The memtables the recovering thread got hold of, one for each record.
  ghost predicate Choices(s: State, log: seq<Record>, js: seq<nat>) {
    |js| == |log| && forall i :: 0 <= i < |js| ==> js[i] < |s.memtables|
  }

  // A write without the log.
  function BufferStep(s: State, record: Record, j: nat): State
    requires s.pool.empty != [] && j < |s.memtables|
  {
    WriteStep(s, record, j).(hot := s.hot)
  }

  // The records of a log, written one after the other.
  ghost function WriteAll(s: State, log: seq<Record>, js: seq<nat>): State
    requires Choices(s, log, js) && |log| <= |s.pool.empty|
    decreases |log|
  {
    if log == [] then s else WriteAll(WriteStep(s, log[0], js[0]), log[1..], js[1..])
  }

  ghost function BufferAll(s: State, log: seq<Record>, js: seq<nat>): State
    requires Choices(s, log, js) && |log| <= |s.pool.empty|
    decreases |log|
  {
    if log == [] then s else BufferAll(BufferStep(s, log[0], js[0]), log[1..], js[1..])
  }

  // write_recover: the record is in slot p already.
  function RecoverStep(s: State, record: Record, p: nat, j: nat): State
    requires j < |s.memtables|
  {
    s.(data := if p < |s.data| then s.data[p := record] else s.data,
       hash := s.hash[record.key := SlotIndex(p).SetInHash(true)],
       memtables := s.memtables[j := Upsert(s.memtables[j], record.key, SlotIndex(p), 0)])
  }

  function Requested(s: State): State
    requires s.pool.empty != []
  {
    s.(pool := Buffers.Do(s.pool, Buffers.Request))
  }

  // The recovery loop: each record is read into the slot requested before it, and the slot
  // that finds the end of the log is released.
  ghost function RecoverLoop(s: State, p: nat, log: seq<Record>, js: seq<nat>): State
    requires Choices(s, log, js) && |log| <= |s.pool.empty|
    decreases |log|
  {
    if log == [] then
      if p in s.pool.wrote then s.(pool := Buffers.Do(s.pool, Buffers.Release(p))) else s
    else
      var s' := RecoverStep(s, log[0], p, js[0]);
      RecoverLoop(Requested(s'), NextSlot(s'.pool), log[1..], js[1..])
  }

  ghost function Replay(s: State, log: seq<Record>, js: seq<nat>): State
    requires Choices(s, log, js) && |log| < |s.pool.empty|
  {
    RecoverLoop(Requested(s), NextSlot(s.pool), log, js)
  }

  // The next empty slot moved to the other end of the queue.
  function Rotated(p: Buffers.Pool): Buffers.Pool
    requires p.empty != []
  {
    Buffers.Pool([NextSlot(p)] + p.empty[..|p.empty| - 1], p.wrote)
  }

  lemma {:induction false} RequestThenRelease(p: Buffers.Pool)
    requires p.empty != []
    ensures NextSlot(p) in Buffers.Do(p, Buffers.Request).wrote
    ensures Buffers.Do(Buffers.Do(p, Buffers.Request), Buffers.Release(NextSlot(p))) == Rotated(p)
  {
    var q := Buffers.Do(p, Buffers.Request);
    assert q.wrote[0] == NextSlot(p) && q.wrote[1..] == p.wrote;
  }

  lemma {:induction false} RecoverIsBuffer(s: State, record: Record, j: nat)
    requires s.pool.empty != [] && j < |s.memtables|
    ensures RecoverStep(Requested(s), record, NextSlot(s.pool), j) == BufferStep(s, record, j)
  {
  }

  lemma {:induction false} BufferAllLeaves(s: State, log: seq<Record>, js: seq<nat>)
    requires Choices(s, log, js) && |log| <= |s.pool.empty|
    ensures |BufferAll(s, log, js).pool.empty| == |s.pool.empty| - |log|
    ensures |BufferAll(s, log, js).pool.wrote| == |s.pool.wrote| + |log|
    decreases |log|
  {
    if log != [] {
      BufferAllLeaves(BufferStep(s, log[0], js[0]), log[1..], js[1..]);
    }
  }

  // Replaying a log that leaves a slot empty does what writing its records did, except that
  // nothing is logged again and the queue of empty slots has moved on by one.
  lemma {:induction false} ReplayIsWriting(s: State, log: seq<Record>, js: seq<nat>)
    requires Choices(s, log, js) && |log| < |s.pool.empty|
    ensures BufferAll(s, log, js).pool.empty != []
    ensures Replay(s, log, js) == BufferAll(s, log, js).(pool := Rotated(BufferAll(s, log, js).pool))
    decreases |log|
  {
    BufferAllLeaves(s, log, js);
    if log == [] {
      RequestThenRelease(s.pool);
    } else {
      RecoverIsBuffer(s, log[0], js[0]);
      ReplayIsWriting(BufferStep(s, log[0], js[0]), log[1..], js[1..]);
    }
  }

  lemma {:induction false} LoggedStep(s: State, h: seq<Record>, record: Record, j: nat)
    requires s.pool.empty != [] && j < |s.memtables|
    ensures WriteStep(s.(hot := h), record, j) == BufferStep(s, record, j).(hot := h + [record])
  {
  }

  // Writing a run of records logs them all, and otherwise does what the writes do to the buffer.
  lemma {:induction false} WriteAllLogs(s: State, h: seq<Record>, log: seq<Record>, js: seq<nat>)
    requires Choices(s, log, js) && |log| <= |s.pool.empty|
    ensures WriteAll(s.(hot := h), log, js) == BufferAll(s, log, js).(hot := h + log)
    decreases |log|
  {
    if log == [] {
      assert h + log == h;
    } else {
      LoggedStep(s, h, log[0], js[0]);
      WriteAllLogs(BufferStep(s, log[0], js[0]), h + [log[0]], log[1..], js[1..]);
      HeadTail(log);
      JoinAssoc(h, [log[0]], log[1..]);
    }
  }

  // Index and slots agree for key k: what it leads to in the buffer is written.
  ghost predicate InBuffer(s: State, k: Key) {
    k in s.hash && PlaceOf(s.hash[k]).InSlot? ==> PlaceOf(s.hash[k]).slot in s.pool.wrote
  }

  ghost predicate BufferOk(s: State) {
    Buffers.PoolOk(s.pool, RECORD_BUFF_SIZE) && |s.data| == RECORD_BUFF_SIZE
  }

  lemma {:induction false} BufferStepFills(s: State, record: Record, j: nat)
    requires BufferOk(s) && s.pool.empty != [] && j < |s.memtables|
    ensures var s', p := BufferStep(s, record, j), NextSlot(s.pool);
            && BufferOk(s') && p < RECORD_BUFF_SIZE && p !in s.pool.wrote
            && s'.pool.wrote == [p] + s.pool.wrote && s'.data == s.data[p := record]
  {
    var p := NextSlot(s.pool);
    Buffers.OnceIn(s.pool, RECORD_BUFF_SIZE, p);
    assert p in s.pool.empty;
    Buffers.DoKeepsPool(s.pool, Buffers.Request, RECORD_BUFF_SIZE);
  }

  lemma {:induction false} BufferStepResolves(s: State, record: Record, j: nat, k: Key)
    requires BufferOk(s) && InBuffer(s, k) && s.pool.empty != [] && j < |s.memtables|
    ensures var s' := BufferStep(s, record, j);
            && InBuffer(s', k)
            && Resolve(s', k) == if k == record.key then Some(record) else Resolve(s, k)
  {
    BufferStepFills(s, record, j);
    SlotPlaceReadsBack(NextSlot(s.pool));
  }

  // After a run of writes a key leads to its last record in the run, or where it led before.
  lemma {:induction false} WritesResolve(s: State, log: seq<Record>, js: seq<nat>, k: Key)
    requires Choices(s, log, js) && |log| <= |s.pool.empty| && BufferOk(s) && InBuffer(s, k)
    ensures Resolve(BufferAll(s, log, js), k) == if LastOf(log, k).Some? then LastOf(log, k) else Resolve(s, k)
    decreases |log|
  {
    if log != [] {
      BufferStepFills(s, log[0], js[0]);
      BufferStepResolves(s, log[0], js[0], k);
      WritesResolve(BufferStep(s, log[0], js[0]), log[1..], js[1..], k);
    }
  }

  // After a run of writes each record is in a slot of its own, newest first.
  ghost predicate InOwnSlot(s: State, log: seq<Record>, i: nat)
    requires i < |log|
  {
    |log| <= |s.pool.wrote| && s.pool.wrote[|log| - 1 - i] < |s.data| && s.data[s.pool.wrote[|log| - 1 - i]] == log[i]
  }

  lemma {:induction false} SlotsStay(s: State, log: seq<Record>, js: seq<nat>, i: nat)
    requires Choices(s, log, js) && |log| <= |s.pool.empty| && BufferOk(s) && i < |s.pool.wrote| && s.pool.wrote[i] < |s.data|
    ensures var s' := BufferAll(s, log, js);
            && |log| + i < |s'.pool.wrote| && s'.pool.wrote[|log| + i] == s.pool.wrote[i]
            && s.pool.wrote[i] < |s'.data| && s'.data[s.pool.wrote[i]] == s.data[s.pool.wrote[i]]
    decreases |log|
  {
    if log != [] {
      BufferStepFills(s, log[0], js[0]);
      assert s.pool.wrote[i] in s.pool.wrote;
      var s1 := BufferStep(s, log[0], js[0]);
      assert s1.pool.wrote[i + 1] == s.pool.wrote[i] && s1.data[s.pool.wrote[i]] == s.data[s.pool.wrote[i]];
      SlotsStay(s1, log[1..], js[1..], i + 1);
    }
  }

  lemma {:induction false} WritesOccupy(s: State, log: seq<Record>, js: seq<nat>, i: nat)
    requires Choices(s, log, js) && |log| <= |s.pool.empty| && BufferOk(s) && i < |log|
    ensures InOwnSlot(BufferAll(s, log, js), log, i)
    decreases |log|
  {
    var s1, rest := BufferStep(s, log[0], js[0]), log[1..];
    BufferStepFills(s, log[0], js[0]);
    BufferAllLeaves(s, log, js);
    if i == 0 {
      SlotsStay(s1, rest, js[1..], 0);
    } else {
      WritesOccupy(s1, rest, js[1..], i - 1);
      assert InOwnSlot(BufferAll(s1, rest, js[1..]), rest, i - 1);
    }
  }

  lemma {:induction false} ReplayInto(s: State, log: seq<Record>, js: seq<nat>, k: Key, i: nat)
    requires Choices(s, log, js) && |log| < |s.pool.empty| && BufferOk(s) && s.hash == map[] && s.pool.wrote == []
    ensures |Replay(s, log, js).pool.wrote| == |log|
    ensures Resolve(Replay(s, log, js), k) == LastOf(log, k)
    ensures i < |log| ==> InOwnSlot(Replay(s, log, js), log, i)
  {
    ReplayIsWriting(s, log, js);
    BufferAllLeaves(s, log, js);
    WritesResolve(s, log, js, k);
    if i < |log| {
      WritesOccupy(s, log, js, i);
    }
  }

  // The states differ in their memtables at most.
  ghost predicate SameBesideMemtables(s: State, s': State) {
    |s'.memtables| == |s.memtables| && s' == s.(memtables := s'.memtables)
  }

  lemma {:induction false} BufferStepBeside(s: State, s': State, record: Record, j: nat, j': nat)
    requires SameBesideMemtables(s, s') && s.pool.empty != [] && j < |s.memtables| && j' < |s.memtables|
    ensures SameBesideMemtables(BufferStep(s, record, j), BufferStep(s', record, j'))
  {
  }

  // Which memtables the records went through matters to the memtables only.
  lemma {:induction false} BufferAllBeside(s: State, s': State, log: seq<Record>, js: seq<nat>, js': seq<nat>)
    requires SameBesideMemtables(s, s') && Choices(s, log, js) && Choices(s', log, js') && |log| <= |s.pool.empty|
    ensures SameBesideMemtables(BufferAll(s, log, js), BufferAll(s', log, js'))
    decreases |log|
  {
    if log != [] {
      BufferStepBeside(s, s', log[0], js[0], js'[0]);
      BufferAllBeside(BufferStep(s, log[0], js[0]), BufferStep(s', log[0], js'[0]), log[1..], js[1..], js'[1..]);
    }
  }

  // A hot log of fewer records than the buffer has slots, replayed into an empty engine: index,
  // slots and log are those of the engine that wrote it, whichever memtables the writers and
  // the recovery got hold of (and the memtables too, if the same ones); each key leads to its
  // last record in the log, and exactly one written slot is left for each record.
  lemma {:induction false} ReplayRebuildsView(log: seq<Record>, js: seq<nat>, js': seq<nat>, k: Key, i: nat)
    requires Choices(Start().s, log, js) && Choices(Start().s, log, js') && |log| < RECORD_BUFF_SIZE
    ensures |Start().s.pool.empty| == RECORD_BUFF_SIZE && Choices(Start().s.(hot := log), log, js')
    ensures var live, back := WriteAll(Start().s, log, js), Replay(Start().s.(hot := log), log, js');
            && back.hash == live.hash && back.data == live.data
            && back.pool.wrote == live.pool.wrote && back.hot == live.hot == log
            && (js == js' ==> back.memtables == live.memtables)
            && |back.pool.wrote| == |log|
            && Resolve(back, k) == LastOf(log, k)
            && (i < |log| ==> InOwnSlot(back, log, i))
  {
    var s := Start().s;
    StartAccounted();
    RecoveredAs(s, log, js, js');
    ReplayInto(s.(hot := log), log, js', k, i);
  }

  lemma {:induction false} RecoveredAs(s: State, log: seq<Record>, js: seq<nat>, js': seq<nat>)
    requires Choices(s, log, js) && Choices(s, log, js') && |log| < |s.pool.empty| && s.hot == []
    ensures Choices(s.(hot := log), log, js')
    ensures var live, back := WriteAll(s, log, js), Replay(s.(hot := log), log, js');
            && back.hash == live.hash && back.data == live.data
            && back.pool.wrote == live.pool.wrote && back.hot == live.hot == log
            && (js == js' ==> back.memtables == live.memtables)
  {
    WriteAllLogs(s, [], log, js);
    assert s.(hot := []) == s && [] + log == log;
    ReplayIsWriting(s.(hot := log), log, js');
    BufferAllKeepsLog(s, log, log, js');
    BufferAllBeside(s, s, log, js, js');
  }

  lemma {:induction false} BufferAllKeepsLog(s: State, h: seq<Record>, log: seq<Record>, js: seq<nat>)
    requires Choices(s, log, js) && |log| <= |s.pool.empty|
    ensures Choices(s.(hot := h), log, js)
    ensures BufferAll(s.(hot := h), log, js) == BufferAll(s, log, js).(hot := h)
    decreases |log|
  {
    if log != [] {
      assert BufferStep(s.(hot := h), log[0], js[0]) == BufferStep(s, log[0], js[0]).(hot := h);
      BufferAllKeepsLog(BufferStep(s, log[0], js[0]), h, log[1..], js[1..]);
    }
  }

  // write_recover, for a record already in slot idxBuffer; memtable first, index after. False
  // stands for the hash index's assertion that it is full.
  method WriteRecover(db: DBSystem, idxBuffer: nat, gather: Record, j: nat) returns (ok: bool)
    requires db.Valid() && idxBuffer < RECORD_BUFF_SIZE && db.data[idxBuffer] == gather && j < |db.currentMemtables|
    modifies db`memViews, db`hashView, db.hashTable, db.hashTable.data, db.currentMemtables[j]
    ensures db.Valid()
    ensures ok <==> !old(Exhausted(db.hashTable.data[..], db.hashTable.hash(gather.key), gather.key))
    ensures ok ==> db.Now() == RecoverStep(old(db.Now()), gather, idxBuffer, j)
  {
    ghost var s := db.Now();
    var indexToBuffer := SlotIndex(idxBuffer);
    db.EnterKey(gather.key, indexToBuffer, j);
    ok := db.HashKey(gather.key, indexToBuffer);
    assert s.data[idxBuffer := gather] == s.data;
  }

  method RequestSlot(db: DBSystem) returns (idx: nat)
    requires db.Valid() && db.Now().pool.empty != []
    modifies db.buffer
    ensures db.Valid() && idx == NextSlot(old(db.Now()).pool) < RECORD_BUFF_SIZE
    ensures db.Now() == Requested(old(db.Now()))
  {
    Buffers.OnceIn(db.buffer.pool, RECORD_BUFF_SIZE, NextSlot(db.buffer.pool));
    assert NextSlot(db.buffer.pool) in db.buffer.pool.empty;
    var slot := db.buffer.RequestRecordBuff();
    idx := slot.value;
  }

  method ReleaseSlot(db: DBSystem, idx: nat)
    requires db.Valid()
    modifies db.buffer
    ensures db.Valid()
    ensures db.Now() == var s := old(db.Now());
                        if idx in s.pool.wrote then s.(pool := Buffers.Do(s.pool, Buffers.Release(idx))) else s
  {
    var ok := db.buffer.ReleaseBuff(idx);
  }

  // What one pass of the loop does to the state: the record read in, recovered, and the next
  // slot requested.
  method FetchRecord(db: DBSystem, idx: nat, record: Record, j: nat) returns (ok: bool, next: nat)
    requires db.Valid() && idx < RECORD_BUFF_SIZE && db.Now().pool.empty != [] && j < |db.currentMemtables|
    modifies db`memViews, db`hashView, db.buffer, db.data, db.hashTable, db.hashTable.data, db.currentMemtables[j]
    ensures db.Valid()
    ensures ok <==> !old(Exhausted(db.hashTable.data[..], db.hashTable.hash(record.key), record.key))
    ensures ok ==> next == NextSlot(old(db.Now()).pool) < RECORD_BUFF_SIZE
    ensures ok ==> db.Now() == Requested(RecoverStep(old(db.Now()), record, idx, j))
  {
    ghost var s := db.Now();
    next := 0;
    db.data[idx] := record;
    assert db.data[..] == s.data[idx := record];
    ok := WriteRecover(db, idx, record, j);
    if ok {
      next := RequestSlot(db);
    }
  }

  // From state s, with slot idx requested, the records from the i-th on are still to be read.
  ghost predicate Resumes(s0: State, s: State, idx: nat, log: seq<Record>, js: seq<nat>, i: nat) {
    && Choices(s0, log, js) && |log| < |s0.pool.empty| && i <= |log|
    && Choices(s, log[i..], js[i..]) && |log[i..]| <= |s.pool.empty|
    && RecoverLoop(s, idx, log[i..], js[i..]) == Replay(s0, log, js)
  }

  lemma {:induction false} ResumesNext(s0: State, s: State, idx: nat, log: seq<Record>, js: seq<nat>, i: nat)
    requires Resumes(s0, s, idx, log, js, i) && i < |log|
    ensures js[i] < |s.memtables| && s.pool.empty != []
    ensures Resumes(s0, Requested(RecoverStep(s, log[i], idx, js[i])), NextSlot(s.pool), log, js, i + 1)
  {
    assert js[i..][0] == js[i] && log[i..][0] == log[i];
    assert log[i..][1..] == log[i + 1..] && js[i..][1..] == js[i + 1..];
  }

  lemma {:induction false} ResumesAtEnd(s0: State, s: State, idx: nat, log: seq<Record>, js: seq<nat>)
    requires Resumes(s0, s, idx, log, js, |log|)
    ensures Replay(s0, log, js) == if idx in s.pool.wrote then s.(pool := Buffers.Do(s.pool, Buffers.Release(idx))) else s
  {
    assert log[|log|..] == [];
  }

  // A hash index of the configured size takes n more keys for sure.
  ghost predicate RoomFor(db: DBSystem, n: nat)
    reads db`hashView
  {
    db.hashTable.data.Length == HASH_TABLE_SIZE && |db.hashView| + n <= 11662
  }

  // Reads a log back into an engine with room for it; the buffer never fills on the way, nor
  // does a hash index of the configured size below 11662 keys.
  method FetchLog(db: DBSystem, log: seq<Record>, js: seq<nat>) returns (ok: bool)
    requires db.Valid() && Choices(db.Now(), log, js) && |log| < |db.Now().pool.empty|
    modifies db`memViews, db`hashView, db.buffer, db.data, db.hashTable, db.hashTable.data, db.currentMemtables
    ensures db.Valid() && (old(RoomFor(db, |log|)) ==> ok)
    ensures ok ==> db.Now() == Replay(old(db.Now()), log, js)
  {
    ghost var s0, room := db.Now(), RoomFor(db, |log|);
    var i: nat := 0;
    var idx: nat := RequestSlot(db);
    assert log[0..] == log && js[0..] == js;
    while i < |log|
      invariant i <= |log| && db.Valid() && idx < RECORD_BUFF_SIZE
      invariant Resumes(s0, db.Now(), idx, log, js, i) && (room ==> RoomFor(db, |log| - i))
    {
      ResumesNext(s0, db.Now(), idx, log, js, i);
      db.HasRoom(log[i].key);
      ok, idx := FetchRecord(db, idx, log[i], js[i]);
      if !ok {
        return;
      }
      i := i + 1;
    }
    ResumesAtEnd(s0, db.Now(), idx, log, js);
    ReleaseSlot(db, idx);
    ok := true;
  }
}
