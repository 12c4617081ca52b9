/** The engine's code over the objects it owns; each method is a run of the step machine. */
module Engines {
  import opened Counting
  import opened Keys
  import opened Options
  import opened Indexes
  import opened Places
  import opened SkipLevels
  import opened SkipLists
  import opened Merges
  import opened SlotBags
  import opened Systems
  import opened Accounting
  import opened Resolution
  import opened WriteOnce
  import opened Rounds
  import HashIndexes
  import Buffers

  ghost predicate MemtableAt(lists: seq<SkipList>, views: seq<seq<Entry>>, j: nat)
    requires j < |lists| == |views|
    reads lists
  {
    lists[j].Valid() && lists[j].id == 0 && lists[j].Entries() == views[j]
  }

  // Lists of their own, ready for updates, that hold these entries.
  ghost predicate Memtables(lists: seq<SkipList>, views: seq<seq<Entry>>)
    reads lists
  {
    |lists| == |views| && Distinct(lists) && forall j :: 0 <= j < |lists| ==> MemtableAt(lists, views, j)
  }

  ghost predicate AllIn(batch: seq<SkipList>, owned: set<SkipList>) {
    forall l :: l in batch ==> l in owned
  }

  ghost predicate BatchAt(queue: seq<seq<SkipList>>, views: seq<seq<seq<Entry>>>, owned: set<SkipList>, i: nat)
    requires i < |queue| == |views|
    reads owned
  {
    AllIn(queue[i], owned) && Distinct(queue[i]) && Hold(queue[i], views[i])
  }

  ghost predicate BatchesApart(queue: seq<seq<SkipList>>, i: nat, j: nat)
    requires i < j < |queue|
  {
    forall l :: l in queue[i] ==> l !in queue[j]
  }

  // The batches waiting hold these entries, each in lists of its own.
  ghost predicate Batches(queue: seq<seq<SkipList>>, views: seq<seq<seq<Entry>>>, owned: set<SkipList>)
    reads owned
  {
    && |queue| == |views|
    && (forall i :: 0 <= i < |queue| ==> BatchAt(queue, views, owned, i))
    && forall i, j :: 0 <= i < j < |queue| ==> BatchesApart(queue, i, j)
  }

  // As many new lists as a set of memtables has.
  method NewMemtables() returns (lists: seq<SkipList>)
    ensures Memtables(lists, NoMemtables()) && forall l :: l in lists ==> fresh(l)
  {
    lists := [];
    ghost var views: seq<seq<Entry>> := [];
    while |lists| < MEMTABLE_CO_WRITE_NUM
      invariant |lists| <= MEMTABLE_CO_WRITE_NUM && views == seq(|lists|, _ => [])
      invariant Memtables(lists, views) && forall l :: l in lists ==> fresh(l)
      decreases MEMTABLE_CO_WRITE_NUM - |lists|
    {
      var list := new SkipList(0);
      MoreMemtables(lists, views, list);
      lists, views := lists + [list], views + [[]];
    }
  }

  lemma {:induction false} MoreMemtables(lists: seq<SkipList>, views: seq<seq<Entry>>, list: SkipList)
    requires Memtables(lists, views) && list !in lists && list.Valid() && list.id == 0
    ensures Memtables(lists + [list], views + [list.Entries()])
  {
    var lists', views' := lists + [list], views + [list.Entries()];
    forall i, j | 0 <= i < j < |lists'| ensures Differ(lists', i, j) {
      assert j < |lists| ==> Differ(lists, i, j);
    }
    forall j | 0 <= j < |lists'| ensures MemtableAt(lists', views', j) {
      assert j < |lists| ==> MemtableAt(lists, views, j);
    }
  }

  // Updates one memtable; the others stay as they are.
  method UpdateOne(lists: seq<SkipList>, ghost views: seq<seq<Entry>>, j: nat, key: Key, index: Index)
    requires Memtables(lists, views) && j < |lists|
    modifies lists[j]
    ensures Memtables(lists, views[j := Upsert(views[j], key, index, 0)])
  {
    assert MemtableAt(lists, views, j);
    var node := lists[j].Update(key, index);
    ghost var views' := views[j := Upsert(views[j], key, index, 0)];
    forall i | 0 <= i < |lists| ensures MemtableAt(lists, views', i) {
      assert old(MemtableAt(lists, views, i));
      assert i < j ==> Differ(lists, i, j);
      assert j < i ==> Differ(lists, j, i);
    }
  }

  // Sums the entry counts of the lists.
  method TotalItems(lists: seq<SkipList>, ghost views: seq<seq<Entry>>) returns (ret: int)
    requires Memtables(lists, views)
    ensures ret == Total(views)
  {
    ret := 0;
    var i := 0;
    assert views[0..] == views;
    while i < |lists|
      invariant 0 <= i <= |lists| && ret + Total(views[i..]) == Total(views)
    {
      assert MemtableAt(lists, views, i) && views[i..][1..] == views[i + 1..];
      var cnt := lists[i].CntNs();
      ret, i := ret + cnt, i + 1;
    }
  }

  // Memtables can be drained.
  lemma {:induction false} MemtablesHold(lists: seq<SkipList>, views: seq<seq<Entry>>)
    requires Memtables(lists, views)
    ensures Distinct(lists) && Hold(lists, views)
  {
    forall j | 0 <= j < |lists| ensures HoldsAt(lists, views, j) {
      assert MemtableAt(lists, views, j);
      lists[j].ValidIsDrainable();
    }
  }

  ghost function Added(owned: set<SkipList>, batch: seq<SkipList>): set<SkipList> {
    owned + set l | l in batch
  }

  // A new batch joins the queue.
  lemma {:induction false} MoreBatches(queue: seq<seq<SkipList>>, views: seq<seq<seq<Entry>>>, owned: set<SkipList>,
                                       batch: seq<SkipList>, held: seq<seq<Entry>>)
    requires Batches(queue, views, owned) && Distinct(batch) && Hold(batch, held)
    requires forall l :: l in batch ==> l !in owned
    ensures Batches(queue + [batch], views + [held], Added(owned, batch))
  {
    var queue', views', owned' := queue + [batch], views + [held], Added(owned, batch);
    forall i | 0 <= i < |queue'| ensures BatchAt(queue', views', owned', i) {
      assert i < |queue| ==> BatchAt(queue, views, owned, i);
    }
    forall i, j | 0 <= i < j < |queue'| ensures BatchesApart(queue', i, j) {
      if j < |queue| {
        assert BatchesApart(queue, i, j);
      } else {
        assert BatchAt(queue, views, owned, i);
      }
    }
  }

  ghost function Removed(owned: set<SkipList>, batch: seq<SkipList>): set<SkipList> {
    set l | l in owned && l !in batch
  }

  // The first batch leaves the queue, with its lists.
  lemma {:induction false} FirstBatch(queue: seq<seq<SkipList>>, views: seq<seq<seq<Entry>>>, owned: set<SkipList>)
    requires Batches(queue, views, owned) && queue != []
    ensures AllIn(queue[0], owned) && Distinct(queue[0]) && Hold(queue[0], views[0])
    ensures Batches(queue[1..], views[1..], Removed(owned, queue[0]))
  {
    var rest, owned' := queue[1..], Removed(owned, queue[0]);
    assert BatchAt(queue, views, owned, 0);
    forall i | 0 <= i < |rest| ensures BatchAt(rest, views[1..], owned', i) {
      assert BatchAt(queue, views, owned, i + 1) && BatchesApart(queue, 0, i + 1);
    }
    forall i, j | 0 <= i < j < |rest| ensures BatchesApart(rest, i, j) {
      assert BatchesApart(queue, i + 1, j + 1);
    }
  }

  ghost predicate NoneIn(batch: seq<SkipList>, lists: seq<SkipList>, owned: set<SkipList>) {
    forall l :: l in batch ==> l !in lists && l !in owned
  }

  // Drains one batch; memtables and other batches stay as they are.
  method Drain(batch: seq<SkipList>, ghost held: seq<seq<Entry>>, ghost lists: seq<SkipList>, ghost views: seq<seq<Entry>>,
               ghost queue: seq<seq<SkipList>>, ghost queueViews: seq<seq<seq<Entry>>>, ghost owned: set<SkipList>)
    returns (kvs: seq<Entry>)
    requires Distinct(batch) && Hold(batch, held) && NoneIn(batch, lists, owned)
    requires Memtables(lists, views) && Batches(queue, queueViews, owned)
    modifies batch
    ensures kvs == Untag(KMerge(held)) && Memtables(lists, views) && Batches(queue, queueViews, owned)
  {
    kvs := BuffersDumper(batch, held);
    forall j | 0 <= j < |lists| ensures MemtableAt(lists, views, j) {
      assert lists[j] in lists && old(MemtableAt(lists, views, j));
    }
  }

  // The keys that head a table file.
  method DumpingKeys(kvs: seq<Entry>) returns (keys: seq<Key>)
    ensures keys == KeysIn(kvs)
  {
    keys := [];
    for i := 0 to |kvs|
      invariant |keys| == i && forall j :: 0 <= j < i ==> keys[j] == kvs[j].key
    {
      keys := keys + [kvs[i].key];
    }
  }

  // The part of a write that comes before the hash index is asked.
  function LogStep(s: State, record: Record): State
    requires s.pool.empty != []
  {
    var p := NextSlot(s.pool);
    s.(hot := s.hot + [record],
       pool := Buffers.Do(s.pool, Buffers.Request),
       data := if p < |s.data| then s.data[p := record] else s.data)
  }

  // The slots of these entries are empty.
  ghost predicate AllEmptied(kvs: seq<Entry>, empty: seq<nat>) {
    forall e :: e in kvs ==> SlotOf(e.idx) in empty
  }

  lemma {:induction false} RoundFreesAll(w: World, n: nat)
    requires Accounted(w) && Enabled(w.s, StartDump) && n == |KMerge(w.s.queue[0])| > 0
    ensures CanTake(w, Round(n))
    ensures var w' := After(w, Round(n));
            && AllEmptied(Untag(KMerge(w.s.queue[0])), w'.s.pool.empty)
            && multiset(w'.s.pool.wrote) == Slots(Flat(w'.s.memtables)) + w'.leaked
  {
    RoundEnds(w, n);
    IdleAccounts(After(w, Round(n)));
    forall e | e in Untag(KMerge(w.s.queue[0])) ensures SlotOf(e.idx) in After(w, Round(n)).s.pool.empty {
      RoundFrees(w, n, e);
    }
  }

  // Whatever is to be dumped has its key in the hash index.
  lemma {:induction false} BatchHashed(w: World)
    requires Accounted(w) && Traceable(w) && Enabled(w.s, StartDump)
    ensures KeysHashed(w.s.hash, Untag(KMerge(w.s.queue[0])))
  {
    MergeSharesSlots(w.s.queue[0]);
    forall e | e in Untag(KMerge(w.s.queue[0])) ensures e.key in w.s.hash {
      assert e in Pending(w.s);
      EntryAcked(w, e);
    }
  }

  // Every entry's key is in the index.
  ghost predicate KeysHashed(hash: map<Key, Index>, kvs: seq<Entry>) {
    forall e :: e in kvs ==> e.key in hash
  }

  lemma {:induction false} DumpOneParts(s: State, s1: State, s2: State, s3: State, kvs: seq<Entry>, i: nat, idx: nat, t: nat, x: Index)
    requires Enabled(s, DumpOne) && WritingAt(s.dump, kvs, i) && idx == SlotOf(kvs[i].idx) && t == |s.manifest| && x == RankIndex(t, i)
    requires s1 == s.(files := s.files[t := Table(s.files[t].keys, s.files[t].values + [s.data[idx].value])],
                      pool := Buffers.Do(s.pool, Buffers.Release(idx)))
    requires s2 == s1.(hash := s1.hash[kvs[i].key := x.SetInHash(true)])
    requires s3 == s2.(dump := Writing(kvs, i + 1))
    ensures s3 == DumpOneStep(s)
  {
  }

  class DBSystem {
    const buffer: Buffers.Buffer
    const data: array<Record>
    const hashTable: HashIndexes.IndexHashMap
    var currentMemtables: seq<SkipList>
    var waitForDump: seq<seq<SkipList>>
    var hotLog: seq<Record>
    var diedLog: Option<seq<Record>>
    var sstFiles: map<nat, Table>
    var manifest: seq<MFRecord>
    ghost var hashView: map<Key, Index>
    ghost var memViews: seq<seq<Entry>>
    ghost var queueViews: seq<seq<seq<Entry>>>
    ghost var queued: set<SkipList>
    ghost var dump: Dump

    // The objects hold what the views say: the hash index, each current memtable, and each
    // list waiting to be dumped.
    ghost predicate Valid()
      reads this`hashView, this`currentMemtables, this`memViews, this`waitForDump, this`queueViews, this`queued
      reads buffer, hashTable, hashTable.data, currentMemtables, queued
    {
      && buffer.Valid() && data.Length == RECORD_BUFF_SIZE
      && hashTable.Valid() && hashTable.View() == hashView
      && Memtables(currentMemtables, memViews)
      && Batches(waitForDump, queueViews, queued)
      && forall l :: l in currentMemtables ==> l !in queued
    }

    ghost function Now(): State
      reads this, buffer, data
    {
      State(buffer.pool, data[..], hashView, memViews, queueViews, dump, hotLog, diedLog, sstFiles, manifest)
    }

    constructor (hash: Key -> nat, size: nat)
      requires size > 0 && forall k: Key :: hash(k) < size
      ensures Valid() && Now() == Start().s
      ensures hashTable.hash == hash && hashTable.data.Length == size
      ensures fresh(buffer) && fresh(data) && fresh(hashTable) && fresh(hashTable.data)
      ensures forall l :: l in currentMemtables ==> fresh(l)
    {
      buffer := new Buffers.Buffer();
      data := new Record[RECORD_BUFF_SIZE](_ => NO_RECORD);
      hashTable := new HashIndexes.IndexHashMap(hash, size);
      var lists := NewMemtables();
      currentMemtables, waitForDump := lists, [];
      hotLog, diedLog, sstFiles, manifest := [], None, map[], [];
      hashView, memViews, queueViews, queued, dump := map[], NoMemtables(), [], {}, Idle;
      new;
      assert data[..] == Start().s.data;
    }

    // Logs the record and puts it into a slot of the buffer.
    method BufferRecord(gather: Record) returns (idxBuffer: nat)
      requires Valid() && buffer.pool.empty != []
      modifies this`hotLog, buffer, data
      ensures Valid() && idxBuffer == NextSlot(old(buffer.pool)) < RECORD_BUFF_SIZE
      ensures Now() == LogStep(old(Now()), gather)
    {
      ghost var s := Now();
      hotLog := hotLog + [gather];
      Buffers.OnceIn(buffer.pool, RECORD_BUFF_SIZE, NextSlot(buffer.pool));
      assert NextSlot(buffer.pool) in buffer.pool.empty;
      var slot := buffer.RequestRecordBuff();
      idxBuffer := slot.value;
      data[idxBuffer] := gather;
      assert data[..] == s.data[idxBuffer := gather];
    }

    // Stores an index under a key; false stands for the assertion that the table is full.
    method HashKey(key: Key, index: Index) returns (ok: bool)
      requires Valid()
      modifies this`hashView, hashTable, hashTable.data
      ensures Valid() && (ok <==> !old(HashIndexes.Exhausted(hashTable.data[..], hashTable.hash(key), key)))
      ensures Now() == if ok then old(Now()).(hash := old(hashView)[key := index.SetInHash(true)]) else old(Now())
    {
      var searchCnt := hashTable.Update(key, index);
      ok := searchCnt.Some?;
      hashView := hashTable.View();
    }

    // Enters an index in memtable j.
    method EnterKey(key: Key, index: Index, j: nat)
      requires Valid() && j < |currentMemtables|
      modifies this`memViews, currentMemtables[j]
      ensures Valid()
      ensures Now() == old(Now()).(memtables := old(memViews)[j := Upsert(old(memViews)[j], key, index, 0)])
    {
      UpdateOne(currentMemtables, memViews, j, key, index);
      memViews := memViews[j := Upsert(memViews[j], key, index, 0)];
    }

    // The part of a write after its key has been packed.
    method WriteRecord(key: Key, value: Value, j: nat) returns (ok: bool, full: bool)
      requires Valid() && Enabled(Now(), Systems.Write(Record(key, value), j))
      modifies this, buffer, data, hashTable, hashTable.data, currentMemtables[j]
      ensures Valid() && (ok <==> !old(HashIndexes.Exhausted(hashTable.data[..], hashTable.hash(key), key)))
      ensures hashTable.data.Length == HashIndexes.HASH_TABLE_SIZE && |old(hashView)| < 11662 ==> ok
      ensures ok ==> Now() == WriteStep(old(Now()), Record(key, value), j) && (full <==> Due(Now()))
      ensures !ok ==> Now() == LogStep(old(Now()), Record(key, value))
    {
      HasRoom(key);
      full := false;
      var idxBuffer := BufferRecord(Record(key, value));
      var indexToBuffer := SlotIndex(idxBuffer);
      ok := HashKey(key, indexToBuffer);
      if ok {
        EnterKey(key, indexToBuffer, j);
        var total := TotalItems(currentMemtables, memViews);
        full := total >= RECORD_BUFF_SIZE;
      }
    }

    // A write by a thread that got hold of memtable j: whether the hash index took the key
    // (the source aborts if not, the record logged and in its slot), and whether a switch is due.
    // The key is the packing of the first eight chars.
    method Write(chars: seq<Byte>, value: Value, j: nat) returns (ok: bool, full: bool)
      requires |chars| >= KEY_LEN
      requires Valid() && Enabled(Now(), Systems.Write(Record(KeyOf(chars[..KEY_LEN]), value), j))
      modifies this, buffer, data, hashTable, hashTable.data, currentMemtables[j]
      ensures Valid()
      ensures hashTable.data.Length == HashIndexes.HASH_TABLE_SIZE && |old(hashView)| < 11662 ==> ok
      ensures var key := KeyOf(chars[..KEY_LEN]);
              && (ok <==> !old(HashIndexes.Exhausted(hashTable.data[..], hashTable.hash(key), key)))
              && (ok ==> Now() == WriteStep(old(Now()), Record(key, value), j) && (full <==> Due(Now())))
              && (!ok ==> Now() == LogStep(old(Now()), Record(key, value)))
    {
      var key := GetKey(chars[..KEY_LEN]);
      ok, full := WriteRecord(key, value, j);
    }

    // Read follows the index into the buffer, wherever the index says the value is; None
    // where the source follows a null pointer.
    method Read(chars: seq<Byte>) returns (value: Option<Value>)
      requires Valid() && |chars| >= KEY_LEN
      ensures var key := KeyOf(chars[..KEY_LEN]);
              && (value.Some? <==> key in hashView && SlotOf(hashView[key]) < data.Length)
              && (value.Some? ==> value.value == data[SlotOf(hashView[key])].value)
              && (value.Some? && PlaceOf(hashView[key]).InSlot? ==>
                   Resolve(Now(), key).Some? && Resolve(Now(), key).value.value == value.value)
    {
      value := None;
      var key := GetKey(chars[..KEY_LEN]);
      var found := hashTable.Get(key);
      if found.Some? {
        var idx := SlotOf(found.value);
        if idx < data.Length {
          value := Some(data[idx].value);
        }
      }
    }

    // The dumper's place in its program.
    ghost method Advance(d: Dump)
      requires Valid()
      modifies this`dump
      ensures Valid() && Now() == old(Now()).(dump := d)
    {
      dump := d;
    }

    // Opens the next table's file and writes its keys.
    method OpenTable(keys: seq<Key>)
      requires Valid()
      modifies this`sstFiles
      ensures Valid() && Now() == old(Now()).(files := old(sstFiles)[|manifest| := Table(keys, [])])
    {
      sstFiles := sstFiles[|manifest| := Table(keys, [])];
    }

    // Puts the current memtables into the dump queue, and new ones in their place.
    method SubmitDump()
      requires Valid()
      modifies this`currentMemtables, this`memViews, this`waitForDump, this`queueViews, this`queued
      ensures Valid() && forall l :: l in currentMemtables ==> fresh(l)
      ensures Now() == old(Now()).(queue := old(queueViews) + [old(memViews)], memtables := NoMemtables())
    {
      var lists := NewMemtables();
      MemtablesHold(currentMemtables, memViews);
      MoreBatches(waitForDump, queueViews, queued, currentMemtables, memViews);
      queued, queueViews := Added(queued, currentMemtables), queueViews + [memViews];
      waitForDump := waitForDump + [currentMemtables];
      currentMemtables, memViews := lists, NoMemtables();
    }

    // The log switch and the submission of the current memtables.
    method SwitchAndSubmit()
      requires Valid() && Enabled(Now(), Switch)
      modifies this
      ensures Valid() && Now() == SwitchStep(old(Now()))
      ensures forall l :: l in currentMemtables ==> fresh(l)
    {
      diedLog, hotLog := Some(hotLog), [];
      SubmitDump();
    }

    // Pops a batch and drains it.
    method DrainFirst() returns (kvs: seq<Entry>)
      requires Valid() && waitForDump != []
      modifies this`waitForDump, this`queueViews, this`queued, waitForDump[0]
      ensures Valid() && kvs == Untag(KMerge(old(queueViews)[0]))
      ensures Now() == old(Now()).(queue := old(queueViews)[1..])
    {
      FirstBatch(waitForDump, queueViews, queued);
      var batch := waitForDump[0];
      ghost var held := queueViews[0];
      queued := Removed(queued, batch);
      waitForDump, queueViews := waitForDump[1..], queueViews[1..];
      kvs := Drain(batch, held, currentMemtables, memViews, waitForDump, queueViews, queued);
    }

    // Drains the first batch and opens its table with the keys.
    method StartDumping() returns (kvs: seq<Entry>)
      requires Valid() && Enabled(Now(), StartDump)
      modifies this, waitForDump[0]
      ensures Valid() && Now() == StartDumpStep(old(Now())) && WritingAt(dump, kvs, 0)
      ensures kvs == Untag(KMerge(old(queueViews)[0])) && currentMemtables == old(currentMemtables)
    {
      kvs := DrainFirst();
      var keys := DumpingKeys(kvs);
      OpenTable(keys);
      Advance(Writing(kvs, 0));
    }

    // Appends a value block to the table being written and releases its slot.
    method AppendAndRelease(idx: nat, t: nat) returns (ok: bool)
      requires Valid() && idx in buffer.pool.wrote && idx < data.Length && t in sstFiles
      modifies this`sstFiles, buffer
      ensures Valid() && ok
      ensures Now() == var s := old(Now());
                       s.(files := s.files[t := Table(s.files[t].keys, s.files[t].values + [s.data[idx].value])],
                          pool := Buffers.Do(s.pool, Buffers.Release(idx)))
    {
      sstFiles := sstFiles[t := Table(sstFiles[t].keys, sstFiles[t].values + [data[idx].value])];
      ok := buffer.ReleaseBuff(idx);
    }

    // Writes out the value of rank i and re-points its key, which the hash index holds already.
    method DumpRecord(kvs: seq<Entry>, i: nat)
      requires Valid() && Enabled(Now(), DumpOne) && WritingAt(dump, kvs, i) && KeysHashed(hashView, kvs)
      modifies this`sstFiles, this`hashView, this`dump, buffer, hashTable, hashTable.data
      ensures Valid() && Now() == DumpOneStep(old(Now())) && KeysHashed(hashView, kvs)
    {
      ghost var s := Now();
      assert kvs[i] in kvs;
      StoredHasRoom(kvs[i].key);
      var idx, t := SlotOf(kvs[i].idx), |manifest|;
      var index := RankIndex(t, i);
      var released := AppendAndRelease(idx, t);
      ghost var s1 := Now();
      var stored := HashKey(kvs[i].key, index);
      ghost var s2 := Now();
      Advance(Writing(kvs, i + 1));
      DumpOneParts(s, s1, s2, Now(), kvs, i, idx, t, index);
    }

    lemma {:induction false} HasRoom(key: Key)
      requires Valid()
      ensures hashTable.data.Length == HashIndexes.HASH_TABLE_SIZE && |hashView| < 11662 ==>
        !HashIndexes.Exhausted(hashTable.data[..], hashTable.hash(key), key)
    {
      HashIndexes.ViewKeys(hashTable.data[..], hashTable.hash, hashTable.depth);
      if hashTable.data.Length == HashIndexes.HASH_TABLE_SIZE && |hashView| < 11662 {
        HashIndexes.ConfiguredRoom(hashTable.data[..], hashTable.hash, hashTable.depth, key);
      }
    }

    lemma {:induction false} StoredHasRoom(key: Key)
      requires Valid() && key in hashView
      ensures !HashIndexes.Exhausted(hashTable.data[..], hashTable.hash(key), key)
    {
      assert key in hashTable.View();
      HashIndexes.StoredNotExhausted(hashTable.data[..], hashTable.hash, hashTable.depth, key);
    }

    // Lists the table in the manifest.
    method InsertRecord(kvs: seq<Entry>)
      requires Valid() && Enabled(Now(), ListTable) && WritingAt(dump, kvs, |kvs|)
      modifies this`manifest, this`dump
      ensures Valid() && Now() == ListTableStep(old(Now()))
    {
      manifest := manifest + [MFRecord(0, |manifest|, kvs[0].key, kvs[|kvs| - 1].key, |kvs|)];
      dump := Listed;
    }

    // Closes the table and removes the died log.
    method EndDumping()
      requires Valid() && Enabled(Now(), EndDump)
      modifies this`diedLog, this`dump
      ensures Valid() && Now() == EndDumpStep(old(Now()))
    {
      diedLog, dump := None, Idle;
    }

    method DumpNext(kvs: seq<Entry>, i: nat, ghost w: World, ghost w': World) returns (ghost w'': World)
      requires Valid() && Dumped(w, w', i) && w'.s == Now() && WritingAt(dump, kvs, i) && i < |kvs| && KeysHashed(hashView, kvs)
      modifies this`sstFiles, this`hashView, this`dump, buffer, hashTable, hashTable.data
      ensures Valid() && Dumped(w, w'', i + 1) && w''.s == Now() && WritingAt(dump, kvs, i + 1) && KeysHashed(hashView, kvs)
    {
      w'' := DumpOneMore(w, w', i, i + 1);
      DumpRecord(kvs, i);
    }

    // Writes out the whole batch, value block by value block.
    method DumpRecords(kvs: seq<Entry>, ghost w: World) returns (ghost w': World)
      requires Valid() && Accounted(w) && w.s == Now() && WritingAt(dump, kvs, 0) && KeysHashed(hashView, kvs)
      modifies this`sstFiles, this`hashView, this`dump, buffer, hashTable, hashTable.data
      ensures Valid() && Dumped(w, w', |kvs|)
      ensures w'.s == Now() && WritingAt(dump, kvs, |kvs|)
    {
      w' := w;
      var i := 0;
      DumpedNone(w);
      while i < |kvs|
        invariant i <= |kvs| && Valid() && WritingAt(dump, kvs, i) && KeysHashed(hashView, kvs)
        invariant Dumped(w, w', i) && w'.s == Now()
      {
        w' := DumpNext(kvs, i, w, w');
        i := i + 1;
      }
    }

    // The dumper's round over the first batch waiting, undisturbed, in any reachable state: a run
    // of the machine, after which each slot of an entry written out is empty again, and the
    // written slots are those of the current memtables and the leaked ones. With nothing to
    // write it would read the first key of an empty table: some key must be below the sentinel.
    method DumpBatch(ghost w: World) returns (n: nat)
      requires Valid() && Accounted(w) && Traceable(w) && w.s == Now()
      requires Enabled(Now(), StartDump) && KMerge(Now().queue[0]) != []
      modifies this, buffer, hashTable, hashTable.data, waitForDump[0]
      ensures Valid() && n == |KMerge(w.s.queue[0])|
      ensures CanTake(w, Round(n)) && Now() == After(w, Round(n)).s
      ensures AllEmptied(Untag(KMerge(w.s.queue[0])), buffer.pool.empty)
      ensures multiset(buffer.pool.wrote) == Slots(Flat(memViews)) + After(w, Round(n)).leaked
    {
      BatchHashed(w);
      StepAccounted(w, StartDump);
      var kvs := StartDumping();
      n := |kvs|;
      ghost var w' := DumpRecords(kvs, Next(w, StartDump));
      ListTableAccounted(w');
      InsertRecord(kvs);
      EndDumping();
      RoundJoins(w, w', n);
      RoundFreesAll(w, n);
    }
  }
}
