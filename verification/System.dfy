/** The engine as a step machine: a write, the log switch with its submission, and the steps
    of the dumper thread, in any interleaving. */
module Systems {
  import opened Keys
  import opened Options
  import opened Indexes
  import opened Places
  import opened SkipLevels
  import opened Merges
  import opened SlotBags
  import Buffers

  const RECORD_BUFF_SIZE: nat := Buffers.RECORD_BUFF_SIZE
  const MEMTABLE_CO_WRITE_NUM: nat := 40
  const DUMP_QUEUE_SIZE: nat := 10

  type Value = seq<Byte>

  datatype Record = Record(key: Key, value: Value)

  const NO_RECORD := Record(0, [])

  // A table file: the keys, and the value blocks appended so far.
  datatype Table = Table(keys: seq<Key>, values: seq<Value>)

  datatype MFRecord = MFRecord(lvl: nat, file: nat, kstart: Key, kend: Key, nrecord: nat)

  // What the dumper thread is doing: waiting, writing out `kvs` with the first `done` value
  // blocks written and their slots released, or about to close a table already listed.
  datatype Dump = Idle | Writing(kvs: seq<Entry>, done: nat) | Listed

  datatype State = State(
    pool: Buffers.Pool,
    data: seq<Record>,
    hash: map<Key, Index>,
    memtables: seq<seq<Entry>>,
    queue: seq<seq<seq<Entry>>>,
    dump: Dump,
    hot: seq<Record>,
    died: Option<seq<Record>>,
    files: map<nat, Table>,
    manifest: seq<MFRecord>)

  // A state with the history its properties speak of: the records acknowledged so far, and
  // the written slots that nothing refers to any more.
  datatype World = World(s: State, acked: seq<Record>, leaked: multiset<nat>)

  // A write of a record through memtable j, whichever its thread got hold of; the log switch
  // and submission; the dumper's steps.
  datatype Step = Write(record: Record, j: nat) | Switch | StartDump | DumpOne | ListTable | EndDump

  function NoMemtables(): (r: seq<seq<Entry>>) {
    seq(MEMTABLE_CO_WRITE_NUM, _ => [])
  }

  function Start(): World {
    World(
      State(Buffers.Pool(seq(RECORD_BUFF_SIZE, i => i), []), seq(RECORD_BUFF_SIZE, _ => NO_RECORD), map[],
            NoMemtables(), [], Idle, [], None, map[], []),
      [], multiset{})
  }

  // A writer that finds this full switches the log and submits the memtables.
  predicate Due(s: State) {
    Total(s.memtables) >= RECORD_BUFF_SIZE
  }

  // The slot the next request hands out.
  function NextSlot(p: Buffers.Pool): nat
    requires p.empty != []
  {
    p.empty[|p.empty| - 1]
  }

  // When a step can be taken. A write waits for an empty slot; a switch waits for the died
  // log to be gone and for room in the dump queue; the dumper's release asserts that the
  // slot is written, and listing a table reads its first key.
  predicate Enabled(s: State, step: Step) {
    match step
    case Write(_, j) => s.pool.empty != [] && j < |s.memtables|
    case Switch => Due(s) && s.died.None? && |s.queue| < DUMP_QUEUE_SIZE
    case StartDump => s.dump.Idle? && s.queue != []
    case DumpOne =>
      s.dump.Writing? && s.dump.done < |s.dump.kvs| && ReleaseSucceeds(s, s.dump.kvs[s.dump.done]) && |s.manifest| in s.files
    case ListTable => s.dump.Writing? && s.dump.done == |s.dump.kvs| && s.dump.kvs != []
    case EndDump => s.dump.Listed?
  }

  predicate ReleaseSucceeds(s: State, e: Entry) {
    SlotOf(e.idx) in s.pool.wrote && SlotOf(e.idx) < |s.data|
  }

  function KeysIn(es: seq<Entry>): (r: seq<Key>)
    ensures |r| == |es| && forall i :: 0 <= i < |es| ==> r[i] == es[i].key
  {
    if es == [] then [] else [es[0].key] + KeysIn(es[1..])
  }

  function WriteStep(s: State, record: Record, j: nat): State
    requires s.pool.empty != [] && j < |s.memtables|
  {
    var p := NextSlot(s.pool);
    s.(hot := s.hot + [record],
       pool := Buffers.Do(s.pool, Buffers.Request),
       data := if p < |s.data| then s.data[p := record] else s.data,
       hash := s.hash[record.key := SlotIndex(p).SetInHash(true)],
       memtables := s.memtables[j := Upsert(s.memtables[j], record.key, SlotIndex(p), 0)])
  }

  function SwitchStep(s: State): State {
    s.(died := Some(s.hot), hot := [], memtables := NoMemtables(), queue := s.queue + [s.memtables])
  }

  function StartDumpStep(s: State): State
    requires s.queue != []
  {
    var kvs := Untag(KMerge(s.queue[0]));
    s.(queue := s.queue[1..], dump := Writing(kvs, 0), files := s.files[|s.manifest| := Table(KeysIn(kvs), [])])
  }

  function DumpOneStep(s: State): State
    requires Enabled(s, DumpOne)
  {
    var i, e, t := s.dump.done, s.dump.kvs[s.dump.done], |s.manifest|;
    var value := s.data[SlotOf(e.idx)].value;
    s.(files := s.files[t := Table(s.files[t].keys, s.files[t].values + [value])],
       pool := Buffers.Do(s.pool, Buffers.Release(SlotOf(e.idx))),
       hash := s.hash[e.key := RankIndex(t, i).SetInHash(true)],
       dump := Writing(s.dump.kvs, i + 1))
  }

  function ListTableStep(s: State): State
    requires Enabled(s, ListTable)
  {
    var kvs := s.dump.kvs;
    s.(manifest := s.manifest + [MFRecord(0, |s.manifest|, kvs[0].key, kvs[|kvs| - 1].key, |kvs|)], dump := Listed)
  }

  function EndDumpStep(s: State): State {
    s.(died := None, dump := Idle)
  }

  function Next(w: World, step: Step): World
    requires Enabled(w.s, step)
  {
    match step
    case Write(record, j) =>
      World(WriteStep(w.s, record, j), w.acked + [record], w.leaked + Slots(Displaced(w.s.memtables[j], record.key)))
    case Switch => w.(s := SwitchStep(w.s))
    case StartDump => World(StartDumpStep(w.s), w.acked, w.leaked + Slots(Flat(Left(w.s.queue[0]))))
    case DumpOne => w.(s := DumpOneStep(w.s))
    case ListTable => w.(s := ListTableStep(w.s))
    case EndDump => w.(s := EndDumpStep(w.s))
  }

  predicate CanTake(w: World, steps: seq<Step>)
    decreases steps
  {
    steps == [] || (Enabled(w.s, steps[0]) && CanTake(Next(w, steps[0]), steps[1..]))
  }

  function After(w: World, steps: seq<Step>): World
    requires CanTake(w, steps)
    decreases steps
  {
    if steps == [] then w else After(Next(w, steps[0]), steps[1..])
  }
}
