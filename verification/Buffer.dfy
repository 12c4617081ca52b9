/** The record-slot allocator: a FIFO of empty slots, the written slots in a list, and a map
    from each written slot to its own cell of that list. */
module Buffers {
  import opened Counting
  import opened Options

  const RECORD_BUFF_SIZE: nat := 1024

  ghost predicate IsSlot(n: nat, size: nat) {
    n < size
  }

  ghost function Slots(size: nat): set<nat> {
    set n: nat | n < size && IsSlot(n, size)
  }

  // The two lists of slots, front first.
  datatype Pool = Pool(empty: seq<nat>, wrote: seq<nat>)

  // The empty and the written slots together are each number below `size` exactly once.
  ghost predicate PoolOk(p: Pool, size: nat) {
    multiset(p.empty) + multiset(p.wrote) == multiset(Slots(size))
  }

  function Removed(s: seq<nat>, x: nat): seq<nat> {
    if s == [] then [] else if s[0] == x then s[1..] else [s[0]] + Removed(s[1..], x)
  }

  lemma {:induction false} RemovedBag(s: seq<nat>, x: nat)
    requires x in s
    ensures multiset(s) == multiset(Removed(s, x)) + multiset{x}
  {
    assert s == [s[0]] + s[1..];
    if s[0] != x {
      RemovedBag(s[1..], x);
    }
  }

  datatype Op = Request | Release(id: nat)

  // A request waits while no slot is empty; a release aborts unless its slot is written.
  predicate Enabled(p: Pool, op: Op) {
    match op
    case Request => p.empty != []
    case Release(id) => id in p.wrote
  }

  function Do(p: Pool, op: Op): Pool
    requires Enabled(p, op)
  {
    match op
    case Request => Pool(p.empty[..|p.empty| - 1], [p.empty[|p.empty| - 1]] + p.wrote)
    case Release(id) => Pool([id] + p.empty, Removed(p.wrote, id))
  }

  predicate CanRun(p: Pool, ops: seq<Op>)
    decreases ops
  {
    ops == [] || (Enabled(p, ops[0]) && CanRun(Do(p, ops[0]), ops[1..]))
  }

  function Run(p: Pool, ops: seq<Op>): Pool
    requires CanRun(p, ops)
    decreases ops
  {
    if ops == [] then p else Run(Do(p, ops[0]), ops[1..])
  }

  // The slots a run hands out, in order.
  function Handed(p: Pool, ops: seq<Op>): seq<nat>
    requires CanRun(p, ops)
    decreases ops
  {
    if ops == [] then []
    else (if ops[0].Request? then [p.empty[|p.empty| - 1]] else []) + Handed(Do(p, ops[0]), ops[1..])
  }

  // The slots a run gives back, in order.
  function Returned(ops: seq<Op>): seq<nat> {
    if ops == [] then [] else (if ops[0].Release? then [ops[0].id] else []) + Returned(ops[1..])
  }

  function Reversed(s: seq<nat>): (r: seq<nat>)
    ensures |r| == |s| && forall i :: 0 <= i < |s| ==> r[i] == s[|s| - 1 - i]
  {
    if s == [] then [] else Reversed(s[1..]) + [s[0]]
  }

  lemma {:induction false} DoKeepsPool(p: Pool, op: Op, size: nat)
    requires PoolOk(p, size) && Enabled(p, op)
    ensures PoolOk(Do(p, op), size)
    ensures multiset(Do(p, op).wrote) ==
      if op.Request? then multiset(p.wrote) + multiset{p.empty[|p.empty| - 1]} else multiset(p.wrote) - multiset{op.id}
  {
    if op.Request? {
      assert p.empty == p.empty[..|p.empty| - 1] + [p.empty[|p.empty| - 1]];
    } else {
      RemovedBag(p.wrote, op.id);
    }
  }

  // Whatever the interleaving, the two lists stay a permutation of all slots.
  lemma {:induction false} RunKeepsPool(p: Pool, ops: seq<Op>, size: nat)
    requires PoolOk(p, size) && CanRun(p, ops)
    ensures PoolOk(Run(p, ops), size)
    decreases ops
  {
    if ops != [] {
      DoKeepsPool(p, ops[0], size);
      RunKeepsPool(Do(p, ops[0]), ops[1..], size);
    }
  }

  // The empty slots are a queue: over any run, what was handed out followed by what is
  // still empty is what was empty followed by what was given back.
  lemma {:induction false} FirstInFirstOut(p: Pool, ops: seq<Op>)
    requires CanRun(p, ops)
    ensures Handed(p, ops) + Reversed(Run(p, ops).empty) == Reversed(p.empty) + Returned(ops)
    decreases ops
  {
    if ops != [] {
      var p', rest := Do(p, ops[0]), ops[1..];
      FirstInFirstOut(p', rest);
      if ops[0].Request? {
        var next := [p.empty[|p.empty| - 1]];
        assert Reversed(p.empty) == next + Reversed(p'.empty);
        JoinAssoc(next, Handed(p', rest), Reversed(Run(p', rest).empty));
        JoinAssoc(next, Reversed(p'.empty), Returned(rest));
      } else {
        assert Reversed(p'.empty) == Reversed(p.empty) + [ops[0].id];
        assert [] + Handed(p', rest) == Handed(p', rest);
        JoinAssoc(Reversed(p.empty), [ops[0].id], Returned(rest));
      }
    }
  }

  lemma {:induction false} OnceIn(p: Pool, size: nat, id: nat)
    requires PoolOk(p, size)
    ensures multiset(p.empty)[id] + multiset(p.wrote)[id] == if id < size then 1 else 0
  {
    assert (multiset(p.empty) + multiset(p.wrote))[id] == multiset(Slots(size))[id];
  }

  // A released slot is handed out again only after every slot that was empty at its release.
  lemma {:induction false} ReleasedComesLast(p: Pool, size: nat, id: nat, ops: seq<Op>, k: nat)
    requires PoolOk(p, size) && Enabled(p, Release(id)) && CanRun(Do(p, Release(id)), ops)
    requires k < |Handed(Do(p, Release(id)), ops)| && Handed(Do(p, Release(id)), ops)[k] == id
    ensures |p.empty| <= k
    ensures Handed(Do(p, Release(id)), ops)[..|p.empty|] == Reversed(p.empty)
  {
    var p' := Do(p, Release(id));
    var handed, left := Handed(p', ops), Reversed(Run(p', ops).empty);
    FirstInFirstOut(p', ops);
    assert Reversed(p'.empty) == Reversed(p.empty) + [id];
    assert forall i :: 0 <= i < |handed| && i < |p.empty| ==> handed[i] == (handed + left)[i] == Reversed(p.empty)[i];
    OnceIn(p, size, id);
    assert forall i :: 0 <= i < |p.empty| ==> Reversed(p.empty)[i] in p.empty;
  }

  // A cell of the written list; its handle is what an iterator to it keeps.
  datatype Cell = Cell(handle: nat, id: nat)

  function Ids(cells: seq<Cell>): (r: seq<nat>)
    ensures |r| == |cells| && forall i :: 0 <= i < |cells| ==> r[i] == cells[i].id
  {
    if cells == [] then [] else [cells[0].id] + Ids(cells[1..])
  }

  // Erases the cell an iterator points at.
  function Erased(cells: seq<Cell>, handle: nat): seq<Cell> {
    if cells == [] then [] else if cells[0].handle == handle then cells[1..] else [cells[0]] + Erased(cells[1..], handle)
  }

  // No two cells share a handle or an id.
  ghost predicate Separate(cells: seq<Cell>) {
    forall i, j :: 0 <= i < j < |cells| ==> Apart(cells, i, j)
  }

  ghost predicate Apart(cells: seq<Cell>, i: nat, j: nat)
    requires i < j < |cells|
  {
    cells[i].handle != cells[j].handle && cells[i].id != cells[j].id
  }

  lemma {:induction false} SeparateTail(cells: seq<Cell>)
    requires Separate(cells) && cells != []
    ensures Separate(cells[1..])
    ensures forall c :: c in cells[1..] ==> c.handle != cells[0].handle && c.id != cells[0].id
  {
    forall i, j | 0 <= i < j < |cells[1..]| ensures Apart(cells[1..], i, j) {
      assert Apart(cells, i + 1, j + 1);
    }
    forall c | c in cells[1..] ensures c.handle != cells[0].handle && c.id != cells[0].id {
      var j :| 0 <= j < |cells[1..]| && cells[1..][j] == c;
      assert Apart(cells, 0, j + 1);
    }
  }

  lemma {:induction false} SeparateCons(c: Cell, cells: seq<Cell>)
    requires Separate(cells) && forall d :: d in cells ==> d.handle != c.handle && d.id != c.id
    ensures Separate([c] + cells)
  {
    forall i, j | 0 <= i < j < |[c] + cells| ensures Apart([c] + cells, i, j) {
      if i > 0 {
        assert Apart(cells, i - 1, j - 1);
      } else {
        assert cells[j - 1] in cells;
      }
    }
  }

  // The map leads from every written slot to its own cell, and from nothing else.
  ghost predicate MapsCells(cells: seq<Cell>, mapping: map<nat, nat>) {
    && Separate(cells)
    && (forall c :: OwnCell(cells, mapping, c))
    && (forall id :: HasCell(cells, mapping, id))
  }

  ghost predicate OwnCell(cells: seq<Cell>, mapping: map<nat, nat>, c: Cell) {
    c in cells ==> c.id in mapping && mapping[c.id] == c.handle
  }

  ghost predicate HasCell(cells: seq<Cell>, mapping: map<nat, nat>, id: nat) {
    id in mapping ==> Cell(mapping[id], id) in cells
  }

  lemma {:induction false} IdsHave(cells: seq<Cell>, id: nat)
    ensures id in Ids(cells) <==> exists c :: c in cells && c.id == id
  {
    if id in Ids(cells) {
      var i :| 0 <= i < |cells| && Ids(cells)[i] == id;
      assert cells[i] in cells;
    }
    if c :| c in cells && c.id == id {
      var i :| 0 <= i < |cells| && cells[i] == c;
      assert Ids(cells)[i] == id;
    }
  }

  lemma {:induction false} MapHas(cells: seq<Cell>, mapping: map<nat, nat>, id: nat)
    requires MapsCells(cells, mapping)
    ensures id in mapping <==> id in Ids(cells)
  {
    IdsHave(cells, id);
    assert HasCell(cells, mapping, id);
    if c :| c in cells && c.id == id {
      assert OwnCell(cells, mapping, c);
    }
  }

  // Erasing through an iterator to a cell erases that cell alone.
  lemma {:induction false} ErasedOne(cells: seq<Cell>, c: Cell)
    requires Separate(cells) && c in cells
    ensures Separate(Erased(cells, c.handle))
    ensures forall d :: d in Erased(cells, c.handle) <==> d in cells && d != c
    ensures Ids(Erased(cells, c.handle)) == Removed(Ids(cells), c.id)
  {
    SeparateTail(cells);
    assert cells == [cells[0]] + cells[1..];
    if cells[0] != c {
      assert c in cells[1..];
      ErasedOne(cells[1..], c);
      SeparateCons(cells[0], Erased(cells[1..], c.handle));
      assert Erased(cells, c.handle)[1..] == Erased(cells[1..], c.handle);
    }
  }

  lemma {:induction false} SeparateCells(cells: seq<Cell>, c: Cell, d: Cell)
    requires Separate(cells) && c in cells && d in cells && c != d
    ensures c.handle != d.handle && c.id != d.id
  {
    var i :| 0 <= i < |cells| && cells[i] == c;
    var j :| 0 <= j < |cells| && cells[j] == d;
    if i < j {
      assert Apart(cells, i, j);
    } else {
      assert Apart(cells, j, i);
    }
  }

  lemma {:induction false} ErasedKeepsMap(cells: seq<Cell>, mapping: map<nat, nat>, id: nat)
    requires MapsCells(cells, mapping) && id in mapping
    ensures MapsCells(Erased(cells, mapping[id]), mapping - {id})
    ensures Ids(Erased(cells, mapping[id])) == Removed(Ids(cells), id)
    ensures forall c :: c in Erased(cells, mapping[id]) ==> c in cells
  {
    var own, cells', mapping' := Cell(mapping[id], id), Erased(cells, mapping[id]), mapping - {id};
    assert HasCell(cells, mapping, id);
    ErasedOne(cells, own);
    forall c ensures OwnCell(cells', mapping', c) {
      assert OwnCell(cells, mapping, c);
      if c in cells' {
        SeparateCells(cells, c, own);
      }
    }
    forall n ensures HasCell(cells', mapping', n) {
      assert HasCell(cells, mapping, n);
    }
  }

  lemma {:induction false} PushedKeepsMap(cells: seq<Cell>, mapping: map<nat, nat>, cell: Cell)
    requires MapsCells(cells, mapping) && cell.id !in mapping
    requires forall c :: c in cells ==> c.handle < cell.handle
    ensures MapsCells([cell] + cells, mapping[cell.id := cell.handle])
    ensures Ids([cell] + cells) == [cell.id] + Ids(cells)
  {
    var cells', mapping' := [cell] + cells, mapping[cell.id := cell.handle];
    assert cells'[1..] == cells;
    forall c | c in cells ensures c.handle != cell.handle && c.id != cell.id {
      assert OwnCell(cells, mapping, c);
    }
    SeparateCons(cell, cells);
    forall c ensures OwnCell(cells', mapping', c) {
      assert OwnCell(cells, mapping, c);
    }
    forall id ensures HasCell(cells', mapping', id) {
      assert HasCell(cells, mapping, id);
    }
  }

  // The written list, its map, and the handles given out so far; `wrote` lists the ids.
  ghost predicate CellsOk(cells: seq<Cell>, mapping: map<nat, nat>, next: nat, wrote: seq<nat>) {
    && MapsCells(cells, mapping)
    && |cells| == |wrote|
    && forall i :: 0 <= i < |cells| ==> Lists(cells, next, wrote, i)
  }

  ghost predicate Lists(cells: seq<Cell>, next: nat, wrote: seq<nat>, i: nat)
    requires i < |cells| == |wrote|
  {
    cells[i].handle < next && cells[i].id == wrote[i]
  }

  lemma {:induction false} ListsIds(cells: seq<Cell>, mapping: map<nat, nat>, next: nat, wrote: seq<nat>)
    requires MapsCells(cells, mapping)
    ensures CellsOk(cells, mapping, next, wrote) <==> Ids(cells) == wrote && forall c :: c in cells ==> c.handle < next
  {
    if CellsOk(cells, mapping, next, wrote) {
      forall i | 0 <= i < |cells| ensures Ids(cells)[i] == wrote[i] && cells[i].handle < next {
        assert Lists(cells, next, wrote, i);
      }
    }
    if Ids(cells) == wrote && forall c :: c in cells ==> c.handle < next {
      forall i | 0 <= i < |cells| ensures Lists(cells, next, wrote, i) {
        assert cells[i] in cells;
      }
    }
  }

  lemma {:induction false} RequestOk(p: Pool, cells: seq<Cell>, mapping: map<nat, nat>, next: nat)
    requires PoolOk(p, RECORD_BUFF_SIZE) && CellsOk(cells, mapping, next, p.wrote) && p.empty != []
    ensures var id := p.empty[|p.empty| - 1];
            && id !in mapping
            && PoolOk(Do(p, Request), RECORD_BUFF_SIZE)
            && CellsOk([Cell(next, id)] + cells, mapping[id := next], next + 1, Do(p, Request).wrote)
  {
    var id := p.empty[|p.empty| - 1];
    ListsIds(cells, mapping, next, p.wrote);
    DoKeepsPool(p, Request, RECORD_BUFF_SIZE);
    OnceIn(p, RECORD_BUFF_SIZE, id);
    MapHas(cells, mapping, id);
    PushedKeepsMap(cells, mapping, Cell(next, id));
    ListsIds([Cell(next, id)] + cells, mapping[id := next], next + 1, Do(p, Request).wrote);
  }

  lemma {:induction false} ReleaseOk(p: Pool, cells: seq<Cell>, mapping: map<nat, nat>, next: nat, id: nat)
    requires PoolOk(p, RECORD_BUFF_SIZE) && CellsOk(cells, mapping, next, p.wrote)
    ensures id in mapping <==> id in p.wrote
    ensures id in p.wrote ==> PoolOk(Do(p, Release(id)), RECORD_BUFF_SIZE)
  {
    ListsIds(cells, mapping, next, p.wrote);
    MapHas(cells, mapping, id);
    if id in mapping {
      DoKeepsPool(p, Release(id), RECORD_BUFF_SIZE);
    }
  }

  // What an iterator reads: the id in the cell it points at.
  method IdAt(cells: seq<Cell>, ghost own: Cell, handle: nat) returns (idx: nat)
    requires Separate(cells) && own in cells && own.handle == handle
    ensures idx == own.id
  {
    ghost var k :| 0 <= k < |cells| && cells[k] == own;
    var i := 0;
    while cells[i].handle != handle
      invariant 0 <= i <= k
      decreases k - i
    {
      i := i + 1;
    }
    if cells[i] != own {
      SeparateCells(cells, cells[i], own);
    }
    idx := cells[i].id;
  }

  // Erases the cell the map leads to, and the map's entry.
  method Unlink(cells: seq<Cell>, mapping: map<nat, nat>, ghost next: nat, ghost wrote: seq<nat>, id: nat)
    returns (idx: nat, cells': seq<Cell>, mapping': map<nat, nat>)
    requires CellsOk(cells, mapping, next, wrote) && id in mapping
    ensures idx == id && CellsOk(cells', mapping', next, Removed(wrote, id))
  {
    assert HasCell(cells, mapping, id);
    ListsIds(cells, mapping, next, wrote);
    ErasedKeepsMap(cells, mapping, id);
    idx := IdAt(cells, Cell(mapping[id], id), mapping[id]);
    cells', mapping' := Erased(cells, mapping[id]), mapping - {id};
    ListsIds(cells', mapping', next, Removed(wrote, id));
  }

  class Buffer {
    var idxesEmpty: seq<nat>
    var idxesWrote: seq<Cell>
    var wroteMapping: map<nat, nat>
    var nextHandle: nat

    ghost var pool: Pool

    ghost predicate Valid()
      reads this
    {
      && pool.empty == idxesEmpty
      && PoolOk(pool, RECORD_BUFF_SIZE)
      && CellsOk(idxesWrote, wroteMapping, nextHandle, pool.wrote)
    }

    constructor ()
      ensures Valid() && pool == Pool(seq(RECORD_BUFF_SIZE, i => i), [])
    {
      idxesEmpty, idxesWrote, wroteMapping, nextHandle := [], [], map[], 0;
      new;
      for i := 0 to RECORD_BUFF_SIZE
        invariant idxesWrote == [] && wroteMapping == map[]
        invariant idxesEmpty == seq(i, j => j)
        invariant multiset(idxesEmpty) == multiset(Slots(i))
      {
        assert Slots(i + 1) == Slots(i) + {i};
        idxesEmpty := idxesEmpty + [i];
      }
      pool := Pool(idxesEmpty, []);
    }

    // None stands for waiting until a slot is released; nothing has changed then.
    method RequestRecordBuff() returns (ret: Option<nat>)
      requires Valid()
      modifies this
      ensures Valid()
      ensures ret.None? <==> old(pool).empty == []
      ensures pool == if ret.None? then old(pool) else Do(old(pool), Request)
      ensures ret.Some? ==> ret.value == old(pool).empty[|old(pool).empty| - 1]
    {
      ret := None;
      if idxesEmpty == [] {
        return;
      }
      RequestOk(pool, idxesWrote, wroteMapping, nextHandle);
      var id := idxesEmpty[|idxesEmpty| - 1];
      idxesEmpty := idxesEmpty[..|idxesEmpty| - 1];
      idxesWrote := [Cell(nextHandle, id)] + idxesWrote;
      if id !in wroteMapping {  // insert keeps an entry that is there already
        wroteMapping := wroteMapping[id := nextHandle];
      }
      nextHandle := nextHandle + 1;
      pool := Do(pool, Request);
      ret := Some(id);
    }

    // False stands for the failing assertion; nothing has changed then.
    method ReleaseBuff(id: nat) returns (ok: bool)
      requires Valid()
      modifies this
      ensures Valid()
      ensures ok <==> id in old(pool).wrote
      ensures pool == if ok then Do(old(pool), Release(id)) else old(pool)
    {
      ReleaseOk(pool, idxesWrote, wroteMapping, nextHandle, id);
      ok := id in wroteMapping;
      if ok {
        var idx, cells, mapping := Unlink(idxesWrote, wroteMapping, nextHandle, pool.wrote, id);
        idxesWrote, wroteMapping, idxesEmpty := cells, mapping, [idx] + idxesEmpty;
        pool := Do(pool, Release(id));
      }
    }

    method IfFull() returns (full: bool)
      requires Valid()
      ensures full <==> pool.empty == []
    {
      return idxesEmpty == [];
    }
  }
}
