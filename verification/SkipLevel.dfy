/** One level of the skip list: nodes linked by index into a data chain and a free chain.
    Node 0 is the head; its `next` starts the data chain and its `bottom` the free chain. */
module SkipLevels {
  import opened Counting
  import opened Keys
  import opened Options
  import opened Indexes

  datatype Node = Node(key: Key, idx: Index, next: nat, bottom: nat)

  type Level = seq<Node>

  // What SkipListNode() builds.
  const EMPTY_NODE := Node(0, Index(0), 0, 0)

  datatype Entry = Entry(key: Key, idx: Index)

  // The i-th element of a chain, or 0, the null index, past its end.
  function At(chain: seq<nat>, i: nat): nat {
    if i < |chain| then chain[i] else 0
  }

  ghost predicate Follows(nodes: Level, chain: seq<nat>, i: nat)
    requires i < |chain|
  {
    0 < chain[i] < |nodes| && nodes[chain[i]].next == At(chain, i + 1)
  }

  // Following `next` from `first` visits exactly `chain` and then reaches 0.
  ghost predicate IsChain(nodes: Level, first: nat, chain: seq<nat>) {
    && first == At(chain, 0)
    && forall i :: 0 <= i < |chain| ==> Follows(nodes, chain, i)
  }

  ghost predicate Below(nodes: Level, chain: seq<nat>, i: nat, j: nat)
    requires i < j < |chain|
  {
    chain[i] < |nodes| && chain[j] < |nodes| && nodes[chain[i]].key < nodes[chain[j]].key
  }

  ghost predicate SortedChain(nodes: Level, chain: seq<nat>) {
    forall i, j :: 0 <= i < j < |chain| ==> Below(nodes, chain, i, j)
  }

  // The representation invariant of one level: `chain` is the sorted data chain, `free`
  // the free chain, they share no node, and together with the head they make up the level.
  ghost predicate LevelOk(nodes: Level, chain: seq<nat>, free: seq<nat>) {
    && |nodes| == 1 + |chain| + |free|
    && IsChain(nodes, nodes[0].next, chain)
    && IsChain(nodes, nodes[0].bottom, free)
    && SortedChain(nodes, chain)
    && Distinct(free)
    && (forall n :: n in chain ==> n !in free)
  }

  ghost predicate LeadsDown(upper: Level, n: nat, lower: Level, lchain: seq<nat>) {
    && n < |upper|
    && upper[n].bottom in lchain
    && upper[n].bottom < |lower|
    && lower[upper[n].bottom].key == upper[n].key
  }

  // Every node of the upper chain, `but` aside, leads down to a node of the lower chain
  // with its own key. With 0, which is in no chain, there is no exception.
  ghost predicate LinksDown(upper: Level, uchain: seq<nat>, lower: Level, lchain: seq<nat>, but: nat) {
    forall n :: n in uchain && n != but ==> LeadsDown(upper, n, lower, lchain)
  }

  // Node `p` is where a walk for `key` stops: p is the head when pos is 0 and the pos-th
  // chain node otherwise; keys up to there are at most `key`, keys after exceed it.
  ghost predicate WalkEnd(nodes: Level, chain: seq<nat>, key: Key, p: nat, pos: nat) {
    && pos <= |chain|
    && p == (if pos == 0 then 0 else chain[pos - 1])
    && forall i :: 0 <= i < |chain| ==> Aside(nodes, chain, key, pos, i)
  }

  ghost predicate Aside(nodes: Level, chain: seq<nat>, key: Key, pos: nat, i: nat)
    requires i < |chain|
  {
    chain[i] < |nodes| && if i < pos then nodes[chain[i]].key <= key else key < nodes[chain[i]].key
  }

  // Entries in strictly ascending key order.
  ghost predicate Sorted(es: seq<Entry>) {
    forall i, j :: 0 <= i < j < |es| ==> es[i].key < es[j].key
  }

  function EntryAt(nodes: Level, n: nat): Entry {
    if n < |nodes| then Entry(nodes[n].key, nodes[n].idx) else Entry(0, Index(0))
  }

  // The entries a chain carries, in chain order.
  function EntriesOf(nodes: Level, chain: seq<nat>): (es: seq<Entry>)
    ensures |es| == |chain|
  {
    seq(|chain|, i requires 0 <= i < |chain| => EntryAt(nodes, chain[i]))
  }

  lemma {:induction false} SortedEntries(nodes: Level, chain: seq<nat>)
    requires forall n :: n in chain ==> n < |nodes|
    ensures SortedChain(nodes, chain) <==> Sorted(EntriesOf(nodes, chain))
  {
    var es := EntriesOf(nodes, chain);
    assert forall i :: 0 <= i < |chain| ==> es[i] == EntryAt(nodes, chain[i]) && chain[i] in chain;
    if Sorted(es) {
      forall i, j | 0 <= i < j < |chain| ensures Below(nodes, chain, i, j) {
        assert es[i].key < es[j].key;
      }
    }
    if SortedChain(nodes, chain) {
      forall i, j | 0 <= i < j < |chain| ensures es[i].key < es[j].key {
        assert Below(nodes, chain, i, j);
      }
    }
  }

  lemma {:induction false} ChainInRange(nodes: Level, first: nat, chain: seq<nat>)
    requires IsChain(nodes, first, chain)
    ensures forall n :: n in chain ==> 0 < n < |nodes|
  {
    forall n | n in chain ensures 0 < n < |nodes| {
      var i :| 0 <= i < |chain| && chain[i] == n;
      assert Follows(nodes, chain, i);
    }
  }

  // The head and the two chains partition the indices of a level.
  lemma {:induction false} LevelPartition(nodes: Level, chain: seq<nat>, free: seq<nat>)
    requires LevelOk(nodes, chain, free)
    ensures forall n :: 0 < n < |nodes| <==> n in chain || n in free
    ensures Distinct(chain + free)
    ensures 0 !in chain && 0 !in free
  {
    ChainInRange(nodes, nodes[0].next, chain);
    ChainInRange(nodes, nodes[0].bottom, free);
    var all := chain + free;
    forall i, j | 0 <= i < j < |all| ensures Differ(all, i, j) {
      if j < |chain| {
        assert Below(nodes, chain, i, j);
      } else if |chain| <= i {
        assert Differ(free, i - |chain|, j - |chain|);
      } else {
        assert all[i] in chain && all[j] in free;
      }
    }
    Pigeonhole(all, 1, |nodes|);
    forall n | 0 < n < |nodes| ensures n in chain || n in free {
      assert n in all;
    }
  }

  // Node by node, what insert_after does: n, the head of the free chain, leaves it,
  // takes the data, and comes right after p.
  ghost predicate IsSplice(nodes: Level, after: Level, n: nat, p: nat, key: Key, idx: Index) {
    && p < |nodes| && 0 < n < |nodes| && |after| == |nodes|
    && forall m :: 0 <= m < |nodes| ==> SplicedAt(nodes, after, n, p, key, idx, m)
  }

  ghost predicate SplicedAt(nodes: Level, after: Level, n: nat, p: nat, key: Key, idx: Index, m: nat)
    requires p < |nodes| && 0 < n < |nodes| && |after| == |nodes| && m < |nodes|
  {
    && after[m].next == (if m == p then n else if m == n then nodes[p].next else nodes[m].next)
    && after[m].bottom == (if m == 0 then nodes[n].next else nodes[m].bottom)
    && after[m].key == (if m == n then key else nodes[m].key)
    && after[m].idx == (if m == n then idx else nodes[m].idx)
  }

  lemma {:induction false} SplicedDataChain(nodes: Level, after: Level, chain: seq<nat>, n: nat, key: Key, idx: Index, p: nat, pos: nat)
    requires |nodes| > 0 && IsChain(nodes, nodes[0].next, chain) && SortedChain(nodes, chain) && n !in chain
    requires WalkEnd(nodes, chain, key, p, pos)
    requires IsSplice(nodes, after, n, p, key, idx)
    ensures IsChain(after, after[0].next, Inserted(chain, pos, n))
  {
    var chain' := Inserted(chain, pos, n);
    assert SplicedAt(nodes, after, n, p, key, idx, 0) && SplicedAt(nodes, after, n, p, key, idx, n);
    assert chain != [] ==> Follows(nodes, chain, 0);
    assert pos > 0 ==> Follows(nodes, chain, pos - 1);
    forall i | 0 <= i < |chain'| ensures Follows(after, chain', i) {
      if i < pos {
        assert Follows(nodes, chain, i) && SplicedAt(nodes, after, n, p, key, idx, chain[i]);
        assert i < pos - 1 ==> Below(nodes, chain, i, pos - 1);
      } else if i > pos {
        assert Follows(nodes, chain, i - 1) && SplicedAt(nodes, after, n, p, key, idx, chain[i - 1]);
        assert pos > 0 ==> Below(nodes, chain, pos - 1, i - 1);
      }
    }
  }

  lemma {:induction false} SplicedFreeChain(nodes: Level, after: Level, free: seq<nat>, key: Key, idx: Index, p: nat)
    requires 0 < |free| && |nodes| > 0 && IsChain(nodes, nodes[0].bottom, free) && Distinct(free) && p !in free
    requires IsSplice(nodes, after, free[0], p, key, idx)
    ensures IsChain(after, after[0].bottom, free[1..])
  {
    assert Follows(nodes, free, 0) && SplicedAt(nodes, after, free[0], p, key, idx, 0);
    forall i | 0 <= i < |free[1..]| ensures Follows(after, free[1..], i) {
      assert Differ(free, 0, i + 1) && Follows(nodes, free, i + 1);
      assert SplicedAt(nodes, after, free[0], p, key, idx, free[i + 1]);
    }
  }

  lemma {:induction false} SplicedSorted(nodes: Level, after: Level, chain: seq<nat>, n: nat, key: Key, idx: Index, p: nat, pos: nat)
    requires SortedChain(nodes, chain) && n !in chain
    requires WalkEnd(nodes, chain, key, p, pos)
    requires pos > 0 ==> p < |nodes| && nodes[p].key < key
    requires IsSplice(nodes, after, n, p, key, idx)
    ensures SortedChain(after, Inserted(chain, pos, n))
  {
    var chain' := Inserted(chain, pos, n);
    assert SplicedAt(nodes, after, n, p, key, idx, n);
    forall i | 0 <= i < |chain| ensures chain[i] < |nodes| && after[chain[i]].key == nodes[chain[i]].key {
      assert Aside(nodes, chain, key, pos, i) && SplicedAt(nodes, after, n, p, key, idx, chain[i]);
    }
    forall i, j | 0 <= i < j < |chain'| ensures Below(after, chain', i, j) {
      var i', j' := if i <= pos then i else i - 1, if j <= pos then j else j - 1;
      if i != pos && j != pos {
        assert Below(nodes, chain, i', j');
      } else if i == pos {
        assert Aside(nodes, chain, key, pos, j');
      } else {
        assert i < pos - 1 ==> Below(nodes, chain, i, pos - 1);
      }
    }
  }

  // Splicing the first free node in after the end of a walk keeps the level in order.
  lemma {:induction false} SpliceKeepsLevel(nodes: Level, after: Level, chain: seq<nat>, free: seq<nat>, key: Key, idx: Index, p: nat, pos: nat)
    requires LevelOk(nodes, chain, free) && free != []
    requires WalkEnd(nodes, chain, key, p, pos)
    requires pos > 0 ==> p < |nodes| && nodes[p].key < key
    requires IsSplice(nodes, after, free[0], p, key, idx)
    ensures LevelOk(after, Inserted(chain, pos, free[0]), free[1..])
  {
    var n := free[0];
    ChainInRange(nodes, nodes[0].bottom, free);
    SplicedDataChain(nodes, after, chain, n, key, idx, p, pos);
    SplicedFreeChain(nodes, after, free, key, idx, p);
    SplicedSorted(nodes, after, chain, n, key, idx, p, pos);
    DistinctTail(free);
    forall m | m in Inserted(chain, pos, n) ensures m !in free[1..] {
      assert m == n || m in chain;
    }
  }

  ghost predicate HasKey(es: seq<Entry>, key: Key) {
    exists i :: 0 <= i < |es| && es[i].key == key
  }

  // How many entries come before `key`.
  function Rank(es: seq<Entry>, key: Key): (r: nat)
    ensures r <= |es|
    ensures forall i :: 0 <= i < r ==> es[i].key < key
    ensures r < |es| ==> key <= es[r].key
  {
    if es == [] || key <= es[0].key then 0 else 1 + Rank(es[1..], key)
  }

  // Stores x under key, at the key's rank.
  function Put(es: seq<Entry>, key: Key, x: Index): seq<Entry> {
    var r := Rank(es, key);
    if r < |es| && es[r].key == key then es[r := Entry(key, x)] else Inserted(es, r, Entry(key, x))
  }

  // The index stored under `key`, if there is one.
  function Find(es: seq<Entry>, key: Key): Option<Index> {
    var r := Rank(es, key);
    if r < |es| && es[r].key == key then Some(es[r].idx) else None
  }

  // A new key brings its index in, a known key only takes over its idx field and the list's id.
  function Stored(was: Option<Index>, index: Index, id: bv32): Index {
    if was.None? then index else was.value.SetIdx(index.GetIdx()).SetFid(id)
  }

  // What an update means for the entries.
  function Upsert(es: seq<Entry>, key: Key, index: Index, id: bv32): seq<Entry> {
    Put(es, key, Stored(Find(es, key), index, id))
  }

  // The new idx with the top bits of the old one, this fid, and the old flags.
  ghost predicate TakesOver(was: Index, now: Index, i: bv32, id: bv32) {
    now.GetIdx() == (i & 0xfffff) | (was.GetIdx() & 0xc0000) && now.GetFid() == id && FlagBits(now) == FlagBits(was)
  }

  lemma {:induction false} StoredOver(was: Index, i: bv32, id: bv32)
    requires id & 0xff == id
    ensures TakesOver(was, was.SetIdx(i).SetFid(id), i, id)
  {
    SetIdxLaw(was, i);
    SetFidReadsBack(was.SetIdx(i), id);
    SetFidKeepsIdx(was.SetIdx(i), id);
    SetFidKeepsFlags(was.SetIdx(i), id);
  }

  // What lies under a key after its update: a new key's index as it came, a known key's index
  // with the new idx and the list's id for a fid.
  lemma {:induction false} UpsertLaw(es: seq<Entry>, key: Key, index: Index, id: bv32)
    requires Sorted(es) && id & 0xff == id
    ensures Find(Upsert(es, key, index, id), key).Some?
    ensures Find(es, key).None? ==> Find(Upsert(es, key, index, id), key).value == index
    ensures Find(es, key).Some? ==>
      TakesOver(Find(es, key).value, Find(Upsert(es, key, index, id), key).value, index.GetIdx(), id)
  {
    PutFinds(es, key, Stored(Find(es, key), index, id), key);
    if Find(es, key).Some? {
      StoredOver(Find(es, key).value, index.GetIdx(), id);
    }
  }

  lemma {:induction false} SplitRank(es: seq<Entry>, key: Key, r: nat)
    requires r <= |es|
    requires forall i :: 0 <= i < r ==> es[i].key < key
    requires r < |es| ==> key <= es[r].key
    ensures Rank(es, key) == r
  {
  }

  lemma {:induction false} FindIsHasKey(es: seq<Entry>, key: Key)
    requires Sorted(es)
    ensures Find(es, key).None? <==> !HasKey(es, key)
  {
    var r := Rank(es, key);
    assert forall i :: r < i < |es| ==> es[r].key < es[i].key;
  }

  // Storing keeps the entries sorted and changes what is found under the one key only.
  lemma {:induction false} PutSorted(es: seq<Entry>, key: Key, x: Index)
    requires Sorted(es)
    ensures Sorted(Put(es, key, x))
    ensures |Put(es, key, x)| == |es| + if Find(es, key).None? then 1 else 0
  {
    var r := Rank(es, key);
    assert forall i :: r < i < |es| ==> es[r].key < es[i].key;
  }

  lemma {:induction false} PutFinds(es: seq<Entry>, key: Key, x: Index, k: Key)
    requires Sorted(es)
    ensures Find(Put(es, key, x), k) == if k == key then Some(x) else Find(es, k)
  {
    var es', r, q := Put(es, key, x), Rank(es, key), Rank(es, k);
    PutSorted(es, key, x);
    if k == key {
      FindAt(es', r);
    } else if Find(es, k).Some? {
      FindAt(es', if |es'| == |es| || q < r then q else q + 1);
    } else {
      FindIsHasKey(es, k);
      FindIsHasKey(es', k);
      forall i | 0 <= i < |es'| ensures es'[i].key != k {
        assert i != r ==> es'[i] == es[if |es'| == |es| || i < r then i else i - 1];
      }
    }
  }

  lemma {:induction false} FindAt(es: seq<Entry>, i: nat)
    requires Sorted(es) && i < |es|
    ensures Find(es, es[i].key) == Some(es[i].idx)
  {
    SplitRank(es, es[i].key, i);
  }

  // A run of updates on an empty list.
  function Run(ops: seq<Entry>, id: bv32): seq<Entry> {
    if ops == [] then []
    else var n := |ops| - 1; Upsert(Run(ops[..n], id), ops[n].key, ops[n].idx, id)
  }

  function KeysOf(ops: seq<Entry>): set<Key> {
    if ops == [] then {} else KeysOf(ops[..|ops| - 1]) + {ops[|ops| - 1].key}
  }

  // The idx field of the last update of `key`.
  function LastIdx(ops: seq<Entry>, key: Key): bv32 {
    if ops == [] then 0
    else var last := ops[|ops| - 1]; if last.key == key then last.idx.GetIdx() else LastIdx(ops[..|ops| - 1], key)
  }

  // The two top idx bits that updates of `key` have ever set.
  function TopBits(ops: seq<Entry>, key: Key): bv32 {
    if ops == [] then 0
    else
      var last := ops[|ops| - 1];
      TopBits(ops[..|ops| - 1], key) | (if last.key == key then last.idx.GetIdx() & 0xc0000 else 0)
  }

  // After any run of updates the keys stored are the keys updated, each once, in order.
  lemma {:induction false} RunStoresKeys(ops: seq<Entry>, id: bv32, key: Key)
    ensures Sorted(Run(ops, id))
    ensures Find(Run(ops, id), key).Some? <==> key in KeysOf(ops)
    ensures |Run(ops, id)| == |KeysOf(ops)|
  {
    if ops != [] {
      var n := |ops| - 1;
      var op, before := ops[n], Run(ops[..n], id);
      RunStoresKeys(ops[..n], id, key);
      RunStoresKeys(ops[..n], id, op.key);
      StepStores(before, op.key, Stored(Find(before, op.key), op.idx, id), KeysOf(ops[..n]), key);
    }
  }

  lemma {:induction false} StepStores(es: seq<Entry>, k: Key, x: Index, keys: set<Key>, key: Key)
    requires Sorted(es) && |es| == |keys|
    requires (Find(es, key).Some? <==> key in keys) && (Find(es, k).Some? <==> k in keys)
    ensures Sorted(Put(es, k, x)) && |Put(es, k, x)| == |keys + {k}|
    ensures Find(Put(es, k, x), key).Some? <==> key in keys + {k}
  {
    PutSorted(es, k, x);
    PutFinds(es, k, x, key);
    assert k in keys ==> keys + {k} == keys;
  }

  // The list's id is 0, as every list is built.
  ghost predicate KeepsLast(ops: seq<Entry>, key: Key) {
    && Find(Run(ops, 0), key).Some?
    && Find(Run(ops, 0), key).value.GetIdx() == LastIdx(ops, key) | TopBits(ops, key)
  }

  // Under each key lies the idx of its last update, with every top bit ever set for it.
  lemma {:induction false} RunKeepsLast(ops: seq<Entry>, key: Key)
    requires key in KeysOf(ops)
    ensures KeepsLast(ops, key)
  {
    var n := |ops| - 1;
    if key !in KeysOf(ops[..n]) {
      FirstStored(ops, key);
    } else {
      RunKeepsLast(ops[..n], key);
      if key == ops[n].key {
        AgainStored(ops, key);
      } else {
        OtherStored(ops, key);
      }
    }
  }

  lemma {:induction false} FirstStored(ops: seq<Entry>, key: Key)
    requires ops != [] && ops[|ops| - 1].key == key && key !in KeysOf(ops[..|ops| - 1])
    ensures KeepsLast(ops, key)
  {
    var n := |ops| - 1;
    RunStoresKeys(ops[..n], 0, key);
    PutFinds(Run(ops[..n], 0), key, Stored(Find(Run(ops[..n], 0), key), ops[n].idx, 0), key);
    NoTopBits(ops[..n], key);
    FirstIdx(ops[n].idx.GetIdx());
  }

  lemma {:induction false} AgainStored(ops: seq<Entry>, key: Key)
    requires ops != [] && ops[|ops| - 1].key == key && KeepsLast(ops[..|ops| - 1], key)
    ensures KeepsLast(ops, key)
  {
    var n := |ops| - 1;
    var x, y := Find(Run(ops[..n], 0), key).value, ops[n].idx;
    RunStoresKeys(ops[..n], 0, key);
    PutFinds(Run(ops[..n], 0), key, Stored(Some(x), y, 0), key);
    OverwrittenIdx(x, y);
    TopBitsCover(ops[..n], key);
    OwnTop(y.GetIdx(), TopBits(ops[..n], key));
  }

  lemma {:induction false} OtherStored(ops: seq<Entry>, key: Key)
    requires ops != [] && ops[|ops| - 1].key != key && KeepsLast(ops[..|ops| - 1], key)
    ensures KeepsLast(ops, key)
  {
    var n := |ops| - 1;
    RunStoresKeys(ops[..n], 0, key);
    PutFinds(Run(ops[..n], 0), ops[n].key, Stored(Find(Run(ops[..n], 0), ops[n].key), ops[n].idx, 0), key);
    OrZero(TopBits(ops[..n], key));
  }

  // So it is the idx of the last update alone exactly when no earlier update has set a top
  // bit that the last one leaves clear; in particular when every idx is below 2^18.
  lemma {:induction false} RunReadsBackLast(ops: seq<Entry>, key: Key)
    requires key in KeysOf(ops)
    ensures Find(Run(ops, 0), key).Some?
    ensures Find(Run(ops, 0), key).value.GetIdx() == LastIdx(ops, key)
       <==> TopBits(ops, key) & (LastIdx(ops, key) ^ 0xffffffff) == 0
  {
    RunKeepsLast(ops, key);
    Absorbed(LastIdx(ops, key), TopBits(ops, key));
  }

  lemma {:induction false} Absorbed(last: bv32, tops: bv32)
    ensures last | tops == last <==> tops & (last ^ 0xffffffff) == 0
  {
  }

  lemma {:induction false} NoTopBits(ops: seq<Entry>, key: Key)
    requires key !in KeysOf(ops)
    ensures TopBits(ops, key) == 0
  {
    if ops != [] {
      NoTopBits(ops[..|ops| - 1], key);
      OrZero(TopBits(ops[..|ops| - 1], key));
    }
  }

  lemma {:induction false} TopBitsCover(ops: seq<Entry>, key: Key)
    ensures (LastIdx(ops, key) | TopBits(ops, key)) & 0xc0000 == TopBits(ops, key)
  {
    if ops != [] {
      var n := |ops| - 1;
      TopBitsCover(ops[..n], key);
      CoverStep(LastIdx(ops[..n], key), TopBits(ops[..n], key), ops[n].idx.GetIdx());
    }
  }

  lemma {:induction false} CoverStep(last: bv32, tops: bv32, i: bv32)
    requires (last | tops) & 0xc0000 == tops
    ensures (i | (tops | (i & 0xc0000))) & 0xc0000 == tops | (i & 0xc0000)
    ensures (last | (tops | 0)) & 0xc0000 == tops | 0
  {
  }

  lemma {:induction false} OrZero(x: bv32)
    ensures x | 0 == x
  {
  }

  lemma {:induction false} FirstIdx(i: bv32)
    ensures i == i | (0 | (i & 0xc0000))
  {
  }

  lemma {:induction false} OwnTop(i: bv32, tops: bv32)
    ensures i | tops == i | (tops | (i & 0xc0000))
  {
  }

  lemma {:induction false} OverwrittenIdx(x: Index, y: Index)
    ensures x.SetIdx(y.GetIdx()).SetFid(0).GetIdx() == y.GetIdx() | (x.GetIdx() & 0xc0000)
  {
  }
}
