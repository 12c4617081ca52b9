/** The multi-level skip list: twelve levels of index-linked nodes, each with its own free chain. */
module SkipLists {
  import opened Counting
  import opened Keys
  import opened Options
  import opened Indexes
  import opened SkipLevels

  const SKIP_LIST_MAX_HEIGHT: nat := 12
  const SKIP_LIST_INIT_CAPACITY: nat := 10

  // The free chain the constructor and a resize build: the nodes lo..lo+n, last one first.
  ghost function Countdown(lo: nat, n: nat): (s: seq<nat>)
    ensures |s| == n && forall i :: 0 <= i < n ==> s[i] == lo + n - 1 - i
  {
    seq(n, i requires 0 <= i < n => lo + n - 1 - i)
  }

  ghost predicate SameAt(nodes: Level, after: Level, n: nat) {
    && n < |nodes| && n < |after|
    && after[n].key == nodes[n].key && after[n].idx == nodes[n].idx && after[n].bottom == nodes[n].bottom
  }

  // The chain's nodes keep key, index and way down, though their links may change.
  ghost predicate SameData(nodes: Level, after: Level, chain: seq<nat>) {
    forall n :: n in chain ==> SameAt(nodes, after, n)
  }

  // One step of a doubling: node n, so far unlinked, becomes the head of the free chain.
  lemma {:induction false} GrowStep(nodes: Level, after: Level, lo: nat, i: nat)
    requires 0 < lo && lo + i < |nodes| && |after| == |nodes|
    requires IsChain(nodes, nodes[0].bottom, Countdown(lo, i))
    requires after[0].bottom == lo + i && after[lo + i].next == nodes[0].bottom
    requires forall m :: lo <= m < lo + i ==> after[m] == nodes[m]
    ensures IsChain(after, after[0].bottom, Countdown(lo, i + 1))
  {
    var free, free' := Countdown(lo, i), Countdown(lo, i + 1);
    forall j | 0 <= j < |free'| ensures Follows(after, free', j) {
      if j > 0 {
        assert free'[j] == free[j - 1] && Follows(nodes, free, j - 1);
      }
    }
  }

  // Doubling a level whose free chain is empty leaves the data chain alone.
  lemma {:induction false} GrownLevel(nodes: Level, after: Level, chain: seq<nat>)
    requires LevelOk(nodes, chain, []) && |after| == 2 * |nodes|
    requires forall m :: 1 <= m < |nodes| ==> after[m] == nodes[m]
    requires after[0] == nodes[0].(bottom := after[0].bottom)
    requires IsChain(after, after[0].bottom, Countdown(|nodes|, |nodes|))
    ensures LevelOk(after, chain, Countdown(|nodes|, |nodes|)) && SameData(nodes, after, chain)
  {
    ChainInRange(nodes, nodes[0].next, chain);
    ChainInRange(after, after[0].bottom, Countdown(|nodes|, |nodes|));
    forall i | 0 <= i < |chain| ensures Follows(after, chain, i) {
      assert Follows(nodes, chain, i);
    }
    forall i, j | 0 <= i < j < |chain| ensures Below(after, chain, i, j) {
      assert Below(nodes, chain, i, j) && chain[i] in chain && chain[j] in chain;
    }
    forall i, j | 0 <= i < j < |nodes| ensures Differ(Countdown(|nodes|, |nodes|), i, j) {
    }
  }

  // A level as the constructor leaves it: nothing stored, every node but the head free.
  method InitLevel() returns (nodes: Level, capacity: int)
    ensures LevelOk(nodes, [], Countdown(1, SKIP_LIST_INIT_CAPACITY - 1))
    ensures nodes[0].key == 0 && capacity == SKIP_LIST_INIT_CAPACITY - 1
  {
    nodes := seq(SKIP_LIST_INIT_CAPACITY, _ => EMPTY_NODE);
    capacity := |nodes| - 1;
    var j := 0;
    while j < capacity
      invariant 0 <= j <= capacity && |nodes| == SKIP_LIST_INIT_CAPACITY
      invariant nodes[0] == EMPTY_NODE.(bottom := nodes[0].bottom)
      invariant IsChain(nodes, nodes[0].bottom, Countdown(1, j))
    {
      ghost var prev := nodes;
      var n := j + 1;
      nodes := nodes[n := nodes[n].(next := nodes[0].bottom)];
      nodes := nodes[0 := nodes[0].(bottom := n)];
      GrowStep(prev, nodes, 1, j);
      j := j + 1;
    }
    forall i, k | 0 <= i < k < j ensures Differ(Countdown(1, j), i, k) {
    }
  }

  // The resize of one level: double the nodes, then put the new half on the free chain.
  method Double(nodes: Level, ghost chain: seq<nat>) returns (after: Level)
    requires LevelOk(nodes, chain, [])
    ensures |after| == 2 * |nodes| && after[0].key == nodes[0].key
    ensures LevelOk(after, chain, Countdown(|nodes|, |nodes|)) && SameData(nodes, after, chain)
  {
    var preSize := |nodes|;
    after := nodes + seq(preSize, _ => EMPTY_NODE);
    var i := 0;
    while i < preSize
      invariant 0 <= i <= preSize && |after| == 2 * preSize
      invariant forall m :: 1 <= m < preSize ==> after[m] == nodes[m]
      invariant after[0] == nodes[0].(bottom := after[0].bottom)
      invariant IsChain(after, after[0].bottom, Countdown(preSize, i))
    {
      ghost var prev := after;
      var n := i + preSize;
      after := after[n := after[n].(next := after[0].bottom)];
      after := after[0 := after[0].(bottom := n)];
      GrowStep(prev, after, preSize, i);
      i := i + 1;
    }
    GrownLevel(nodes, after, chain);
  }

  // The pointer surgery of insert_after: take the first free node, link it in after `p`.
  method Splice(nodes: Level, key: Key, index: Index, p: nat) returns (n: nat, after: Level)
    requires |nodes| > 0 && 0 < nodes[0].bottom < |nodes| && p < |nodes| && p != nodes[0].bottom
    ensures n == nodes[0].bottom && IsSplice(nodes, after, n, p, key, index)
  {
    n := nodes[0].bottom;
    after := nodes[0 := nodes[0].(bottom := nodes[n].next)];
    after := after[n := after[n].(next := after[p].next)];
    after := after[p := after[p].(next := n)];
    after := after[n := after[n].(key := key)];
    after := after[n := after[n].(idx := index)];
  }

  // The chain gains node n, carrying (key, index), at position pos; all else is as it was.
  ghost predicate LevelGains(nodes: Level, after: Level, chain: seq<nat>, chain': seq<nat>, pos: nat, n: nat, key: Key, index: Index) {
    && pos <= |chain| && chain' == Inserted(chain, pos, n)
    && EntryAt(after, n) == Entry(key, index)
    && SameData(nodes, after, chain)
  }

  // A level whose free chain has run dry doubles.
  method CheckAndResize(nodes: Level, capacity: int, ghost chain: seq<nat>, ghost free: seq<nat>)
    returns (after: Level, capacity': int, ghost free': seq<nat>)
    requires LevelOk(nodes, chain, free) && capacity == |free|
    ensures LevelOk(after, chain, free') && capacity' == |free'| > 0
    ensures SameData(nodes, after, chain) && after[0].key == nodes[0].key
  {
    after, capacity', free' := nodes, capacity, free;
    ChainInRange(nodes, nodes[0].next, chain);
    if capacity <= 0 {
      after := Double(nodes, chain);
      capacity' := |after| - |nodes|;
      free' := Countdown(|nodes|, |nodes|);
    }
  }

  method InsertIntoLevel(nodes: Level, capacity: int, key: Key, index: Index, p: nat, ghost chain: seq<nat>, ghost free: seq<nat>, ghost pos: nat)
    returns (n: nat, after: Level, capacity': int, ghost free': seq<nat>)
    requires LevelOk(nodes, chain, free) && capacity == |free| > 0
    requires WalkEnd(nodes, chain, key, p, pos)
    requires pos > 0 ==> p < |nodes| && nodes[p].key < key
    ensures LevelOk(after, Inserted(chain, pos, n), free') && capacity' == |free'| > 0
    ensures LevelGains(nodes, after, chain, Inserted(chain, pos, n), pos, n, key, index)
    ensures 0 < n < |after| && after[0].key == nodes[0].key
  {
    LevelPartition(nodes, chain, free);
    assert nodes[0].bottom == free[0] && free[0] in free && p !in free;
    var mid;
    n, mid := Splice(nodes, key, index, p);
    SpliceKeepsLevel(nodes, mid, chain, free, key, index, p, pos);
    SpliceGains(nodes, mid, chain, n, key, index, p, pos);
    after, capacity', free' := CheckAndResize(mid, capacity - 1, Inserted(chain, pos, n), free[1..]);
    StillGains(nodes, mid, after, chain, pos, n, key, index);
    assert Inserted(chain, pos, n)[pos] == n && n in Inserted(chain, pos, n);
    ChainInRange(after, after[0].next, Inserted(chain, pos, n));
  }

  lemma {:induction false} SpliceGains(nodes: Level, after: Level, chain: seq<nat>, n: nat, key: Key, idx: Index, p: nat, pos: nat)
    requires IsSplice(nodes, after, n, p, key, idx) && pos <= |chain|
    requires IsChain(nodes, nodes[0].next, chain) && n !in chain
    ensures LevelGains(nodes, after, chain, Inserted(chain, pos, n), pos, n, key, idx)
    ensures after[0].key == nodes[0].key
  {
    ChainInRange(nodes, nodes[0].next, chain);
    assert SplicedAt(nodes, after, n, p, key, idx, n) && SplicedAt(nodes, after, n, p, key, idx, 0);
    forall m | m in chain ensures SameAt(nodes, after, m) {
      assert SplicedAt(nodes, after, n, p, key, idx, m);
    }
  }

  lemma {:induction false} StillGains(nodes: Level, mid: Level, after: Level, chain: seq<nat>, pos: nat, n: nat, key: Key, index: Index)
    requires pos <= |chain| && SameData(mid, after, Inserted(chain, pos, n))
    requires LevelGains(nodes, mid, chain, Inserted(chain, pos, n), pos, n, key, index)
    ensures LevelGains(nodes, after, chain, Inserted(chain, pos, n), pos, n, key, index)
  {
    assert Inserted(chain, pos, n)[pos] == n && SameAt(mid, after, n);
    forall m | m in chain ensures SameAt(nodes, after, m) {
      assert m in Inserted(chain, pos, n) && SameAt(nodes, mid, m) && SameAt(mid, after, m);
    }
  }

  lemma {:induction false} HeadNext(nodes: Level, chain: seq<nat>)
    requires |nodes| > 0 && IsChain(nodes, nodes[0].next, chain)
    ensures nodes[0].next == 0 <==> chain == []
  {
    assert chain != [] ==> Follows(nodes, chain, 0);
  }

  // Node p is where a walk for an absent key stops on this level.
  ghost predicate StopsBefore(nodes: Level, chain: seq<nat>, key: Key, p: nat, pos: nat) {
    && WalkEnd(nodes, chain, key, p, pos)
    && (pos > 0 ==> p < |nodes| && nodes[p].key < key)
  }

  // The horizontal walk of get: on from `p` while the next key is at most `key`.
  method Walk(nodes: Level, key: Key, p: nat, ghost chain: seq<nat>, ghost from: nat) returns (curr: nat, ghost pos: nat)
    requires |nodes| > 0 && IsChain(nodes, nodes[0].next, chain) && SortedChain(nodes, chain)
    requires from <= |chain| && p == (if from == 0 then 0 else chain[from - 1])
    requires p < |nodes| && (from > 0 ==> nodes[p].key <= key)
    ensures WalkEnd(nodes, chain, key, curr, pos) && curr < |nodes|
    ensures curr == 0 <==> pos == 0
    ensures pos > 0 ==> nodes[curr].key <= key
  {
    curr, pos := p, from;
    ChainInRange(nodes, nodes[0].next, chain);
    assert pos > 0 ==> Follows(nodes, chain, pos - 1);
    assert pos < |chain| ==> Follows(nodes, chain, pos);
    while nodes[curr].next != 0 && nodes[nodes[curr].next].key <= key
      invariant pos <= |chain| && curr == (if pos == 0 then 0 else chain[pos - 1])
      invariant curr < |nodes| && nodes[curr].next == At(chain, pos) < |nodes|
      invariant pos > 0 ==> 0 < curr && nodes[curr].key <= key
      decreases |chain| - pos
    {
      curr := nodes[curr].next;
      pos := pos + 1;
      assert Follows(nodes, chain, pos - 1);
      assert pos < |chain| ==> Follows(nodes, chain, pos);
    }
    assert pos < |chain| ==> Follows(nodes, chain, pos);
    forall i | 0 <= i < |chain| ensures Aside(nodes, chain, key, pos, i) {
      assert chain[i] in chain;
      if i < pos - 1 {
        assert Below(nodes, chain, i, pos - 1);
      } else if pos < i {
        assert Below(nodes, chain, pos, i);
      }
    }
  }

  // The trace has, counted from its back, the node to insert after on level l.
  ghost predicate AlignedAt(data: seq<Level>, chains: seq<seq<nat>>, trace: seq<nat>, stops: seq<nat>, l: nat, key: Key)
    requires l < |data| == |chains| && l < |trace| == |stops|
  {
    StopsBefore(data[l], chains[l], key, trace[|trace| - 1 - l], stops[|trace| - 1 - l])
  }

  // Where a walk may start: at the head, or at a chain node with a smaller key.
  ghost predicate StartsAt(nodes: Level, chain: seq<nat>, key: Key, p: nat, from: nat) {
    && from <= |chain| && p == (if from == 0 then 0 else chain[from - 1])
    && p < |nodes| && (from > 0 ==> nodes[p].key < key)
  }

  lemma {:induction false} FoundEntry(nodes: Level, chain: seq<nat>, n: nat)
    requires SortedChain(nodes, chain) && n in chain && n < |nodes|
    ensures HasKey(EntriesOf(nodes, chain), nodes[n].key)
    ensures Find(EntriesOf(nodes, chain), nodes[n].key) == Some(nodes[n].idx)
  {
    var i :| 0 <= i < |chain| && chain[i] == n;
    OverwrittenEntry(nodes, chain, i, nodes[n].idx);
    assert EntriesOf(nodes, chain)[i] == EntryAt(nodes, n);
  }

  lemma {:induction false} NotFound(nodes: Level, chain: seq<nat>, key: Key, p: nat, pos: nat)
    requires SortedChain(nodes, chain) && StopsBefore(nodes, chain, key, p, pos)
    ensures !HasKey(EntriesOf(nodes, chain), key)
  {
    forall i | 0 <= i < |chain| ensures EntriesOf(nodes, chain)[i].key != key {
      assert EntriesOf(nodes, chain)[i] == EntryAt(nodes, chain[i]) && Aside(nodes, chain, key, pos, i);
      assert i < pos - 1 ==> Below(nodes, chain, i, pos - 1);
    }
  }

  // Links from above survive an insertion below.
  lemma {:induction false} LowerGains(upper: Level, uchain: seq<nat>, lower: Level, lower': Level, lchain: seq<nat>, lchain': seq<nat>,
                   pos: nat, n: nat, key: Key, index: Index, but: nat)
    requires LinksDown(upper, uchain, lower, lchain, but)
    requires LevelGains(lower, lower', lchain, lchain', pos, n, key, index)
    ensures LinksDown(upper, uchain, lower', lchain', but)
  {
    forall m | m in uchain && m != but ensures LeadsDown(upper, m, lower', lchain') {
      var b := upper[m].bottom;
      assert LeadsDown(upper, m, lower, lchain) && SameAt(lower, lower', b);
      var i :| 0 <= i < |lchain| && lchain[i] == b;
      assert lchain'[if i < pos then i else i + 1] == b;
    }
  }

  // Aiming the excepted node at a lower node of its key leaves no exception.
  lemma {:induction false} LinkMade(upper: Level, uchain: seq<nat>, lower: Level, lchain: seq<nat>, m: nat, b: nat)
    requires LinksDown(upper, uchain, lower, lchain, m)
    requires m < |upper| && b < |lower| && b in lchain && lower[b].key == upper[m].key
    ensures LinksDown(upper[m := upper[m].(bottom := b)], uchain, lower, lchain, 0)
  {
    var upper' := upper[m := upper[m].(bottom := b)];
    forall x | x in uchain && x != 0 ensures LeadsDown(upper', x, lower, lchain) {
      assert x != m ==> LeadsDown(upper, x, lower, lchain);
    }
  }

  // Links to below survive an insertion above, except for the new node's own.
  lemma {:induction false} UpperGains(upper: Level, upper': Level, uchain: seq<nat>, uchain': seq<nat>, lower: Level, lchain: seq<nat>,
                   pos: nat, n: nat, key: Key, index: Index)
    requires LinksDown(upper, uchain, lower, lchain, 0) && 0 !in uchain
    requires LevelGains(upper, upper', uchain, uchain', pos, n, key, index)
    ensures LinksDown(upper', uchain', lower, lchain, n)
  {
    forall m | m in uchain' && m != n ensures LeadsDown(upper', m, lower, lchain) {
      assert m in uchain && LeadsDown(upper, m, lower, lchain) && SameAt(upper, upper', m);
    }
  }

  // Re-aiming a node's way down leaves its level in order.
  lemma {:induction false} Relinked(nodes: Level, chain: seq<nat>, free: seq<nat>, m: nat, b: nat)
    requires LevelOk(nodes, chain, free) && 0 < m < |nodes|
    ensures LevelOk(nodes[m := nodes[m].(bottom := b)], chain, free)
  {
    var after := nodes[m := nodes[m].(bottom := b)];
    forall i | 0 <= i < |chain| ensures Follows(after, chain, i) {
      assert Follows(nodes, chain, i);
    }
    forall i | 0 <= i < |free| ensures Follows(after, free, i) {
      assert Follows(nodes, free, i);
    }
    forall i, j | 0 <= i < j < |chain| ensures Below(after, chain, i, j) {
      assert Below(nodes, chain, i, j);
    }
  }

  lemma {:induction false} SameKeysBelow(upper: Level, uchain: seq<nat>, lower: Level, lower': Level, lchain: seq<nat>)
    requires LinksDown(upper, uchain, lower, lchain, 0)
    requires |lower'| == |lower| && forall m :: 0 <= m < |lower| ==> lower'[m].key == lower[m].key
    ensures LinksDown(upper, uchain, lower', lchain, 0)
  {
    forall n | n in uchain && n != 0 ensures LeadsDown(upper, n, lower', lchain) {
      assert LeadsDown(upper, n, lower, lchain);
    }
  }

  // On the lowest level an insertion at a walk's end is an upsert of the entries.
  lemma {:induction false} GainedEntries(nodes: Level, after: Level, chain: seq<nat>, chain': seq<nat>, p: nat, pos: nat, n: nat, key: Key, index: Index)
    requires SortedChain(nodes, chain) && StopsBefore(nodes, chain, key, p, pos)
    requires LevelGains(nodes, after, chain, chain', pos, n, key, index)
    ensures EntriesOf(after, chain') == Put(EntriesOf(nodes, chain), key, index)
  {
    var es := EntriesOf(nodes, chain);
    forall i | 0 <= i < |chain|
      ensures EntryAt(after, chain[i]) == es[i]
      ensures if i < pos then es[i].key < key else key < es[i].key
    {
      assert chain[i] in chain && SameAt(nodes, after, chain[i]) && es[i] == EntryAt(nodes, chain[i]);
      assert Aside(nodes, chain, key, pos, i);
      assert i < pos - 1 ==> Below(nodes, chain, i, pos - 1);
    }
    SplitRank(es, key, pos);
  }

  // Replacing the index of a chain node changes the one entry and nothing else.
  lemma {:induction false} Overwritten(nodes: Level, chain: seq<nat>, free: seq<nat>, n: nat, x: Index)
    requires LevelOk(nodes, chain, free) && n in chain && n < |nodes|
    ensures var after := nodes[n := nodes[n].(idx := x)];
            && LevelOk(after, chain, free)
            && var r := Rank(EntriesOf(nodes, chain), nodes[n].key);
               && r < |chain| && chain[r] == n
               && EntriesOf(after, chain) == EntriesOf(nodes, chain)[r := Entry(nodes[n].key, x)]
  {
    var after := nodes[n := nodes[n].(idx := x)];
    forall i | 0 <= i < |chain| ensures Follows(after, chain, i) {
      assert Follows(nodes, chain, i);
    }
    forall i | 0 <= i < |free| ensures Follows(after, free, i) {
      assert Follows(nodes, free, i);
    }
    forall i, j | 0 <= i < j < |chain| ensures Below(after, chain, i, j) {
      assert Below(nodes, chain, i, j);
    }
    var r :| 0 <= r < |chain| && chain[r] == n;
    OverwrittenEntry(nodes, chain, r, x);
  }

  lemma {:induction false} OverwrittenEntry(nodes: Level, chain: seq<nat>, r: nat, x: Index)
    requires SortedChain(nodes, chain) && r < |chain| && chain[r] < |nodes|
    ensures Rank(EntriesOf(nodes, chain), nodes[chain[r]].key) == r
    ensures EntriesOf(nodes[chain[r] := nodes[chain[r]].(idx := x)], chain)
         == EntriesOf(nodes, chain)[r := Entry(nodes[chain[r]].key, x)]
  {
    var es := EntriesOf(nodes, chain);
    assert es[r] == EntryAt(nodes, chain[r]);
    forall i | 0 <= i < |chain| && i != r ensures chain[i] != chain[r] && (i < r ==> es[i].key < es[r].key) && (r < i ==> es[r].key < es[i].key) {
      assert es[i] == EntryAt(nodes, chain[i]);
      assert if i < r then Below(nodes, chain, i, r) else Below(nodes, chain, r, i);
    }
    SplitRank(es, nodes[chain[r]].key, r);
  }

  // What pop_lvl_0 does to the nodes: n, the first of the chain, goes onto the free chain.
  ghost predicate IsPop(nodes: Level, after: Level, n: nat) {
    && 0 < n < |nodes| == |after|
    && after[0] == nodes[0].(next := nodes[n].next, bottom := n)
    && after[n] == nodes[n].(next := nodes[0].bottom)
    && forall m :: 0 < m < |nodes| && m != n ==> after[m] == nodes[m]
  }

  lemma {:induction false} PoppedChain(nodes: Level, after: Level, chain: seq<nat>)
    requires |nodes| > 0 && IsChain(nodes, nodes[0].next, chain) && SortedChain(nodes, chain) && chain != []
    requires IsPop(nodes, after, chain[0])
    ensures IsChain(after, after[0].next, chain[1..]) && SortedChain(after, chain[1..])
    ensures EntriesOf(after, chain[1..]) == EntriesOf(nodes, chain)[1..]
  {
    var n, chain' := chain[0], chain[1..];
    assert Follows(nodes, chain, 0);
    forall i | 0 <= i < |chain'|
      ensures chain'[i] < |nodes| && after[chain'[i]] == nodes[chain'[i]] && Follows(after, chain', i)
      ensures EntriesOf(after, chain')[i] == EntriesOf(nodes, chain)[i + 1]
    {
      assert Follows(nodes, chain, i + 1) && Below(nodes, chain, 0, i + 1);
    }
    forall i, j | 0 <= i < j < |chain'| ensures Below(after, chain', i, j) {
      assert Below(nodes, chain, i + 1, j + 1);
    }
  }

  lemma {:induction false} PoppedFree(nodes: Level, after: Level, free: seq<nat>, n: nat)
    requires |nodes| > 0 && IsChain(nodes, nodes[0].bottom, free) && Distinct(free) && n !in free
    requires IsPop(nodes, after, n)
    ensures IsChain(after, after[0].bottom, [n] + free) && Distinct([n] + free)
  {
    var free' := [n] + free;
    ChainInRange(nodes, nodes[0].bottom, free);
    forall i | 0 <= i < |free'| ensures Follows(after, free', i) {
      assert i > 0 ==> free[i - 1] in free && Follows(nodes, free, i - 1);
    }
    forall i, j | 0 <= i < j < |free'| ensures Differ(free', i, j) {
      assert free[j - 1] in free && (i > 0 ==> Differ(free, i - 1, j - 1));
    }
  }

  // Popping the first chain node puts it on the free chain.
  lemma {:induction false} PoppedLevel(nodes: Level, after: Level, chain: seq<nat>, free: seq<nat>)
    requires LevelOk(nodes, chain, free) && chain != []
    requires IsPop(nodes, after, chain[0])
    ensures LevelOk(after, chain[1..], [chain[0]] + free)
    ensures EntriesOf(after, chain[1..]) == EntriesOf(nodes, chain)[1..]
  {
    LevelPartition(nodes, chain, free);
    assert chain[0] in chain;
    PoppedChain(nodes, after, chain);
    PoppedFree(nodes, after, free, chain[0]);
    forall m | m in chain[1..] ensures m !in [chain[0]] + free {
      var i :| 0 <= i < |chain| - 1 && chain[i + 1] == m;
      assert Below(nodes, chain, 0, i + 1);
    }
  }

  class SkipList {
    const id: bv32
    var skData: seq<Level>
    var skCapacity: seq<int>
    ghost var chains: seq<seq<nat>>
    ghost var frees: seq<seq<nat>>

    ghost predicate Shape()
      reads this
    {
      |skData| == |skCapacity| == |chains| == |frees| == SKIP_LIST_MAX_HEIGHT
    }

    ghost predicate LevelValid(l: nat)
      requires Shape() && l < SKIP_LIST_MAX_HEIGHT
      reads this
    {
      && LevelOk(skData[l], chains[l], frees[l])
      && skData[l][0].key == 0
      && skCapacity[l] == |frees[l]| > 0
    }

    constructor (id: bv32)
      ensures Valid() && Entries() == [] && this.id == id
    {
      this.id := id;
      skData := seq(SKIP_LIST_MAX_HEIGHT, _ => []);
      skCapacity := seq(SKIP_LIST_MAX_HEIGHT, _ => 0);
      chains := seq(SKIP_LIST_MAX_HEIGHT, _ => []);
      frees := seq(SKIP_LIST_MAX_HEIGHT, _ => []);
      new;
      var i := 0;
      while i < SKIP_LIST_MAX_HEIGHT
        invariant 0 <= i <= SKIP_LIST_MAX_HEIGHT && Shape()
        invariant forall l :: 0 <= l < SKIP_LIST_MAX_HEIGHT ==> chains[l] == []
        invariant forall l :: 0 <= l < i ==> LevelValid(l)
      {
        label before:
        var nodes, capacity := InitLevel();
        skData := skData[i := nodes];
        skCapacity := skCapacity[i := capacity];
        frees := frees[i := Countdown(1, SKIP_LIST_INIT_CAPACITY - 1)];
        forall l | 0 <= l < i ensures LevelValid(l) {
          assert old@before(LevelValid(l));
        }
        i := i + 1;
      }
    }

    // Takes the first free node of the level and links it in after `p`.
    method InsertAfter(key: Key, index: Index, level: nat, p: nat, ghost pos: nat) returns (n: nat)
      requires Shape() && level < SKIP_LIST_MAX_HEIGHT && LevelValid(level)
      requires WalkEnd(skData[level], chains[level], key, p, pos)
      requires pos > 0 ==> p < |skData[level]| && skData[level][p].key < key
      modifies this
      ensures Shape() && LevelValid(level)
      ensures skData == old(skData)[level := skData[level]]
      ensures skCapacity == old(skCapacity)[level := skCapacity[level]]
      ensures frees == old(frees)[level := frees[level]]
      ensures chains == old(chains)[level := chains[level]]
      ensures 0 < n < |skData[level]|
      ensures LevelGains(old(skData[level]), skData[level], old(chains[level]), chains[level], pos, n, key, index)
    {
      var listLevel, capacity;
      ghost var free;
      n, listLevel, capacity, free :=
        InsertIntoLevel(skData[level], skCapacity[level], key, index, p, chains[level], frees[level], pos);
      skData := skData[level := listLevel];
      skCapacity := skCapacity[level := capacity];
      chains := chains[level := Inserted(chains[level], pos, n)];
      frees := frees[level := free];
    }

    // Level l + 1 leads down to level l, its node `but` (0 for none) aside.
    ghost predicate LinkValid(l: nat, but: nat)
      requires Shape() && l + 1 < SKIP_LIST_MAX_HEIGHT
      reads this
    {
      LinksDown(skData[l + 1], chains[l + 1], skData[l], chains[l], but)
    }

    ghost predicate Valid()
      reads this
    {
      && Shape()
      && (forall l :: 0 <= l < SKIP_LIST_MAX_HEIGHT ==> LevelValid(l))
      && (forall l :: 0 <= l < SKIP_LIST_MAX_HEIGHT - 1 ==> LinkValid(l, 0))
    }

    // What the list stores, in ascending key order.
    ghost function Entries(): seq<Entry>
      reads this
    {
      if Shape() then EntriesOf(skData[0], chains[0]) else []
    }

    lemma {:induction false} ValidIsSorted()
      requires Valid()
      ensures Sorted(Entries())
    {
      assert LevelValid(0);
      ChainInRange(skData[0], skData[0][0].next, chains[0]);
      SortedEntries(skData[0], chains[0]);
    }

    method GetHighestLevel() returns (ret: nat)
      requires Valid()
      ensures ret < SKIP_LIST_MAX_HEIGHT
      ensures forall l :: ret < l < SKIP_LIST_MAX_HEIGHT ==> chains[l] == []
      ensures ret > 0 ==> chains[ret] != []
    {
      ret := |skData| - 1;
      while ret > 0
        invariant ret < SKIP_LIST_MAX_HEIGHT
        invariant forall l :: ret < l < SKIP_LIST_MAX_HEIGHT ==> chains[l] == []
      {
        assert LevelValid(ret);
        HeadNext(skData[ret], chains[ret]);
        if skData[ret][0].next != 0 {
          break;
        }
        ret := ret - 1;
      }
    }

    // The way down from a node that carries `key`: its node on level 0.
    ghost predicate Carries(l: nat, key: Key, n: nat)
      requires Shape() && l < SKIP_LIST_MAX_HEIGHT
      reads this
    {
      n in chains[l] && 0 < n < |skData[l]| && skData[l][n].key == key
    }

    // Looks `key` up. The trace collects, level by level from the top, the node at which
    // each level was left; for an absent key that is the key's predecessor on the level.
    method Get(key: Key) returns (ret: int, arg: Index, trace: seq<nat>, ghost stops: seq<nat>)
      requires Valid()
      ensures ret == -1 <==> !HasKey(Entries(), key)
      ensures ret != -1 ==> ret > 0 && Carries(0, key, ret) && Find(Entries(), key) == Some(arg)
      ensures ret == -1 ==> |trace| > 0 && Aligned(trace, stops, SKIP_LIST_MAX_HEIGHT - 1, key)
    {
      ret, arg, trace, stops := -1, Index(0), [], [];
      var highest := GetHighestLevel();
      var lvl: int, curr: nat := highest, 0;
      ghost var pos: nat := 0;
      assert LevelValid(highest) && LevelValid(0);
      while lvl >= 0
        invariant -1 <= lvl <= highest && ret == -1
        invariant |trace| == |stops| == highest - lvl
        invariant forall l :: lvl < l <= highest ==>
                    StopsBefore(skData[l], chains[l], key, trace[highest - l], stops[highest - l])
        invariant lvl >= 0 ==> StartsAt(skData[lvl], chains[lvl], key, curr, pos)
      {
        assert LevelValid(lvl);
        curr, pos := Walk(skData[lvl], key, curr, chains[lvl], pos);
        if (curr != 0 || key != 0) && skData[lvl][curr].key == key {
          assert Carries(lvl, key, curr);
          while lvl > 0
            invariant 0 <= lvl <= highest && Carries(lvl, key, curr)
          {
            trace, stops := trace + [curr], stops + [pos];
            assert LinkValid(lvl - 1, 0) && LevelValid(lvl - 1) && LevelValid(lvl);
            assert LeadsDown(skData[lvl], curr, skData[lvl - 1], chains[lvl - 1]);
            ChainInRange(skData[lvl - 1], skData[lvl - 1][0].next, chains[lvl - 1]);
            curr := skData[lvl][curr].bottom;
            lvl := lvl - 1;
          }
          ret := curr;
          arg := skData[0][ret].idx;
          assert LevelValid(0);
          FoundEntry(skData[0], chains[0], ret);
          return;
        }
        trace, stops := trace + [curr], stops + [pos];
        if lvl > 0 {
          pos := StepDown(lvl, key, curr, pos);
        }
        if curr != 0 {
          curr := skData[lvl][curr].bottom;
        }
        lvl := lvl - 1;
      }
      NotFound(skData[0], chains[0], key, trace[highest], stops[highest]);
    }

    // Going down from a walk's end keeps the walk's meaning on the level below.
    lemma {:induction false} StepDown(lvl: nat, key: Key, curr: nat, pos: nat) returns (pos': nat)
      requires Valid() && 0 < lvl < SKIP_LIST_MAX_HEIGHT
      requires StopsBefore(skData[lvl], chains[lvl], key, curr, pos) && curr < |skData[lvl]|
      requires curr == 0 <==> pos == 0
      ensures StartsAt(skData[lvl - 1], chains[lvl - 1], key, if curr == 0 then 0 else skData[lvl][curr].bottom, pos')
    {
      pos' := 0;
      assert LevelValid(lvl - 1);
      if curr != 0 {
        assert LinkValid(lvl - 1, 0) && curr in chains[lvl];
        assert LeadsDown(skData[lvl], curr, skData[lvl - 1], chains[lvl - 1]);
        var i :| 0 <= i < |chains[lvl - 1]| && chains[lvl - 1][i] == skData[lvl][curr].bottom;
        pos' := i + 1;
      }
    }

    // The list while an insertion is on its way down: every level from lvl + 1 to the new
    // node's height holds the new node; prev, the one on level lvl + 1, awaits its link.
    ghost predicate Partial(lvl: int, prev: nat)
      reads this
    {
      && Shape()
      && (forall l :: 0 <= l < SKIP_LIST_MAX_HEIGHT ==> LevelValid(l))
      && (forall l :: 0 <= l < SKIP_LIST_MAX_HEIGHT - 1 && l != lvl ==> LinkValid(l, 0))
      && (0 <= lvl < SKIP_LIST_MAX_HEIGHT - 1 ==> LinkValid(lvl, prev))
    }

    // Every link holds but those of two nodes: prev on level lvl + 1 and n on level lvl.
    ghost predicate Gapped(lvl: nat, prev: nat, n: nat)
      reads this
    {
      && Shape()
      && (forall l :: 0 <= l < SKIP_LIST_MAX_HEIGHT ==> LevelValid(l))
      && (forall l :: 0 <= l < SKIP_LIST_MAX_HEIGHT - 1 && l != lvl && l != lvl - 1 ==> LinkValid(l, 0))
      && (0 < lvl < SKIP_LIST_MAX_HEIGHT ==> LinkValid(lvl - 1, n))
      && (lvl < SKIP_LIST_MAX_HEIGHT - 1 ==> LinkValid(lvl, prev))
    }

    // Inserts on level lvl, leaving the link from the level above to be made.
    method InsertOn(key: Key, index: Index, lvl: nat, p: nat, ghost pos: nat, ghost prev: nat) returns (n: nat)
      requires lvl < SKIP_LIST_MAX_HEIGHT && Partial(lvl, prev)
      requires StopsBefore(skData[lvl], chains[lvl], key, p, pos)
      modifies this
      ensures Gapped(lvl, prev, n) && Carries(lvl, key, n)
      ensures forall l :: 0 <= l < SKIP_LIST_MAX_HEIGHT && l != lvl ==> skData[l] == old(skData[l]) && chains[l] == old(chains[l])
      ensures Entries() == if lvl > 0 then old(Entries()) else Put(old(Entries()), key, index)
    {
      assert LevelValid(lvl) && (lvl > 0 ==> LinkValid(lvl - 1, 0));
      ghost var nodes, chain := skData[lvl], chains[lvl];
      n := InsertAfter(key, index, lvl, p, pos);
      assert chains[lvl][pos] == n;
      forall l | 0 <= l < SKIP_LIST_MAX_HEIGHT ensures LevelValid(l) {
        assert old(LevelValid(l));
      }
      forall l | 0 <= l < SKIP_LIST_MAX_HEIGHT - 1 && l != lvl && l != lvl - 1 ensures LinkValid(l, 0) {
        assert old(LinkValid(l, 0));
      }
      if lvl > 0 {
        LevelPartition(nodes, chain, old(frees[lvl]));
        UpperGains(nodes, skData[lvl], chain, chains[lvl], skData[lvl - 1], chains[lvl - 1], pos, n, key, index);
      }
      if lvl < SKIP_LIST_MAX_HEIGHT - 1 {
        LowerGains(skData[lvl + 1], chains[lvl + 1], nodes, skData[lvl], chain, chains[lvl], pos, n, key, index, prev);
      }
      GainedEntries(nodes, skData[lvl], chain, chains[lvl], p, pos, n, key, index);
    }

    // Builds the vertical link from prev, on level lvl + 1, to n.
    method Link(key: Key, lvl: nat, prev: nat, n: nat)
      requires lvl + 1 < SKIP_LIST_MAX_HEIGHT && Gapped(lvl, prev, n)
      requires Carries(lvl, key, n) && Carries(lvl + 1, key, prev)
      modifies this
      ensures Partial(lvl - 1, n)
      ensures chains == old(chains) && skData == old(skData)[lvl + 1 := skData[lvl + 1]]
    {
      assert LevelValid(lvl + 1) && LinkValid(lvl, prev);
      Relinked(skData[lvl + 1], chains[lvl + 1], frees[lvl + 1], prev, n);
      LinkMade(skData[lvl + 1], chains[lvl + 1], skData[lvl], chains[lvl], prev, n);
      skData := skData[lvl + 1 := skData[lvl + 1][prev := skData[lvl + 1][prev].(bottom := n)]];
      forall l | 0 <= l < SKIP_LIST_MAX_HEIGHT ensures LevelValid(l) {
        assert old(LevelValid(l));
      }
      forall l | 0 <= l < SKIP_LIST_MAX_HEIGHT - 1 && l != lvl - 1 ensures LinkValid(l, 0) {
        if l != lvl && l != lvl + 1 {
          assert old(LinkValid(l, 0));
        } else if l == lvl + 1 {
          assert old(LinkValid(l, 0));
          SameKeysBelow(skData[l + 1], chains[l + 1], old(skData[l]), skData[l], chains[l]);
        }
      }
      assert lvl > 0 ==> old(LinkValid(lvl - 1, n));
    }

    // Each draw raises the tower with some chance, up to the maximum.
    method GetInsertHeight() returns (k: nat)
      ensures 1 <= k <= SKIP_LIST_MAX_HEIGHT
    {
      k := 1;
      while k < SKIP_LIST_MAX_HEIGHT
        invariant 1 <= k <= SKIP_LIST_MAX_HEIGHT
      {
        if * {
          break;
        }
        k := k + 1;
      }
    }

    // Stores `index` under `key`, whatever height is drawn; returns the key's level-0 node.
    method Update(key: Key, index: Index) returns (ret: nat)
      requires Valid()
      modifies this
      ensures Valid()
      ensures Entries() == Upsert(old(Entries()), key, index, id)
      ensures Carries(0, key, ret)
    {
      var idx, arg, trace, stops := Get(key);
      if idx > 0 {
        ret := idx;
        Overwrite(key, arg.SetIdx(index.GetIdx()).SetFid(id), ret);
      } else {
        ValidIsSorted();
        FindIsHasKey(Entries(), key);
        ret := InsertTower(key, index, trace, stops);
      }
    }

    method Overwrite(key: Key, x: Index, n: nat)
      requires Valid() && Carries(0, key, n)
      modifies this
      ensures Valid() && Carries(0, key, n)
      ensures Entries() == Put(old(Entries()), key, x)
    {
      assert LevelValid(0);
      Overwritten(skData[0], chains[0], frees[0], n, x);
      skData := skData[0 := skData[0][n := skData[0][n].(idx := x)]];
      forall l | 0 < l < SKIP_LIST_MAX_HEIGHT ensures LevelValid(l) {
        assert old(LevelValid(l));
      }
      forall l | 0 <= l < SKIP_LIST_MAX_HEIGHT - 1 ensures LinkValid(l, 0) {
        assert old(LinkValid(l, 0));
        if l == 0 {
          SameKeysBelow(skData[1], chains[1], old(skData[0]), skData[0], chains[0]);
        }
      }
    }

    // The trace has, for every level below its length, the node to insert after on that
    // level, lowest level last; the levels from there up to lvl are empty.
    ghost predicate Aligned(trace: seq<nat>, stops: seq<nat>, lvl: int, key: Key)
      requires Shape() && -1 <= lvl < SKIP_LIST_MAX_HEIGHT
      reads this
    {
      && |trace| == |stops| <= SKIP_LIST_MAX_HEIGHT
      && (forall l :: 0 <= l < |trace| ==> AlignedAt(skData, chains, trace, stops, l, key))
      && (forall l :: |trace| <= l <= lvl ==> chains[l] == [])
    }

    // An insertion above the trace's levels leaves the trace aligned.
    lemma {:induction false} StillAligned(below: seq<Level>, belowChains: seq<seq<nat>>, trace: seq<nat>, stops: seq<nat>, lvl: nat, key: Key)
      requires Shape() && |trace| == |stops| <= lvl < SKIP_LIST_MAX_HEIGHT == |below| == |belowChains|
      requires forall l :: 0 <= l < lvl ==> skData[l] == below[l] && chains[l] == belowChains[l]
      requires forall l :: 0 <= l < |trace| ==> AlignedAt(below, belowChains, trace, stops, l, key)
      ensures forall l :: 0 <= l < |trace| ==> AlignedAt(skData, chains, trace, stops, l, key)
    {
      forall l | 0 <= l < |trace| ensures AlignedAt(skData, chains, trace, stops, l, key) {
        assert AlignedAt(below, belowChains, trace, stops, l, key);
      }
    }

    lemma {:induction false} PopAligned(trace: seq<nat>, stops: seq<nat>, lvl: int, key: Key)
      requires Shape() && -1 <= lvl < SKIP_LIST_MAX_HEIGHT && |trace| > lvl + 1
      requires Aligned(trace, stops, lvl, key)
      ensures Aligned(trace[1..], stops[1..], lvl, key)
    {
      forall l | 0 <= l < |trace| - 1 ensures AlignedAt(skData, chains, trace[1..], stops[1..], l, key) {
        assert AlignedAt(skData, chains, trace, stops, l, key);
      }
    }

    // Where to insert on level lvl: the front of the trace, if the trace reaches that high.
    method NextPoint(trace: seq<nat>, ghost stops: seq<nat>, lvl: nat, key: Key)
      returns (point: nat, rest: seq<nat>, ghost pos: nat, ghost restStops: seq<nat>)
      requires Shape() && lvl < SKIP_LIST_MAX_HEIGHT && Aligned(trace, stops, lvl, key)
      ensures |rest| == if |trace| > lvl then |trace| - 1 else |trace|
      ensures Aligned(rest, restStops, if |rest| > lvl then lvl else lvl - 1, key)
      ensures |rest| <= lvl ==> StopsBefore(skData[lvl], chains[lvl], key, point, pos)
    {
      point, pos, rest, restStops := 0, 0, trace, stops;
      if |trace| > lvl {
        point, pos := trace[0], stops[0];
        assert AlignedAt(skData, chains, trace, stops, |trace| - 1, key);
        PopAligned(trace, stops, if |trace| > lvl + 1 then lvl else lvl - 1, key);
        rest, restStops := trace[1..], stops[1..];
      }
    }

    // Where an insertion stands: down to lvl, with prev the node placed last (0 for none)
    // and the trace reaching no higher than lvl once a node has been placed.
    ghost predicate Descending(height: nat, lvl: int, prev: nat, trace: seq<nat>, stops: seq<nat>, key: Key)
      reads this
    {
      && -1 <= lvl < height <= SKIP_LIST_MAX_HEIGHT
      && Partial(lvl, prev)
      && Aligned(trace, stops, lvl, key)
      && (|trace| > lvl + 1 ==> prev == 0)
      && (lvl < height - 1 ==> prev != 0)
      && (prev != 0 ==> lvl + 1 < SKIP_LIST_MAX_HEIGHT && Carries(lvl + 1, key, prev))
    }

    // One turn of the loop past the trace: insert on level lvl and go down.
    method Place(key: Key, index: Index, height: nat, lvl: nat, p: nat, ghost pos: nat, prev: nat, ghost trace: seq<nat>, ghost stops: seq<nat>)
      returns (n: nat)
      requires lvl < height <= SKIP_LIST_MAX_HEIGHT && |trace| <= lvl
      requires Partial(lvl, prev) && Aligned(trace, stops, lvl - 1, key)
      requires prev != 0 ==> lvl + 1 < SKIP_LIST_MAX_HEIGHT && Carries(lvl + 1, key, prev)
      requires StopsBefore(skData[lvl], chains[lvl], key, p, pos)
      modifies this
      ensures Descending(height, lvl - 1, n, trace, stops, key) && n != 0
      ensures Entries() == if lvl > 0 then old(Entries()) else Put(old(Entries()), key, index)
    {
      ghost var below, belowChains := skData, chains;
      n := InsertOn(key, index, lvl, p, pos, prev);
      if prev != 0 {
        Link(key, lvl, prev, n);
      }
      StillAligned(below, belowChains, trace, stops, lvl, key);
    }

    method InsertTower(key: Key, index: Index, trace0: seq<nat>, ghost stops0: seq<nat>) returns (idx: nat)
      requires Valid() && Aligned(trace0, stops0, SKIP_LIST_MAX_HEIGHT - 1, key)
      modifies this
      ensures Valid() && Carries(0, key, idx)
      ensures Entries() == Put(old(Entries()), key, index)
    {
      var trace := trace0;
      ghost var stops := stops0;
      var height := GetInsertHeight();
      var insertLvl: int := height - 1;
      var prev: nat := 0;
      while insertLvl >= 0
        invariant Descending(height, insertLvl, prev, trace, stops, key)
        invariant Entries() == if insertLvl >= 0 then old(Entries()) else Put(old(Entries()), key, index)
        decreases insertLvl + |trace|
      {
        var point;
        ghost var pos;
        point, trace, pos, stops := NextPoint(trace, stops, insertLvl, key);
        if |trace| > insertLvl {
          continue;
        }
        prev := Place(key, index, height, insertLvl, point, pos, prev, trace, stops);
        insertLvl := insertLvl - 1;
      }
      idx := prev;
    }

    // How many nodes of level 0 the capacity says are taken.
    method CntNs() returns (ret: int)
      requires Valid()
      ensures ret == |Entries()|
    {
      assert LevelValid(0);
      ret := |skData[0]| - skCapacity[0] - 1;
    }

    // Level 0 alone is in order: all that is left to rely on once popping has begun.
    ghost predicate Drainable()
      reads this
    {
      Shape() && LevelOk(skData[0], chains[0], frees[0])
    }

    lemma {:induction false} ValidIsDrainable()
      requires Valid()
      ensures Drainable()
    {
      assert LevelValid(0);
    }

    method PopLvl0() returns (ret: Option<Entry>)
      requires Drainable()
      modifies this
      ensures Drainable()
      ensures ret == if old(Entries()) == [] then None else Some(old(Entries())[0])
      ensures Entries() == if old(Entries()) == [] then [] else old(Entries())[1..]
      ensures Entries() != old(Entries()) ==> |frees[0]| == old(|frees[0]|) + 1 && skCapacity == old(skCapacity)
    {
      ret := None;
      var data := skData[0];
      HeadNext(data, chains[0]);
      if data[0].next != 0 {
        LevelPartition(data, chains[0], frees[0]);
        assert chains[0][0] in chains[0] && (frees[0] != [] ==> frees[0][0] in frees[0]);
        var popIdx := data[0].next;
        data := data[0 := data[0].(next := data[popIdx].next)];
        data := data[popIdx := data[popIdx].(next := data[0].bottom)];
        data := data[0 := data[0].(bottom := popIdx)];
        ret := Some(Entry(data[popIdx].key, data[popIdx].idx));
        assert ret.value == EntryAt(skData[0], chains[0][0]) == Entries()[0];
        PoppedLevel(skData[0], data, chains[0], frees[0]);
        skData := skData[0 := data];
        chains := chains[0 := chains[0][1..]];
        frees := frees[0 := [popIdx] + frees[0]];
      }
    }

    method FrontLvl0() returns (ret: Option<Entry>)
      requires Drainable()
      ensures ret == if Entries() == [] then None else Some(Entries()[0])
    {
      ret := None;
      var data := skData[0];
      HeadNext(data, chains[0]);
      if data[0].next != 0 {
        assert Follows(data, chains[0], 0);
        ret := Some(Entry(data[data[0].next].key, data[data[0].next].idx));
        assert ret.value == EntryAt(skData[0], chains[0][0]);
      }
    }
  }

  // Any run of updates on a new list, then one lookup: whatever tower heights were drawn,
  // the key is found exactly when it was updated, with the idx of its last update.
  method GetAfterUpdates(ops: seq<Entry>, key: Key) returns (ret: int, arg: Index)
    ensures ret == -1 <==> key !in KeysOf(ops)
    ensures ret != -1 ==> arg.GetIdx() == LastIdx(ops, key) | TopBits(ops, key)
  {
    var list := new SkipList(0);
    var i := 0;
    while i < |ops|
      invariant 0 <= i <= |ops| && fresh(list)
      invariant list.Valid() && list.Entries() == Run(ops[..i], 0)
    {
      assert ops[..i + 1][..i] == ops[..i];
      var _ := list.Update(ops[i].key, ops[i].idx);
      i := i + 1;
    }
    assert ops[..i] == ops;
    var trace;
    ghost var stops;
    ret, arg, trace, stops := list.Get(key);
    RunStoresKeys(ops, 0, key);
    FindIsHasKey(list.Entries(), key);
    if ret != -1 {
      RunKeepsLast(ops, key);
    }
  }
}
