/** The hash index: open addressing whose step grows by one with every probe. */
module HashIndexes {
  import opened Counting
  import opened Modulo
  import opened Keys
  import opened Options
  import opened Indexes

  const HASH_TABLE_SIZE: nat := 68000000

  datatype KeyIdxPair = KeyIdxPair(key: Key, idx: Index)

  // 0 + 1 + ... + j.
  function Triangle(j: nat): nat {
    if j == 0 then 0 else Triangle(j - 1) + j
  }

  // Where probe j of a search that starts at slot h lands, in a table of n slots.
  function Probe(h: nat, j: nat, n: nat): (slot: nat)
    requires n > 0
    ensures slot < n
  {
    (h + Triangle(j)) % n
  }

  // The entry a search has before its probe c: the start, or where the last probe landed.
  function LastEntry(h: nat, c: nat, n: nat): nat
    requires n > 0
  {
    if c == 0 then h else Probe(h, c - 1, n)
  }

  lemma {:induction false} NextProbe(h: nat, c: nat, n: nat)
    requires n > 0
    ensures (LastEntry(h, c, n) + c) % n == Probe(h, c, n)
  {
    if c > 0 {
      ModStep(h + Triangle(c - 1), c, n);
    }
  }

  // Two numbers less than n apart have different remainders.
  lemma {:induction false} NearbyDiffer(x: nat, y: nat, n: nat)
    requires x < y < x + n
    ensures x % n != y % n
  {
    if x % n == y % n {
      var p, q := x / n, y / n;
      assert x == p * n + x % n && y == q * n + y % n;
      assert y - x == (q - p) * n by {
        assert (q - p) * n == q * n - p * n;
      }
      if q <= p {
        Monotone(q - p, 0, n);
      } else {
        Monotone(1, q - p, n);
      }
    }
  }

  lemma {:induction false} TriangleGrows(i: nat, j: nat)
    requires i < j
    ensures Triangle(i) < Triangle(j)
    decreases j
  {
    if i < j - 1 {
      TriangleGrows(i, j - 1);
    }
  }

  lemma {:induction false} TriangleIs(j: nat)
    ensures 2 * Triangle(j) == j * (j + 1)
  {
    if j > 0 {
      TriangleIs(j - 1);
    }
  }

  // The first m probes of a search hit pairwise distinct slots while m(m-1)/2 is below n.
  lemma {:induction false} ProbesDistinct(h: nat, i: nat, j: nat, m: nat, n: nat)
    requires i < j < m && (m - 1) * m / 2 < n
    ensures Probe(h, i, n) != Probe(h, j, n)
  {
    TriangleIs(m - 1);
    TriangleGrows(i, j);
    if j < m - 1 {
      TriangleGrows(j, m - 1);
    }
    Apart(h, Triangle(i), Triangle(j), n);
  }

  lemma {:induction false} Apart(h: nat, s: nat, t: nat, n: nat)
    requires s < t < s + n
    ensures (h + s) % n != (h + t) % n
  {
    NearbyDiffer(h + s, h + t, n);
  }

  // Probe j of the search for `key` meets a valid slot that holds another key.
  ghost predicate Passes(slots: seq<KeyIdxPair>, h: nat, key: Key, j: nat)
    requires slots != []
  {
    var pair := slots[Probe(h, j, |slots|)];
    pair.idx.IfValid() && pair.key != key
  }

  // The key sits at probe d of its search, and every probe before passes.
  ghost predicate Placed(slots: seq<KeyIdxPair>, h: nat, key: Key, d: nat)
    requires slots != []
  {
    && d < |slots|
    && slots[Probe(h, d, |slots|)].idx.IfValid()
    && slots[Probe(h, d, |slots|)].key == key
    && forall j :: 0 <= j < d ==> Passes(slots, h, key, j)
  }

  // Slot s, if valid, is where its key is placed.
  ghost predicate IsHome(slots: seq<KeyIdxPair>, hash: Key -> nat, depth: map<Key, nat>, s: nat)
    requires s < |slots|
  {
    slots[s].idx.IfValid() ==>
      slots[s].key in depth && Probe(hash(slots[s].key), depth[slots[s].key], |slots|) == s
  }

  // `depth` says, for each stored key, at which probe of its search it sits; every valid
  // slot is accounted for, so no key occupies two.
  ghost predicate TableOk(slots: seq<KeyIdxPair>, hash: Key -> nat, depth: map<Key, nat>) {
    && slots != []
    && (forall k :: k in depth ==> Placed(slots, hash(k), k, depth[k]))
    && (forall s :: 0 <= s < |slots| ==> IsHome(slots, hash, depth, s))
  }

  ghost function IndexOf(slots: seq<KeyIdxPair>, h: nat, d: nat): Index
    requires slots != []
  {
    slots[Probe(h, d, |slots|)].idx
  }

  // The map a table stands for.
  ghost function TableMap(slots: seq<KeyIdxPair>, hash: Key -> nat, depth: map<Key, nat>): map<Key, Index>
    requires slots != []
  {
    map k | k in depth :: IndexOf(slots, hash(k), depth[k])
  }

  // No probe of the search for `key` finds room: the source's assertion fires.
  ghost predicate Exhausted(slots: seq<KeyIdxPair>, h: nat, key: Key)
    requires slots != []
  {
    forall j :: 0 <= j < |slots| ==> Passes(slots, h, key, j)
  }

  // Where a search ends is where the key is, if it is stored at all.
  lemma {:induction false} SearchEnds(slots: seq<KeyIdxPair>, hash: Key -> nat, depth: map<Key, nat>, key: Key, cnt: nat)
    requires TableOk(slots, hash, depth) && cnt <= |slots|
    requires forall j :: 0 <= j < cnt ==> Passes(slots, hash(key), key, j)
    requires cnt < |slots| ==> !Passes(slots, hash(key), key, cnt)
    ensures key in depth <==> cnt < |slots| && slots[Probe(hash(key), cnt, |slots|)].idx.IfValid()
    ensures key in depth ==> depth[key] == cnt
  {
    if key in depth {
      var d := depth[key];
      assert Placed(slots, hash(key), key, d) && !Passes(slots, hash(key), key, d);
    }
    if cnt < |slots| && slots[Probe(hash(key), cnt, |slots|)].idx.IfValid() {
      assert IsHome(slots, hash, depth, Probe(hash(key), cnt, |slots|));
    }
  }

  // Writing a valid index to the slot a search ended at puts the key there and moves no other.
  lemma {:induction false} StoreKeepsTable(slots: seq<KeyIdxPair>, hash: Key -> nat, depth: map<Key, nat>, key: Key, cnt: nat, index: Index)
    requires TableOk(slots, hash, depth) && cnt < |slots| && index.IfValid()
    requires forall j :: 0 <= j < cnt ==> Passes(slots, hash(key), key, j)
    requires !Passes(slots, hash(key), key, cnt)
    ensures var slots' := slots[Probe(hash(key), cnt, |slots|) := KeyIdxPair(key, index)];
            && TableOk(slots', hash, depth[key := cnt])
            && TableMap(slots', hash, depth[key := cnt]) == TableMap(slots, hash, depth)[key := index]
  {
    var e := Probe(hash(key), cnt, |slots|);
    var slots', depth' := slots[e := KeyIdxPair(key, index)], depth[key := cnt];
    SearchEnds(slots, hash, depth, key, cnt);
    forall k | k in depth' ensures Placed(slots', hash(k), k, depth'[k]) {
      assert k != key ==> Placed(slots, hash(k), k, depth[k]);
      forall j | 0 <= j < depth'[k] ensures Passes(slots', hash(k), k, j) {
        assert Passes(slots, hash(k), k, j);
      }
    }
    forall s | 0 <= s < |slots| ensures IsHome(slots', hash, depth', s) {
      assert IsHome(slots, hash, depth, s);
    }
  }

  function KeyOn(slots: seq<KeyIdxPair>, h: nat, j: nat): Key
    requires slots != []
  {
    slots[Probe(h, j, |slots|)].key
  }

  lemma {:induction false} PassedKey(slots: seq<KeyIdxPair>, hash: Key -> nat, depth: map<Key, nat>, key: Key, j: nat)
    requires TableOk(slots, hash, depth) && Passes(slots, hash(key), key, j)
    ensures var k := KeyOn(slots, hash(key), j);
            k in depth && Probe(hash(k), depth[k], |slots|) == Probe(hash(key), j, |slots|)
  {
    assert IsHome(slots, hash, depth, Probe(hash(key), j, |slots|));
  }

  // Every probe a search passes holds a stored key of its own, as long as the probes differ.
  lemma {:induction false} PassedAreKeys(slots: seq<KeyIdxPair>, hash: Key -> nat, depth: map<Key, nat>, key: Key, m: nat)
    requires TableOk(slots, hash, depth) && 0 < m && (m - 1) * m / 2 < |slots|
    requires forall j :: 0 <= j < m ==> Passes(slots, hash(key), key, j)
    ensures m <= |depth|
  {
    var h := hash(key);
    var ks := seq(m, j requires 0 <= j < m => KeyOn(slots, h, j));
    forall i, j | 0 <= i < j < m ensures Differ(ks, i, j) {
      PassedKey(slots, hash, depth, key, i);
      PassedKey(slots, hash, depth, key, j);
      ProbesDistinct(h, i, j, m, |slots|);
    }
    DistinctSize(ks);
    forall k | k in Elements(ks) ensures k in depth {
      var j :| 0 <= j < m && ks[j] == k;
      PassedKey(slots, hash, depth, key, j);
    }
    SubsetSize(Elements(ks), depth.Keys);
  }

  // So the full-table assertion cannot fire while fewer than m keys are stored.
  lemma {:induction false} ExhaustedNeedsKeys(slots: seq<KeyIdxPair>, hash: Key -> nat, depth: map<Key, nat>, key: Key, m: nat)
    requires TableOk(slots, hash, depth) && Exhausted(slots, hash(key), key)
    requires 0 < m <= |slots| && (m - 1) * m / 2 < |slots|
    ensures m <= |depth|
  {
    PassedAreKeys(slots, hash, depth, key, m);
  }

  lemma {:induction false} ViewKeys(slots: seq<KeyIdxPair>, hash: Key -> nat, depth: map<Key, nat>)
    requires slots != []
    ensures TableMap(slots, hash, depth).Keys == depth.Keys
    ensures |TableMap(slots, hash, depth)| == |depth|
  {
    var view := TableMap(slots, hash, depth);
    assert view.Keys == depth.Keys;
    assert |view| == |view.Keys| && |depth| == |depth.Keys|;
  }

  // A key that is stored is never without room.
  lemma {:induction false} StoredNotExhausted(slots: seq<KeyIdxPair>, hash: Key -> nat, depth: map<Key, nat>, key: Key)
    requires TableOk(slots, hash, depth) && key in depth
    ensures !Exhausted(slots, hash(key), key)
  {
    assert Placed(slots, hash(key), key, depth[key]);
    assert !Passes(slots, hash(key), key, depth[key]);
  }

  // With the configured size that is 11662 keys.
  lemma {:induction false} ConfiguredRoom(slots: seq<KeyIdxPair>, hash: Key -> nat, depth: map<Key, nat>, key: Key)
    requires |slots| == HASH_TABLE_SIZE && TableOk(slots, hash, depth) && |depth| < 11662
    ensures !Exhausted(slots, hash(key), key)
  {
    if Exhausted(slots, hash(key), key) {
      ExhaustedNeedsKeys(slots, hash, depth, key, 11662);
    }
  }

  class IndexHashMap {
    const hash: Key -> nat
    const data: array<KeyIdxPair>
    ghost var depth: map<Key, nat>

    ghost predicate Valid()
      reads this, data
    {
      TableOk(data[..], hash, depth) && forall k: Key :: hash(k) < data.Length
    }

    ghost function View(): map<Key, Index>
      requires Valid()
      reads this, data
    {
      TableMap(data[..], hash, depth)
    }

    constructor (hash: Key -> nat, size: nat)
      requires size > 0 && forall k: Key :: hash(k) < size
      ensures Valid() && View() == map[] && data.Length == size && this.hash == hash && fresh(data)
    {
      this.hash := hash;
      data := new KeyIdxPair[size](_ => KeyIdxPair(0, Index(0)));
      depth := map[];
      new;
      forall s | 0 <= s < |data[..]| ensures IsHome(data[..], hash, depth, s) {
        assert data[..][s] == KeyIdxPair(0, Index(0));
        NothingValid();
      }
    }

    // The probe loop that update and get share: on to the first slot that is invalid or
    // the key's own, or through as many probes as there are slots.
    method Search(key: Key) returns (entry: nat, searchCnt: nat)
      requires Valid()
      ensures searchCnt <= data.Length
      ensures forall j :: 0 <= j < searchCnt ==> Passes(data[..], hash(key), key, j)
      ensures searchCnt < data.Length ==>
                entry == Probe(hash(key), searchCnt, data.Length) && !Passes(data[..], hash(key), key, searchCnt)
      ensures entry < data.Length
    {
      var size := data.Length;
      ghost var slots := data[..];
      entry := hash(key);
      searchCnt := 0;
      while searchCnt < size
        invariant searchCnt <= size && entry < size
        invariant entry == LastEntry(hash(key), searchCnt, size)
        invariant forall j :: 0 <= j < searchCnt ==> Passes(slots, hash(key), key, j)
      {
        NextProbe(hash(key), searchCnt, size);
        entry := (entry + searchCnt) % size;
        assert data[entry] == slots[Probe(hash(key), searchCnt, size)];
        if !data[entry].idx.IfValid() || data[entry].key == key {
          break;
        }
        searchCnt := searchCnt + 1;
      }
    }

    method Store(key: Key, searchCnt: nat, index: Index)
      requires Valid() && searchCnt < data.Length && index.IfValid()
      requires forall j :: 0 <= j < searchCnt ==> Passes(data[..], hash(key), key, j)
      requires !Passes(data[..], hash(key), key, searchCnt)
      modifies this, data
      ensures Valid() && View() == old(View())[key := index]
    {
      ghost var slots := data[..];
      var entry := Probe(hash(key), searchCnt, data.Length);
      StoreKeepsTable(slots, hash, depth, key, searchCnt, index);
      data[entry] := KeyIdxPair(key, index);
      assert data[..] == slots[entry := KeyIdxPair(key, index)];
      depth := depth[key := searchCnt];
    }

    // Stores the index, marked as hashed, under the key, and returns how many probes passed;
    // None stands for the assertion that the table is full.
    method Update(key: Key, index: Index) returns (ret: Option<nat>)
      requires Valid()
      modifies this, data
      ensures Valid()
      ensures ret.None? <==> old(Exhausted(data[..], hash(key), key))
      ensures ret.None? ==> data[..] == old(data[..])
      ensures View() == if ret.None? then old(View()) else old(View())[key := index.SetInHash(true)]
      ensures ret.Some? ==> ret.value < data.Length && !old(Passes(data[..], hash(key), key, ret.value))
      ensures ret.Some? ==> forall j :: 0 <= j < ret.value ==> old(Passes(data[..], hash(key), key, j))
    {
      var entry, searchCnt := Search(key);
      if searchCnt == data.Length {
        return None;
      }
      var pair := data[entry];
      if !pair.idx.IfValid() {
        pair := pair.(key := key);
      }
      pair := pair.(idx := index);
      pair := pair.(idx := pair.idx.SetInHash(true));
      Store(key, searchCnt, pair.idx);
      ret := Some(searchCnt);
    }

    // Looks the key up; None is the source's -1.
    method Get(key: Key) returns (ret: Option<Index>)
      requires Valid()
      ensures ret == if key in View() then Some(View()[key]) else None
    {
      var entry, searchCnt := Search(key);
      SearchEnds(data[..], hash, depth, key, searchCnt);
      if !data[entry].idx.IfValid() || searchCnt >= data.Length {
        return None;
      }
      ret := Some(data[entry].idx);
    }
  }

  lemma {:induction false} NothingValid()
    ensures !Index(0).IfValid()
  {
  }
}
