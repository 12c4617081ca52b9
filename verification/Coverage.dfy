/** Which slots the hash index's searches can reach: all of them exactly when the table's size
    is a power of two. */
module Coverage {
  import opened Counting
  import opened Modulo
  import opened PowersOfTwo
  import opened Keys
  import opened Indexes
  import opened HashIndexes

  lemma {:induction false} SameRemainder(x: int, y: int, d: int, m: nat)
    requires m > 0 && x == y + m * d
    ensures x % m == y % m
  {
    var q := y / m;
    assert y == q * m + y % m;
    assert x == (q + d) * m + y % m by {
      assert (q + d) * m == q * m + d * m;
    }
    ModIs(x, q + d, y % m, m);
  }

  // Numbers with the same remainder are a multiple apart.
  lemma {:induction false} MultipleApart(x: nat, y: nat, n: nat) returns (q: nat)
    requires n > 0 && x <= y && x % n == y % n
    ensures y - x == n * q
  {
    var d := y / n - x / n;
    assert x == n * (x / n) + x % n && y == n * (y / n) + y % n;
    assert n * d == n * (y / n) - n * (x / n);
    if d < 0 {
      Monotone(d, -1, n);
    }
    q := d;
  }

  lemma {:induction false} TriangleApart(i: nat, j: nat)
    requires i <= j
    ensures (j - i) * (i + j + 1) == 2 * (Triangle(j) - Triangle(i))
  {
    TriangleIs(i);
    TriangleIs(j);
  }

  lemma {:induction false} AtLeastOnce(x: nat, p: nat, r: nat)
    requires 0 < x && x == p * r
    ensures x >= p
  {
    if r > 0 {
      Monotone(1, r, p);
    }
  }

  // Of two factors whose sum is odd one is odd, so a power of two that divides their product
  // divides the other; here that one is too small.
  lemma {:induction false} NotMultiple(a: nat, b: nat, k: nat, q: nat)
    requires 0 < a < Pow2(k) && 0 < b < Pow2(k) && (a + b) % 2 == 1
    ensures a * b != Pow2(k) * q
  {
    if a * b == Pow2(k) * q {
      if a % 2 == 1 {
        var r := OddFactor(k, a, b, q);
        AtLeastOnce(b, Pow2(k), r);
      } else {
        Commute(a, b);
        var r := OddFactor(k, b, a, q);
        AtLeastOnce(a, Pow2(k), r);
      }
    }
  }

  lemma {:induction false} Commute(a: nat, b: nat)
    ensures a * b == b * a
  {
  }

  lemma {:induction false} TrianglesNotMultiple(i: nat, j: nat, k: nat, q: nat)
    requires i < j < Pow2(k)
    ensures Triangle(j) - Triangle(i) != Pow2(k) * q
  {
    TriangleApart(i, j);
    HalfProduct(Pow2(k), q);
    assert Pow2(k + 1) == 2 * Pow2(k);
    NotMultiple(j - i, i + j + 1, k + 1, q);
  }

  // With a power of two, no slot is met twice within n probes.
  lemma {:induction false} PowerDistinct(h: nat, i: nat, j: nat, k: nat, n: nat)
    requires n == Pow2(k) && i < j < n
    ensures Probe(h, i, n) != Probe(h, j, n)
  {
    TriangleGrows(i, j);
    if Probe(h, i, n) == Probe(h, j, n) {
      var q := MultipleApart(h + Triangle(i), h + Triangle(j), n);
      TrianglesNotMultiple(i, j, k, q);
    }
  }

  // A search from slot h comes by slot s.
  ghost predicate Visits(h: nat, s: nat, n: nat)
    requires n > 0
  {
    exists j: nat :: j < n && Probe(h, j, n) == s
  }

  function Probes(h: nat, n: nat): (r: seq<nat>)
    requires n > 0
    ensures |r| == n && forall j :: 0 <= j < n ==> r[j] == Probe(h, j, n)
  {
    seq(n, j requires 0 <= j < n => Probe(h, j, n))
  }

  lemma {:induction false} PowerProbesDiffer(h: nat, k: nat, n: nat)
    requires n == Pow2(k)
    ensures Distinct(Probes(h, n))
  {
    forall i, j | 0 <= i < j < n ensures Differ(Probes(h, n), i, j) {
      PowerDistinct(h, i, j, k, n);
    }
  }

  lemma {:induction false} PowerVisits(h: nat, k: nat, n: nat, s: nat)
    requires n == Pow2(k) && s < n
    ensures Visits(h, s, n)
  {
    PowerProbesDiffer(h, k, n);
    var probes := Probes(h, n);
    Pigeonhole(probes, 0, n);
    assert s in probes;
    var j :| 0 <= j < n && probes[j] == s;
    assert Probe(h, j, n) == s;
  }

  // The remainders of the first c triangular numbers.
  function Residues(m: nat, c: nat): (r: set<nat>)
    requires m > 0
    ensures |r| <= c
    ensures forall j: nat :: j < c ==> Triangle(j) % m in r
  {
    if c == 0 then {} else Residues(m, c - 1) + {Triangle(c - 1) % m}
  }

  // Modulo an odd number the triangular numbers repeat with that period ...
  lemma {:induction false} TrianglePeriod(j: nat, m: nat)
    requires m % 2 == 1
    ensures Triangle(j + m) % m == Triangle(j) % m
  {
    var c := (m + 1) / 2;
    TriangleIs(j);
    TriangleIs(j + m);
    PeriodSum(j, m, c);
    SameRemainder(Triangle(j + m), Triangle(j), j + c, m);
  }

  lemma {:induction false} PeriodSum(j: nat, m: nat, c: nat)
    requires m + 1 == 2 * c
    ensures (j + m) * (j + m + 1) == j * (j + 1) + 2 * (m * (j + c))
  {
    assert m * (2 * c) == 2 * (m * c);
    assert m * (j + c) == m * j + m * c;
  }

  // ... and read the same backwards within it.
  lemma {:induction false} TriangleMirror(j: nat, m: nat)
    requires m % 2 == 1 && j < m
    ensures Triangle(m - 1 - j) % m == Triangle(j) % m
  {
    var c := m / 2;
    TriangleIs(j);
    TriangleIs(m - 1 - j);
    MirrorSum(j, m, c);
    SameRemainder(Triangle(m - 1 - j), Triangle(j), c - j, m);
  }

  lemma {:induction false} MirrorSum(j: nat, m: nat, c: nat)
    requires m == 2 * c + 1 && j < m
    ensures (m - 1 - j) * (m - j) == j * (j + 1) + 2 * (m * (c - j))
  {
    assert (m - 1 - j) * (m - j) == (2 * c - j) * (2 * c + 1 - j);
    assert m * (c - j) == (2 * c + 1) * c - (2 * c + 1) * j;
  }

  // So they meet at most (m + 1) / 2 of the m residues.
  lemma {:induction false} TriangleResidue(j: nat, m: nat)
    requires m % 2 == 1
    ensures Triangle(j) % m in Residues(m, (m + 1) / 2)
    decreases j
  {
    if j >= m {
      TriangleResidue(j - m, m);
      TrianglePeriod(j - m, m);
    } else if j >= (m + 1) / 2 {
      TriangleMirror(j, m);
    }
  }

  lemma {:induction false} MissedResidue(m: nat) returns (r: nat)
    requires m % 2 == 1 && m > 1
    ensures r < m && r !in Residues(m, (m + 1) / 2)
  {
    if Range(0, m) <= Residues(m, (m + 1) / 2) {
      SubsetSize(Range(0, m), Residues(m, (m + 1) / 2));
    }
    r :| r in Range(0, m) && r !in Residues(m, (m + 1) / 2);
  }

  lemma {:induction false} WrappedOffset(h: nat, t: nat, n: nat, m: nat, c: nat)
    requires m > 0 && n == c * m && n > 0
    ensures ((h + t) % n - h) % m == t % m
  {
    var q := (h + t) / n;
    assert h + t == n * q + (h + t) % n;
    assert n * q == m * (c * q);
    SameRemainder((h + t) % n - h, t, -(c * q), m);
  }

  // In a table whose size an odd number divides, a search never comes by a slot whose distance
  // from its start is none of the few residues.
  lemma {:induction false} UnreachableSlots(h: nat, j: nat, n: nat, m: nat, c: nat, s: nat)
    requires m % 2 == 1 && n == c * m && n > 0
    requires (s - h) % m !in Residues(m, (m + 1) / 2)
    ensures Probe(h, j, n) != s
  {
    WrappedOffset(h, Triangle(j), n, m, c);
    TriangleResidue(j, m);
  }

  lemma {:induction false} MissedSlot(h: nat, n: nat, m: nat, c: nat, r: nat) returns (s: nat)
    requires m % 2 == 1 && n == c * m && n > 0 && r < m && r !in Residues(m, (m + 1) / 2)
    ensures s < n && (s - h) % m !in Residues(m, (m + 1) / 2)
  {
    s := (h + r) % n;
    WrappedOffset(h, r, n, m, c);
    ModIs(r, 0, r, m);
  }

  lemma {:induction false} OtherSizesMiss(h: nat, n: nat) returns (s: nat)
    requires n > 0 && !IsPowerOfTwo(n)
    ensures s < n && forall j: nat :: Probe(h, j, n) != s
  {
    var k, m := OddPart(n);
    var c := Pow2(k);
    var r := MissedResidue(m);
    s := MissedSlot(h, n, m, c, r);
    forall j: nat ensures Probe(h, j, n) != s {
      UnreachableSlots(h, j, n, m, c, s);
    }
  }

  // A search comes by every slot, wherever it starts, exactly when the table's size is a power
  // of two.
  lemma {:induction false} VisitsAllExactly(h: nat, n: nat)
    requires n > 0
    ensures (forall s: nat :: s < n ==> Visits(h, s, n)) <==> IsPowerOfTwo(n)
  {
    if k: nat :| n == Pow2(k) {
      forall s: nat | s < n ensures Visits(h, s, n) {
        PowerVisits(h, k, n, s);
      }
    } else {
      var s := OtherSizesMiss(h, n);
      assert !Visits(h, s, n);
    }
  }

  // The configured size is none: slot h + 2 is on no search that starts at h.
  lemma {:induction false} ConfiguredSizeMisses(h: nat, j: nat)
    ensures Probe(h, j, HASH_TABLE_SIZE) != (h + 2) % HASH_TABLE_SIZE
  {
    var s := (h + 2) % HASH_TABLE_SIZE;
    WrappedOffset(h, 2, HASH_TABLE_SIZE, 5, 13600000);
    ResiduesModFive();
    UnreachableSlots(h, j, HASH_TABLE_SIZE, 5, 13600000, s);
  }

  lemma {:induction false} ResiduesModFive()
    ensures Residues(5, 3) == {0, 1, 3}
  {
    assert Triangle(0) == 0 && Triangle(1) == 1 && Triangle(2) == 3;
    assert Residues(5, 1) == {0} && Residues(5, 2) == {0, 1};
  }

  // A free slot, although the search for a key not stored finds no room.
  ghost predicate HasRoom(slots: seq<KeyIdxPair>) {
    exists s :: 0 <= s < |slots| && !slots[s].idx.IfValid()
  }

  // With a power of two, a search without an end means a full table.
  lemma {:induction false} ExhaustedIsFull(slots: seq<KeyIdxPair>, h: nat, key: Key, s: nat)
    requires slots != [] && IsPowerOfTwo(|slots|) && Exhausted(slots, h, key) && s < |slots|
    ensures slots[s].idx.IfValid() && slots[s].key != key
  {
    VisitsAllExactly(h, |slots|);
    assert Visits(h, s, |slots|);
    var j: nat :| j < |slots| && Probe(h, j, |slots|) == s;
    assert Passes(slots, h, key, j);
  }

  ghost predicate SameHash(hash: Key -> nat, h: nat) {
    forall k: Key :: hash(k) == h
  }

  // When all keys hash alike, a table without room for a key has a free slot all the same,
  // exactly when its size is no power of two.
  lemma {:induction false} ExhaustedWithRoom(slots: seq<KeyIdxPair>, hash: Key -> nat, depth: map<Key, nat>, h: nat, key: Key)
    requires TableOk(slots, hash, depth) && SameHash(hash, h) && Exhausted(slots, hash(key), key)
    ensures HasRoom(slots) <==> !IsPowerOfTwo(|slots|)
  {
    if IsPowerOfTwo(|slots|) {
      forall s | 0 <= s < |slots| ensures slots[s].idx.IfValid() {
        ExhaustedIsFull(slots, hash(key), key, s);
      }
    } else {
      var s := OtherSizesMiss(h, |slots|);
      assert IsHome(slots, hash, depth, s);
      assert !slots[s].idx.IfValid();
    }
  }

  ghost function HomeOf(hash: Key -> nat, depth: map<Key, nat>, n: nat, k: Key): nat
    requires n > 0
  {
    if k in depth then Probe(hash(k), depth[k], n) else 0
  }

  // No more keys than slots.
  lemma {:induction false} KeysAtMostSlots(slots: seq<KeyIdxPair>, hash: Key -> nat, depth: map<Key, nat>, ks: seq<Key>)
    requires TableOk(slots, hash, depth) && Distinct(ks) && forall k :: k in ks ==> k in depth
    ensures |ks| <= |slots|
  {
    var n := |slots|;
    var homes := seq(|ks|, i requires 0 <= i < |ks| => HomeOf(hash, depth, n, ks[i]));
    forall i, j | 0 <= i < j < |homes| ensures Differ(homes, i, j) {
      assert Placed(slots, hash(ks[i]), ks[i], depth[ks[i]]) && Placed(slots, hash(ks[j]), ks[j], depth[ks[j]]);
      assert Differ(ks, i, j);
    }
    DistinctSize(homes);
    forall s | s in Elements(homes) ensures s in Range(0, n) {
      var i :| 0 <= i < |homes| && homes[i] == s;
      assert ks[i] in ks;
    }
    SubsetSize(Elements(homes), Range(0, n));
  }

  function FirstKeys(n: nat): (r: seq<Key>)
    requires n < 0x1_0000_0000_0000_0000
    ensures |r| == n && forall i :: 0 <= i < n ==> r[i] == i
  {
    seq(n, i requires 0 <= i < n => i)
  }

  lemma {:induction false} FirstKeysDiffer(n: nat)
    requires n < 0x1_0000_0000_0000_0000
    ensures Distinct(FirstKeys(n))
  {
    forall i, j | 0 <= i < j < n ensures Differ(FirstKeys(n), i, j) {
    }
  }

  // When the first n keys are stored, n is at most the number of slots.
  lemma {:induction false} RoomForFirst(slots: seq<KeyIdxPair>, hash: Key -> nat, depth: map<Key, nat>, n: nat)
    requires TableOk(slots, hash, depth) && n < 0x1_0000_0000_0000_0000 && HoldsFirst(depth.Keys, n)
    ensures n <= |slots|
  {
    FirstKeysDiffer(n);
    forall k | k in FirstKeys(n) ensures k in depth {
      assert KeyHeld(depth.Keys, n, k);
    }
    KeysAtMostSlots(slots, hash, depth, FirstKeys(n));
  }

  ghost predicate KeyHeld(ks: set<Key>, n: nat, k: Key) {
    k in ks <==> k < n
  }

  ghost predicate HoldsFirst(ks: set<Key>, n: nat) {
    forall k: Key :: KeyHeld(ks, n, k)
  }

  lemma {:induction false} HoldsNext(ks: set<Key>, n: Key, m: nat)
    requires HoldsFirst(ks, n) && m == n + 1
    ensures HoldsFirst(ks + {n}, m)
  {
    forall k: Key ensures KeyHeld(ks + {n}, m, k) {
      assert KeyHeld(ks, n, k);
    }
  }

  // The table has `size` slots and holds the keys below `key`, which all hash to h.
  ghost predicate FilledTo(table: IndexHashMap, h: nat, size: nat, key: nat)
    reads table, table.data
  {
    && table.Valid() && table.data.Length == size && SameHash(table.hash, h)
    && key <= size && HoldsFirst(table.View().Keys, key)
  }

  // Stores the next key, if there is room for it.
  method FillOne(table: IndexHashMap, ghost h: nat, ghost size: nat, key: Key) returns (full: bool)
    requires FilledTo(table, h, size, key) && size < 0xffff_ffff_ffff_ffff
    modifies table, table.data
    ensures FilledTo(table, h, size, if full then key else key + 1)
    ensures full ==> Exhausted(table.data[..], table.hash(key), key)
  {
    ghost var view, n := table.View(), key as nat + 1;
    var ret := table.Update(key, Index(0));
    full := ret.None?;
    if !full {
      assert table.View().Keys == view.Keys + {key};
      HoldsNext(view.Keys, key, n);
      ViewKeys(table.data[..], table.hash, table.depth);
      RoomForFirst(table.data[..], table.hash, table.depth, n);
    }
  }

  // Updates an empty table, whose keys all hash to h, with one key after the other until there
  // is no room for the next. A free slot is left exactly when the size is no power of two.
  method FillUp(h: nat, size: nat) returns (table: IndexHashMap, key: Key)
    requires h < size < 0xffff_ffff_ffff_ffff
    ensures fresh(table) && fresh(table.data) && table.Valid() && table.data.Length == size
    ensures HoldsFirst(table.View().Keys, key) && Exhausted(table.data[..], table.hash(key), key)
    ensures HasRoom(table.data[..]) <==> !IsPowerOfTwo(size)
  {
    table := new IndexHashMap(_ => h, size);
    key := 0;
    var full := false;
    forall k: Key ensures KeyHeld(table.View().Keys, 0, k) {
    }
    while !full
      invariant fresh(table) && fresh(table.data) && FilledTo(table, h, size, key)
      invariant full ==> Exhausted(table.data[..], table.hash(key), key)
      decreases !full, size - key
    {
      full := FillOne(table, h, size, key);
      if !full {
        key := key + 1;
      }
    }
    ExhaustedWithRoom(table.data[..], table.hash, table.depth, h, key);
  }
}
