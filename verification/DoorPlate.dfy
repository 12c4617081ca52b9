/** The key table of the example engine: open addressing, one step at a time, with wrap-around. */
module DoorPlates {
  import opened Counting
  import opened Modulo
  import opened ByteStrings
  import opened EngineTypes

  const MAX_KEY_LEN: nat := 32

  const NO_LOCATION := Location(0, 0, 0)

  // `key` is a fixed array of 32 bytes, of which the first keySize count.
  datatype Item = Item(location: Location, key: Bytes, keySize: nat, inUse: bool)

  function Zeros(n: nat): (r: Bytes)
    ensures |r| == n
  {
    seq(n, _ => 0)
  }

  // An item of a freshly cleared table.
  function Blank(): Item {
    Item(NO_LOCATION, Zeros(MAX_KEY_LEN), 0, false)
  }

  ghost predicate ItemOk(x: Item) {
    |x.key| == MAX_KEY_LEN && x.keySize <= MAX_KEY_LEN && (!x.inUse ==> x.keySize == 0 && x.location == NO_LOCATION)
  }

  function NameOf(x: Item): Bytes {
    if x.keySize <= |x.key| then x.key[..x.keySize] else []
  }

  predicate ItemKeyMatch(x: Item, target: Bytes) {
    |target| == x.keySize && NameOf(x) == target
  }

  predicate ItemTryPlace(x: Item, target: Bytes) {
    !x.inUse || ItemKeyMatch(x, target)
  }

  // Slot d steps from where probing starts.
  function Step(h: nat, d: nat, n: nat): (slot: nat)
    requires n > 0
    ensures slot < n
  {
    (h + d) % n
  }

  // Probing starts at the hash modulo the table size and goes on slot by slot, round the end.
  lemma {:induction false} NextStep(h: nat, d: nat, n: nat)
    requires n > 0
    ensures Step(h, 0, n) == h % n && Step(h, d + 1, n) == (Step(h, d, n) + 1) % n
  {
    ModStep(h + d, 1, n);
  }

  ghost predicate Passes(items: seq<Item>, h: nat, key: Bytes, d: nat)
    requires items != []
  {
    !ItemTryPlace(items[Step(h, d, |items|)], key)
  }

  ghost predicate AllPass(items: seq<Item>, h: nat, key: Bytes, d: nat)
    requires items != []
  {
    forall j :: 0 <= j < d ==> Passes(items, h, key, j)
  }

  // Probing for `key` stops after d steps.
  ghost predicate StopsAt(items: seq<Item>, h: nat, key: Bytes, d: nat)
    requires items != []
  {
    d < |items| && AllPass(items, h, key, d) && !Passes(items, h, key, d)
  }

  // `key` sits d steps from its start, behind items of other keys only.
  ghost predicate Placed(items: seq<Item>, h: nat, key: Bytes, d: nat)
    requires items != []
  {
    && d < |items|
    && items[Step(h, d, |items|)].inUse && NameOf(items[Step(h, d, |items|)]) == key
    && AllPass(items, h, key, d)
  }

  ghost predicate IsHome(items: seq<Item>, hash: Bytes -> nat, depth: map<Bytes, nat>, s: nat)
    requires s < |items|
  {
    && ItemOk(items[s])
    && (items[s].inUse ==>
      NameOf(items[s]) in depth && Step(hash(NameOf(items[s])), depth[NameOf(items[s])], |items|) == s)
  }

  // `depth` says for each stored key how many steps it sits from its start.
  ghost predicate TableOk(items: seq<Item>, hash: Bytes -> nat, depth: map<Bytes, nat>) {
    && items != []
    && (forall k :: k in depth ==> |k| <= MAX_KEY_LEN && Placed(items, hash(k), k, depth[k]))
    && (forall s :: 0 <= s < |items| ==> IsHome(items, hash, depth, s))
  }

  ghost function LocationAt(items: seq<Item>, h: nat, d: nat): Location
    requires items != []
  {
    items[Step(h, d, |items|)].location
  }

  ghost function TableMap(items: seq<Item>, hash: Bytes -> nat, depth: map<Bytes, nat>): map<Bytes, Location>
    requires items != []
  {
    map k | k in depth :: LocationAt(items, hash(k), depth[k])
  }

  // Every slot is some number of steps away, less than a full round.
  function StepsTo(h: nat, s: nat, n: nat): (d: nat)
    requires n > 0 && s < n
    ensures d < n
  {
    if h % n <= s then s - h % n else s + n - h % n
  }

  lemma {:induction false} StepsReach(h: nat, s: nat, n: nat)
    requires n > 0 && s < n
    ensures Step(h, StepsTo(h, s, n), n) == s
  {
    var d, q := StepsTo(h, s, n), h / n;
    assert h == q * n + h % n;
    if h % n <= s {
      ModIs(h + d, q, s, n);
    } else {
      assert (q + 1) * n == q * n + n;
      ModIs(h + d, q + 1, s, n);
    }
  }

  ghost predicate TakenByOther(items: seq<Item>, key: Bytes, s: nat)
    requires s < |items|
  {
    items[s].inUse && NameOf(items[s]) != key
  }

  // Each slot is in use by some other key.
  ghost predicate FullFor(items: seq<Item>, key: Bytes) {
    forall s :: 0 <= s < |items| ==> TakenByOther(items, key, s)
  }

  // A full round that passes everywhere has seen every slot.
  lemma {:induction false} RoundSeesAll(items: seq<Item>, hash: Bytes -> nat, depth: map<Bytes, nat>, key: Bytes)
    requires TableOk(items, hash, depth)
    ensures AllPass(items, hash(key), key, |items|) <==> FullFor(items, key)
  {
    if AllPass(items, hash(key), key, |items|) {
      forall s | 0 <= s < |items| ensures TakenByOther(items, key, s) {
        StepsReach(hash(key), s, |items|);
        assert Passes(items, hash(key), key, StepsTo(hash(key), s, |items|));
        assert IsHome(items, hash, depth, s);
      }
    }
    if FullFor(items, key) {
      forall d | 0 <= d < |items| ensures Passes(items, hash(key), key, d) {
        assert TakenByOther(items, key, Step(hash(key), d, |items|));
      }
    }
  }

  // Where probing stops: at the key's own item if it is stored, otherwise at an unused one.
  lemma {:induction false} ProbeEnds(items: seq<Item>, hash: Bytes -> nat, depth: map<Bytes, nat>, key: Bytes, d: nat)
    requires TableOk(items, hash, depth) && StopsAt(items, hash(key), key, d)
    ensures key in depth <==> items[Step(hash(key), d, |items|)].inUse
    ensures key in depth ==> depth[key] == d
  {
    var s := Step(hash(key), d, |items|);
    assert IsHome(items, hash, depth, s);
    if key in depth {
      assert IsHome(items, hash, depth, Step(hash(key), depth[key], |items|));
      StopsAtHome(items, hash(key), key, d, depth[key]);
    }
  }

  lemma {:induction false} StopsAtHome(items: seq<Item>, h: nat, key: Bytes, d: nat, home: nat)
    requires items != [] && Placed(items, h, key, home) && ItemOk(items[Step(h, home, |items|)])
    requires StopsAt(items, h, key, d)
    ensures d == home
  {
    assert !Passes(items, h, key, home);
  }

  ghost predicate GoesAt(items: seq<Item>, hash: Bytes -> nat, depth: map<Bytes, nat>, key: Bytes, d: nat, x: Item) {
    && TableOk(items, hash, depth) && StopsAt(items, hash(key), key, d)
    && ItemOk(x) && x.inUse && NameOf(x) == key && |key| <= MAX_KEY_LEN
  }

  lemma {:induction false} PlacedStays(items: seq<Item>, hash: Bytes -> nat, depth: map<Bytes, nat>, key: Bytes, d: nat, x: Item, k: Bytes)
    requires GoesAt(items, hash, depth, key, d, x) && k in depth && k != key
    ensures Placed(items[Step(hash(key), d, |items|) := x], hash(k), k, depth[k])
    ensures Step(hash(k), depth[k], |items|) != Step(hash(key), d, |items|)
  {
    var s0 := Step(hash(key), d, |items|);
    ProbeEnds(items, hash, depth, key, d);
    assert IsHome(items, hash, depth, s0) && Placed(items, hash(k), k, depth[k]);
    var items' := items[s0 := x];
    forall j | 0 <= j < depth[k] ensures Passes(items', hash(k), k, j) {
      assert Passes(items, hash(k), k, j);
    }
  }

  lemma {:induction false} PlacedThere(items: seq<Item>, hash: Bytes -> nat, depth: map<Bytes, nat>, key: Bytes, d: nat, x: Item)
    requires GoesAt(items, hash, depth, key, d, x)
    ensures Placed(items[Step(hash(key), d, |items|) := x], hash(key), key, d)
  {
    var items' := items[Step(hash(key), d, |items|) := x];
    forall j | 0 <= j < d ensures Passes(items', hash(key), key, j) {
      assert Passes(items, hash(key), key, j);
    }
  }

  lemma {:induction false} StoredMap(items: seq<Item>, hash: Bytes -> nat, depth: map<Bytes, nat>, key: Bytes, d: nat, x: Item)
    requires GoesAt(items, hash, depth, key, d, x)
    ensures TableMap(items[Step(hash(key), d, |items|) := x], hash, depth[key := d])
         == TableMap(items, hash, depth)[key := x.location]
  {
    var items' := items[Step(hash(key), d, |items|) := x];
    forall k | k in depth && k != key
      ensures LocationAt(items', hash(k), depth[k]) == LocationAt(items, hash(k), depth[k])
    {
      PlacedStays(items, hash, depth, key, d, x, k);
    }
  }

  // Writing the key's item where probing for it stopped stores it and moves no other.
  lemma {:induction false} StoreKeepsTable(items: seq<Item>, hash: Bytes -> nat, depth: map<Bytes, nat>, key: Bytes, d: nat, x: Item)
    requires GoesAt(items, hash, depth, key, d, x)
    ensures TableOk(items[Step(hash(key), d, |items|) := x], hash, depth[key := d])
    ensures TableMap(items[Step(hash(key), d, |items|) := x], hash, depth[key := d])
         == TableMap(items, hash, depth)[key := x.location]
  {
    var items', depth' := items[Step(hash(key), d, |items|) := x], depth[key := d];
    ProbeEnds(items, hash, depth, key, d);
    PlacedThere(items, hash, depth, key, d, x);
    StoredMap(items, hash, depth, key, d, x);
    forall k | k in depth && k != key ensures |k| <= MAX_KEY_LEN && Placed(items', hash(k), k, depth[k]) {
      PlacedStays(items, hash, depth, key, d, x, k);
    }
    forall s | 0 <= s < |items'| ensures IsHome(items', hash, depth', s) {
      assert IsHome(items, hash, depth, s);
    }
  }

  lemma {:induction false} OwnSlot(items: seq<Item>, hash: Bytes -> nat, depth: map<Bytes, nat>, key: Bytes)
    requires TableOk(items, hash, depth) && key in depth
    ensures !FullFor(items, key)
  {
    assert Placed(items, hash(key), key, depth[key]);
    assert !TakenByOther(items, key, Step(hash(key), depth[key], |items|));
  }

  // A table entry for each slot in use, and none besides.
  lemma {:induction false} UsedSlots(items: seq<Item>, hash: Bytes -> nat, depth: map<Bytes, nat>, key: Bytes)
    requires TableOk(items, hash, depth)
    ensures FullFor(items, key) <==> key !in depth && |depth| == |items|
    ensures |depth| <= |items|
  {
    var slots := set k | k in depth :: Step(hash(k), depth[k], |items|);
    SlotsNumber(items, hash, depth, depth.Keys);
    if key in depth {
      OwnSlot(items, hash, depth, key);
    }
    assert slots <= Range(0, |items|);
    SubsetSize(slots, Range(0, |items|));
    if FullFor(items, key) {
      forall s | 0 <= s < |items| ensures s in slots {
        assert TakenByOther(items, key, s) && IsHome(items, hash, depth, s);
      }
      assert slots == Range(0, |items|);
    }
    if key !in depth && |depth| == |items| {
      forall s | 0 <= s < |items| ensures TakenByOther(items, key, s) {
        assert s in Range(0, |items|) && s in slots;
        var k :| k in depth && Step(hash(k), depth[k], |items|) == s;
        assert Placed(items, hash(k), k, depth[k]);
      }
    }
  }

  // The table is full for a key exactly when it holds as many keys as it has items, and not this one.
  lemma {:induction false} FullExactly(items: seq<Item>, hash: Bytes -> nat, depth: map<Bytes, nat>, key: Bytes)
    requires TableOk(items, hash, depth)
    ensures FullFor(items, key) <==> key !in TableMap(items, hash, depth) && |TableMap(items, hash, depth)| == |items|
    ensures |TableMap(items, hash, depth)| <= |items|
  {
    UsedSlots(items, hash, depth, key);
    var view := TableMap(items, hash, depth);
    assert depth.Keys == view.Keys;
    assert |depth| == |depth.Keys| && |view| == |view.Keys|;
  }

  // Distinct keys sit in distinct slots.
  lemma {:induction false} SlotsNumber(items: seq<Item>, hash: Bytes -> nat, depth: map<Bytes, nat>, keys: set<Bytes>)
    requires TableOk(items, hash, depth) && keys <= depth.Keys
    ensures |set k | k in keys :: Step(hash(k), depth[k], |items|)| == |keys|
    decreases |keys|
  {
    var slots := set k | k in keys :: Step(hash(k), depth[k], |items|);
    if keys == {} {
      assert slots == {};
    } else {
      var k0 :| k0 in keys;
      var rest := set k | k in keys - {k0} :: Step(hash(k), depth[k], |items|);
      SlotsNumber(items, hash, depth, keys - {k0});
      var s0 := Step(hash(k0), depth[k0], |items|);
      assert Placed(items, hash(k0), k0, depth[k0]);
      forall k | k in keys - {k0} ensures Step(hash(k), depth[k], |items|) != s0 {
        assert Placed(items, hash(k), k, depth[k]);
      }
      assert slots == rest + {s0};
    }
  }

  // The keys a range asks for; an empty bound is no bound.
  predicate InRange(key: Bytes, lower: Bytes, upper: Bytes) {
    (!Less(key, lower) || lower == []) && (Less(key, upper) || upper == [])
  }

  // A lower bound is in its own range, an upper bound is not, and empty bounds are no bounds.
  lemma {:induction false} RangeBounds(lower: Bytes, upper: Bytes)
    ensures Less(lower, upper) || upper == [] ==> InRange(lower, lower, upper)
    ensures upper != [] ==> !InRange(upper, lower, upper)
    ensures forall k :: InRange(k, [], [])
  {
    LessIrreflexive(lower);
    LessIrreflexive(upper);
  }

  // Ranges that meet share no key and make up the whole.
  lemma {:induction false} RangesMeet(a: Bytes, b: Bytes, c: Bytes, k: Bytes)
    requires Less(a, b) && (Less(b, c) || c == [])
    ensures !(InRange(k, a, b) && InRange(k, b, c))
    ensures InRange(k, a, c) <==> InRange(k, a, b) || InRange(k, b, c)
  {
    LessTotal(k, b);
    LessIrreflexive(k);
    if Less(k, a) {
      LessTransitive(k, a, b);
    }
    if Less(k, b) && Less(b, c) {
      LessTransitive(k, b, c);
    }
    if Less(b, k) && Less(k, b) {
      LessTransitive(k, b, k);
    }
    if Less(b, k) && Less(k, a) {
      LessTransitive(b, k, a);
      LessTransitive(a, b, a);
      LessIrreflexive(a);
    }
  }

  ghost function Restricted(view: map<Bytes, Location>, lower: Bytes, upper: Bytes): map<Bytes, Location> {
    map k | k in view && InRange(k, lower, upper) :: view[k]
  }

  // What a scan has collected once it has come down to slot i.
  ghost predicate Collected(items: seq<Item>, hash: Bytes -> nat, depth: map<Bytes, nat>, lower: Bytes, upper: Bytes,
                            i: nat, locations: map<Bytes, Location>)
    requires TableOk(items, hash, depth)
  {
    && (forall k :: k in locations ==> Wanted(items, hash, depth, lower, upper, i, k))
    && (forall k :: k in depth && Wanted(items, hash, depth, lower, upper, i, k) ==>
          k in locations && locations[k] == LocationAt(items, hash(k), depth[k]))
  }

  ghost predicate Wanted(items: seq<Item>, hash: Bytes -> nat, depth: map<Bytes, nat>, lower: Bytes, upper: Bytes, i: nat, k: Bytes)
    requires items != []
  {
    k in depth && InRange(k, lower, upper) && i <= Step(hash(k), depth[k], |items|)
  }

  // Looking at slot i - 1 collects the key in it, if it is wanted.
  lemma {:induction false} CollectOne(items: seq<Item>, hash: Bytes -> nat, depth: map<Bytes, nat>, lower: Bytes, upper: Bytes,
                                      i: nat, locations: map<Bytes, Location>)
    requires TableOk(items, hash, depth) && 0 < i <= |items| && Collected(items, hash, depth, lower, upper, i, locations)
    ensures var x := items[i - 1];
            var k := NameOf(x);
            if x.inUse && InRange(k, lower, upper)
            then k !in locations && Collected(items, hash, depth, lower, upper, i - 1, locations[k := x.location])
            else Collected(items, hash, depth, lower, upper, i - 1, locations)
  {
    var x := items[i - 1];
    assert IsHome(items, hash, depth, i - 1);
    forall k | k in depth && Step(hash(k), depth[k], |items|) == i - 1 ensures x.inUse && k == NameOf(x) {
      assert Placed(items, hash(k), k, depth[k]);
    }
  }

  lemma {:induction false} CollectedAll(items: seq<Item>, hash: Bytes -> nat, depth: map<Bytes, nat>, lower: Bytes, upper: Bytes,
                                        locations: map<Bytes, Location>)
    requires TableOk(items, hash, depth) && Collected(items, hash, depth, lower, upper, 0, locations)
    ensures locations == Restricted(TableMap(items, hash, depth), lower, upper)
  {
    var all := Restricted(TableMap(items, hash, depth), lower, upper);
    forall k ensures k in locations <==> k in all {
      assert k in depth && InRange(k, lower, upper) ==> Wanted(items, hash, depth, lower, upper, 0, k);
    }
    forall k | k in locations ensures locations[k] == all[k] {
      assert Wanted(items, hash, depth, lower, upper, 0, k);
    }
  }

  class DoorPlate {
    const items: array<Item>
    const hash: Bytes -> nat
    ghost var depth: map<Bytes, nat>

    ghost predicate Valid()
      reads this, items
    {
      TableOk(items[..], hash, depth)
    }

    ghost function View(): map<Bytes, Location>
      requires Valid()
      reads this, items
    {
      TableMap(items[..], hash, depth)
    }

    // A fresh table of `size` cleared items.
    constructor (size: nat, hash: Bytes -> nat)
      requires size > 0
      ensures Valid() && View() == map[] && items.Length == size && this.hash == hash && fresh(items)
    {
      items := new Item[size](_ => Blank());
      this.hash := hash;
      depth := map[];
      new;
      forall s | 0 <= s < |items[..]| ensures IsHome(items[..], hash, depth, s) {
        assert items[..][s] == Blank();
      }
    }

    // A table over the items an earlier one left behind.
    constructor Reopened(items: array<Item>, hash: Bytes -> nat, ghost depth: map<Bytes, nat>)
      requires TableOk(items[..], hash, depth)
      ensures Valid() && this.items == items && this.hash == hash && this.depth == depth
    {
      this.items := items;
      this.hash := hash;
      this.depth := depth;
    }

    // -1 when a full round found no place.
    method CalcIndex(key: Bytes) returns (index: int, ghost d: nat)
      requires Valid()
      ensures index == -1 <==> FullFor(items[..], key)
      ensures index != -1 ==> StopsAt(items[..], hash(key), key, d) && index == Step(hash(key), d, items.Length)
    {
      ghost var before := items[..];
      RoundSeesAll(before, hash, depth, key);
      var jcnt: nat := 0;
      index := hash(key) % items.Length;
      while true
        invariant jcnt < items.Length && index == Step(hash(key), jcnt, items.Length)
        invariant AllPass(before, hash(key), key, jcnt)
        decreases items.Length - jcnt
      {
        if ItemTryPlace(items[index], key) {
          break;
        }
        ghost var passed := jcnt;
        assert Passes(before, hash(key), key, passed);
        jcnt := jcnt + 1;
        if jcnt == items.Length {
          return -1, jcnt;
        }
        NextStep(hash(key), passed, items.Length);
        index := (index + 1) % items.Length;
      }
      d := jcnt;
      assert !Passes(before, hash(key), key, d);
      assert !AllPass(before, hash(key), key, |before|);
    }

    // Stores the location under the key unless every slot is taken by another key.
    method AddOrUpdate(key: Bytes, l: Location) returns (ret: RetCode)
      requires Valid()
      modifies this, items
      ensures Valid()
      ensures ret ==
        if |key| > MAX_KEY_LEN then InvalidArgument
        else if key !in old(View()) && |old(View())| == items.Length then Full
        else Succ
      ensures View() == if ret == Succ then old(View())[key := l] else old(View())
    {
      if |key| > MAX_KEY_LEN {
        return InvalidArgument;
      }
      FullExactly(items[..], hash, depth, key);
      var index, d := CalcIndex(key);
      if index < 0 {
        return Full;
      }
      ghost var before := items[..];
      ProbeEnds(before, hash, depth, key, d);
      assert IsHome(before, hash, depth, index);
      var x := items[index];
      if !x.inUse {
        x := x.(key := key + x.key[|key|..], keySize := |key|, inUse := true);
      }
      x := x.(location := l);
      assert NameOf(x) == key;
      StoreKeepsTable(before, hash, depth, key, d, x);
      items[index] := x;
      depth := depth[key := d];
      assert items[..] == before[index := x];
      return Succ;
    }

    // A stored key's location. A key that is not stored is not found, except that the empty
    // key matches any unused item.
    method Find(key: Bytes) returns (ret: RetCode, location: Location)
      requires Valid()
      ensures ret == if key in View() || (key == [] && |View()| < items.Length) then Succ else NotFound
      ensures ret == Succ ==> location == if key in View() then View()[key] else NO_LOCATION
    {
      FullExactly(items[..], hash, depth, key);
      var index, d := CalcIndex(key);
      location := NO_LOCATION;
      if index >= 0 {
        ProbeEnds(items[..], hash, depth, key, d);
        assert IsHome(items[..], hash, depth, index);
      }
      if index < 0 || !ItemKeyMatch(items[index], key) {
        return NotFound, location;
      }
      return Succ, items[index].location;
    }

    // The stored keys of a range with their locations; the item count bounds what is collected,
    // so the scan never runs out of room.
    method GetRangeLocation(lower: Bytes, upper: Bytes) returns (ret: RetCode, locations: map<Bytes, Location>)
      requires Valid()
      ensures ret == Succ && locations == Restricted(View(), lower, upper)
      ensures forall k :: k in locations <==>
        k in View() && (lower == [] || !Less(k, lower)) && (upper == [] || Less(k, upper))
      ensures forall k :: k in locations ==> locations[k] == View()[k]
    {
      ghost var all := items[..];
      var count: nat := 0;
      var i: nat := items.Length;
      locations := map[];
      while i > 0
        invariant i <= items.Length && count + i <= items.Length
        invariant Collected(all, hash, depth, lower, upper, i, locations)
      {
        CollectOne(all, hash, depth, lower, upper, i, locations);
        i := i - 1;
        var it := items[i];
        if it.inUse {
          var key := NameOf(it);
          if InRange(key, lower, upper) {
            if key !in locations {  // insert keeps an entry that is there already
              locations := locations[key := it.location];
            }
            count := count + 1;
            if count > items.Length {
              return OutOfMemory, locations;
            }
          }
        }
      }
      CollectedAll(all, hash, depth, lower, upper, locations);
      return Succ, locations;
    }
  }
}
