/** Keys as the write path sees them: 64-bit unsigned numbers packed from eight chars. */
module Keys {
  import opened PowersOfTwo

  // KEY_T is uint64_t.
  type Key = k: int | 0 <= k < 0x1_0000_0000_0000_0000

  // INT64_MAX: the merge's starting minimum.
  const INT64_MAX := 0x7fff_ffff_ffff_ffff

  // One char of a key, as its bit pattern; from 128 on it is a negative signed char.
  type Byte = b: int | 0 <= b < 256

  function Pow256(n: nat): (p: nat)
    ensures p > 0
  {
    if n == 0 then 1 else 256 * Pow256(n - 1)
  }

  function Bit(x: nat): nat {
    x % 2
  }

  // Bitwise or.
  function Or(x: nat, y: nat): nat
    decreases x + y
  {
    if x == 0 && y == 0 then 0
    else 2 * Or(x / 2, y / 2) + (if Bit(x) == 1 || Bit(y) == 1 then 1 else 0)
  }

  lemma {:induction false} OrCommutes(x: nat, y: nat)
    ensures Or(x, y) == Or(y, x)
    decreases x + y
  {
    if x != 0 || y != 0 {
      OrCommutes(x / 2, y / 2);
    }
  }

  lemma {:induction false} OrZero(x: nat)
    ensures Or(x, 0) == x
  {
    if x != 0 {
      OrZero(x / 2);
    }
  }

  // Or works on the bits above and below position k apart.
  lemma {:induction false} OrSplit(k: nat, a: nat, b: nat, c: nat, d: nat)
    requires c < Pow2(k) && d < Pow2(k)
    ensures Or(Pow2(k) * a + c, Pow2(k) * b + d) == Pow2(k) * Or(a, b) + Or(c, d)
  {
    if k > 0 {
      var p := Pow2(k - 1);
      OrSplit(k - 1, a, b, c / 2, d / 2);
      var x := Halve(p, a, c);
      var y := Halve(p, b, d);
      OrDouble(x, y, c % 2, d % 2);
      OrDouble(c / 2, d / 2, c % 2, d % 2);
      var _ := Halve(p, Or(a, b), 0);
    } else {
      assert Or(0, 0) == 0;
    }
  }

  lemma {:induction false} Halve(p: nat, a: nat, c: nat) returns (h: nat)
    ensures h == p * a + c / 2 && (2 * p) * a + c == 2 * h + c % 2
  {
    assert p * a >= 0;
    h := p * a + c / 2;
  }

  lemma {:induction false} OrDouble(a: nat, b: nat, s: nat, t: nat)
    requires s <= 1 && t <= 1
    ensures Or(2 * a + s, 2 * b + t) == 2 * Or(a, b) + (if s == 1 || t == 1 then 1 else 0)
  {
  }

  // Or of two numbers shifted by n bytes.
  lemma {:induction false} OrScale(n: nat, a: nat, b: nat)
    ensures Or(a * Pow256(n), b * Pow256(n)) == Or(a, b) * Pow256(n)
  {
    if n > 0 {
      var p := Pow256(n - 1);
      OrScale(n - 1, a, b);
      SplitByte(a * p, b * p, 0, 0);
      assert Or(0, 0) == 0;
      Bytewise(a, p);
      Bytewise(b, p);
      Bytewise(Or(a, b), p);
    }
  }

  lemma {:induction false} Bytewise(a: nat, p: nat)
    ensures a * (256 * p) == 256 * (a * p)
  {
  }

  // All ones swallow everything that is no longer than they are.
  lemma {:induction false} OrOnes(i: nat, r: nat)
    requires r < Pow256(i)
    ensures Or(r, Pow256(i) - 1) == Pow256(i) - 1
  {
    if i > 0 {
      var p, high, low := Pow256(i - 1), r / 256, r % 256;
      assert r == 256 * high + low && Pow256(i) - 1 == 256 * (p - 1) + 255;
      OrOnes(i - 1, high);
      OrByte(low);
      SplitByte(high, p - 1, low, 255);
    } else {
      assert Or(0, 0) == 0;
    }
  }

  lemma {:induction false} SplitByte(a: nat, b: nat, c: Byte, d: Byte)
    ensures Or(256 * a + c, 256 * b + d) == 256 * Or(a, b) + Or(c, d)
  {
    assert Pow2(8) == 256;
    OrSplit(8, a, b, c, d);
  }

  lemma {:induction false} OrByte(c: Byte)
    ensures Or(c, 255) == 255
  {
    OrOnes2(8, c);
    assert Pow2(8) == 256;
  }

  lemma {:induction false} OrOnes2(k: nat, r: nat)
    requires r < Pow2(k)
    ensures Or(r, Pow2(k) - 1) == Pow2(k) - 1
  {
    if k > 0 {
      OrOnes2(k - 1, r / 2);
      OrDouble(r / 2, Pow2(k - 1) - 1, r % 2, 1);
    } else {
      assert Or(0, 0) == 0;
    }
  }

  // The conversion of a signed char to uint64_t.
  function SignExtend(c: Byte): Key {
    if c < 128 then c else 0x1_0000_0000_0000_0000 - 256 + c
  }

  // A left shift of a uint64_t by n bytes.
  function ShiftBytes(x: Key, n: nat): Key {
    x * Pow256(n) % 0x1_0000_0000_0000_0000
  }

  // What get_key makes of a run of chars: a negative char drowns all chars before it in ones.
  function Packed(d: seq<Byte>): (k: nat)
    ensures k < Pow256(|d|)
  {
    if d == [] then 0
    else
      var c := d[|d| - 1];
      var n := |d| - 1;
      if c < 128 then 256 * Packed(d[..n]) + c else 256 * (Pow256(n) - 1) + c
  }

  // What it should make of them: the number whose base-256 digits they are.
  function BigEndian(d: seq<Byte>): (k: nat)
    ensures k < Pow256(|d|)
  {
    if d == [] then 0 else 256 * BigEndian(d[..|d| - 1]) + d[|d| - 1]
  }

  const KEY_LEN: nat := 8

  function KeyOf(d: seq<Byte>): Key
    requires |d| == KEY_LEN
  {
    assert Pow256(8) == 0x1_0000_0000_0000_0000;
    Packed(d)
  }

  predicate SevenBit(d: seq<Byte>) {
    forall i :: 0 <= i < |d| ==> d[i] < 128
  }

  method GetKey(data: seq<Byte>) returns (ret: Key)
    requires |data| == KEY_LEN
    ensures ret == KeyOf(data)
  {
    ret := 0;
    var i := 0;
    while i < 8
      invariant 0 <= i <= 8
      invariant ret == Packed(data[..i]) * Pow256(8 - i)
    {
      assert data[..i + 1][..i] == data[..i];
      PackStep(Packed(data[..i]), data[i], i);
      ret := Or(ret, ShiftBytes(SignExtend(data[i]), 7 - i));
      i := i + 1;
    }
    assert data[..8] == data;
  }

  lemma {:induction false} Powers()
    ensures Pow256(0) == 1 && Pow256(1) == 0x100 && Pow256(2) == 0x1_0000 && Pow256(3) == 0x100_0000
    ensures Pow256(4) == 0x1_0000_0000 && Pow256(5) == 0x100_0000_0000 && Pow256(6) == 0x1_0000_0000_0000
    ensures Pow256(7) == 0x100_0000_0000_0000 && Pow256(8) == 0x1_0000_0000_0000_0000
  {
  }

  lemma {:induction false} PowersSplit(i: nat)
    requires i <= 7
    ensures Pow256(8 - i) == 256 * Pow256(7 - i)
    ensures Pow256(i + 1) * Pow256(7 - i) == 0x1_0000_0000_0000_0000
  {
    Powers();
  }

  lemma {:induction false} ShiftedChar(c: Byte, i: nat)
    requires i <= 7
    ensures ShiftBytes(SignExtend(c), 7 - i) == (256 * (if c < 128 then 0 else Pow256(i) - 1) + c) * Pow256(7 - i)
  {
    var p, q, whole := Pow256(7 - i), Pow256(i + 1), 0x1_0000_0000_0000_0000;
    PowersSplit(i);
    assert q >= 256;
    if c < 128 {
      LessTimes(c, q, p);
      Residue(0, c * p);
    } else {
      var lacks := 256 - c;
      Minus(q, lacks, p);
      Minus(whole, lacks, p);
      LessTimes(0, q - lacks, p);
      Residue(p - 1, (q - lacks) * p);
    }
  }

  lemma {:induction false} Minus(x: nat, y: nat, p: nat)
    requires y <= x
    ensures (x - y) * p == x * p - y * p
  {
  }

  lemma {:induction false} Residue(q: nat, r: Key)
    ensures (0x1_0000_0000_0000_0000 * q + r) % 0x1_0000_0000_0000_0000 == r
  {
  }

  lemma {:induction false} LessTimes(x: nat, y: nat, p: nat)
    requires x < y && p > 0
    ensures 0 <= x * p < y * p
  {
  }

  // One turn of get_key's loop.
  lemma {:induction false} PackStep(r: nat, c: Byte, i: nat)
    requires i <= 7 && r < Pow256(i)
    ensures var shifted := ShiftBytes(SignExtend(c), 7 - i);
            && r * Pow256(8 - i) < 0x1_0000_0000_0000_0000
            && Or(r * Pow256(8 - i), shifted) == (if c < 128 then 256 * r + c else 256 * (Pow256(i) - 1) + c) * Pow256(7 - i)
            && Or(r * Pow256(8 - i), shifted) < 0x1_0000_0000_0000_0000
  {
    var p := Pow256(7 - i);
    var high := if c < 128 then 0 else Pow256(i) - 1;
    PowersSplit(i);
    ShiftedChar(c, i);
    Regroup(r, p);
    OrScale(7 - i, 256 * r, 256 * high + c);
    OrChar(r, c, i);
    LessTimes(256 * r, Pow256(i + 1), p);
    LessTimes(if c < 128 then 256 * r + c else 256 * high + c, Pow256(i + 1), p);
  }

  lemma {:induction false} Regroup(r: nat, p: nat)
    ensures r * (256 * p) == (256 * r) * p
  {
  }

  lemma {:induction false} OrChar(r: nat, c: Byte, i: nat)
    requires r < Pow256(i)
    ensures Or(256 * r, 256 * (if c < 128 then 0 else Pow256(i) - 1) + c)
         == if c < 128 then 256 * r + c else 256 * (Pow256(i) - 1) + c
  {
    SplitByte(r, if c < 128 then 0 else Pow256(i) - 1, 0, c);
    OrZero(c);
    OrZero(r);
    OrCommutes(0, c);
    OrOnes(i, r);
  }

  ghost predicate PacksPlainly(d: seq<Byte>) {
    forall i :: 0 <= i < |d| && d[i] >= 128 ==> AllOnes(d[..i])
  }

  ghost predicate AllOnes(d: seq<Byte>) {
    forall i :: 0 <= i < |d| ==> d[i] == 255
  }

  lemma {:induction false} OnesValue(d: seq<Byte>)
    ensures BigEndian(d) == Pow256(|d|) - 1 <==> AllOnes(d)
  {
    if d != [] {
      var n := |d| - 1;
      OnesValue(d[..n]);
      assert d == d[..n] + [d[n]];
    }
  }

  // get_key is the big-endian packing exactly when every negative char stands behind 0xff's only.
  lemma {:induction false} PackedIsBigEndian(d: seq<Byte>)
    ensures Packed(d) == BigEndian(d) <==> PacksPlainly(d)
  {
    if d != [] {
      var n := |d| - 1;
      PackedIsBigEndian(d[..n]);
      OnesValue(d[..n]);
      assert forall i :: 0 <= i < n ==> d[..n][..i] == d[..i];
      assert PacksPlainly(d) <==> PacksPlainly(d[..n]) && (d[n] >= 128 ==> AllOnes(d[..n])) by {
        assert forall i :: 0 <= i < n ==> d[..n][i] == d[i];
      }
      if d[n] >= 128 && AllOnes(d[..n]) {
        assert PacksPlainly(d[..n]);
      }
    }
  }

  lemma {:induction false} PackedBounds(d: seq<Byte>)
    requires |d| > 1
    ensures SevenBit(d) ==> 2 * Packed(d) + 2 < Pow256(|d|)
    ensures !SevenBit(d) ==> 2 * Packed(d) >= Pow256(|d|)
  {
    var n := |d| - 1;
    var init := d[..n];
    assert d == init + [d[n]];
    if n > 1 {
      PackedBounds(init);
    } else {
      assert init == [d[0]] && init[..0] == [];
      Powers();
    }
  }

  // A key is below the merge's sentinel exactly when its eight chars are 7-bit.
  lemma {:induction false} KeyBelowSentinel(d: seq<Byte>)
    requires |d| == KEY_LEN
    ensures KeyOf(d) < INT64_MAX <==> SevenBit(d)
  {
    PackedBounds(d);
    Powers();
  }

  // The order of strings of equal length, as std::string compares them.
  ghost predicate LexLess(a: seq<Byte>, b: seq<Byte>)
    requires |a| == |b|
  {
    exists i :: 0 <= i < |a| && a[i] < b[i] && a[..i] == b[..i]
  }

  lemma {:induction false} LexLast(a: seq<Byte>, b: seq<Byte>)
    requires |a| == |b| > 0
    ensures var n := |a| - 1;
            LexLess(a, b) <==> LexLess(a[..n], b[..n]) || (a[..n] == b[..n] && a[n] < b[n])
  {
    var n := |a| - 1;
    var a', b' := a[..n], b[..n];
    assert forall i :: 0 <= i < n ==> a'[..i] == a[..i] && b'[..i] == b[..i];
    if LexLess(a', b') {
      var i :| 0 <= i < n && a'[i] < b'[i] && a'[..i] == b'[..i];
      assert a[i] < b[i] && a[..i] == b[..i];
    }
    if LexLess(a, b) {
      var i :| 0 <= i < |a| && a[i] < b[i] && a[..i] == b[..i];
      assert i < n ==> a'[i] < b'[i] && a'[..i] == b'[..i];
    }
  }

  lemma {:induction false} BigEndianOrder(a: seq<Byte>, b: seq<Byte>)
    requires |a| == |b|
    ensures BigEndian(a) < BigEndian(b) <==> LexLess(a, b)
    ensures BigEndian(a) == BigEndian(b) <==> a == b
  {
    if a != [] {
      var n := |a| - 1;
      BigEndianOrder(a[..n], b[..n]);
      LexLast(a, b);
      assert a == a[..n] + [a[n]] && b == b[..n] + [b[n]];
    }
  }

  // On 7-bit strings get_key is injective and keeps the order of the strings.
  lemma {:induction false} KeyKeepsOrder(a: seq<Byte>, b: seq<Byte>)
    requires |a| == |b| == KEY_LEN && SevenBit(a) && SevenBit(b)
    ensures KeyOf(a) < KeyOf(b) <==> LexLess(a, b)
    ensures KeyOf(a) == KeyOf(b) <==> a == b
  {
    PackedIsBigEndian(a);
    PackedIsBigEndian(b);
    BigEndianOrder(a, b);
  }

  // What of a string its key still shows: the whole of it, or its end from the last
  // negative char on.
  function SignificantTail(d: seq<Byte>): seq<Byte> {
    if d == [] then []
    else if d[|d| - 1] >= 128 then [d[|d| - 1]]
    else SignificantTail(d[..|d| - 1]) + [d[|d| - 1]]
  }

  // Exactly the strings that agree from their last negative char on collide.
  lemma {:induction false} CollidingKeys(a: seq<Byte>, b: seq<Byte>)
    requires |a| == |b|
    ensures Packed(a) == Packed(b) <==> SignificantTail(a) == SignificantTail(b)
  {
    if a != [] {
      var n := |a| - 1;
      CollidingKeys(a[..n], b[..n]);
      var t, u := SignificantTail(a), SignificantTail(b);
      assert t[|t| - 1] == a[n] && u[|u| - 1] == b[n];
      if a[n] < 128 && b[n] < 128 {
        assert t[..|t| - 1] == SignificantTail(a[..n]) && u[..|u| - 1] == SignificantTail(b[..n]);
      }
    }
  }
}
