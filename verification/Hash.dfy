/** The mixing of the CRC into a hash, in uint32_t arithmetic, and the hash of a key. */
module Hashes {
  import opened Registers

  type Word = bv32

  function Plus(x: Word, y: Word): Word { x + y }
  function Minus(x: Word): Word { 0 - x }
  function Xor(x: Word, y: Word): Word { x ^ y }
  function Same(x: Word): Word { x }

  // key << n and its opposite, and key >> n, for the n in use.
  function Left12(key: Word): Word { key << 12 }
  function Left4(key: Word): Word { key << 4 }
  function Left10(key: Word): Word { key << 10 }
  function Left7(key: Word): Word { key << 7 }
  function Away12(key: Word): Word { Minus(Left12(key)) }
  function Away4(key: Word): Word { Minus(Left4(key)) }
  function Away10(key: Word): Word { Minus(Left10(key)) }
  function Away7(key: Word): Word { Minus(Left7(key)) }
  function Right22(key: Word): Word { key >> 22 }
  function Right9(key: Word): Word { key >> 9 }
  function Right2(key: Word): Word { key >> 2 }
  function Right12(key: Word): Word { key >> 12 }

  // The eight stages.
  function Add12(key: Word): Word { Spread(Left12, Plus, key) }
  function Xor22(key: Word): Word { Spread(Right22, Xor, key) }
  function Add4(key: Word): Word { Spread(Left4, Plus, key) }
  function Xor9(key: Word): Word { Spread(Right9, Xor, key) }
  function Add10(key: Word): Word { Spread(Left10, Plus, key) }
  function Xor2(key: Word): Word { Spread(Right2, Xor, key) }
  function Add7(key: Word): Word { Spread(Left7, Plus, key) }
  function Xor12(key: Word): Word { Spread(Right12, Xor, key) }

  // Their inverses: as many shifted copies taken away again as 32 bits have room for.
  function UnAdd12(key: Word): Word { Unspread(Away12, Plus, key, 2) }
  function UnXor22(key: Word): Word { Unspread(Right22, Xor, key, 1) }
  function UnAdd4(key: Word): Word { Unspread(Away4, Plus, key, 7) }
  function UnXor9(key: Word): Word { Unspread(Right9, Xor, key, 3) }
  function UnAdd10(key: Word): Word { Unspread(Away10, Plus, key, 3) }
  function UnXor2(key: Word): Word { Unspread(Right2, Xor, key, 15) }
  function UnAdd7(key: Word): Word { Unspread(Away7, Plus, key, 4) }
  function UnXor12(key: Word): Word { Unspread(Right12, Xor, key, 2) }

  function MixStages(): seq<Word -> Word> {
    [Add12, Xor22, Add4, Xor9, Add10, Xor2, Add7, Xor12]
  }

  function UnmixStages(): seq<Word -> Word> {
    [UnAdd12, UnXor22, UnAdd4, UnXor9, UnAdd10, UnXor2, UnAdd7, UnXor12]
  }

  function Mix(key: Word): Word {
    Through(MixStages(), key)
  }

  function Unmix(key: Word): Word {
    Back(UnmixStages(), key)
  }

  // What the operations are, for proofs that need to know no more of their bits.
  lemma {:induction false} PlusIs(x: Word, y: Word)
    ensures Plus(x, y) == x + y
  {
  }

  lemma {:induction false} XorIs(x: Word, y: Word)
    ensures Xor(x, y) == x ^ y
  {
  }

  lemma {:induction false} Left12Is(x: Word)
    ensures Left12(x) == x << 12
  {
  }

  lemma {:induction false} Left4Is(x: Word)
    ensures Left4(x) == x << 4
  {
  }

  lemma {:induction false} Left10Is(x: Word)
    ensures Left10(x) == x << 10
  {
  }

  lemma {:induction false} Left7Is(x: Word)
    ensures Left7(x) == x << 7
  {
  }

  lemma {:induction false} Right22Is(x: Word)
    ensures Right22(x) == x >> 22
  {
  }

  lemma {:induction false} Right9Is(x: Word)
    ensures Right9(x) == x >> 9
  {
  }

  lemma {:induction false} Right2Is(x: Word)
    ensures Right2(x) == x >> 2
  {
  }

  lemma {:induction false} Right12Is(x: Word)
    ensures Right12(x) == x >> 12
  {
  }

  lemma {:induction false} SumsAssociate(x: Word, y: Word, z: Word)
    ensures Plus(x + y, z) == Plus(x, y + z)
  {
  }

  lemma {:induction false} PlusAssociates(x: Word, y: Word, z: Word)
    ensures Plus(Plus(x, y), z) == Plus(x, Plus(y, z))
  {
    PlusIs(x, y);
    PlusIs(y, z);
    SumsAssociate(x, y, z);
  }

  lemma {:induction false} PlusCommutes(x: Word, y: Word)
    ensures Plus(x, y) == Plus(y, x)
  {
  }

  lemma {:induction false} PlusZero(x: Word)
    ensures Plus(x, 0) == x && Plus(x, Minus(x)) == 0
  {
  }

  lemma {:induction false} XorAssociates(x: Word, y: Word, z: Word)
    ensures Xor(Xor(x, y), z) == Xor(x, Xor(y, z))
  {
  }

  lemma {:induction false} XorCommutes(x: Word, y: Word)
    ensures Xor(x, y) == Xor(y, x)
  {
  }

  lemma {:induction false} XorZero(x: Word)
    ensures Xor(x, 0) == x && Xor(x, x) == 0
  {
  }

  lemma {:induction false} PlusIsGroup()
    ensures IsGroup(Plus, Minus, 0)
  {
    forall a: Word, b: Word, c: Word ensures AssociatesAt(Plus, a, b, c) {
      PlusAssociates(a, b, c);
    }
    forall a: Word, b: Word ensures CommutesAt(Plus, a, b) {
      PlusCommutes(a, b);
    }
    forall x: Word ensures Plus(x, 0) == x && OppositeAt(Plus, Minus, 0, x) {
      PlusZero(x);
    }
  }

  lemma {:induction false} XorIsGroup()
    ensures IsGroup(Xor, Same, 0)
  {
    forall a: Word, b: Word, c: Word ensures AssociatesAt(Xor, a, b, c) {
      XorAssociates(a, b, c);
    }
    forall a: Word, b: Word ensures CommutesAt(Xor, a, b) {
      XorCommutes(a, b);
    }
    forall x: Word ensures Xor(x, 0) == x && OppositeAt(Xor, Same, 0, x) {
      XorZero(x);
    }
  }

  lemma {:induction false} Left12Sum(x: Word, y: Word)
    ensures Left12(x + y) == Plus(x << 12, y << 12)
  {
  }

  lemma {:induction false} Left12Hom(x: Word, y: Word)
    ensures Left12(Plus(x, y)) == Plus(Left12(x), Left12(y))
  {
    PlusIs(x, y);
    Left12Is(x);
    Left12Is(y);
    Left12Sum(x, y);
  }

  lemma {:induction false} Left4Sum(x: Word, y: Word)
    ensures Left4(x + y) == Plus(x << 4, y << 4)
  {
  }

  lemma {:induction false} Left4Hom(x: Word, y: Word)
    ensures Left4(Plus(x, y)) == Plus(Left4(x), Left4(y))
  {
    PlusIs(x, y);
    Left4Is(x);
    Left4Is(y);
    Left4Sum(x, y);
  }

  lemma {:induction false} Left10Sum(x: Word, y: Word)
    ensures Left10(x + y) == Plus(x << 10, y << 10)
  {
  }

  lemma {:induction false} Left10Hom(x: Word, y: Word)
    ensures Left10(Plus(x, y)) == Plus(Left10(x), Left10(y))
  {
    PlusIs(x, y);
    Left10Is(x);
    Left10Is(y);
    Left10Sum(x, y);
  }

  lemma {:induction false} Left7Sum(x: Word, y: Word)
    ensures Left7(x + y) == Plus(x << 7, y << 7)
  {
  }

  lemma {:induction false} Left7Hom(x: Word, y: Word)
    ensures Left7(Plus(x, y)) == Plus(Left7(x), Left7(y))
  {
    PlusIs(x, y);
    Left7Is(x);
    Left7Is(y);
    Left7Sum(x, y);
  }

  lemma {:induction false} Right22Hom(x: Word, y: Word)
    ensures HomAt(Right22, Xor, x, y)
  {
  }

  lemma {:induction false} Right9Hom(x: Word, y: Word)
    ensures HomAt(Right9, Xor, x, y)
  {
  }

  lemma {:induction false} Right2Hom(x: Word, y: Word)
    ensures HomAt(Right2, Xor, x, y)
  {
  }

  lemma {:induction false} Right12Hom(x: Word, y: Word)
    ensures HomAt(Right12, Xor, x, y)
  {
  }

  lemma {:induction false} Away12Out(x: Word)
    ensures Iterate(Away12, x, 3) == 0
  {
  }

  lemma {:induction false} Away4Out(x: Word)
    ensures Iterate(Away4, x, 8) == 0
  {
  }

  lemma {:induction false} Away10Out(x: Word)
    ensures Iterate(Away10, x, 4) == 0
  {
  }

  lemma {:induction false} Away7Out(x: Word)
    ensures Iterate(Away7, x, 5) == 0
  {
  }

  lemma {:induction false} Right22Out(x: Word)
    ensures Iterate(Right22, x, 2) == 0
  {
  }

  lemma {:induction false} Right9Out(x: Word)
    ensures Iterate(Right9, x, 4) == 0
  {
  }

  lemma {:induction false} Right12Out(x: Word)
    ensures Iterate(Right12, x, 3) == 0
  {
  }

  lemma {:induction false} FurtherRight(x: Word)
    ensures (x >> 4) >> 4 == x >> 8 && (x >> 8) >> 8 == x >> 16 && (x >> 16) >> 16 == 0
  {
  }

  lemma {:induction false} TwiceRight(x: Word, y: Word)
    requires y == x >> 2
    ensures y >> 2 == x >> 4
  {
  }

  lemma {:induction false} Right2Two(x: Word)
    ensures Iterate(Right2, x, 2) == x >> 4
  {
    assert Iterate(Right2, x, 1) == Right2(Iterate(Right2, x, 0));
    Right2Is(x);
    Right2Is(Right2(x));
    TwiceRight(x, Right2(x));
  }

  lemma {:induction false} Right2Four(x: Word)
    ensures Iterate(Right2, x, 4) == x >> 8
  {
    IterateAdd(Right2, x, 2, 2);
    Right2Two(x);
    Right2Two(x >> 4);
    FurtherRight(x);
  }

  lemma {:induction false} Right2Eight(x: Word)
    ensures Iterate(Right2, x, 8) == x >> 16
  {
    IterateAdd(Right2, x, 4, 4);
    Right2Four(x);
    Right2Four(x >> 8);
    FurtherRight(x);
  }

  lemma {:induction false} Right2Out(x: Word)
    ensures Iterate(Right2, x, 16) == 0
  {
    IterateAdd(Right2, x, 8, 8);
    Right2Eight(x);
    Right2Eight(x >> 16);
    FurtherRight(x);
  }

  lemma {:induction false} Add12Inverse(x: Word)
    ensures InverseAt(Add12, UnAdd12, x)
  {
    PlusIsGroup();
    forall a: Word, b: Word ensures HomAt(Left12, Plus, a, b) {
      Left12Hom(a, b);
    }
    assert forall a: Word :: OppositesAt(Left12, Away12, Minus, a);
    Away12Out(x);
    SpreadInverse(Left12, Away12, Plus, Minus, 0, x, 2);
  }

  lemma {:induction false} Add4Inverse(x: Word)
    ensures InverseAt(Add4, UnAdd4, x)
  {
    PlusIsGroup();
    forall a: Word, b: Word ensures HomAt(Left4, Plus, a, b) {
      Left4Hom(a, b);
    }
    assert forall a: Word :: OppositesAt(Left4, Away4, Minus, a);
    Away4Out(x);
    SpreadInverse(Left4, Away4, Plus, Minus, 0, x, 7);
  }

  lemma {:induction false} Add10Inverse(x: Word)
    ensures InverseAt(Add10, UnAdd10, x)
  {
    PlusIsGroup();
    forall a: Word, b: Word ensures HomAt(Left10, Plus, a, b) {
      Left10Hom(a, b);
    }
    assert forall a: Word :: OppositesAt(Left10, Away10, Minus, a);
    Away10Out(x);
    SpreadInverse(Left10, Away10, Plus, Minus, 0, x, 3);
  }

  lemma {:induction false} Add7Inverse(x: Word)
    ensures InverseAt(Add7, UnAdd7, x)
  {
    PlusIsGroup();
    forall a: Word, b: Word ensures HomAt(Left7, Plus, a, b) {
      Left7Hom(a, b);
    }
    assert forall a: Word :: OppositesAt(Left7, Away7, Minus, a);
    Away7Out(x);
    SpreadInverse(Left7, Away7, Plus, Minus, 0, x, 4);
  }

  lemma {:induction false} Xor22Inverse(x: Word)
    ensures InverseAt(Xor22, UnXor22, x)
  {
    XorIsGroup();
    forall a: Word, b: Word ensures HomAt(Right22, Xor, a, b) {
      Right22Hom(a, b);
    }
    assert forall a: Word :: OppositesAt(Right22, Right22, Same, a);
    Right22Out(x);
    SpreadInverse(Right22, Right22, Xor, Same, 0, x, 1);
  }

  lemma {:induction false} Xor9Inverse(x: Word)
    ensures InverseAt(Xor9, UnXor9, x)
  {
    XorIsGroup();
    forall a: Word, b: Word ensures HomAt(Right9, Xor, a, b) {
      Right9Hom(a, b);
    }
    assert forall a: Word :: OppositesAt(Right9, Right9, Same, a);
    Right9Out(x);
    SpreadInverse(Right9, Right9, Xor, Same, 0, x, 3);
  }

  lemma {:induction false} Xor2Inverse(x: Word)
    ensures InverseAt(Xor2, UnXor2, x)
  {
    XorIsGroup();
    forall a: Word, b: Word ensures HomAt(Right2, Xor, a, b) {
      Right2Hom(a, b);
    }
    assert forall a: Word :: OppositesAt(Right2, Right2, Same, a);
    Right2Out(x);
    SpreadInverse(Right2, Right2, Xor, Same, 0, x, 15);
  }

  lemma {:induction false} Xor12Inverse(x: Word)
    ensures InverseAt(Xor12, UnXor12, x)
  {
    XorIsGroup();
    forall a: Word, b: Word ensures HomAt(Right12, Xor, a, b) {
      Right12Hom(a, b);
    }
    assert forall a: Word :: OppositesAt(Right12, Right12, Same, a);
    Right12Out(x);
    SpreadInverse(Right12, Right12, Xor, Same, 0, x, 2);
  }

  lemma {:induction false} AddsInverse()
    ensures Inverse(Add12, UnAdd12) && Inverse(Add4, UnAdd4) && Inverse(Add10, UnAdd10) && Inverse(Add7, UnAdd7)
  {
    forall x: Word
      ensures InverseAt(Add12, UnAdd12, x) && InverseAt(Add4, UnAdd4, x) && InverseAt(Add10, UnAdd10, x) && InverseAt(Add7, UnAdd7, x)
    {
      Add12Inverse(x);
      Add4Inverse(x);
      Add10Inverse(x);
      Add7Inverse(x);
    }
  }

  lemma {:induction false} XorsInverse()
    ensures Inverse(Xor22, UnXor22) && Inverse(Xor9, UnXor9) && Inverse(Xor2, UnXor2) && Inverse(Xor12, UnXor12)
  {
    forall x: Word
      ensures InverseAt(Xor22, UnXor22, x) && InverseAt(Xor9, UnXor9, x) && InverseAt(Xor2, UnXor2, x) && InverseAt(Xor12, UnXor12, x)
    {
      Xor22Inverse(x);
      Xor9Inverse(x);
      Xor2Inverse(x);
      Xor12Inverse(x);
    }
  }

  lemma {:induction false} StageInverse(i: nat)
    requires i < 8
    ensures Inverse(MixStages()[i], UnmixStages()[i])
  {
    AddsInverse();
    XorsInverse();
  }

  // The mix is a permutation of the 32-bit words, with this inverse.
  lemma {:induction false} MixIsPermutation(key: Word)
    ensures Unmix(Mix(key)) == key && Mix(Unmix(key)) == key
  {
    forall i | 0 <= i < 8 ensures Inverse(MixStages()[i], UnmixStages()[i]) {
      StageInverse(i);
    }
    StagesInverse(MixStages(), UnmixStages(), key);
  }

  lemma {:induction false} Add12Is(key: Word)
    ensures Add12(key) == key + (key << 12)
  {
    Left12Is(key);
    PlusIs(key, key << 12);
  }

  lemma {:induction false} Add4Is(key: Word)
    ensures Add4(key) == key + (key << 4)
  {
    Left4Is(key);
    PlusIs(key, key << 4);
  }

  lemma {:induction false} Add10Is(key: Word)
    ensures Add10(key) == key + (key << 10)
  {
    Left10Is(key);
    PlusIs(key, key << 10);
  }

  lemma {:induction false} Add7Is(key: Word)
    ensures Add7(key) == key + (key << 7)
  {
    Left7Is(key);
    PlusIs(key, key << 7);
  }

  lemma {:induction false} Xor22Is(key: Word)
    ensures Xor22(key) == key ^ (key >> 22)
  {
    Right22Is(key);
    XorIs(key, key >> 22);
  }

  lemma {:induction false} Xor9Is(key: Word)
    ensures Xor9(key) == key ^ (key >> 9)
  {
    Right9Is(key);
    XorIs(key, key >> 9);
  }

  lemma {:induction false} Xor2Is(key: Word)
    ensures Xor2(key) == key ^ (key >> 2)
  {
    Right2Is(key);
    XorIs(key, key >> 2);
  }

  lemma {:induction false} Xor12Is(key: Word)
    ensures Xor12(key) == key ^ (key >> 12)
  {
    Right12Is(key);
    XorIs(key, key >> 12);
  }

  lemma {:induction false} MixIsNested(key: Word)
    ensures Mix(key) == Xor12(Add7(Xor2(Add10(Xor9(Add4(Xor22(Add12(key))))))))
  {
    var fs := MixStages();
    ThroughIsNested(fs, key);
    assert FirstStages(fs, 8, key) == fs[7](FirstStages(fs, 7, key));
    assert FirstStages(fs, 4, key) == fs[3](FirstStages(fs, 3, key));
  }

  // The eight lines of the source, in their order, in 32-bit arithmetic.
  lemma {:induction false} MixIsTheLines(key: Word, k1: Word, k2: Word, k3: Word, k4: Word, k5: Word, k6: Word, k7: Word, k8: Word)
    requires k1 == key + (key << 12) && k2 == k1 ^ (k1 >> 22)
    requires k3 == k2 + (k2 << 4) && k4 == k3 ^ (k3 >> 9)
    requires k5 == k4 + (k4 << 10) && k6 == k5 ^ (k5 >> 2)
    requires k7 == k6 + (k6 << 7) && k8 == k7 ^ (k7 >> 12)
    ensures Mix(key) == k8
  {
    MixIsNested(key);
    Add12Is(key);
    Xor22Is(k1);
    Add4Is(k2);
    Xor9Is(k3);
    Add10Is(k4);
    Xor2Is(k5);
    Add7Is(k6);
    Xor12Is(k7);
  }
}

/** hash_key: the CRC of a key's eight bytes in memory, mixed, modulo the table size. */
module KeyHashes {
  import opened Keys
  import opened Places
  import Crcs
  import Hashes
  import HashIndexes
  import Registers

  lemma {:induction false} ByteReadsBack(b: nat)
    requires b < 256
    ensures NumberOf(WordOf(b)) == b && WordOf(b) <= 0xff
  {
    NumberReadsBack(b);
    TinyWord(WordOf(b));
  }

  // The bytes of a key in memory, lowest first.
  function KeyBytes(key: nat, n: nat): (s: seq<bv32>)
    ensures |s| == n && Crcs.Bytes(s)
  {
    if n == 0 then [] else ByteReadsBack(key % 256); [WordOf(key % 256)] + KeyBytes(key / 256, n - 1)
  }

  // Byte i counts 256 to the i.
  function ByteSum(s: seq<bv32>, n: nat): nat
    requires n <= |s|
  {
    if n == 0 then 0 else ByteSum(s, n - 1) + NumberOf(s[n - 1]) * Pow256(n - 1)
  }

  lemma {:induction false} ByteSumHead(b: bv32, s: seq<bv32>, n: nat)
    requires n <= |s|
    ensures ByteSum([b] + s, n + 1) == NumberOf(b) + 256 * ByteSum(s, n)
  {
    if n > 0 {
      ByteSumHead(b, s, n - 1);
      Scaled(ByteSum(s, n - 1), NumberOf(s[n - 1]), Pow256(n - 1));
    } else {
      assert ByteSum([b] + s, 0) == 0 && Pow256(0) == 1;
    }
  }

  lemma {:induction false} Scaled(a: nat, b: nat, p: nat)
    ensures 256 * a + b * (256 * p) == 256 * (a + b * p)
  {
  }

  // The bytes make up the key.
  lemma {:induction false} KeyBytesMakeKey(key: nat, n: nat)
    requires key < Pow256(n)
    ensures ByteSum(KeyBytes(key, n), n) == key
  {
    if n > 0 {
      KeyBytesMakeKey(key / 256, n - 1);
      ByteReadsBack(key % 256);
      ByteSumHead(WordOf(key % 256), KeyBytes(key / 256, n - 1), n - 1);
    }
  }

  lemma {:induction false} KeyFits(key: Key)
    ensures key < Pow256(8)
  {
    assert Pow256(8) == 0x1_0000_0000_0000_0000;
  }

  // The word a key's search starts from.
  function HashWord(key: Key): Hashes.Word {
    Hashes.Mix(Crcs.BitCrc(KeyBytes(key, 8)))
  }

  function HashOf(key: Key): (h: nat)
    ensures h < HashIndexes.HASH_TABLE_SIZE
  {
    NumberOf(HashWord(key)) % HashIndexes.HASH_TABLE_SIZE
  }

  // Two keys that differ only within four consecutive bytes are mixed to different words.
  lemma {:induction false} NearbyKeysDiffer(j: Key, k: Key, p: nat)
    requires p + 4 <= 8 && j != k
    requires forall i :: 0 <= i < 8 && !(p <= i < p + 4) ==> KeyBytes(j, 8)[i] == KeyBytes(k, 8)[i]
    ensures HashWord(j) != HashWord(k)
  {
    var a, b := KeyBytes(j, 8), KeyBytes(k, 8);
    KeyFits(j);
    KeyFits(k);
    KeyBytesMakeKey(j, 8);
    KeyBytesMakeKey(k, 8);
    Hashes.MixIsPermutation(Crcs.BitCrc(a));
    Hashes.MixIsPermutation(Crcs.BitCrc(b));
    if HashWord(j) == HashWord(k) {
      Crcs.BurstChangesCrc(a, b, p);
    }
  }

  // The slot a search starts at. It is the remainder of a word that unmixes to the CRC of the
  // key's bytes.
  method HashKey(keyIn: Key) returns (h: nat, ghost w: Hashes.Word)
    ensures h == HashOf(keyIn)
    ensures h == NumberOf(w) % HashIndexes.HASH_TABLE_SIZE && Hashes.Unmix(w) == Crcs.BitCrc(KeyBytes(keyIn, 8))
  {
    var crc := Crcs.Crc32(KeyBytes(keyIn, 8));
    var key := MixStep(crc);
    Hashes.MixIsPermutation(crc);
    w := key;
    h := NumberOf(key) % HashIndexes.HASH_TABLE_SIZE;
  }

  method MixStep(word: Hashes.Word) returns (key: Hashes.Word)
    ensures key == Hashes.Mix(word)
  {
    key := word;
    key := key + (key << 12);
    ghost var k1 := key;
    key := key ^ (key >> 22);
    ghost var k2 := key;
    key := key + (key << 4);
    ghost var k3 := key;
    key := key ^ (key >> 9);
    ghost var k4 := key;
    key := key + (key << 10);
    ghost var k5 := key;
    key := key ^ (key >> 2);
    ghost var k6 := key;
    key := key + (key << 7);
    ghost var k7 := key;
    key := key ^ (key >> 12);
    Hashes.MixIsTheLines(word, k1, k2, k3, k4, k5, k6, k7, key);
  }

  lemma {:induction false} ZeroBytes(n: nat, i: nat)
    requires i < n
    ensures KeyBytes(0, n)[i] == 0
  {
    ZeroWord();
    if i > 0 {
      ZeroBytes(n - 1, i - 1);
    }
  }

  lemma {:induction false} ZeroWord()
    ensures WordOf(0) == 0 && WordOf(1) == 1
  {
  }

  lemma {:induction false} BytesOfOne(n: nat, i: nat)
    requires i < n
    ensures KeyBytes(1, n)[i] == if i == 0 then 1 else 0
  {
    ZeroWord();
    if i > 0 {
      ZeroBytes(n - 1, i - 1);
    }
  }

  lemma {:induction false} CrcSteps()
    ensures Crcs.Step8(Crcs.Xor(0x00000000, 1)) == 0x77073096
    ensures Crcs.Step8(Crcs.Xor(0x77073096, 0)) == 0x191b3141
    ensures Crcs.Step8(Crcs.Xor(0x191b3141, 0)) == 0x01c26a37
    ensures Crcs.Step8(Crcs.Xor(0x01c26a37, 0)) == 0xb8bc6765
    ensures Crcs.Step8(Crcs.Xor(0xb8bc6765, 0)) == 0x3d6029b0
    ensures Crcs.Step8(Crcs.Xor(0x3d6029b0, 0)) == 0xcb5cd3a5
    ensures Crcs.Step8(Crcs.Xor(0xcb5cd3a5, 0)) == 0xa6770bb4
    ensures Crcs.Step8(Crcs.Xor(0xa6770bb4, 0)) == 0xccaa009e
  {
  }

  lemma {:induction false} CrcOfOne(s: seq<bv32>)
    requires |s| == 8 && s[0] == 1 && forall i :: 0 < i < 8 ==> s[i] == 0
    ensures Crcs.BitCrc(s) == 0xccaa009e
  {
    CrcSteps();
    Registers.FeedNext(Crcs.Step8, Crcs.Xor, 0x00000000, s, 0);
    Registers.FeedNext(Crcs.Step8, Crcs.Xor, 0x77073096, s, 1);
    Registers.FeedNext(Crcs.Step8, Crcs.Xor, 0x191b3141, s, 2);
    Registers.FeedNext(Crcs.Step8, Crcs.Xor, 0x01c26a37, s, 3);
    Registers.FeedNext(Crcs.Step8, Crcs.Xor, 0xb8bc6765, s, 4);
    Registers.FeedNext(Crcs.Step8, Crcs.Xor, 0x3d6029b0, s, 5);
    Registers.FeedNext(Crcs.Step8, Crcs.Xor, 0xcb5cd3a5, s, 6);
    Registers.FeedNext(Crcs.Step8, Crcs.Xor, 0xa6770bb4, s, 7);
    assert s[0..] == s && s[8..] == [];
  }

  lemma {:induction false} MixOfOne()
    ensures NumberOf(Hashes.Mix(0xccaa009e)) == 3791007571
  {
    Hashes.MixIsTheLines(0xccaa009e, 0x6cb3e09e, 0x6cb3e12c, 0x37f1f3ec, 0x37ea0b15, 0xe0165f15, 0xd813c8d0, 0xe1f830d0, 0xe1f62f53);
  }

  lemma {:induction false} CrcOfKeyOne(key: Key, n: nat)
    requires key == 1 && n == 8
    ensures Crcs.BitCrc(KeyBytes(key, n)) == 0xccaa009e
  {
    var s := KeyBytes(key, n);
    forall i | 0 <= i < n ensures s[i] == if i == 0 then 1 else 0 {
      BytesOfOne(n, i);
    }
    CrcOfOne(s);
  }

  lemma {:induction false} HashOfKeyOne(key: Key)
    requires key == 1
    ensures HashOf(key) == 51007571
  {
    CrcOfKeyOne(key, 8);
    MixOfOne();
  }

  // Key 1 starts its searches at slot 51007571.
  lemma {:induction false} HashOfOne()
    ensures HashOf(1) == 51007571
  {
    HashOfKeyOne(1);
  }
}
