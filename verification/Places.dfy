/** Index words read as numbers: a buffer slot, or a rank in a table file. */
module Places {
  import opened Indexes

  // One more than any slot or rank in use; numbers below it survive a trip through a word.
  const SLOT_LIMIT: nat := 0x400
  const TABLE_LIMIT: nat := 0x100
  const WORD: nat := 0x1_0000_0000

  function WordOf(n: nat): bv32 {
    (n % WORD) as bv32
  }

  function NumberOf(x: bv32): nat {
    x as nat
  }

  // The word write and write_recover make for a buffer slot.
  function SlotIndex(n: nat): Index {
    OfSlot(WordOf(n))
  }

  // The word a dump makes for a rank of a table.
  function RankIndex(table: nat, rank: nat): Index {
    OfRank(WordOf(table), WordOf(rank))
  }

  // The slot a memtable entry's index names.
  function SlotOf(x: Index): nat {
    NumberOf(x.GetIdx())
  }

  datatype Place = InSlot(slot: nat) | InTable(table: nat, rank: nat)

  // Where a word found in the hash index leads.
  function PlaceOf(x: Index): Place {
    if x.IfInFile() then InTable(NumberOf(x.GetFid()), NumberOf(x.GetIdx())) else InSlot(NumberOf(x.GetIdx()))
  }

  lemma {:induction false} CountStep(x: bv32)
    requires x <= 0x3ff
    ensures (x + 1) as nat == x as nat + 1
  {
  }

  lemma {:induction false} SmallWord(x: bv32)
    requires (x as nat) < 0x400
    ensures x <= 0x3ff
  {
  }

  lemma {:induction false} NextNumber(x: bv32)
    requires NumberOf(x) < SLOT_LIMIT
    ensures NumberOf(x + 1) == NumberOf(x) + 1
  {
    SmallWord(x);
    CountStep(x);
  }

  lemma {:induction false} TinyWord(x: bv32)
    requires (x as nat) < 0x100
    ensures x <= 0xff
  {
  }

  lemma {:induction false} LowByte(x: bv32)
    ensures NumberOf(x & 0xff) < 0x100
  {
  }

  lemma {:induction false} BackToWord(x: bv32)
    ensures (x as nat) as bv32 == x
  {
  }

  lemma {:induction false} NumberOfZero()
    ensures NumberOf(0) == 0
  {
  }

  // Every number below the limit has its word.
  lemma {:induction false} WordFor(n: nat) returns (x: bv32)
    requires n < SLOT_LIMIT
    ensures NumberOf(x) == n
  {
    if n == 0 {
      NumberOfZero();
      x := 0;
    } else {
      var y := WordFor(n - 1);
      NextNumber(y);
      x := y + 1;
    }
  }

  lemma {:induction false} RoundTrip<T>(f: T -> nat, g: nat -> T, x: T, n: nat)
    requires f(x) == n && g(f(x)) == x
    ensures f(g(n)) == n && g(n) == x
  {
  }

  lemma {:induction false} WordBack(x: bv32)
    requires NumberOf(x) < WORD
    ensures WordOf(NumberOf(x)) == x
  {
    BackToWord(x);
  }

  lemma {:induction false} NumberReadsBack(n: nat)
    requires n < SLOT_LIMIT
    ensures NumberOf(WordOf(n)) == n && WordOf(n) <= 0x3ff
  {
    var x := WordFor(n);
    WordBack(x);
    RoundTrip(NumberOf, WordOf, x, n);
    SmallWord(x);
  }

  lemma {:induction false} NumberIs(x: bv32, y: bv32)
    requires x == y
    ensures NumberOf(x) == NumberOf(y)
  {
  }

  // The slot read from an entry's index is the slot it was made for.
  lemma {:induction false} SlotReadsBack(n: nat)
    requires n < SLOT_LIMIT
    ensures SlotOf(SlotIndex(n)) == n
  {
    NumberReadsBack(n);
    SlotBits(WordOf(n));
    NumberIs(SlotIndex(n).GetIdx(), WordOf(n));
  }

  lemma {:induction false} SlotBits(i: bv32)
    requires i <= 0x3ff
    ensures OfSlot(i).GetIdx() == i
    ensures OfSlot(i).SetInHash(true).GetIdx() == i && !OfSlot(i).SetInHash(true).IfInFile()
  {
  }

  // A slot word stored in the hash index leads back to the slot.
  lemma {:induction false} SlotPlaceReadsBack(n: nat)
    requires n < SLOT_LIMIT
    ensures PlaceOf(SlotIndex(n).SetInHash(true)) == InSlot(n)
  {
    NumberReadsBack(n);
    SlotBits(WordOf(n));
    NumberIs(SlotIndex(n).SetInHash(true).GetIdx(), WordOf(n));
  }

  lemma {:induction false} RankIsInFile(fid: bv32, i: bv32)
    ensures OfRank(fid, i).SetInHash(true).IfInFile()
  {
  }

  lemma {:induction false} RankFid(fid: bv32, i: bv32)
    ensures OfRank(fid, i).SetInHash(true).GetFid() == fid & 0xff
  {
  }

  lemma {:induction false} RankIdx(fid: bv32, i: bv32)
    requires i <= 0x3ff && fid <= 0xff
    ensures OfRank(fid, i).SetInHash(true).GetIdx() == i && fid & 0xff == fid
  {
  }

  // A rank word leads back to its table and rank exactly while the table's number fits the
  // eight bits of the fid field.
  lemma {:induction false} RankPlaceReadsBack(table: nat, rank: nat)
    requires table < WORD && rank < SLOT_LIMIT
    ensures PlaceOf(RankIndex(table, rank).SetInHash(true)) == InTable(table, rank) <==> table < TABLE_LIMIT
  {
    RankPlace(WordOf(table), WordOf(rank));
    LowByte(WordOf(table));
    NumberReadsBack(rank);
    if table < TABLE_LIMIT {
      NumberReadsBack(table);
      TinyWord(WordOf(table));
      RankIdx(WordOf(table), WordOf(rank));
    }
  }

  lemma {:induction false} RankPlace(fid: bv32, i: bv32)
    ensures PlaceOf(OfRank(fid, i).SetInHash(true))
         == InTable(NumberOf(fid & 0xff), NumberOf(OfRank(fid, i).SetInHash(true).GetIdx()))
  {
    RankIsInFile(fid, i);
    RankFid(fid, i);
    NumberIs(OfRank(fid, i).SetInHash(true).GetFid(), fid & 0xff);
  }
}
