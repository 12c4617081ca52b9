/** The bit-packed index word: idx (20 bits) | flags (4 bits) | fid (8 bits). */
module Indexes {

  datatype Index = Index(status: bv32) {

    function GetFid(): bv32 {
      status & 0xff
    }

    function GetIdx(): bv32 {
      (status & 0xfffff000) >> 12
    }

    function ClearFid(): Index {
      Index(status & 0xffffff00)
    }

    // Only bits 12..29 are cleared: the two top bits of the idx field survive.
    function ClearIdx(): Index {
      Index(status & 0xc0000fff)
    }

    function SetFid(fid: bv32): Index {
      Index(ClearFid().status | fid)
    }

    function SetIdx(idx: bv32): Index {
      Index(ClearIdx().status | (idx << 12))
    }

    predicate IfValid() {
      status & 0xf00 != 0
    }

    predicate IfInHash() {
      status & 0x200 != 0
    }

    predicate IfInFile() {
      status & 0x100 != 0
    }

    predicate IfWriting() {
      status & 0x400 != 0
    }

    function SetInHash(ifset: bool): Index {
      Index(if ifset then status | 0x200 else status & 0xfffffcff)
    }

    function SetInFile(ifset: bool): Index {
      Index(if ifset then status | 0x100 else status & 0xfffffeff)
    }

    function SetIfWriting(ifset: bool): Index {
      Index(if ifset then status | 0x400 else status & 0xfffffaff)
    }
  }

  // The flags of a status word, in place.
  function FlagBits(x: Index): bv32 {
    x.status & 0xf00
  }

  // Setting the idx field: the two top bits of the old field stay behind.
  lemma {:induction false} SetIdxLaw(x: Index, i: bv32)
    ensures x.SetIdx(i).GetIdx() == (i & 0xfffff) | (x.GetIdx() & 0xc0000)
    ensures x.SetIdx(i).GetFid() == x.GetFid() && FlagBits(x.SetIdx(i)) == FlagBits(x)
  {
  }

  // So the field reads back what was set exactly when no stale top bit is left standing.
  lemma {:induction false} SetIdxReadsBack(x: Index, i: bv32)
    requires i <= 0xfffff
    ensures x.SetIdx(i).GetIdx() == i <==> x.GetIdx() & 0xc0000 & (i ^ 0xffffffff) == 0
  {
    SetIdxLaw(x, i);
    StaleBits(x.GetIdx(), i);
  }

  lemma {:induction false} StaleBits(g: bv32, i: bv32)
    requires i <= 0xfffff
    ensures ((i & 0xfffff) | (g & 0xc0000)) == i <==> g & 0xc0000 & (i ^ 0xffffffff) == 0
  {
  }

  // Setting the fid field touches nothing else when the fid fits its eight bits.
  lemma {:induction false} SetFidReadsBack(x: Index, fid: bv32)
    requires fid & 0xff == fid
    ensures x.SetFid(fid).GetFid() == fid
  {
  }

  lemma {:induction false} SetFidKeepsIdx(x: Index, fid: bv32)
    requires fid & 0xff == fid
    ensures x.SetFid(fid).GetIdx() == x.GetIdx()
  {
  }

  lemma {:induction false} SetFidKeepsFlags(x: Index, fid: bv32)
    requires fid & 0xff == fid
    ensures FlagBits(x.SetFid(fid)) == FlagBits(x)
  {
  }

  // A wider fid is cut to eight bits, and its next four bits land in the flags.
  lemma {:induction false} WideFidSpills(x: Index, fid: bv32)
    ensures x.SetFid(fid).GetFid() == fid & 0xff && FlagBits(x.SetFid(fid)) == FlagBits(x) | (fid & 0xf00)
  {
  }

  // The bits of a fid beyond those land in idx.
  lemma {:induction false} WideFidReachesIdx(x: Index, fid: bv32)
    ensures x.SetFid(fid).GetIdx() == x.GetIdx() | ((fid & 0xfffff000) >> 12)
  {
  }

  // Setting a flag sets it alone among the flags.
  lemma {:induction false} FlagsSet(x: Index)
    ensures FlagBits(x.SetInHash(true)) == FlagBits(x) | 0x200
    ensures FlagBits(x.SetInFile(true)) == FlagBits(x) | 0x100
    ensures FlagBits(x.SetIfWriting(true)) == FlagBits(x) | 0x400
  {
  }

  // Clearing one does not always clear it alone: taking a word out of the hash, or ending
  // a write on it, also clears its in-file flag.
  lemma {:induction false} FlagsCleared(x: Index)
    ensures FlagBits(x.SetInFile(false)) == FlagBits(x) & 0xe00
    ensures FlagBits(x.SetInHash(false)) == FlagBits(x) & 0xc00
    ensures FlagBits(x.SetIfWriting(false)) == FlagBits(x) & 0xa00
  {
  }

  // Setting or clearing a flag changes no bit of fid or idx.
  lemma {:induction false} InHashSetOnly(x: Index)
    ensures (x.SetInHash(true).status ^ x.status) & 0xfffff0ff == 0
  {
  }

  lemma {:induction false} InHashClearedOnly(x: Index)
    ensures (x.SetInHash(false).status ^ x.status) & 0xfffff0ff == 0
  {
  }

  lemma {:induction false} InFileSetOnly(x: Index)
    ensures (x.SetInFile(true).status ^ x.status) & 0xfffff0ff == 0
  {
  }

  lemma {:induction false} InFileClearedOnly(x: Index)
    ensures (x.SetInFile(false).status ^ x.status) & 0xfffff0ff == 0
  {
  }

  lemma {:induction false} IfWritingSetOnly(x: Index)
    ensures (x.SetIfWriting(true).status ^ x.status) & 0xfffff0ff == 0
  {
  }

  lemma {:induction false} IfWritingClearedOnly(x: Index)
    ensures (x.SetIfWriting(false).status ^ x.status) & 0xfffff0ff == 0
  {
  }

  // Two words that agree outside the flags have the same fid and the same idx.
  lemma {:induction false} FieldsStay(x: Index, y: Index)
    requires (y.status ^ x.status) & 0xfffff0ff == 0
    ensures x.GetFid() ^ y.GetFid() == 0 && x.GetIdx() ^ y.GetIdx() == 0
  {
  }

  // The index write and write_recover make for buffer slot i.
  function OfSlot(i: bv32): Index {
    Index(0).SetFid(0).SetIdx(i)
  }

  // The index a dump makes for rank i of table fid.
  function OfRank(fid: bv32, i: bv32): Index {
    Index(0).SetFid(fid).SetIdx(i).SetInFile(true)
  }

  lemma {:induction false} OfSlotLaw(i: bv32, j: bv32)
    requires i <= 0x3ffff && j <= 0x3ffff
    ensures OfSlot(i).GetIdx() == i && OfSlot(i).GetFid() == 0 && FlagBits(OfSlot(i)) == 0
    ensures OfSlot(j).SetIdx(i).SetFid(0) == OfSlot(i)
  {
  }

  lemma {:induction false} OfRankLaw(fid: bv32, i: bv32)
    requires i <= 0x3ffff && fid <= 0xff
    ensures OfRank(fid, i).GetIdx() == i && OfRank(fid, i).GetFid() == fid
    ensures FlagBits(OfRank(fid, i)) == 0x100
  {
  }
}
