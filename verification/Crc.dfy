/** The table-driven CRC-32 of a key, and the mixing function after it. */
module Crcs {
  import opened Registers

  // One step of the division by the reflected CRC-32 polynomial.
  function Step(s: bv32): bv32 {
    (s >> 1) ^ (if s & 1 == 1 then 0xedb88320 else 0)
  }

  // The division of one byte's worth of bits.
  function Step8(s: bv32): bv32 {
    Step(Step(Step(Step(Step(Step(Step(Step(s))))))))
  }

  function Xor(x: bv32, y: bv32): bv32 {
    x ^ y
  }

  // The CRC of a message, bit by bit: each byte goes into the low end of the register.
  function BitCrc(message: seq<bv32>): bv32 {
    Feed(Step8, Xor, 0, message)
  }

  predicate Bytes(message: seq<bv32>) {
    forall i :: 0 <= i < |message| ==> message[i] <= 0xff
  }

  function Row0(i: bv32): bv32 {
    if i == 0x00 then 0x00000000 else if i == 0x01 then 0x77073096 else if i == 0x02 then 0xee0e612c else
    if i == 0x03 then 0x990951ba else if i == 0x04 then 0x076dc419 else if i == 0x05 then 0x706af48f else
    if i == 0x06 then 0xe963a535 else if i == 0x07 then 0x9e6495a3 else if i == 0x08 then 0x0edb8832 else
    if i == 0x09 then 0x79dcb8a4 else if i == 0x0a then 0xe0d5e91e else if i == 0x0b then 0x97d2d988 else
    if i == 0x0c then 0x09b64c2b else if i == 0x0d then 0x7eb17cbd else if i == 0x0e then 0xe7b82d07 else
    0x90bf1d91
  }

  function Row1(i: bv32): bv32 {
    if i == 0x10 then 0x1db71064 else if i == 0x11 then 0x6ab020f2 else if i == 0x12 then 0xf3b97148 else
    if i == 0x13 then 0x84be41de else if i == 0x14 then 0x1adad47d else if i == 0x15 then 0x6ddde4eb else
    if i == 0x16 then 0xf4d4b551 else if i == 0x17 then 0x83d385c7 else if i == 0x18 then 0x136c9856 else
    if i == 0x19 then 0x646ba8c0 else if i == 0x1a then 0xfd62f97a else if i == 0x1b then 0x8a65c9ec else
    if i == 0x1c then 0x14015c4f else if i == 0x1d then 0x63066cd9 else if i == 0x1e then 0xfa0f3d63 else
    0x8d080df5
  }

  function Row2(i: bv32): bv32 {
    if i == 0x20 then 0x3b6e20c8 else if i == 0x21 then 0x4c69105e else if i == 0x22 then 0xd56041e4 else
    if i == 0x23 then 0xa2677172 else if i == 0x24 then 0x3c03e4d1 else if i == 0x25 then 0x4b04d447 else
    if i == 0x26 then 0xd20d85fd else if i == 0x27 then 0xa50ab56b else if i == 0x28 then 0x35b5a8fa else
    if i == 0x29 then 0x42b2986c else if i == 0x2a then 0xdbbbc9d6 else if i == 0x2b then 0xacbcf940 else
    if i == 0x2c then 0x32d86ce3 else if i == 0x2d then 0x45df5c75 else if i == 0x2e then 0xdcd60dcf else
    0xabd13d59
  }

  function Row3(i: bv32): bv32 {
    if i == 0x30 then 0x26d930ac else if i == 0x31 then 0x51de003a else if i == 0x32 then 0xc8d75180 else
    if i == 0x33 then 0xbfd06116 else if i == 0x34 then 0x21b4f4b5 else if i == 0x35 then 0x56b3c423 else
    if i == 0x36 then 0xcfba9599 else if i == 0x37 then 0xb8bda50f else if i == 0x38 then 0x2802b89e else
    if i == 0x39 then 0x5f058808 else if i == 0x3a then 0xc60cd9b2 else if i == 0x3b then 0xb10be924 else
    if i == 0x3c then 0x2f6f7c87 else if i == 0x3d then 0x58684c11 else if i == 0x3e then 0xc1611dab else
    0xb6662d3d
  }

  function Row4(i: bv32): bv32 {
    if i == 0x40 then 0x76dc4190 else if i == 0x41 then 0x01db7106 else if i == 0x42 then 0x98d220bc else
    if i == 0x43 then 0xefd5102a else if i == 0x44 then 0x71b18589 else if i == 0x45 then 0x06b6b51f else
    if i == 0x46 then 0x9fbfe4a5 else if i == 0x47 then 0xe8b8d433 else if i == 0x48 then 0x7807c9a2 else
    if i == 0x49 then 0x0f00f934 else if i == 0x4a then 0x9609a88e else if i == 0x4b then 0xe10e9818 else
    if i == 0x4c then 0x7f6a0dbb else if i == 0x4d then 0x086d3d2d else if i == 0x4e then 0x91646c97 else
    0xe6635c01
  }

  function Row5(i: bv32): bv32 {
    if i == 0x50 then 0x6b6b51f4 else if i == 0x51 then 0x1c6c6162 else if i == 0x52 then 0x856530d8 else
    if i == 0x53 then 0xf262004e else if i == 0x54 then 0x6c0695ed else if i == 0x55 then 0x1b01a57b else
    if i == 0x56 then 0x8208f4c1 else if i == 0x57 then 0xf50fc457 else if i == 0x58 then 0x65b0d9c6 else
    if i == 0x59 then 0x12b7e950 else if i == 0x5a then 0x8bbeb8ea else if i == 0x5b then 0xfcb9887c else
    if i == 0x5c then 0x62dd1ddf else if i == 0x5d then 0x15da2d49 else if i == 0x5e then 0x8cd37cf3 else
    0xfbd44c65
  }

  function Row6(i: bv32): bv32 {
    if i == 0x60 then 0x4db26158 else if i == 0x61 then 0x3ab551ce else if i == 0x62 then 0xa3bc0074 else
    if i == 0x63 then 0xd4bb30e2 else if i == 0x64 then 0x4adfa541 else if i == 0x65 then 0x3dd895d7 else
    if i == 0x66 then 0xa4d1c46d else if i == 0x67 then 0xd3d6f4fb else if i == 0x68 then 0x4369e96a else
    if i == 0x69 then 0x346ed9fc else if i == 0x6a then 0xad678846 else if i == 0x6b then 0xda60b8d0 else
    if i == 0x6c then 0x44042d73 else if i == 0x6d then 0x33031de5 else if i == 0x6e then 0xaa0a4c5f else
    0xdd0d7cc9
  }

  function Row7(i: bv32): bv32 {
    if i == 0x70 then 0x5005713c else if i == 0x71 then 0x270241aa else if i == 0x72 then 0xbe0b1010 else
    if i == 0x73 then 0xc90c2086 else if i == 0x74 then 0x5768b525 else if i == 0x75 then 0x206f85b3 else
    if i == 0x76 then 0xb966d409 else if i == 0x77 then 0xce61e49f else if i == 0x78 then 0x5edef90e else
    if i == 0x79 then 0x29d9c998 else if i == 0x7a then 0xb0d09822 else if i == 0x7b then 0xc7d7a8b4 else
    if i == 0x7c then 0x59b33d17 else if i == 0x7d then 0x2eb40d81 else if i == 0x7e then 0xb7bd5c3b else
    0xc0ba6cad
  }

  function Row8(i: bv32): bv32 {
    if i == 0x80 then 0xedb88320 else if i == 0x81 then 0x9abfb3b6 else if i == 0x82 then 0x03b6e20c else
    if i == 0x83 then 0x74b1d29a else if i == 0x84 then 0xead54739 else if i == 0x85 then 0x9dd277af else
    if i == 0x86 then 0x04db2615 else if i == 0x87 then 0x73dc1683 else if i == 0x88 then 0xe3630b12 else
    if i == 0x89 then 0x94643b84 else if i == 0x8a then 0x0d6d6a3e else if i == 0x8b then 0x7a6a5aa8 else
    if i == 0x8c then 0xe40ecf0b else if i == 0x8d then 0x9309ff9d else if i == 0x8e then 0x0a00ae27 else
    0x7d079eb1
  }

  function Row9(i: bv32): bv32 {
    if i == 0x90 then 0xf00f9344 else if i == 0x91 then 0x8708a3d2 else if i == 0x92 then 0x1e01f268 else
    if i == 0x93 then 0x6906c2fe else if i == 0x94 then 0xf762575d else if i == 0x95 then 0x806567cb else
    if i == 0x96 then 0x196c3671 else if i == 0x97 then 0x6e6b06e7 else if i == 0x98 then 0xfed41b76 else
    if i == 0x99 then 0x89d32be0 else if i == 0x9a then 0x10da7a5a else if i == 0x9b then 0x67dd4acc else
    if i == 0x9c then 0xf9b9df6f else if i == 0x9d then 0x8ebeeff9 else if i == 0x9e then 0x17b7be43 else
    0x60b08ed5
  }

  function RowA(i: bv32): bv32 {
    if i == 0xa0 then 0xd6d6a3e8 else if i == 0xa1 then 0xa1d1937e else if i == 0xa2 then 0x38d8c2c4 else
    if i == 0xa3 then 0x4fdff252 else if i == 0xa4 then 0xd1bb67f1 else if i == 0xa5 then 0xa6bc5767 else
    if i == 0xa6 then 0x3fb506dd else if i == 0xa7 then 0x48b2364b else if i == 0xa8 then 0xd80d2bda else
    if i == 0xa9 then 0xaf0a1b4c else if i == 0xaa then 0x36034af6 else if i == 0xab then 0x41047a60 else
    if i == 0xac then 0xdf60efc3 else if i == 0xad then 0xa867df55 else if i == 0xae then 0x316e8eef else
    0x4669be79
  }

  function RowB(i: bv32): bv32 {
    if i == 0xb0 then 0xcb61b38c else if i == 0xb1 then 0xbc66831a else if i == 0xb2 then 0x256fd2a0 else
    if i == 0xb3 then 0x5268e236 else if i == 0xb4 then 0xcc0c7795 else if i == 0xb5 then 0xbb0b4703 else
    if i == 0xb6 then 0x220216b9 else if i == 0xb7 then 0x5505262f else if i == 0xb8 then 0xc5ba3bbe else
    if i == 0xb9 then 0xb2bd0b28 else if i == 0xba then 0x2bb45a92 else if i == 0xbb then 0x5cb36a04 else
    if i == 0xbc then 0xc2d7ffa7 else if i == 0xbd then 0xb5d0cf31 else if i == 0xbe then 0x2cd99e8b else
    0x5bdeae1d
  }

  function RowC(i: bv32): bv32 {
    if i == 0xc0 then 0x9b64c2b0 else if i == 0xc1 then 0xec63f226 else if i == 0xc2 then 0x756aa39c else
    if i == 0xc3 then 0x026d930a else if i == 0xc4 then 0x9c0906a9 else if i == 0xc5 then 0xeb0e363f else
    if i == 0xc6 then 0x72076785 else if i == 0xc7 then 0x05005713 else if i == 0xc8 then 0x95bf4a82 else
    if i == 0xc9 then 0xe2b87a14 else if i == 0xca then 0x7bb12bae else if i == 0xcb then 0x0cb61b38 else
    if i == 0xcc then 0x92d28e9b else if i == 0xcd then 0xe5d5be0d else if i == 0xce then 0x7cdcefb7 else
    0x0bdbdf21
  }

  function RowD(i: bv32): bv32 {
    if i == 0xd0 then 0x86d3d2d4 else if i == 0xd1 then 0xf1d4e242 else if i == 0xd2 then 0x68ddb3f8 else
    if i == 0xd3 then 0x1fda836e else if i == 0xd4 then 0x81be16cd else if i == 0xd5 then 0xf6b9265b else
    if i == 0xd6 then 0x6fb077e1 else if i == 0xd7 then 0x18b74777 else if i == 0xd8 then 0x88085ae6 else
    if i == 0xd9 then 0xff0f6a70 else if i == 0xda then 0x66063bca else if i == 0xdb then 0x11010b5c else
    if i == 0xdc then 0x8f659eff else if i == 0xdd then 0xf862ae69 else if i == 0xde then 0x616bffd3 else
    0x166ccf45
  }

  function RowE(i: bv32): bv32 {
    if i == 0xe0 then 0xa00ae278 else if i == 0xe1 then 0xd70dd2ee else if i == 0xe2 then 0x4e048354 else
    if i == 0xe3 then 0x3903b3c2 else if i == 0xe4 then 0xa7672661 else if i == 0xe5 then 0xd06016f7 else
    if i == 0xe6 then 0x4969474d else if i == 0xe7 then 0x3e6e77db else if i == 0xe8 then 0xaed16a4a else
    if i == 0xe9 then 0xd9d65adc else if i == 0xea then 0x40df0b66 else if i == 0xeb then 0x37d83bf0 else
    if i == 0xec then 0xa9bcae53 else if i == 0xed then 0xdebb9ec5 else if i == 0xee then 0x47b2cf7f else
    0x30b5ffe9
  }

  function RowF(i: bv32): bv32 {
    if i == 0xf0 then 0xbdbdf21c else if i == 0xf1 then 0xcabac28a else if i == 0xf2 then 0x53b39330 else
    if i == 0xf3 then 0x24b4a3a6 else if i == 0xf4 then 0xbad03605 else if i == 0xf5 then 0xcdd70693 else
    if i == 0xf6 then 0x54de5729 else if i == 0xf7 then 0x23d967bf else if i == 0xf8 then 0xb3667a2e else
    if i == 0xf9 then 0xc4614ab8 else if i == 0xfa then 0x5d681b02 else if i == 0xfb then 0x2a6f2b94 else
    if i == 0xfc then 0xb40bbe37 else if i == 0xfd then 0xc30c8ea1 else if i == 0xfe then 0x5a05df1b else
    0x2d02ef8d
  }

  // crc32_tab, in sixteen rows.
  function Crc32Tab(i: bv32): bv32 {
    if i <= 0x0f then Row0(i)
    else if i <= 0x1f then Row1(i)
    else if i <= 0x2f then Row2(i)
    else if i <= 0x3f then Row3(i)
    else if i <= 0x4f then Row4(i)
    else if i <= 0x5f then Row5(i)
    else if i <= 0x6f then Row6(i)
    else if i <= 0x7f then Row7(i)
    else if i <= 0x8f then Row8(i)
    else if i <= 0x9f then Row9(i)
    else if i <= 0xaf then RowA(i)
    else if i <= 0xbf then RowB(i)
    else if i <= 0xcf then RowC(i)
    else if i <= 0xdf then RowD(i)
    else if i <= 0xef then RowE(i)
    else RowF(i)
  }

  lemma {:induction false} Row0Is(i: bv32)
    requires 0x00 <= i <= 0x0f
    ensures Row0(i) == Step8(i)
  {
  }

  lemma {:induction false} Row1Is(i: bv32)
    requires 0x10 <= i <= 0x1f
    ensures Row1(i) == Step8(i)
  {
  }

  lemma {:induction false} Row2Is(i: bv32)
    requires 0x20 <= i <= 0x2f
    ensures Row2(i) == Step8(i)
  {
  }

  lemma {:induction false} Row3Is(i: bv32)
    requires 0x30 <= i <= 0x3f
    ensures Row3(i) == Step8(i)
  {
  }

  lemma {:induction false} Row4Is(i: bv32)
    requires 0x40 <= i <= 0x4f
    ensures Row4(i) == Step8(i)
  {
  }

  lemma {:induction false} Row5Is(i: bv32)
    requires 0x50 <= i <= 0x5f
    ensures Row5(i) == Step8(i)
  {
  }

  lemma {:induction false} Row6Is(i: bv32)
    requires 0x60 <= i <= 0x6f
    ensures Row6(i) == Step8(i)
  {
  }

  lemma {:induction false} Row7Is(i: bv32)
    requires 0x70 <= i <= 0x7f
    ensures Row7(i) == Step8(i)
  {
  }

  lemma {:induction false} Row8Is(i: bv32)
    requires 0x80 <= i <= 0x8f
    ensures Row8(i) == Step8(i)
  {
  }

  lemma {:induction false} Row9Is(i: bv32)
    requires 0x90 <= i <= 0x9f
    ensures Row9(i) == Step8(i)
  {
  }

  lemma {:induction false} RowAIs(i: bv32)
    requires 0xa0 <= i <= 0xaf
    ensures RowA(i) == Step8(i)
  {
  }

  lemma {:induction false} RowBIs(i: bv32)
    requires 0xb0 <= i <= 0xbf
    ensures RowB(i) == Step8(i)
  {
  }

  lemma {:induction false} RowCIs(i: bv32)
    requires 0xc0 <= i <= 0xcf
    ensures RowC(i) == Step8(i)
  {
  }

  lemma {:induction false} RowDIs(i: bv32)
    requires 0xd0 <= i <= 0xdf
    ensures RowD(i) == Step8(i)
  {
  }

  lemma {:induction false} RowEIs(i: bv32)
    requires 0xe0 <= i <= 0xef
    ensures RowE(i) == Step8(i)
  {
  }

  lemma {:induction false} RowFIs(i: bv32)
    requires 0xf0 <= i <= 0xff
    ensures RowF(i) == Step8(i)
  {
  }


  lemma {:induction false} LowRows(i: bv32)
    requires i <= 0x7f
    ensures Crc32Tab(i) == Step8(i)
  {
    if i <= 0x0f {
      Row0Is(i);
    } else if i <= 0x1f {
      Row1Is(i);
    } else if i <= 0x2f {
      Row2Is(i);
    } else if i <= 0x3f {
      Row3Is(i);
    } else if i <= 0x4f {
      Row4Is(i);
    } else if i <= 0x5f {
      Row5Is(i);
    } else if i <= 0x6f {
      Row6Is(i);
    } else {
      Row7Is(i);
    }
  }

  lemma {:induction false} HighRows(i: bv32)
    requires 0x80 <= i <= 0xff
    ensures Crc32Tab(i) == Step8(i)
  {
    if i <= 0x8f {
      Row8Is(i);
    } else if i <= 0x9f {
      Row9Is(i);
    } else if i <= 0xaf {
      RowAIs(i);
    } else if i <= 0xbf {
      RowBIs(i);
    } else if i <= 0xcf {
      RowCIs(i);
    } else if i <= 0xdf {
      RowDIs(i);
    } else if i <= 0xef {
      RowEIs(i);
    } else {
      RowFIs(i);
    }
  }

  // Entry i of the table is the division of the byte i.
  lemma {:induction false} TableIsDivision(i: bv32)
    requires i <= 0xff
    ensures Crc32Tab(i) == Step8(i)
  {
    if i <= 0x7f {
      LowRows(i);
    } else {
      HighRows(i);
    }
  }

  // The division is linear over xor, bit by bit and so byte by byte.
  lemma {:induction false} StepOfXor(x: bv32, y: bv32, s: bv32)
    requires s == x ^ y
    ensures Step(s) == Step(x) ^ Step(y)
  {
    if x & 1 == 1 {
      if y & 1 == 1 {
      } else {
      }
    } else {
      if y & 1 == 1 {
      } else {
      }
    }
  }

  lemma {:induction false} StepLinear(x: bv32, y: bv32)
    ensures Step(Xor(x, y)) == Xor(Step(x), Step(y))
  {
    StepOfXor(x, y, Xor(x, y));
  }

  lemma {:induction false} StepInjective(x: bv32, y: bv32)
    requires Step(x) == Step(y)
    ensures x == y
  {
  }

  lemma {:induction false} Step8Is(x: bv32)
    ensures Twice(Twice(Twice(Step)))(x) == Step8(x)
  {
  }

  lemma {:induction false} Step8Laws()
    ensures Hom(Step8, Xor) && Injective(Step8)
  {
    forall x, y ensures HomAt(Step, Xor, x, y) {
      StepLinear(x, y);
    }
    forall x, y ensures InjectiveAt(Step, x, y) {
      if Step(x) == Step(y) {
        StepInjective(x, y);
      }
    }
    HomTwice(Step, Xor);
    HomTwice(Twice(Step), Xor);
    HomTwice(Twice(Twice(Step)), Xor);
    InjectiveTwice(Step);
    InjectiveTwice(Twice(Step));
    InjectiveTwice(Twice(Twice(Step)));
    forall x, y ensures HomAt(Step8, Xor, x, y) && InjectiveAt(Step8, x, y) {
      assert HomAt(Twice(Twice(Twice(Step))), Xor, x, y) && InjectiveAt(Twice(Twice(Twice(Step))), x, y);
      Step8Is(x);
      Step8Is(y);
      Step8Is(Xor(x, y));
    }
  }

  lemma {:induction false} XorLaws()
    ensures IsSum(Xor) && IsZero(Xor, 0)
  {
    forall a, b, c ensures AssociatesAt(Xor, a, b, c) {
      XorAssociates(a, b, c);
    }
    forall a, b ensures CommutesAt(Xor, a, b) {
      XorCommutes(a, b);
    }
    forall x ensures Xor(x, 0) == x {
      XorZero(x);
    }
  }

  lemma {:induction false} XorAssociates(a: bv32, b: bv32, c: bv32)
    ensures Xor(Xor(a, b), c) == Xor(a, Xor(b, c))
  {
  }

  lemma {:induction false} XorCommutes(a: bv32, b: bv32)
    ensures Xor(a, b) == Xor(b, a)
  {
  }

  lemma {:induction false} XorZero(x: bv32)
    ensures Xor(x, 0) == x
  {
  }

  lemma {:induction false} HighBitsShift(x: bv32)
    requires x & 0xff == 0
    ensures Step8(x) == x >> 8
  {
  }

  lemma {:induction false} Parts(v: bv32)
    ensures v & 0xff <= 0xff && (v & 0xffffff00) & 0xff == 0
    ensures Xor(v & 0xff, v & 0xffffff00) == v && (v & 0xffffff00) >> 8 == v >> 8
  {
  }

  // One byte's division, with the table: the bits above the low byte only move down.
  lemma {:induction false} SplitStep(v: bv32)
    ensures Xor(Crc32Tab(v & 0xff), v >> 8) == Step8(v)
  {
    Parts(v);
    TableIsDivision(v & 0xff);
    HighBitsShift(v & 0xffffff00);
    Step8Laws();
    assert HomAt(Step8, Xor, v & 0xff, v & 0xffffff00);
  }

  // One turn of crc32's loop divides by eight bits at once.
  lemma {:induction false} ByteStep(c: bv32, b: bv32)
    requires b <= 0xff
    ensures Xor(Crc32Tab(Xor(c, b) & 0xff), c >> 8) == Step8(Xor(c, b))
  {
    SplitStep(Xor(c, b));
    SameHigh(c, b);
  }

  lemma {:induction false} SameHigh(c: bv32, b: bv32)
    requires b <= 0xff
    ensures c >> 8 == Xor(c, b) >> 8
  {
  }

  lemma {:induction false} CrcStep(s: seq<bv32>, i: nat, c: bv32)
    requires i < |s| && s[i] <= 0xff && c == BitCrc(s[..i])
    ensures Xor(Crc32Tab(Xor(c, s[i]) & 0xff), c >> 8) == BitCrc(s[..i + 1])
  {
    ByteStep(c, s[i]);
    FeedAppend(Step8, Xor, 0, s[..i], [s[i]]);
    assert s[..i + 1] == s[..i] + [s[i]];
  }

  // crc32 of the eight bytes of a key: the fast, table-driven form computes the slow one.
  method Crc32(s: seq<bv32>) returns (crc32val: bv32)
    requires |s| == 8 && Bytes(s)
    ensures crc32val == BitCrc(s)
  {
    crc32val := 0;
    var i := 0;
    while i < 8
      invariant 0 <= i <= 8
      invariant crc32val == BitCrc(s[..i])
    {
      CrcStep(s, i, crc32val);
      crc32val := Xor(Crc32Tab(Xor(crc32val, s[i]) & 0xff), crc32val >> 8);
      i := i + 1;
    }
    assert s[..8] == s;
  }

  // The CRC is linear over xor.
  lemma {:induction false} CrcLinear(a: seq<bv32>, b: seq<bv32>)
    requires |a| == |b|
    ensures BitCrc(Sum(Xor, a, b)) == Xor(BitCrc(a), BitCrc(b))
  {
    Step8Laws();
    XorLaws();
    XorZero(0);
    FeedHom(Step8, Xor, 0, 0, a, b);
  }

  lemma {:induction false} Step8Zero()
    ensures Step8(0) == 0
  {
  }

  lemma {:induction false} XorIsZero(x: bv32, y: bv32)
    ensures Xor(x, y) == 0 <==> x == y
  {
  }

  // A division that leaves at most 24 bits had only shifted them down.
  lemma {:induction false} StepBack(v: bv32, w: bv32)
    requires Step8(v) == w && w <= 0xffffff
    ensures v == w << 8
  {
    ShiftedUp(w);
    HighBitsShift(w << 8);
    Step8Laws();
    assert InjectiveAt(Step8, v, w << 8);
  }

  lemma {:induction false} ShiftedUp(w: bv32)
    requires w <= 0xffffff
    ensures (w << 8) & 0xff == 0 && (w << 8) >> 8 == w
  {
  }

  // No four bytes, fed into an empty register, leave it empty, unless they are all zero.
  lemma {:induction false} FourBytes(d: seq<bv32>)
    requires |d| == 4 && Bytes(d)
    requires Feed(Step8, Xor, 0, d) == 0
    ensures forall i :: 0 <= i < 4 ==> d[i] == 0
  {
    FeedFour(Step8, Xor, 0, d);
    var s1 := Step8(Xor(0, d[0]));
    var s2 := Step8(Xor(s1, d[1]));
    BackFrom(s1, s2, Step8(Xor(s2, d[2])), d[0], d[1], d[2], d[3]);
  }

  lemma {:induction false} BackFrom(s1: bv32, s2: bv32, s3: bv32, d0: bv32, d1: bv32, d2: bv32, d3: bv32)
    requires d0 <= 0xff && d1 <= 0xff && d2 <= 0xff && d3 <= 0xff
    requires s1 == Step8(Xor(0, d0)) && s2 == Step8(Xor(s1, d1)) && s3 == Step8(Xor(s2, d2))
    requires Step8(Xor(s3, d3)) == 0
    ensures d0 == 0 && d1 == 0 && d2 == 0 && d3 == 0
  {
    StepBack(Xor(s3, d3), 0);
    XorIsZero(s3, d3);
    StepBack(Xor(s2, d2), s3);
    OneByte(s2, d2, s3);
    StepBack(Xor(s1, d1), s2);
    TwoBytes(s1, d1, s2);
    StepBack(Xor(0, d0), s1);
    NoOverlap(d0, s1);
    NoOverlap(d1, s2);
    NoOverlap(d2, s3);
  }

  lemma {:induction false} OneByte(s: bv32, d: bv32, w: bv32)
    requires Xor(s, d) == w << 8 && d <= 0xff && w <= 0xff
    ensures s <= 0xffff
  {
  }

  lemma {:induction false} TwoBytes(s: bv32, d: bv32, w: bv32)
    requires Xor(s, d) == w << 8 && d <= 0xff && w <= 0xffff
    ensures s <= 0xffffff
  {
  }

  lemma {:induction false} NoOverlap(d: bv32, w: bv32)
    requires Xor(0, d) == w << 8 && d <= 0xff && w <= 0xffffff
    ensures d == 0 && w == 0
  {
  }

  // Messages that differ only within four consecutive bytes have different CRCs.
  lemma {:induction false} BurstChangesCrc(a: seq<bv32>, b: seq<bv32>, p: nat)
    requires |a| == |b| && Bytes(a) && Bytes(b) && p + 4 <= |a|
    requires forall i :: 0 <= i < |a| && !(p <= i < p + 4) ==> a[i] == b[i]
    requires BitCrc(a) == BitCrc(b)
    ensures a == b
  {
    var d := Sum(Xor, a, b);
    CrcLinear(a, b);
    XorIsZero(BitCrc(a), BitCrc(b));
    forall i | 0 <= i < |d| ensures d[i] <= 0xff && (d[i] == 0 <==> a[i] == b[i]) {
      XorIsZero(a[i], b[i]);
      XorByte(a[i], b[i]);
    }
    Burst(d, p);
  }

  lemma {:induction false} XorByte(x: bv32, y: bv32)
    requires x <= 0xff && y <= 0xff
    ensures Xor(x, y) <= 0xff
  {
  }

  lemma {:induction false} Burst(d: seq<bv32>, p: nat)
    requires p + 4 <= |d| && Bytes(d) && BitCrc(d) == 0
    requires forall i :: 0 <= i < |d| && !(p <= i < p + 4) ==> d[i] == 0
    ensures forall i :: 0 <= i < |d| ==> d[i] == 0
  {
    var x, y, z := d[..p], d[p..p + 4], d[p + 4..];
    assert d == (x + y) + z;
    Step8Laws();
    XorLaws();
    Step8Zero();
    FeedAppend(Step8, Xor, 0, x + y, z);
    FeedAppend(Step8, Xor, 0, x, y);
    FeedZeros(Step8, Xor, 0, 0, x);
    FeedZeros(Step8, Xor, 0, Feed(Step8, Xor, 0, x + y), z);
    FourBytes(y);
    forall i | p <= i < p + 4 ensures d[i] == 0 {
      assert d[i] == y[i - p];
    }
  }
}
