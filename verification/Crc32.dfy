/** CRC-32 (ITU-T V.42, section 8.1.1.6.2), written three times in the repository: with a
    mask, with a branch and with a 256-entry table.  The three loops are proved against one
    register function, which is then read bit by bit to prove what the checksum detects. */
module Crc32 {
  import opened Bytes

  /** One shift of the reflected register. */
  function Step(c: bv32): bv32
  {
    if c & 1 == 1 then (c >> 1) ^ 0xEDB88320 else c >> 1
  }

  function Xor(a: bv32, b: bv32): bv32
  {
    a ^ b
  }

  predicate LowBit(w: bv32)
  {
    w & 1 == 1
  }

  function Half(w: bv32): bv32
  {
    w >> 1
  }

  function BitWord(bit: bool): bv32
  {
    if bit then 1 else 0
  }

  /** The word w shifted left by one with bit moved in at the low end. */
  function Append(w: bv32, bit: bool): bv32
  {
    (w << 1) | BitWord(bit)
  }

  /** The word with the low k binary digits of n. */
  function WordOfNat(n: nat, k: nat): bv32
    decreases k
  {
    if k == 0 then 0 else Append(WordOfNat(n / 2, k - 1), n % 2 == 1)
  }

  /** The number written by the low k bits of w. */
  function NatOfWord(w: bv32, k: nat): nat
  {
    if k == 0 then 0 else 2 * NatOfWord(Half(w), k - 1) + (if LowBit(w) then 1 else 0)
  }

  /** A message byte xored into the low end of the register. */
  function Absorb(c: bv32, b: byte): bv32
  {
    Xor(c, WordOfNat(b, 8))
  }

  function Steps(c: bv32, n: nat): bv32
  {
    if n == 0 then c else Step(Steps(c, n - 1))
  }

  function ByteStep(c: bv32, b: byte): bv32
  {
    Steps(Absorb(c, b), 8)
  }

  /** The register after the bytes of data, starting from c. */
  function Register(c: bv32, data: bytes): bv32
  {
    if data == [] then c else ByteStep(Register(c, data[..|data| - 1]), data[|data| - 1])
  }

  function Crc(data: bytes): bv32
  {
    !Register(0xFFFFFFFF, data)
  }

  /** The checksum as the unsigned number a header field holds. */
  function CrcValue(data: bytes): nat
  {
    NatOfWord(Crc(data), 32)
  }

  // ---- The three implementations ----

  /** common/ego_v1: the feedback term is selected with a mask. */
  method MaskCrc32(data: bytes) returns (crc: bv32)
    ensures crc == Crc(data)
  {
    hide Step, Absorb;
    crc := 0xFFFFFFFF;
    for i := 0 to |data|
      invariant crc == Register(0xFFFFFFFF, data[..i])
    {
      crc := MaskRounds(Absorb(crc, data[i]));
      assert data[..i + 1][..i] == data[..i];
    }
    assert data[..|data|] == data;
    crc := !crc;
  }

  method MaskRounds(c: bv32) returns (crc: bv32)
    ensures crc == Steps(c, 8)
  {
    hide Step;
    crc := c;
    for j := 0 to 8
      invariant crc == Steps(c, j)
    {
      var mask: bv32 := 0 - (crc & 1);
      MaskedFeedback(crc);
      crc := (crc >> 1) ^ (0xEDB88320 & mask);
    }
  }

  /** runtimepc/protocol: the feedback term is added in a branch. */
  method BranchCrc32(data: bytes) returns (crc: bv32)
    ensures crc == Crc(data)
  {
    hide Step, Absorb;
    crc := 0xFFFFFFFF;
    for n := 0 to |data|
      invariant crc == Register(0xFFFFFFFF, data[..n])
    {
      crc := BranchRounds(Absorb(crc, data[n]));
      assert data[..n + 1][..n] == data[..n];
    }
    assert data[..|data|] == data;
    crc := !crc;
  }

  method BranchRounds(c: bv32) returns (crc: bv32)
    ensures crc == Steps(c, 8)
  {
    hide Step;
    crc := c;
    for i := 0 to 8
      invariant crc == Steps(c, i)
    {
      var bit := (crc & 1) != 0;
      BranchFeedback(crc);
      crc := crc >> 1;
      if bit {
        crc := crc ^ 0xEDB88320;
      }
    }
  }

  function LowByte(w: bv32): bv32
  {
    w & 0xFF
  }

  function HighBytes(w: bv32): bv32
  {
    w & 0xFFFFFF00
  }

  function Drop8(w: bv32): bv32
  {
    w >> 8
  }

  /** Table entry i: the register after eight shifts of the byte value i. */
  function TableEntry(i: nat): bv32
  {
    Steps(WordOfNat(i, 8), 8)
  }

  /** offline: fills the 256-entry table. */
  method BuildTable() returns (tbl: array<bv32>)
    ensures fresh(tbl) && tbl.Length == 256
    ensures forall i :: 0 <= i < 256 ==> tbl[i] == TableEntry(i)
  {
    hide TableEntry;
    tbl := new bv32[256];
    for i := 0 to 256
      invariant forall k :: 0 <= k < i ==> tbl[k] == TableEntry(k)
    {
      var v := TableRounds(i);
      tbl[i] := v;
    }
  }

  method TableRounds(i: nat) returns (v: bv32)
    ensures v == TableEntry(i)
  {
    hide Step, WordOfNat;
    v := WordOfNat(i, 8);
    for j := 0 to 8
      invariant v == Steps(WordOfNat(i, 8), j)
    {
      TableFeedback(v);
      v := if v & 1 != 0 then 0xEDB88320 ^ (v >> 1) else v >> 1;
    }
  }

  /** The table slot of the low register byte xored with the message byte. */
  function TableIndex(c: bv32, b: byte): (i: nat)
    ensures i < 256
  {
    hide *;
    NatOfWordBound(Absorb(c, b), 8);
    NatOfWord(Absorb(c, b), 8)
  }

  method TableRegister(data: bytes, initVal: bv32) returns (val: bv32)
    ensures val == Register(initVal, data)
  {
    hide *;
    var tbl := BuildTable();
    val := initVal;
    RegisterOfEmpty(initVal);
    assert data[..0] == [];
    for i := 0 to |data|
      invariant forall k :: 0 <= k < 256 ==> tbl[k] == TableEntry(k)
      invariant val == Register(initVal, data[..i])
    {
      var index := TableIndex(val, data[i]);
      TableStep(val, data[i]);
      val := Xor(tbl[index], Drop8(val));
      assert data[..i + 1] == data[..i] + [data[i]];
      RegisterOfSnoc(initVal, data[..i], data[i]);
    }
    assert data[..|data|] == data;
  }

  method TableCrc32(data: bytes, initVal: bv32 := 0xFFFFFFFF) returns (crc: bv32)
    ensures crc == Xor(Register(initVal, data), 0xFFFFFFFF)
    ensures initVal == 0xFFFFFFFF ==> crc == Crc(data)
  {
    hide *;
    var val := TableRegister(data, initVal);
    crc := Xor(val, 0xFFFFFFFF);
    CrcIsXor(data);
  }

  lemma CrcIsXor(data: bytes)
    ensures Xor(Register(0xFFFFFFFF, data), 0xFFFFFFFF) == Crc(data)
  {
    hide Register, Xor;
    FinalXor(Register(0xFFFFFFFF, data));
  }

  lemma RegisterOfEmpty(c: bv32)
    ensures Register(c, []) == c
  {}

  lemma RegisterOfSnoc(c: bv32, data: bytes, b: byte)
    ensures Register(c, data + [b]) == ByteStep(Register(c, data), b)
  {
    assert (data + [b])[..|data|] == data;
  }

  lemma MaskedFeedback(c: bv32)
    ensures (c >> 1) ^ (0xEDB88320 & (0 - (c & 1))) == Step(c)
  {
    assert c & 1 == 0 || c & 1 == 1;
    assert c & 1 == 0 ==> 0xEDB88320 & (0 - (c & 1)) == 0;
    assert c & 1 == 1 ==> 0xEDB88320 & (0 - (c & 1)) == 0xEDB88320;
  }

  lemma BranchFeedback(c: bv32)
    ensures Step(c) == if c & 1 != 0 then (c >> 1) ^ 0xEDB88320 else c >> 1
  {}

  lemma TableFeedback(v: bv32)
    ensures Step(v) == if v & 1 != 0 then 0xEDB88320 ^ (v >> 1) else v >> 1
  {
    assert 0xEDB88320 ^ (v >> 1) == (v >> 1) ^ 0xEDB88320;
  }

  lemma FinalXor(c: bv32)
    ensures Xor(c, 0xFFFFFFFF) == !c
  {}

  // ---- Linearity over exclusive or ----

  lemma ShiftOfXor(a: bv32, b: bv32)
    ensures (a ^ b) >> 1 == (a >> 1) ^ (b >> 1)
  {}

  lemma LowBitOfXor(a: bv32, b: bv32)
    ensures ((a ^ b) & 1 == 1) <==> ((a & 1 == 1) != (b & 1 == 1))
  {}

  lemma XorCancels(a: bv32, b: bv32, p: bv32)
    ensures (a ^ p) ^ (b ^ p) == a ^ b
    ensures (a ^ p) ^ b == (a ^ b) ^ p && a ^ (b ^ p) == (a ^ b) ^ p
  {}

  lemma StepOfXor(a: bv32, b: bv32)
    ensures Step(Xor(a, b)) == Xor(Step(a), Step(b))
  {
    ShiftOfXor(a, b);
    LowBitOfXor(a, b);
    XorCancels(a >> 1, b >> 1, 0xEDB88320);
  }

  lemma {:induction false} StepsOfXor(a: bv32, b: bv32, n: nat)
    ensures Steps(Xor(a, b), n) == Xor(Steps(a, n), Steps(b, n))
  {
    hide Step, Xor;
    if n == 0 {
    } else {
      StepsOfXor(a, b, n - 1);
      StepOfXor(Steps(a, n - 1), Steps(b, n - 1));
    }
  }

  lemma {:induction false} StepsFromHead(c: bv32, n: nat)
    ensures Steps(c, n + 1) == Steps(Step(c), n)
  {
    hide Step;
    if n == 0 {
    } else {
      StepsFromHead(c, n - 1);
    }
  }

  lemma StepIsInjective(a: bv32, b: bv32)
    requires Step(a) == Step(b)
    ensures a == b
  {}

  // ---- The table step ----

  lemma SplitByte(v: bv32)
    ensures v == Xor(LowByte(v), HighBytes(v))
  {}

  lemma PlainShift(v: bv32)
    requires !LowBit(v)
    ensures Step(v) == Half(v)
  {}

  lemma HighBytesShift(v: bv32)
    requires v & 0xFF == 0
    ensures !LowBit(v) && !LowBit(Half(v)) && !LowBit(Half(Half(v))) && !LowBit(Half(Half(Half(v))))
    ensures Half(Half(Half(Half(v)))) & 0xF == 0
  {}

  lemma LowNibbleShift(v: bv32)
    requires v & 0xF == 0
    ensures !LowBit(v) && !LowBit(Half(v)) && !LowBit(Half(Half(v))) && !LowBit(Half(Half(Half(v))))
  {}

  lemma EightHalvesDrop(v: bv32)
    ensures HighBytes(v) & 0xFF == 0
    ensures Half(Half(Half(Half(Half(Half(Half(Half(HighBytes(v))))))))) == Drop8(v)
  {}

  lemma DropOfXor(c: bv32, w: bv32)
    requires Within(w, 0xFF)
    ensures Drop8(Xor(c, w)) == Drop8(c)
  {}

  lemma DropOfAbsorb(c: bv32, b: byte)
    ensures Drop8(Absorb(c, b)) == Drop8(c)
  {
    WordOfNatWithin(b, 8);
    LowMasks(8);
    hide Drop8, Xor, WordOfNat, LowMask;
    DropOfXor(c, WordOfNat(b, 8));
  }

  /** Eight shifts that meet no set low bit bring in no feedback. */
  lemma EightPlainShifts(v: bv32)
    ensures Steps(HighBytes(v), 8) == Drop8(v)
  {
    hide Step, Half, LowBit, HighBytes, Drop8;
    EightHalvesDrop(v);
    var h := HighBytes(v);
    HighBytesShift(h);
    var w := Half(Half(Half(Half(h))));
    LowNibbleShift(w);
    PlainShift(h);
    assert Steps(h, 1) == Half(h);
    PlainShift(Half(h));
    assert Steps(h, 2) == Half(Half(h));
    PlainShift(Half(Half(h)));
    assert Steps(h, 3) == Half(Half(Half(h)));
    PlainShift(Half(Half(Half(h))));
    assert Steps(h, 4) == w;
    PlainShift(w);
    assert Steps(h, 5) == Half(w);
    PlainShift(Half(w));
    assert Steps(h, 6) == Half(Half(w));
    PlainShift(Half(Half(w)));
    assert Steps(h, 7) == Half(Half(Half(w)));
    PlainShift(Half(Half(Half(w))));
  }

  /** The low eight bits of a word, as a number and back. */
  lemma IndexRoundTrip(w: bv32)
    ensures WordOfNat(NatOfWord(w, 8), 8) == LowByte(w)
  {
    hide *;
    var w4 := Half(Half(Half(Half(w))));
    RebuildBit(w, 7);
    RebuildBit(Half(w), 6);
    RebuildBit(Half(Half(w)), 5);
    RebuildBit(Half(Half(Half(w))), 4);
    RebuildBit(w4, 3);
    RebuildBit(Half(w4), 2);
    RebuildBit(Half(Half(w4)), 1);
    RebuildBit(Half(Half(Half(w4))), 0);
    RebuildNothing(Half(Half(Half(Half(w4)))));
    RebuiltByte(w);
  }

  lemma RebuildNothing(w: bv32)
    ensures WordOfNat(NatOfWord(w, 0), 0) == 0
  {}

  lemma RebuildBit(w: bv32, k: nat)
    ensures WordOfNat(NatOfWord(w, k + 1), k + 1) == Append(WordOfNat(NatOfWord(Half(w), k), k), LowBit(w))
  {
    hide Append, Half, LowBit;
  }

  lemma RebuiltByte(w: bv32)
    ensures var w4 := Half(Half(Half(Half(w))));
            Append(Append(Append(Append(Append(Append(Append(Append(0,
              LowBit(Half(Half(Half(w4))))), LowBit(Half(Half(w4)))), LowBit(Half(w4))), LowBit(w4)),
              LowBit(Half(Half(Half(w))))), LowBit(Half(Half(w)))), LowBit(Half(w))), LowBit(w)) == LowByte(w)
  {}

  lemma TableStep(c: bv32, b: byte)
    ensures ByteStep(c, b) == Xor(TableEntry(TableIndex(c, b)), Drop8(c))
  {
    hide Step, Xor, Absorb, Steps, LowByte, HighBytes, Drop8, WordOfNat;
    var v := Absorb(c, b);
    SplitByte(v);
    StepsOfXor(LowByte(v), HighBytes(v), 8);
    EightPlainShifts(v);
    DropOfAbsorb(c, b);
    IndexRoundTrip(v);
  }

  // ---- The register, one message bit at a time ----

  function BitStep(c: bv32, bit: bool): bv32
  {
    Step(Xor(c, BitWord(bit)))
  }

  function BitRegister(c: bv32, bits: seq<bool>): bv32
  {
    if bits == [] then c else BitStep(BitRegister(c, bits[..|bits| - 1]), bits[|bits| - 1])
  }

  /** The low n bits of w, least significant first: the order in which V.42 sends them. */
  function WordBits(w: bv32, n: nat): (r: seq<bool>)
    ensures |r| == n
  {
    if n == 0 then [] else [LowBit(w)] + WordBits(Half(w), n - 1)
  }

  function ByteBits(b: byte): (r: seq<bool>)
    ensures |r| == 8
  {
    WordBits(WordOfNat(b, 8), 8)
  }

  function MessageBits(data: bytes): (r: seq<bool>)
    ensures |r| == 8 * |data|
  {
    if data == [] then [] else MessageBits(data[..|data| - 1]) + ByteBits(data[|data| - 1])
  }

  /** w has no bit at position n or above. */
  predicate Fits(w: bv32, n: nat)
  {
    if n == 0 then w == 0 else Fits(Half(w), n - 1)
  }

  // ---- Numbers and words ----

  /** The mask of the k low bits. */
  function LowMask(k: nat): bv32
  {
    if k == 0 then 0 else Append(LowMask(k - 1), true)
  }

  predicate Within(m: bv32, k: bv32)
  {
    m & k == m
  }

  lemma OneIsWithin(w: bv32, m: bv32)
    requires Within(w, m)
    ensures Within(Append(w, true), Append(m, true))
  {}

  lemma ZeroIsWithin(w: bv32, m: bv32)
    requires Within(w, m)
    ensures Within(Append(w, false), Append(m, true))
  {}

  lemma AppendKeepsWithin(w: bv32, m: bv32, bit: bool)
    requires Within(w, m)
    ensures Within(Append(w, bit), Append(m, true))
  {
    hide *;
    if bit {
      OneIsWithin(w, m);
    } else {
      ZeroIsWithin(w, m);
    }
  }

  lemma NothingWithin(m: bv32)
    ensures Within(0, m)
  {}

  lemma {:induction false} WordOfNatWithin(n: nat, k: nat)
    ensures Within(WordOfNat(n, k), LowMask(k))
    decreases k
  {
    hide Append, Within;
    if k == 0 {
      NothingWithin(LowMask(0));
    } else {
      WordOfNatWithin(n / 2, k - 1);
      AppendKeepsWithin(WordOfNat(n / 2, k - 1), LowMask(k - 1), n % 2 == 1);
    }
  }

  lemma LowMasks(k: nat)
    requires k <= 8
    ensures LowMask(k) & 0x80000000 == 0
    ensures k == 8 ==> LowMask(k) == 0xFF
  {
    assert LowMask(4) == 0xF;
    assert LowMask(5) == 0x1F && LowMask(6) == 0x3F && LowMask(7) == 0x7F && LowMask(8) == 0xFF;
    assert LowMask(0) == 0 && LowMask(1) == 1 && LowMask(2) == 3 && LowMask(3) == 7;
    assert k == 0 || k == 1 || k == 2 || k == 3 || k == 4 || k == 5 || k == 6 || k == 7 || k == 8;
  }

  lemma AppendParts(w: bv32, m: bv32, bit: bool)
    requires Within(w, m) && m & 0x80000000 == 0
    ensures Half(Append(w, bit)) == w && LowBit(Append(w, bit)) == bit
  {}

  lemma WordOfNatParts(n: nat, k: nat)
    requires 1 <= k <= 8
    ensures Half(WordOfNat(n, k)) == WordOfNat(n / 2, k - 1) && LowBit(WordOfNat(n, k)) == (n % 2 == 1)
  {
    hide Append, Within, LowMask, Half, LowBit;
    WordOfNatWithin(n / 2, k - 1);
    LowMasks(k - 1);
    AppendParts(WordOfNat(n / 2, k - 1), LowMask(k - 1), n % 2 == 1);
  }

  function Pow2(k: nat): nat
  {
    if k == 0 then 1 else 2 * Pow2(k - 1)
  }

  lemma {:induction false} NatOfWordBound(w: bv32, k: nat)
    ensures NatOfWord(w, k) < Pow2(k)
    ensures k == 8 ==> NatOfWord(w, k) < 256
    ensures k == 32 ==> NatOfWord(w, k) < TWO_32
    decreases k
  {
    hide Half, LowBit;
    if k == 0 {
    } else {
      NatOfWordBound(Half(w), k - 1);
    }
    assert Pow2(8) == 256;
    assert Pow2(16) == 65536;
    assert Pow2(24) == 0x100_0000;
    assert Pow2(32) == TWO_32;
  }

  lemma {:induction false} WordOfNatFits(n: nat, k: nat)
    requires k <= 8
    ensures Fits(WordOfNat(n, k), k)
    decreases k
  {
    hide Half;
    if k == 0 {
    } else {
      WordOfNatParts(n, k);
      WordOfNatFits(n / 2, k - 1);
    }
  }

  lemma {:induction false} NatOfWordOfNat(n: nat, k: nat)
    requires k <= 8 && n < Pow2(k)
    ensures NatOfWord(WordOfNat(n, k), k) == n
    decreases k
  {
    hide Half, LowBit;
    if k == 0 {
    } else {
      WordOfNatParts(n, k);
      NatOfWordOfNat(n / 2, k - 1);
    }
  }

  /** Equal numbers in 32 bits come from equal words. */
  lemma NatOfWordIsInjective(v: bv32, w: bv32)
    requires NatOfWord(v, 32) == NatOfWord(w, 32)
    ensures v == w
  {
    AllBitsFit(v);
    AllBitsFit(w);
    FittingWords(v, w, 32);
  }

  lemma {:induction false} FittingWords(v: bv32, w: bv32, k: nat)
    requires Fits(v, k) && Fits(w, k) && NatOfWord(v, k) == NatOfWord(w, k)
    ensures v == w
    decreases k
  {
    hide Half, LowBit;
    if k == 0 {
    } else {
      FittingWords(Half(v), Half(w), k - 1);
      SameHalves(v, w);
    }
  }

  function Halves(w: bv32, k: nat): bv32
  {
    if k == 0 then w else Halves(Half(w), k - 1)
  }

  lemma {:induction false} FitsIsHalves(w: bv32, k: nat)
    ensures Fits(w, k) <==> Halves(w, k) == 0
    decreases k
  {
    hide Half;
    if k == 0 {
    } else {
      FitsIsHalves(Half(w), k - 1);
    }
  }

  lemma FourHalves(w: bv32)
    ensures Halves(w, 4) == Half(Half(Half(Half(w))))
  {
    hide Half;
    assert Halves(Half(Half(Half(Half(w)))), 0) == Half(Half(Half(Half(w))));
    assert Halves(w, 4) == Halves(Half(w), 3) == Halves(Half(Half(w)), 2) == Halves(Half(Half(Half(w))), 1);
  }

  lemma {:induction false} HalvesCompose(w: bv32, i: nat, j: nat)
    ensures Halves(w, i + j) == Halves(Halves(w, i), j)
    decreases i
  {
    hide Half;
    if i == 0 {
    } else {
      HalvesCompose(Half(w), i - 1, j);
    }
  }

  lemma AllBitsFit(w: bv32)
    ensures Fits(w, 32)
  {
    hide Half, Halves;
    FitsIsHalves(w, 32);
    HalvesCompose(w, 4, 28);
    FourHalves(w);
    var w1 := Half(Half(Half(Half(w))));
    HalvesCompose(w1, 4, 24);
    FourHalves(w1);
    var w2 := Half(Half(Half(Half(w1))));
    HalvesCompose(w2, 4, 20);
    FourHalves(w2);
    var w3 := Half(Half(Half(Half(w2))));
    HalvesCompose(w3, 4, 16);
    FourHalves(w3);
    var w4 := Half(Half(Half(Half(w3))));
    HalvesCompose(w4, 4, 12);
    FourHalves(w4);
    var w5 := Half(Half(Half(Half(w4))));
    HalvesCompose(w5, 4, 8);
    FourHalves(w5);
    var w6 := Half(Half(Half(Half(w5))));
    HalvesCompose(w6, 4, 4);
    FourHalves(w6);
    var w7 := Half(Half(Half(Half(w6))));
    FourHalves(w7);
    SixteenBits(w);
    SixteenBits(w4);
    ThirtyTwoBits(w);
  }

  lemma SixteenBits(w: bv32)
    ensures Half(Half(Half(Half(Half(Half(Half(Half(Half(Half(Half(Half(Half(Half(Half(Half(w)))))))))))))))) == w >> 16
  {}

  lemma ThirtyTwoBits(w: bv32)
    ensures (w >> 16) >> 16 == 0
  {}

  lemma ByteFits(b: byte)
    ensures Fits(WordOfNat(b, 8), 8)
  {
    WordOfNatFits(b, 8);
  }

  lemma {:induction false} BitRegisterOfConcat(c: bv32, x: seq<bool>, y: seq<bool>)
    ensures BitRegister(c, x + y) == BitRegister(BitRegister(c, x), y)
    decreases |y|
  {
    hide BitStep;
    if y == [] {
      assert x + y == x;
    } else {
      BitRegisterOfConcat(c, x, y[..|y| - 1]);
      assert (x + y)[..|x + y| - 1] == x + y[..|y| - 1];
    }
  }

  lemma XorZero(c: bv32)
    ensures Xor(c, 0) == c
  {}

  lemma SplitLowBit(c: bv32, w: bv32)
    ensures Xor(c, w) == Xor(Xor(c, BitWord(LowBit(w))), w & 0xFFFFFFFE)
  {}

  lemma ClearLowBit(w: bv32)
    ensures Step(w & 0xFFFFFFFE) == Half(w)
  {}

  /** Bits above the lowest one are only moved by a shift, so they can be xored in later. */
  lemma DelayedBits(c: bv32, w: bv32)
    ensures Step(Xor(c, w)) == Xor(BitStep(c, LowBit(w)), Half(w))
  {
    SplitLowBit(c, w);
    ClearLowBit(w);
    hide Step, Xor, LowBit, Half, BitWord;
    StepOfXor(Xor(c, BitWord(LowBit(w))), w & 0xFFFFFFFE);
  }

  /** A word xored in at once acts as its bits xored in one by one. */
  lemma {:induction false} StepsAreBitSteps(c: bv32, w: bv32, n: nat)
    requires Fits(w, n)
    ensures Steps(Xor(c, w), n) == BitRegister(c, WordBits(w, n))
    decreases n
  {
    hide Step, Xor, BitStep, Half, LowBit;
    if n == 0 {
      XorZero(c);
    } else {
      StepsFromHead(Xor(c, w), n - 1);
      DelayedBits(c, w);
      StepsAreBitSteps(BitStep(c, LowBit(w)), Half(w), n - 1);
      BitRegisterOfConcat(c, [LowBit(w)], WordBits(Half(w), n - 1));
      assert [LowBit(w)][..0] == [];
      assert BitRegister(c, [LowBit(w)]) == BitStep(c, LowBit(w));
    }
  }

  /** The byte-wise register is the bit-serial one of the standard. */
  lemma {:induction false} RegisterIsBitRegister(c: bv32, data: bytes)
    ensures Register(c, data) == BitRegister(c, MessageBits(data))
  {
    hide Step, Xor, BitStep, Half, LowBit, Steps, Fits, WordOfNat;
    if data == [] {
    } else {
      var init, last := data[..|data| - 1], data[|data| - 1];
      RegisterIsBitRegister(c, init);
      ByteFits(last);
      StepsAreBitSteps(Register(c, init), WordOfNat(last, 8), 8);
      BitRegisterOfConcat(c, MessageBits(init), ByteBits(last));
    }
  }

  // ---- What the checksum detects ----

  /** The registers of two messages after i bits, xored. */
  function Difference(c: bv32, x: seq<bool>, y: seq<bool>, i: nat): bv32
    requires i <= |x| == |y|
  {
    Xor(BitRegister(c, x[..i]), BitRegister(c, y[..i]))
  }

  lemma XorAssoc(a: bv32, b: bv32, c: bv32)
    ensures Xor(a, Xor(b, c)) == Xor(Xor(a, b), c)
  {}

  lemma XorCommutes(a: bv32, b: bv32)
    ensures Xor(a, b) == Xor(b, a)
  {}

  lemma XorSwap(a: bv32, b: bv32, c: bv32)
    ensures Xor(Xor(a, b), c) == Xor(Xor(a, c), b)
  {
    hide Xor;
    XorAssoc(a, b, c);
    XorCommutes(b, c);
    XorAssoc(a, c, b);
  }

  lemma XorShuffle(a: bv32, b: bv32, p: bv32, q: bv32)
    ensures Xor(Xor(a, p), Xor(b, q)) == Xor(Xor(a, b), Xor(p, q))
  {
    hide Xor;
    XorAssoc(Xor(a, p), b, q);
    XorSwap(a, p, b);
    XorAssoc(Xor(a, b), p, q);
  }

  lemma XorOfBitWords(p: bool, q: bool)
    ensures Xor(BitWord(p), BitWord(q)) == BitWord(p != q)
  {}

  lemma DifferenceStep(c: bv32, x: seq<bool>, y: seq<bool>, i: nat)
    requires i < |x| == |y|
    ensures Difference(c, x, y, i + 1) == BitStep(Difference(c, x, y, i), x[i] != y[i])
  {
    hide Step, Xor, BitWord;
    var a, b := BitRegister(c, x[..i]), BitRegister(c, y[..i]);
    assert x[..i + 1][..i] == x[..i] && y[..i + 1][..i] == y[..i];
    StepOfXor(Xor(a, BitWord(x[i])), Xor(b, BitWord(y[i])));
    XorShuffle(a, b, BitWord(x[i]), BitWord(y[i]));
    XorOfBitWords(x[i], y[i]);
  }

  function PushTop(m: bv32): bv32
  {
    (m >> 1) | 0x80000000
  }

  /** The j + 1 most significant bits. */
  function TopMask(j: nat): bv32
  {
    if j == 0 then 0x80000000 else PushTop(TopMask(j - 1))
  }

  predicate Meets(d: bv32, m: bv32)
  {
    d & m != 0
  }

  lemma PushTopKeepsOrder(m: bv32, k: bv32)
    requires Within(m, k)
    ensures Within(PushTop(m), PushTop(k))
  {}

  lemma WithinTrans(a: bv32, b: bv32, c: bv32)
    requires Within(a, b) && Within(b, c)
    ensures Within(a, c)
  {}

  lemma TopMaskOfOne()
    ensures Within(TopMask(0), TopMask(1))
  {}

  lemma {:induction false} TopMaskGrows(j: nat)
    ensures Within(TopMask(j), TopMask(j + 1))
  {
    hide PushTop, Within;
    if j == 0 {
      TopMaskOfOne();
    } else {
      TopMaskGrows(j - 1);
      PushTopKeepsOrder(TopMask(j - 1), TopMask(j));
    }
  }

  lemma WithinSelf(m: bv32)
    ensures Within(m, m)
  {}

  lemma {:induction false} TopMaskMonotone(i: nat, j: nat)
    requires i <= j
    ensures Within(TopMask(i), TopMask(j))
    decreases j
  {
    hide PushTop, Within;
    if i == j {
      WithinSelf(TopMask(i));
    } else {
      TopMaskMonotone(i, j - 1);
      TopMaskGrows(j - 1);
      WithinTrans(TopMask(i), TopMask(j - 1), TopMask(j));
    }
  }

  lemma TopMaskOf30()
    ensures TopMask(30) == 0xFFFFFFFE
  {
    assert TopMask(5) == 0xFC000000;
    assert TopMask(10) == 0xFFE00000;
    assert TopMask(15) == 0xFFFF0000;
    assert TopMask(20) == 0xFFFFF800;
    assert TopMask(25) == 0xFFFFFFC0;
  }

  lemma EvenWithin(m: bv32)
    requires Within(m, 0xFFFFFFFE)
    ensures m & 1 == 0
  {}

  lemma TopMaskIsEven(j: nat)
    requires j <= 30
    ensures TopMask(j) & 1 == 0
  {
    hide PushTop, Within, TopMask;
    TopMaskMonotone(j, 30);
    TopMaskOf30();
    EvenWithin(TopMask(j));
  }

  /** A register with a bit set under an even mask keeps one under the mask moved right by one:
      the polynomial has bit 31 set, so feedback only adds the top bit. */
  lemma HighBitSurvives(d: bv32, bit: bool, m: bv32)
    requires m & 1 == 0 && Meets(d, m)
    ensures Meets(BitStep(d, bit), PushTop(m))
  {
    var e := Xor(d, BitWord(bit));
    assert e & m == d & m;
    assert (e >> 1) & (m >> 1) == (e & m) >> 1;
    assert (e & m) >> 1 != 0;
    if e & 1 == 1 {
      assert ((e >> 1) ^ 0xEDB88320) & 0x80000000 == 0x80000000;
    }
  }

  lemma SelfXor(a: bv32)
    ensures Xor(a, a) == 0
  {}

  lemma FirstDifferentBit()
    ensures Meets(BitStep(0, true), TopMask(0))
  {
    assert BitStep(0, true) == 0xEDB88320;
  }

  /** From the first differing bit on, for 32 bits, the difference keeps one of its high bits. */
  lemma {:induction false} DifferenceInsideBurst(c: bv32, x: seq<bool>, y: seq<bool>, p: nat, i: nat)
    requires p < i <= |x| == |y| && i <= p + 32
    requires x[..p] == y[..p] && x[p] != y[p]
    ensures Meets(Difference(c, x, y, i), TopMask(i - p - 1))
    decreases i
  {
    hide BitStep, Xor, Meets, PushTop;
    DifferenceStep(c, x, y, i - 1);
    if i == p + 1 {
      SelfXor(BitRegister(c, x[..p]));
      FirstDifferentBit();
    } else {
      DifferenceInsideBurst(c, x, y, p, i - 1);
      TopMaskIsEven(i - p - 2);
      HighBitSurvives(Difference(c, x, y, i - 1), x[i - 1] != y[i - 1], TopMask(i - p - 2));
    }
  }

  lemma MeetsIsNonZero(d: bv32, m: bv32)
    requires Meets(d, m)
    ensures d != 0
  {}

  lemma NonZeroStep(d: bv32)
    requires d != 0
    ensures BitStep(d, false) != 0
  {
    assert Xor(d, 0) == d;
    if Step(d) == 0 {
      StepIsInjective(d, 0);
    }
  }

  lemma {:induction false} DifferenceAfterBurst(c: bv32, x: seq<bool>, y: seq<bool>, start: nat, i: nat)
    requires start <= i <= |x| == |y|
    requires forall k :: start <= k < i ==> x[k] == y[k]
    requires Difference(c, x, y, start) != 0
    ensures Difference(c, x, y, i) != 0
    decreases i
  {
    hide BitStep, Xor;
    if start == i {
    } else {
      DifferenceAfterBurst(c, x, y, start, i - 1);
      DifferenceStep(c, x, y, i - 1);
      NonZeroStep(Difference(c, x, y, i - 1));
    }
  }

  lemma {:induction false} FirstDifference(x: seq<bool>, y: seq<bool>) returns (p: nat)
    requires |x| == |y| && x != y
    ensures p < |x| && x[p] != y[p] && x[..p] == y[..p]
  {
    var n := |x| - 1;
    if x[..n] == y[..n] {
      p := n;
      assert x == x[..n] + [x[n]] && y == y[..n] + [y[n]];
    } else {
      p := FirstDifference(x[..n], y[..n]);
      assert x[..n][..p] == x[..p] && y[..n][..p] == y[..p];
    }
  }

  /** Any error burst of at most 32 consecutive message bits changes the register. */
  lemma BurstChangesRegister(c: bv32, x: seq<bool>, y: seq<bool>, k: nat)
    requires |x| == |y| && x != y
    requires forall i :: 0 <= i < |x| && !(k <= i < k + 32) ==> x[i] == y[i]
    ensures BitRegister(c, x) != BitRegister(c, y)
  {
    hide BitStep, Xor, Meets, PushTop;
    var p := FirstDifference(x, y);
    var end := if p + 32 <= |x| then p + 32 else |x|;
    DifferenceInsideBurst(c, x, y, p, end);
    MeetsIsNonZero(Difference(c, x, y, end), TopMask(end - p - 1));
    DifferenceAfterBurst(c, x, y, end, |x|);
    assert x[..|x|] == x && y[..|y|] == y;
    SelfXor(BitRegister(c, x));
  }

  lemma ComplementIsInjective(a: bv32, b: bv32)
    requires !a == !b
    ensures a == b
  {}

  /** CRC-32 tells apart two messages of one length that differ only within 32 consecutive bits. */
  lemma CrcDetectsBurst(a: bytes, b: bytes, k: nat)
    requires |a| == |b| && MessageBits(a) != MessageBits(b)
    requires forall i :: 0 <= i < 8 * |a| && !(k <= i < k + 32) ==> MessageBits(a)[i] == MessageBits(b)[i]
    ensures Crc(a) != Crc(b)
  {
    RegisterIsBitRegister(0xFFFFFFFF, a);
    RegisterIsBitRegister(0xFFFFFFFF, b);
    BurstChangesRegister(0xFFFFFFFF, MessageBits(a), MessageBits(b), k);
    if Crc(a) == Crc(b) {
      ComplementIsInjective(Register(0xFFFFFFFF, a), Register(0xFFFFFFFF, b));
    }
  }

  // ---- From message bits back to bytes ----

  lemma {:induction false} MessageBitAt(data: bytes, i: nat, j: nat)
    requires i < |data| && j < 8
    ensures MessageBits(data)[8 * i + j] == ByteBits(data[i])[j]
    decreases |data|
  {
    hide ByteBits;
    if i == |data| - 1 {
    } else {
      MessageBitAt(data[..|data| - 1], i, j);
    }
  }

  lemma SameHalves(v: bv32, w: bv32)
    requires Half(v) == Half(w) && LowBit(v) == LowBit(w)
    ensures v == w
  {}

  lemma {:induction false} WordBitsAreInjective(v: bv32, w: bv32, n: nat)
    requires Fits(v, n) && Fits(w, n) && WordBits(v, n) == WordBits(w, n)
    ensures v == w
    decreases n
  {
    hide Half, LowBit;
    if n == 0 {
    } else {
      assert WordBits(v, n)[0] == WordBits(w, n)[0];
      assert WordBits(v, n)[1..] == WordBits(Half(v), n - 1);
      assert WordBits(w, n)[1..] == WordBits(Half(w), n - 1);
      WordBitsAreInjective(Half(v), Half(w), n - 1);
      SameHalves(v, w);
    }
  }

  lemma ByteBitsAreInjective(a: byte, b: byte)
    requires ByteBits(a) == ByteBits(b)
    ensures a == b
  {
    hide Half, LowBit, Fits, WordOfNat;
    ByteFits(a);
    ByteFits(b);
    WordBitsAreInjective(WordOfNat(a, 8), WordOfNat(b, 8), 8);
    assert Pow2(8) == 256;
    NatOfWordOfNat(a, 8);
    NatOfWordOfNat(b, 8);
  }

  lemma DifferingBit(a: bytes, b: bytes, i: nat) returns (j: nat)
    requires i < |a| == |b| && a[i] != b[i]
    ensures j < 8 && MessageBits(a)[8 * i + j] != MessageBits(b)[8 * i + j]
  {
    hide Half, LowBit, Fits, WordOfNat, MessageBits;
    if ByteBits(a[i]) == ByteBits(b[i]) {
      ByteBitsAreInjective(a[i], b[i]);
      assert false;
    }
    j :| 0 <= j < 8 && ByteBits(a[i])[j] != ByteBits(b[i])[j];
    MessageBitAt(a, i, j);
    MessageBitAt(b, i, j);
  }

  lemma MessageBitsDiffer(a: bytes, b: bytes, i: nat)
    requires i < |a| == |b| && a[i] != b[i]
    ensures MessageBits(a) != MessageBits(b)
  {
    hide MessageBits;
    var j := DifferingBit(a, b, i);
  }

  /** Any change confined to four consecutive bytes changes the CRC. */
  lemma CrcDetectsWindow(a: bytes, b: bytes, k: nat)
    requires |a| == |b| && a != b
    requires forall i :: 0 <= i < |a| && !(k <= i < k + 4) ==> a[i] == b[i]
    ensures Crc(a) != Crc(b)
  {
    hide MessageBits, ByteBits, Crc;
    var d :| 0 <= d < |a| && a[d] != b[d];
    MessageBitsDiffer(a, b, d);
    forall i | 0 <= i < 8 * |a| && !(8 * k <= i < 8 * k + 32)
      ensures MessageBits(a)[i] == MessageBits(b)[i]
    {
      MessageBitAt(a, i / 8, i % 8);
      MessageBitAt(b, i / 8, i % 8);
    }
    CrcDetectsBurst(a, b, 8 * k);
  }

  /** The word of an ASCII digit from its low four bits. */
  function DigitWord(a: bool, b: bool, c: bool, d: bool): bv32
  {
    0x30 | (if d then 8 else 0) | (if c then 4 else 0) | (if b then 2 else 0) | BitWord(a)
  }

  lemma DigitBits(a: bool, b: bool, c: bool, d: bool)
    ensures Append(Append(Append(Append(3, d), c), b), a) == DigitWord(a, b, c, d)
  {}

  lemma WordOfThree()
    ensures WordOfNat(3, 4) == 3
  {}

  lemma {:induction false} WordStep(n: nat, k: nat)
    requires k > 0
    ensures WordOfNat(n, k) == Append(WordOfNat(n / 2, k - 1), n % 2 == 1)
  {
    hide Append;
  }

  lemma {:induction false} WordOfDigit(n: nat)
    requires 0x30 <= n < 0x40
    ensures WordOfNat(n, 8) == DigitWord(n % 2 == 1, n / 2 % 2 == 1, n / 4 % 2 == 1, n / 8 % 2 == 1)
  {
    hide Append, WordOfNat, DigitWord;
    WordOfThree();
    DigitBits(n % 2 == 1, n / 2 % 2 == 1, n / 4 % 2 == 1, n / 8 % 2 == 1);
    assert n / 2 / 2 == n / 4 && n / 4 / 2 == n / 8 && n / 8 / 2 == 3;
    WordStep(n / 8, 5);
    WordStep(n / 4, 6);
    WordStep(n / 2, 7);
    WordStep(n, 8);
  }

  lemma CheckSteps123()
    ensures ByteStep(0xFFFFFFFF, 0x31) == 0x7C231048
    ensures ByteStep(0x7C231048, 0x32) == 0xB0ACBB32
    ensures ByteStep(0xB0ACBB32, 0x33) == 0x77B79C2D
  {
    hide WordOfNat;
    WordOfDigit(0x31);
    WordOfDigit(0x32);
    WordOfDigit(0x33);
  }

  lemma CheckSteps456()
    ensures ByteStep(0x77B79C2D, 0x34) == 0x641C1F5C
    ensures ByteStep(0x641C1F5C, 0x35) == 0x340AC5E3
    ensures ByteStep(0x340AC5E3, 0x36) == 0xF68D2C9E
  {
    hide WordOfNat;
    WordOfDigit(0x34);
    WordOfDigit(0x35);
    WordOfDigit(0x36);
  }

  lemma CheckSteps789()
    ensures ByteStep(0xF68D2C9E, 0x37) == 0xAFFC9660
    ensures ByteStep(0xAFFC9660, 0x38) == 0x651F2550
    ensures ByteStep(0x651F2550, 0x39) == 0x340BC6D9
  {
    hide WordOfNat;
    WordOfDigit(0x37);
    WordOfDigit(0x38);
    WordOfDigit(0x39);
  }

  /** The check value of the standard polynomial: CRC-32 of the ASCII digits 1 to 9. */
  lemma CheckValue()
    ensures Crc([0x31, 0x32, 0x33, 0x34, 0x35, 0x36, 0x37, 0x38, 0x39]) == 0xCBF43926
  {
    hide ByteStep;
    CheckSteps123();
    CheckSteps456();
    CheckSteps789();
    var d0: bytes := [];
    var d1 := d0 + [0x31];
    assert d1[..0] == d0 && Register(0xFFFFFFFF, d1) == 0x7C231048;
    var d2 := d1 + [0x32];
    assert d2[..1] == d1 && Register(0xFFFFFFFF, d2) == 0xB0ACBB32;
    var d3 := d2 + [0x33];
    assert d3[..2] == d2 && Register(0xFFFFFFFF, d3) == 0x77B79C2D;
    var d4 := d3 + [0x34];
    assert d4[..3] == d3 && Register(0xFFFFFFFF, d4) == 0x641C1F5C;
    var d5 := d4 + [0x35];
    assert d5[..4] == d4 && Register(0xFFFFFFFF, d5) == 0x340AC5E3;
    var d6 := d5 + [0x36];
    assert d6[..5] == d5 && Register(0xFFFFFFFF, d6) == 0xF68D2C9E;
    var d7 := d6 + [0x37];
    assert d7[..6] == d6 && Register(0xFFFFFFFF, d7) == 0xAFFC9660;
    var d8 := d7 + [0x38];
    assert d8[..7] == d7 && Register(0xFFFFFFFF, d8) == 0x651F2550;
    var d9 := d8 + [0x39];
    assert d9[..8] == d8 && Register(0xFFFFFFFF, d9) == 0x340BC6D9;
    assert d9 == [0x31, 0x32, 0x33, 0x34, 0x35, 0x36, 0x37, 0x38, 0x39];
  }
}
