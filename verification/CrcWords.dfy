/** Four message bytes taken into the CRC-32 register as one word, and which short words come out
    of the register short again: the algebra behind errors that reach the stored checksum. */
module CrcWords {
  import opened Bytes
  import opened Crc32

  /** The byte b below the word w. */
  function Join(b: bv32, w: bv32): bv32
  {
    Xor(b, w << 8)
  }

  /** The little-endian word of at most four bytes. */
  function Word(s: bytes): bv32
  {
    if s == [] then 0 else Join(WordOfNat(s[0], 8), Word(s[1..]))
  }

  /** The mask of the n low bytes. */
  function ByteMask(n: nat): bv32
  {
    if n == 0 then 0 else Join(0xFF, ByteMask(n - 1))
  }

  lemma ByteMasks()
    ensures ByteMask(1) == 0xFF && ByteMask(2) == 0xFFFF && ByteMask(3) == 0xFFFFFF
  {}

  lemma JoinKeepsWithin(b: bv32, w: bv32, m: bv32)
    requires Within(b, 0xFF) && Within(w, m)
    ensures Within(Join(b, w), Join(0xFF, m))
  {}

  lemma ByteIsShort(b: byte)
    ensures Within(WordOfNat(b, 8), 0xFF)
  {
    hide WordOfNat, Within;
    WordOfNatWithin(b, 8);
    LowMasks(8);
  }

  lemma {:induction false} WordIsShort(s: bytes)
    ensures Within(Word(s), ByteMask(|s|))
  {
    hide Join, WordOfNat, Within;
    if s == [] {
      NothingWithin(0);
    } else {
      WordIsShort(s[1..]);
      ByteIsShort(s[0]);
      JoinKeepsWithin(WordOfNat(s[0], 8), Word(s[1..]), ByteMask(|s| - 1));
    }
  }

  /** At most three bytes leave the high byte of their word clear. */
  lemma WordIsBelow24(s: bytes)
    requires |s| <= 3
    ensures Within(Word(s), 0xFFFFFF)
  {
    hide Join, Within, Word;
    WordIsShort(s);
    ByteMasks();
    ByteMasksNest(|s|);
    WithinTrans(Word(s), ByteMask(|s|), 0xFFFFFF);
  }

  lemma ByteMasksNest(n: nat)
    requires n <= 3
    ensures Within(ByteMask(n), 0xFFFFFF)
  {
    hide Join, ByteMask;
    ByteMasks();
    NoMask();
    assert n == 0 || n == 1 || n == 2 || n == 3;
  }

  lemma NoMask()
    ensures ByteMask(0) == 0
  {}

  // ---- The number of a word ----

  function EightHalves(w: bv32): bv32
  {
    Half(Half(Half(Half(Half(Half(Half(Half(w))))))))
  }

  lemma JoinParts(b: bv32, w: bv32)
    requires Within(b, 0xFF) && Within(w, 0xFFFFFF)
    ensures LowByte(Join(b, w)) == b && EightHalves(Join(b, w)) == w
  {}

  lemma {:induction false} NatOfEight(w: bv32, k: nat)
    ensures NatOfWord(w, k + 8) == NatOfWord(w, 8) + 256 * NatOfWord(EightHalves(w), k)
  {
    hide Half, NatOfWord;
    NatOfFour(w, k + 4);
    NatOfFour(Half(Half(Half(Half(w)))), k);
    NatOfFour(w, 4);
  }

  lemma {:induction false} NatOfFour(w: bv32, k: nat)
    ensures NatOfWord(w, k + 4) == NatOfWord(w, 4) + 16 * NatOfWord(Half(Half(Half(Half(w)))), k)
  {
    hide Half, LowBit, NatOfWord;
    NatOfNothing(Half(Half(Half(Half(w)))));
    NatOfBit(w, k + 3);
    NatOfBit(Half(w), k + 2);
    NatOfBit(Half(Half(w)), k + 1);
    NatOfBit(Half(Half(Half(w))), k);
    NatOfBit(w, 3);
    NatOfBit(Half(w), 2);
    NatOfBit(Half(Half(w)), 1);
    NatOfBit(Half(Half(Half(w))), 0);
  }

  lemma {:induction false} NatOfBit(w: bv32, k: nat)
    ensures NatOfWord(w, k + 1) == (if LowBit(w) then 1 else 0) + 2 * NatOfWord(Half(w), k)
  {
    hide Half, LowBit;
  }

  /** A byte is the number of the word that holds it. */
  lemma NatOfLowByte(w: bv32, b: byte)
    requires LowByte(w) == WordOfNat(b, 8)
    ensures NatOfWord(w, 8) == b
  {
    hide LowByte, WordOfNat, NatOfWord;
    IndexRoundTrip(w);
    NatOfWordBound(w, 8);
    assert Pow2(8) == 256;
    NatOfWordOfNat(NatOfWord(w, 8), 8);
    NatOfWordOfNat(b, 8);
  }

  /** The word of four bytes holds the number they write. */
  lemma {:induction false} NatOfBytesWord(s: bytes)
    requires |s| <= 4
    ensures NatOfWord(Word(s), 8 * |s|) == FromLe(s)
    decreases |s|
  {
    hide Join, WordOfNat, Within, LowByte, EightHalves, NatOfWord;
    if s == [] {
      NatOfNothing(0);
    } else {
      NatOfBytesWord(s[1..]);
      WordIsBelow24(s[1..]);
      ByteIsShort(s[0]);
      JoinParts(WordOfNat(s[0], 8), Word(s[1..]));
      NatOfEight(Word(s), 8 * (|s| - 1));
      NatOfLowByte(Word(s), s[0]);
    }
  }

  lemma NatOfNothing(w: bv32)
    ensures NatOfWord(w, 0) == 0
  {}

  /** A stored 32-bit number equals a checksum exactly when its word does. */
  lemma StoredWord(w: bv32, s: bytes)
    requires |s| == 4
    ensures NatOfWord(w, 32) == FromLe(s) <==> w == Word(s)
  {
    hide *;
    NatOfBytesWord(s);
    if NatOfWord(w, 32) == FromLe(s) {
      NatOfWordIsInjective(w, Word(s));
    }
  }

  lemma WordIsInjective(s: bytes, t: bytes)
    requires |s| == |t| == 4 && Word(s) == Word(t)
    ensures s == t
  {
    hide *;
    NatOfBytesWord(s);
    NatOfBytesWord(t);
    LeOfFromLe(s);
    LeOfFromLe(t);
  }

  // ---- A word of message bytes at once ----

  lemma {:induction false} StepsCompose(c: bv32, m: nat, n: nat)
    ensures Steps(Steps(c, m), n) == Steps(c, m + n)
  {
    hide Step;
    if n == 0 {
    } else {
      StepsCompose(c, m, n - 1);
    }
  }

  lemma {:induction false} RegisterOfConcat(c: bv32, x: bytes, y: bytes)
    ensures Register(c, x + y) == Register(Register(c, x), y)
    decreases |y|
  {
    hide ByteStep;
    if y == [] {
      assert x + y == x;
    } else {
      RegisterOfConcat(c, x, y[..|y| - 1]);
      assert (x + y)[..|x + y| - 1] == x + y[..|y| - 1];
    }
  }

  lemma ShiftedWord(w: bv32)
    requires Within(w, 0xFFFFFF)
    ensures HighBytes(w << 8) == w << 8 && Drop8(w << 8) == w
  {}

  /** The bytes above the lowest one wait eight shifts for their turn. */
  lemma JoinWaits(c: bv32, b: bv32, w: bv32)
    requires Within(w, 0xFFFFFF)
    ensures Steps(Xor(c, Join(b, w)), 8) == Xor(Steps(Xor(c, b), 8), w)
  {
    hide Steps, Xor, Within, HighBytes, Drop8;
    XorAssoc(c, b, w << 8);
    StepsOfXor(Xor(c, b), w << 8, 8);
    ShiftedWord(w);
    EightPlainShifts(w << 8);
  }

  /** At most four bytes act on the register as one word. */
  lemma {:induction false} RegisterOfWord(c: bv32, s: bytes)
    requires |s| <= 4
    ensures Register(c, s) == Steps(Xor(c, Word(s)), 8 * |s|)
    decreases |s|
  {
    hide Join, WordOfNat, Within, Steps, Xor, Register;
    if s == [] {
      RegisterOfEmpty(c);
      XorZero(c);
      NoSteps(c);
    } else {
      var b, rest := s[0], s[1..];
      assert s == [b] + rest && [] + [b] == [b];
      RegisterOfConcat(c, [b], rest);
      RegisterOfEmpty(c);
      RegisterOfSnoc(c, [], b);
      RegisterOfWord(ByteStep(c, b), rest);
      WordIsBelow24(rest);
      JoinWaits(c, WordOfNat(b, 8), Word(rest));
      StepsCompose(Xor(c, Word(s)), 8, 8 * |rest|);
    }
  }

  lemma NoSteps(c: bv32)
    ensures Steps(c, 0) == c
  {}

  // ---- Short words through the register ----

  /** c xored into rest where the bit is set. */
  function Choose(bit: bool, c: bv32, rest: bv32): bv32
  {
    if bit then c ^ rest else rest
  }

  function Double(k: bv32): bv32
  {
    k << 1
  }

  /** For each set bit of w among the n from the mask k upwards, the register so many steps on
      from c, one step fewer for each bit, all xored together. */
  function Span(w: bv32, k: bv32, n: nat, c: bv32, m: nat): bv32
    requires n <= m
    decreases n
  {
    if n == 0 then 0 else Choose(Meets(w, k), Steps(c, m), Span(w, Double(k), n - 1, c, m - 1))
  }

  lemma ZeroStep()
    ensures Step(0) == 0
  {}

  lemma {:induction false} StepsOfZero(n: nat)
    ensures Steps(0, n) == 0
  {
    hide Step;
    if n == 0 {
    } else {
      StepsOfZero(n - 1);
      ZeroStep();
    }
  }

  lemma ChooseIsXor(bit: bool, c: bv32, rest: bv32)
    ensures Choose(bit, c, rest) == if bit then Xor(c, rest) else rest
  {}

  lemma StepsOfChoose(bit: bool, c: bv32, rest: bv32, n: nat)
    ensures Steps(Choose(bit, c, rest), n) == Choose(bit, Steps(c, n), Steps(rest, n))
  {
    hide Steps, Xor, Choose;
    ChooseIsXor(bit, c, rest);
    ChooseIsXor(bit, Steps(c, n), Steps(rest, n));
    StepsOfXor(c, rest, n);
  }

  /** Stepping a span on is spanning from a register stepped on. */
  lemma {:induction false} StepsOfSpan(w: bv32, k: bv32, n: nat, c: bv32, m: nat, q: nat)
    requires n <= m
    ensures Steps(Span(w, k, n, c, m), q) == Span(w, k, n, Steps(c, q), m)
    decreases n
  {
    hide Steps, Choose, Meets, Double;
    if n == 0 {
      StepsOfZero(q);
    } else {
      StepsOfChoose(Meets(w, k), Steps(c, m), Span(w, Double(k), n - 1, c, m - 1), q);
      StepsCompose(c, m, q);
      StepsCompose(c, q, m);
      StepsOfSpan(w, Double(k), n - 1, c, m - 1, q);
    }
  }

  lemma MeetsOfHalf(w: bv32, k: bv32)
    ensures Meets(Half(w), k) == Meets(w, Double(k))
  {}

  lemma {:induction false} SpanOfHalf(w: bv32, k: bv32, n: nat, c: bv32, m: nat)
    requires n <= m
    ensures Span(Half(w), k, n, c, m) == Span(w, Double(k), n, c, m)
    decreases n
  {
    hide Steps, Choose, Meets, Double, Half;
    if n == 0 {
    } else {
      MeetsOfHalf(w, k);
      SpanOfHalf(w, Double(k), n - 1, c, m - 1);
    }
  }

  lemma FirstBit(w: bv32)
    ensures Step(w) == Choose(Meets(w, 1), Step(1), Half(w))
  {}

  /** A word of n bits stepped on is the span of its bits from the register 1. */
  lemma {:induction false} StepsIsSpan(w: bv32, n: nat, m: nat)
    requires Fits(w, n) && n <= m
    ensures Steps(w, m) == Span(w, 1, n, 1, m)
    decreases n
  {
    hide Step, Choose, Meets, Half, Double;
    if n == 0 {
      StepsOfZero(m);
    } else {
      StepsFromHead(w, m - 1);
      StepsFromHead(1, m - 1);
      FirstBit(w);
      StepsOfChoose(Meets(w, 1), Step(1), Half(w), m - 1);
      StepsIsSpan(Half(w), n - 1, m - 1);
      SpanOfHalf(w, 1, n - 1, 1, m - 1);
    }
  }

  lemma {:induction false} StepsAreInjective(v: bv32, w: bv32, n: nat)
    requires Steps(v, n) == Steps(w, n)
    ensures v == w
  {
    hide Step;
    if n == 0 {
    } else {
      StepIsInjective(Steps(v, n - 1), Steps(w, n - 1));
      StepsAreInjective(v, w, n - 1);
    }
  }

  // ---- Short words do not stay short ----

  lemma StepValues()
    ensures Step(0x191B3141) == 0xE1351B80 && Step(0xE1351B80) == 0x709A8DC0 && Step(0x709A8DC0) == 0x384D46E0
    ensures Step(0x384D46E0) == 0x1C26A370 && Step(0x1C26A370) == 0x0E1351B8 && Step(0x0E1351B8) == 0x0709A8DC
    ensures Step(0x0709A8DC) == 0x0384D46E && Step(0x0384D46E) == 0x01C26A37 && Step(0x01C26A37) == 0xED59B63B
    ensures Step(0xED59B63B) == 0x9B14583D && Step(0x9B14583D) == 0xA032AF3E && Step(0xA032AF3E) == 0x5019579F
    ensures Step(0x5019579F) == 0xC5B428EF && Step(0xC5B428EF) == 0x8F629757 && Step(0x8F629757) == 0xAA09C88B
    ensures Step(0xAA09C88B) == 0xB8BC6765
  {}

  lemma LaterStepValues()
    ensures Step(0xCCAA009E) == 0x6655004F && Step(0x6655004F) == 0xDE920307 && Step(0xDE920307) == 0x82F182A3
    ensures Step(0x82F182A3) == 0xACC04271 && Step(0xACC04271) == 0xBBD8A218 && Step(0xBBD8A218) == 0x5DEC510C
    ensures Step(0x5DEC510C) == 0x2EF62886 && Step(0x2EF62886) == 0x177B1443 && Step(0x177B1443) == 0xE6050901
    ensures Step(0xE6050901) == 0x9EBA07A0 && Step(0x9EBA07A0) == 0x4F5D03D0 && Step(0x4F5D03D0) == 0x27AE81E8
    ensures Step(0x27AE81E8) == 0x13D740F4 && Step(0x13D740F4) == 0x09EBA07A && Step(0x09EBA07A) == 0x04F5D03D
    ensures Step(0x04F5D03D) == 0xEFC26B3E
  {}

  lemma StepsTo16()
    ensures Steps(1, 8) == 0x77073096 && Steps(1, 16) == 0x191B3141
  {}

  lemma StepsOfOne()
    ensures Steps(1, 17) == 0xE1351B80 && Steps(1, 18) == 0x709A8DC0 && Steps(1, 19) == 0x384D46E0
    ensures Steps(1, 20) == 0x1C26A370 && Steps(1, 21) == 0x0E1351B8 && Steps(1, 22) == 0x0709A8DC
    ensures Steps(1, 23) == 0x0384D46E && Steps(1, 24) == 0x01C26A37 && Steps(1, 25) == 0xED59B63B
    ensures Steps(1, 26) == 0x9B14583D && Steps(1, 27) == 0xA032AF3E && Steps(1, 28) == 0x5019579F
    ensures Steps(1, 29) == 0xC5B428EF && Steps(1, 30) == 0x8F629757 && Steps(1, 31) == 0xAA09C88B
    ensures Steps(1, 32) == 0xB8BC6765
  {
    hide Step;
    StepsTo16();
    StepValues();
  }

  lemma ByteSteps()
    ensures Steps(0xB8BC6765, 8) == 0x3D6029B0 && Steps(0x3D6029B0, 8) == 0xCB5CD3A5
    ensures Steps(0xCB5CD3A5, 8) == 0xA6770BB4 && Steps(0xA6770BB4, 8) == 0xCCAA009E
  {}

  lemma StepsOfOneTo64()
    ensures Steps(1, 64) == 0xCCAA009E
  {
    hide Steps;
    StepsOfOne();
    ByteSteps();
    StepsCompose(1, 32, 8);
    StepsCompose(1, 40, 8);
    StepsCompose(1, 48, 8);
    StepsCompose(1, 56, 8);
  }

  lemma LaterStepsOfOne()
    ensures Steps(1, 65) == 0x6655004F && Steps(1, 66) == 0xDE920307 && Steps(1, 67) == 0x82F182A3
    ensures Steps(1, 68) == 0xACC04271 && Steps(1, 69) == 0xBBD8A218 && Steps(1, 70) == 0x5DEC510C
    ensures Steps(1, 71) == 0x2EF62886 && Steps(1, 72) == 0x177B1443 && Steps(1, 73) == 0xE6050901
    ensures Steps(1, 74) == 0x9EBA07A0 && Steps(1, 75) == 0x4F5D03D0 && Steps(1, 76) == 0x27AE81E8
    ensures Steps(1, 77) == 0x13D740F4 && Steps(1, 78) == 0x09EBA07A && Steps(1, 79) == 0x04F5D03D
    ensures Steps(1, 80) == 0xEFC26B3E
  {
    hide Step;
    StepsOfOneTo64();
    LaterStepValues();
  }

  /** The register 32 shifts on from a byte, bit by bit. */
  function ByteAfter32(w: bv32): bv32
  {
    Choose(Meets(w, 0x1), 0xB8BC6765, Choose(Meets(w, 0x2), 0xAA09C88B,
    Choose(Meets(w, 0x4), 0x8F629757, Choose(Meets(w, 0x8), 0xC5B428EF,
    Choose(Meets(w, 0x10), 0x5019579F, Choose(Meets(w, 0x20), 0xA032AF3E,
    Choose(Meets(w, 0x40), 0x9B14583D, Choose(Meets(w, 0x80), 0xED59B63B, 0))))))))
  }

  /** The register 32 shifts on from two bytes. */
  function TwoBytesAfter32(w: bv32): bv32
  {
    Choose(Meets(w, 0x1), 0xB8BC6765, Choose(Meets(w, 0x2), 0xAA09C88B,
    Choose(Meets(w, 0x4), 0x8F629757, Choose(Meets(w, 0x8), 0xC5B428EF,
    Choose(Meets(w, 0x10), 0x5019579F, Choose(Meets(w, 0x20), 0xA032AF3E,
    Choose(Meets(w, 0x40), 0x9B14583D, Choose(Meets(w, 0x80), 0xED59B63B,
    Choose(Meets(w, 0x100), 0x01C26A37, Choose(Meets(w, 0x200), 0x0384D46E,
    Choose(Meets(w, 0x400), 0x0709A8DC, Choose(Meets(w, 0x800), 0x0E1351B8,
    Choose(Meets(w, 0x1000), 0x1C26A370, Choose(Meets(w, 0x2000), 0x384D46E0,
    Choose(Meets(w, 0x4000), 0x709A8DC0, Choose(Meets(w, 0x8000), 0xE1351B80, 0))))))))))))))))
  }

  /** The register 80 shifts on from two bytes. */
  function TwoBytesAfter80(w: bv32): bv32
  {
    Choose(Meets(w, 0x1), 0xEFC26B3E, Choose(Meets(w, 0x2), 0x04F5D03D,
    Choose(Meets(w, 0x4), 0x09EBA07A, Choose(Meets(w, 0x8), 0x13D740F4,
    Choose(Meets(w, 0x10), 0x27AE81E8, Choose(Meets(w, 0x20), 0x4F5D03D0,
    Choose(Meets(w, 0x40), 0x9EBA07A0, Choose(Meets(w, 0x80), 0xE6050901,
    Choose(Meets(w, 0x100), 0x177B1443, Choose(Meets(w, 0x200), 0x2EF62886,
    Choose(Meets(w, 0x400), 0x5DEC510C, Choose(Meets(w, 0x800), 0xBBD8A218,
    Choose(Meets(w, 0x1000), 0xACC04271, Choose(Meets(w, 0x2000), 0x82F182A3,
    Choose(Meets(w, 0x4000), 0xDE920307, Choose(Meets(w, 0x8000), 0x6655004F, 0))))))))))))))))
  }

  /** The register from which 56 shifts lead to a byte. */
  function ByteBefore56(w: bv32): bv32
  {
    Choose(Meets(w, 0x1), 0x3F036DC2, Choose(Meets(w, 0x2), 0x7E06DB84,
    Choose(Meets(w, 0x4), 0xFC0DB708, Choose(Meets(w, 0x8), 0x236A6851,
    Choose(Meets(w, 0x10), 0x46D4D0A2, Choose(Meets(w, 0x20), 0x8DA9A144,
    Choose(Meets(w, 0x40), 0xC02244C9, Choose(Meets(w, 0x80), 0x5B358FD3, 0))))))))
  }

  lemma SpanOfByte(w: bv32)
    ensures Span(w, 1, 8, 1, 32) == ByteAfter32(w)
  {
    hide Steps, Choose, Meets;
    StepsOfOne();
  }

  lemma SpanOfTwoBytes(w: bv32)
    ensures Span(w, 1, 16, 1, 32) == TwoBytesAfter32(w)
  {
    hide Steps, Choose, Meets;
    StepsOfOne();
    assert Span(w, 0x100, 8, 1, 24) ==
           Choose(Meets(w, 0x100), 0x01C26A37, Choose(Meets(w, 0x200), 0x0384D46E,
           Choose(Meets(w, 0x400), 0x0709A8DC, Choose(Meets(w, 0x800), 0x0E1351B8,
           Choose(Meets(w, 0x1000), 0x1C26A370, Choose(Meets(w, 0x2000), 0x384D46E0,
           Choose(Meets(w, 0x4000), 0x709A8DC0, Choose(Meets(w, 0x8000), 0xE1351B80, 0))))))));
  }

  lemma LaterSpanOfTwoBytes(w: bv32)
    ensures Span(w, 1, 16, 1, 80) == TwoBytesAfter80(w)
  {
    hide Steps, Choose, Meets;
    LaterStepsOfOne();
    assert Span(w, 0x100, 8, 1, 72) ==
           Choose(Meets(w, 0x100), 0x177B1443, Choose(Meets(w, 0x200), 0x2EF62886,
           Choose(Meets(w, 0x400), 0x5DEC510C, Choose(Meets(w, 0x800), 0xBBD8A218,
           Choose(Meets(w, 0x1000), 0xACC04271, Choose(Meets(w, 0x2000), 0x82F182A3,
           Choose(Meets(w, 0x4000), 0xDE920307, Choose(Meets(w, 0x8000), 0x6655004F, 0))))))));
  }

  lemma StepsOfEarly()
    ensures Steps(0xB66B1FA6, 1) == 0x5B358FD3 && Steps(0xB66B1FA6, 2) == 0xC02244C9
    ensures Steps(0xB66B1FA6, 3) == 0x8DA9A144
    ensures Steps(0xB66B1FA6, 4) == 0x46D4D0A2 && Steps(0xB66B1FA6, 5) == 0x236A6851
    ensures Steps(0xB66B1FA6, 6) == 0xFC0DB708
    ensures Steps(0xB66B1FA6, 7) == 0x7E06DB84 && Steps(0xB66B1FA6, 8) == 0x3F036DC2
  {}

  lemma EarlyByteSteps()
    ensures Steps(0xB66B1FA6, 8) == 0x3F036DC2 && Steps(0x3F036DC2, 8) == 0x7555A0F1
    ensures Steps(0x7555A0F1, 8) == 0xCACF972A
    ensures Steps(0xCACF972A, 8) == 0xDB710641
  {}

  lemma LaterByteSteps()
    ensures Steps(0xDB710641, 8) == 0x01000000 && Steps(0x01000000, 8) == 0x00010000
  {}

  lemma LastByteSteps()
    ensures Steps(0x00010000, 8) == 0x00000100 && Steps(0x00000100, 8) == 0x00000001
  {}

  /** A register from which 64 shifts lead to 1. */
  lemma EarlyLeadsToOne()
    ensures Steps(0xB66B1FA6, 64) == 1
  {
    hide Steps;
    EarlyByteSteps();
    LaterByteSteps();
    LastByteSteps();
    StepsCompose(0xB66B1FA6, 8, 8);
    StepsCompose(0xB66B1FA6, 16, 8);
    StepsCompose(0xB66B1FA6, 24, 8);
    StepsCompose(0xB66B1FA6, 32, 8);
    StepsCompose(0xB66B1FA6, 40, 8);
    StepsCompose(0xB66B1FA6, 48, 8);
    StepsCompose(0xB66B1FA6, 56, 8);
  }

  lemma EarlySpanOfByte(w: bv32)
    ensures Span(w, 1, 8, 0xB66B1FA6, 8) == ByteBefore56(w)
  {
    hide Steps, Choose, Meets;
    StepsOfEarly();
  }

  lemma ByteShows(w: bv32)
    requires Within(w, 0xFF) && ByteAfter32(w) & 0xFF == 0
    ensures w == 0
  {}

  lemma TwoBytesShowLow(w: bv32)
    requires Within(w, 0xFFFF) && TwoBytesAfter32(w) & 0xFFFF == 0
    ensures w == 0
  {}

  lemma TwoBytesShowHigh(w: bv32)
    requires Within(w, 0xFFFF) && TwoBytesAfter80(w) & 0xFFFF0000 == 0
    ensures w == 0
  {}

  lemma ByteShowsBefore(w: bv32)
    requires Within(w, 0xFF) && Within(ByteBefore56(w), 0xFFFFFF)
    ensures w == 0
  {}

  lemma HalvesOfEight(w: bv32)
    ensures Halves(w, 8) == EightHalves(w)
  {
    hide Half, Halves;
    HalvesCompose(w, 4, 4);
    FourHalves(w);
    FourHalves(Half(Half(Half(Half(w)))));
  }

  lemma SixteenHalves(w: bv32)
    ensures EightHalves(EightHalves(w)) == w >> 16
  {
    SixteenBits(w);
    hide Half;
  }

  lemma ByteHalves(w: bv32)
    requires Within(w, 0xFF)
    ensures EightHalves(w) == 0
  {}

  lemma ByteHasEightBits(w: bv32)
    requires Within(w, 0xFF)
    ensures Fits(w, 8)
  {
    hide Half, Halves, EightHalves, Within;
    FitsIsHalves(w, 8);
    HalvesOfEight(w);
    ByteHalves(w);
  }

  lemma NoHighHalf(w: bv32)
    requires Within(w, 0xFFFF)
    ensures w >> 16 == 0
  {}

  lemma TwoBytesHaveSixteenBits(w: bv32)
    requires Within(w, 0xFFFF)
    ensures Fits(w, 16)
  {
    hide Half, Halves, EightHalves, Within;
    FitsIsHalves(w, 16);
    HalvesCompose(w, 8, 8);
    HalvesOfEight(w);
    HalvesOfEight(EightHalves(w));
    SixteenHalves(w);
    NoHighHalf(w);
  }

  /** 32 shifts on, a byte shows in the lowest byte. */
  lemma ByteReturns(w: bv32)
    requires Within(w, 0xFF) && Steps(w, 32) & 0xFF == 0
    ensures w == 0
  {
    hide Steps, Span, Fits, Within, ByteAfter32;
    ByteHasEightBits(w);
    StepsIsSpan(w, 8, 32);
    SpanOfByte(w);
    ByteShows(w);
  }

  /** 32 shifts on, two bytes show in the two lowest bytes. */
  lemma TwoBytesReturn(w: bv32)
    requires Within(w, 0xFFFF) && Steps(w, 32) & 0xFFFF == 0
    ensures w == 0
  {
    hide Steps, Span, Fits, Within, TwoBytesAfter32;
    TwoBytesHaveSixteenBits(w);
    StepsIsSpan(w, 16, 32);
    SpanOfTwoBytes(w);
    TwoBytesShowLow(w);
  }

  lemma HighByteOnly(w: bv32)
    requires w & 0xFFFFFF == 0
    ensures HighBytes(w) == w && HighBytes(Drop8(w)) == Drop8(w) && HighBytes(Drop8(Drop8(w))) == Drop8(Drop8(w))
    ensures Within(Drop8(Drop8(Drop8(w))), 0xFF)
    ensures Drop8(Drop8(Drop8(w))) == 0 ==> w == 0
  {}

  /** 32 shifts on, three bytes show in the three lowest bytes. */
  lemma ThreeBytesReturn(w: bv32)
    requires Within(w, 0xFFFFFF) && Steps(w, 32) & 0xFFFFFF == 0
    ensures w == 0
  {
    hide Steps, Span, Fits, Within, ByteBefore56, HighBytes, Drop8;
    var s := Steps(w, 32);
    HighByteOnly(s);
    EightPlainShifts(s);
    EightPlainShifts(Drop8(s));
    EightPlainShifts(Drop8(Drop8(s)));
    var b := Drop8(Drop8(Drop8(s)));
    StepsCompose(w, 32, 8);
    StepsCompose(w, 40, 8);
    StepsCompose(w, 48, 8);
    StepsCompose(w, 56, 8);
    ByteHasEightBits(b);
    StepsIsSpan(b, 8, 8);
    EarlyLeadsToOne();
    StepsOfSpan(b, 1, 8, 0xB66B1FA6, 8, 64);
    EarlySpanOfByte(b);
    StepsAreInjective(w, ByteBefore56(b), 64);
    ByteShowsBefore(b);
    StepsOfZero(32);
    StepsAreInjective(w, 0, 32);
  }

  lemma TwoHighBytes(w: bv32)
    requires w & 0xFFFF == 0
    ensures HighBytes(w) == w && HighBytes(Drop8(w)) == Drop8(w)
  {}

  lemma TwoHighBytesMoved(w: bv32)
    requires w & 0xFFFF == 0
    ensures Within(Drop8(Drop8(w)), 0xFFFF)
    ensures Drop8(Drop8(w)) == 0 ==> w == 0
  {}

  /** 96 shifts on, two high bytes show in the two high bytes. */
  lemma TwoHighBytesReturn(w: bv32)
    requires w & 0xFFFF == 0 && Steps(w, 96) & 0xFFFF0000 == 0
    ensures w == 0
  {
    hide Steps, Span, Fits, Within, TwoBytesAfter80, HighBytes, Drop8;
    TwoHighBytes(w);
    TwoHighBytesMoved(w);
    EightPlainShifts(w);
    EightPlainShifts(Drop8(w));
    var b := Drop8(Drop8(w));
    StepsCompose(w, 8, 8);
    StepsCompose(w, 16, 80);
    TwoBytesHaveSixteenBits(b);
    StepsIsSpan(b, 16, 80);
    LaterSpanOfTwoBytes(b);
    TwoBytesShowHigh(b);
  }

  // ---- Differences of words ----

  lemma XorOfXors(a: bv32, p: bv32, q: bv32)
    ensures Xor(Xor(a, p), Xor(a, q)) == Xor(p, q)
  {
    hide Xor;
    XorShuffle(a, a, p, q);
    SelfXor(a);
    XorCommutes(0, Xor(p, q));
    XorZero(Xor(p, q));
  }

  lemma XorWithMask(a: bv32, b: bv32, m: bv32)
    ensures Xor(Xor(a, m), Xor(b, m)) == Xor(a, b)
  {
    hide Xor;
    XorShuffle(a, b, m, m);
    SelfXor(m);
    XorZero(Xor(a, b));
  }

  lemma XorMoves(a: bv32, b: bv32, p: bv32, q: bv32)
    requires a == p
    ensures b == q <==> Xor(p, q) == Xor(a, b)
  {}

  lemma XorTwice(a: bv32, e: bv32)
    ensures Xor(a, Xor(a, e)) == e
  {
    hide Xor;
    XorAssoc(a, a, e);
    SelfXor(a);
    XorCommutes(0, e);
    XorZero(e);
  }

  lemma ZeroXorWord(w: bv32)
    ensures Xor(0, w) == w && Xor(w, 0) == w
  {}

  lemma XorIsZero(a: bv32, b: bv32)
    requires Xor(a, b) == 0
    ensures a == b
  {}

  lemma XorOfJoins(b: bv32, b': bv32, v: bv32, v': bv32)
    ensures Xor(Join(b, v), Join(b', v')) == Join(Xor(b, b'), Xor(v, v'))
  {
    XorShuffle(b, b', v << 8, v' << 8);
    XorOfLifted(v, v');
    hide Xor;
  }

  lemma XorOfLifted(v: bv32, v': bv32)
    ensures Xor(v << 8, v' << 8) == Xor(v, v') << 8
  {
    hide Xor;
    XorIs(v, v');
    XorIs(v << 8, v' << 8);
    ByteShiftOfXor(v, v');
  }

  lemma XorIs(a: bv32, b: bv32)
    ensures Xor(a, b) == a ^ b
  {}

  lemma ByteShiftOfXor(v: bv32, v': bv32)
    ensures (v << 8) ^ (v' << 8) == (v ^ v') << 8
  {}

  /** Words whose first n bytes agree differ in none of these bytes. */
  lemma {:induction false} SameStart(x: bytes, y: bytes, n: nat)
    requires n <= |x| == |y| && x[..n] == y[..n]
    ensures Xor(Word(x), Word(y)) & ByteMask(n) == 0
    decreases n
  {
    hide Join, Xor, WordOfNat;
    if n == 0 {
      NothingUnder(Xor(Word(x), Word(y)));
    } else {
      assert x[0] == x[..n][0] == y[0];
      assert x[1..][..n - 1] == x[..n][1..] && y[1..][..n - 1] == y[..n][1..];
      SameStart(x[1..], y[1..], n - 1);
      XorOfJoins(WordOfNat(x[0], 8), WordOfNat(y[0], 8), Word(x[1..]), Word(y[1..]));
      SelfXor(WordOfNat(x[0], 8));
      JoinUnder(Xor(Word(x[1..]), Word(y[1..])), ByteMask(n - 1));
    }
  }

  lemma NothingUnder(w: bv32)
    ensures w & 0 == 0
  {}

  lemma JoinUnder(v: bv32, m: bv32)
    requires v & m == 0
    ensures Join(0, v) & Join(0xFF, m) == 0
  {}

  lemma XorKeepsWithin(b: bv32, b': bv32)
    requires Within(b, 0xFF) && Within(b', 0xFF)
    ensures Within(Xor(b, b'), 0xFF)
  {}

  /** Words that agree after their first n bytes differ in these bytes alone. */
  lemma {:induction false} SameEnd(x: bytes, y: bytes, n: nat)
    requires n <= |x| == |y| && x[n..] == y[n..]
    ensures Within(Xor(Word(x), Word(y)), ByteMask(n))
    decreases n
  {
    hide Join, Xor, WordOfNat, Within;
    if n == 0 {
      SelfXor(Word(x));
      NothingWithin(0);
    } else {
      assert x[1..][n - 1..] == x[n..] && y[1..][n - 1..] == y[n..];
      SameEnd(x[1..], y[1..], n - 1);
      XorOfJoins(WordOfNat(x[0], 8), WordOfNat(y[0], 8), Word(x[1..]), Word(y[1..]));
      ByteIsShort(x[0]);
      ByteIsShort(y[0]);
      XorKeepsWithin(WordOfNat(x[0], 8), WordOfNat(y[0], 8));
      JoinKeepsWithin(Xor(WordOfNat(x[0], 8), WordOfNat(y[0], 8)), Xor(Word(x[1..]), Word(y[1..])), ByteMask(n - 1));
    }
  }

  // ---- The words of given bytes ----

  lemma WordOfZeroByte()
    ensures WordOfNat(0, 8) == 0
  {}

  lemma WordOfZeros()
    ensures Word(Zeros(4)) == 0
  {
    var z := Zeros(4);
    assert WordOfNat(0, 8) == 0;
    assert Word(z[3..]) == 0;
    assert z[2..][1..] == z[3..] && Word(z[2..]) == 0;
    assert z[1..][1..] == z[2..] && Word(z[1..]) == 0;
  }

  lemma NoBytes()
    ensures Word([]) == 0
  {}

  lemma WordOfCons(b: byte, rest: bytes)
    ensures Word([b] + rest) == Join(WordOfNat(b, 8), Word(rest))
  {
    hide Join, WordOfNat;
    assert ([b] + rest)[1..] == rest;
  }

  lemma FourBytes(a: byte, b: byte, c: byte, d: byte)
    ensures Word([a, b, c, d]) ==
              Join(WordOfNat(a, 8), Join(WordOfNat(b, 8), Join(WordOfNat(c, 8), Join(WordOfNat(d, 8), 0))))
  {
    hide Join, WordOfNat, Word;
    NoBytes();
    WordOfCons(d, []);
    WordOfCons(c, [d]);
    WordOfCons(b, [c, d]);
    WordOfCons(a, [b, c, d]);
    assert [d] + [] == [d] && [c] + [d] == [c, d] && [b] + [c, d] == [b, c, d] && [a] + [b, c, d] == [a, b, c, d];
  }

  /** The word with these eight low bits, lowest first. */
  function BitsWord(a: bool, b: bool, c: bool, d: bool, e: bool, f: bool, g: bool, h: bool): bv32
  {
    (if a then 1 else 0) | (if b then 2 else 0) | (if c then 4 else 0) | (if d then 8 else 0)
    | (if e then 16 else 0) | (if f then 32 else 0) | (if g then 64 else 0) | (if h then 128 else 0)
  }

  lemma AppendedBits(a: bool, b: bool, c: bool, d: bool, e: bool, f: bool, g: bool, h: bool)
    ensures Append(Append(Append(Append(Append(Append(Append(Append(0, h), g), f), e), d), c), b), a) ==
              BitsWord(a, b, c, d, e, f, g, h)
  {}

  lemma WordOfNothing(n: nat)
    ensures WordOfNat(n, 0) == 0
  {}

  lemma Halvings(n: byte)
    ensures n / 2 / 2 == n / 4 && n / 4 / 2 == n / 8 && n / 8 / 2 == n / 16 && n / 16 / 2 == n / 32
    ensures n / 32 / 2 == n / 64 && n / 64 / 2 == n / 128 && n / 128 / 2 == 0 && n / 128 % 2 == n / 128
  {}

  lemma WordOfByte(n: byte)
    ensures WordOfNat(n, 8) == BitsWord(
              n % 2 == 1, n / 2 % 2 == 1, n / 4 % 2 == 1, n / 8 % 2 == 1,
              n / 16 % 2 == 1, n / 32 % 2 == 1, n / 64 % 2 == 1, n / 128 == 1)
  {
    hide *;
    AppendedBits(n % 2 == 1, n / 2 % 2 == 1, n / 4 % 2 == 1, n / 8 % 2 == 1,
                 n / 16 % 2 == 1, n / 32 % 2 == 1, n / 64 % 2 == 1, n / 128 == 1);
    Halvings(n);
    WordOfNothing(0);
    WordStep(n / 128, 1);
    WordStep(n / 64, 2);
    WordStep(n / 32, 3);
    WordStep(n / 16, 4);
    WordStep(n / 8, 5);
    WordStep(n / 4, 6);
    WordStep(n / 2, 7);
    WordStep(n, 8);
  }
}
