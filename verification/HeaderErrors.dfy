/** Transmission errors that reach the stored header checksum: exactly which of them a receiver
    accepts, and which short ones that leaves. */
module HeaderErrors {
  import opened Bytes
  import opened ContractFrame
  import opened Crc32
  import opened CrcWords

  // ---- The header checksum, word by word ----

  /** The register over a header: its first 60 bytes, the payload checksum, four zero bytes in
      place of the header checksum, and the reserved word. */
  lemma RegisterOfHeader(c: bv32, b: bytes)
    requires |b| == HEADER_SIZE
    ensures Register(c, Blanked(b)) ==
              Steps(Xor(Steps(Xor(Register(c, b[..60]), Word(b[60..64])), 64), Word(b[68..72])), 32)
  {
    hide Register, Steps, Xor, Word;
    var start, crc, last := b[..60], b[60..64], b[68..72];
    assert Blanked(b) == start + (crc + (Zeros(4) + last));
    RegisterOfConcat(c, start, crc + (Zeros(4) + last));
    var r := Register(c, start);
    RegisterOfConcat(r, crc, Zeros(4) + last);
    RegisterOfWord(r, crc);
    var r' := Steps(Xor(r, Word(crc)), 32);
    RegisterOfConcat(r', Zeros(4), last);
    RegisterOfWord(r', Zeros(4));
    WordOfZeros();
    XorZero(r');
    StepsCompose(Xor(r, Word(crc)), 32, 32);
    RegisterOfWord(Steps(r', 32), last);
  }

  /** What changed in the word of four bytes from position i on. */
  function Changed(f: bytes, g: bytes, i: nat): bv32
    requires i + 4 <= |f| == |g|
  {
    Xor(Word(f[i..i + 4]), Word(g[i..i + 4]))
  }

  lemma ChangedWord(f: bytes, g: bytes, i: nat)
    requires i + 4 <= |f| == |g|
    ensures Changed(f, g, i) == Xor(Word(f[i..i + 4]), Word(g[i..i + 4]))
  {}

  /** Two registers that took in p and then x, and q and then y, as the last header words. */
  lemma LastWords(r: bv32, p: bv32, q: bv32, x: bv32, y: bv32)
    ensures Xor(Steps(Xor(Steps(Xor(r, p), 64), x), 32), Steps(Xor(Steps(Xor(r, q), 64), y), 32)) ==
              Xor(Steps(Xor(p, q), 96), Steps(Xor(x, y), 32))
  {
    hide *;
    var a, b := Xor(r, p), Xor(r, q);
    StepsOfXor(Xor(Steps(a, 64), x), Xor(Steps(b, 64), y), 32);
    XorShuffle(Steps(a, 64), Steps(b, 64), x, y);
    StepsOfXor(a, b, 64);
    XorOfXors(r, p, q);
    StepsOfXor(Steps(Xor(p, q), 64), Xor(x, y), 32);
    StepsCompose(Xor(p, q), 64, 32);
  }

  lemma CrcChange(a: bytes, b: bytes)
    ensures Xor(Crc(a), Crc(b)) == Xor(Register(0xFFFFFFFF, a), Register(0xFFFFFFFF, b))
  {
    hide *;
    CrcIsXor(a);
    CrcIsXor(b);
    XorWithMask(Register(0xFFFFFFFF, a), Register(0xFFFFFFFF, b), 0xFFFFFFFF);
  }

  /** Two headers that agree in their first 60 bytes: what their checksums differ by depends on
      the changed bits alone. */
  lemma ChecksumChange(f: bytes, g: bytes)
    requires |f| == |g| == HEADER_SIZE && f[..60] == g[..60]
    ensures Xor(Crc(Blanked(f)), Crc(Blanked(g))) ==
              Xor(Steps(Changed(f, g, 60), 96), Steps(Changed(f, g, 68), 32))
  {
    hide Register, Steps, Xor, Word, Blanked, Crc, Changed;
    CrcChange(Blanked(f), Blanked(g));
    RegisterOfHeader(0xFFFFFFFF, f);
    RegisterOfHeader(0xFFFFFFFF, g);
    LastWords(Register(0xFFFFFFFF, f[..60]), Word(f[60..64]), Word(g[60..64]), Word(f[68..72]), Word(g[68..72]));
    ChangedWord(f, g, 60);
    ChangedWord(f, g, 68);
  }

  lemma HeaderCrcWord(b: bytes)
    requires |b| >= HEADER_SIZE
    ensures HeaderCrcIsValid(b) <==> Crc(Blanked(b[..HEADER_SIZE])) == Word(b[64..68])
  {
    hide CrcValue, Blanked, FromLe, Word, Crc;
    var h := b[..HEADER_SIZE];
    assert h[64..68] == b[64..68];
    CrcNumber(Blanked(h));
    StoredWord(Crc(Blanked(h)), b[64..68]);
  }

  /** f and g agree outside the last three words of their headers. */
  predicate DifferLate(f: bytes, g: bytes)
  {
    |f| == |g| && |f| >= HEADER_SIZE && f[..60] == g[..60] && f[HEADER_SIZE..] == g[HEADER_SIZE..]
  }

  /** The change of the stored header checksum is the one the other two words call for. */
  predicate ChecksumFollows(f: bytes, g: bytes)
    requires |f| == |g| && |f| >= HEADER_SIZE
  {
    Changed(f, g, 64) == Xor(Steps(Changed(f, g, 60), 96), Steps(Changed(f, g, 68), 32))
  }

  lemma HeaderCrcAfterChange(f: bytes, g: bytes)
    requires DifferLate(f, g) && HeaderCrcIsValid(f)
    ensures HeaderCrcIsValid(g) <==> ChecksumFollows(f, g)
  {
    hide HeaderCrcIsValid, Crc, Blanked, Word, Xor, Steps;
    var a, b := f[..HEADER_SIZE], g[..HEADER_SIZE];
    assert a[..60] == f[..60] && b[..60] == g[..60];
    assert a[60..64] == f[60..64] && b[60..64] == g[60..64];
    assert a[68..72] == f[68..72] && b[68..72] == g[68..72];
    HeaderCrcWord(f);
    HeaderCrcWord(g);
    ChecksumChange(a, b);
    XorMoves(Crc(Blanked(a)), Crc(Blanked(b)), Word(f[64..68]), Word(g[64..68]));
  }

  lemma ShapeAfterChange(f: bytes, g: bytes, maxPayload: nat, maxPayload': nat)
    requires DifferLate(f, g) && ShapeIsValid(f, maxPayload)
    ensures ShapeIsValid(g, maxPayload') <==> |f| - HEADER_SIZE <= maxPayload'
  {
    hide FromLe;
    var a, b := f[..HEADER_SIZE], g[..HEADER_SIZE];
    assert a[0..4] == f[..60][0..4] && b[0..4] == g[..60][0..4];
    assert a[6..8] == f[..60][6..8] && b[6..8] == g[..60][6..8];
    assert a[56..60] == f[..60][56..60] && b[56..60] == g[..60][56..60];
  }

  lemma PayloadCrcAfterChange(f: bytes, g: bytes)
    requires DifferLate(f, g) && PayloadCrcIsValid(f)
    ensures PayloadCrcIsValid(g) <==> (|f| > HEADER_SIZE ==> f[60..64] == g[60..64])
  {
    hide FromLe, CrcValue;
    var a, b := f[..HEADER_SIZE], g[..HEADER_SIZE];
    assert a[60..64] == f[60..64] && b[60..64] == g[60..64];
    LeOfFromLe(f[60..64]);
    LeOfFromLe(g[60..64]);
  }

  /** Exactly when a change to the last three words of a valid header is accepted. */
  lemma LateChangeIsAccepted(f: bytes, g: bytes, maxPayload: nat, maxPayload': nat)
    requires ValidFrame(f, maxPayload) && DifferLate(f, g)
    ensures ValidFrame(g, maxPayload') <==>
              && |f| - HEADER_SIZE <= maxPayload'
              && (|f| > HEADER_SIZE ==> f[60..64] == g[60..64])
              && ChecksumFollows(f, g)
  {
    hide ShapeIsValid, PayloadCrcIsValid, HeaderCrcIsValid, DifferLate, ChecksumFollows;
    ValidFrameIsLong(f, maxPayload);
    assert |f| == |g| by { LateLengths(f, g); }
    ShapeAfterChange(f, g, maxPayload, maxPayload');
    PayloadCrcAfterChange(f, g);
    HeaderCrcAfterChange(f, g);
  }

  lemma LateLengths(f: bytes, g: bytes)
    requires DifferLate(f, g)
    ensures |f| == |g| && |f| >= HEADER_SIZE
  {}

  // ---- Which windows are rejected ----

  /** A change of the stored checksum and of the first n = 1, 2 or 3 reserved bytes, in one window. */
  lemma ReservedWindow(f: bytes, g: bytes, n: nat)
    requires 1 <= n <= 3 && DifferLate(f, g) && f[60..64] == g[60..64]
    requires f[64..64 + n] == g[64..64 + n] && f[68 + n..72] == g[68 + n..72]
    requires ChecksumFollows(f, g)
    ensures f[60..72] == g[60..72]
  {
    hide Join, Xor, Word, Within, Steps, ByteMask;
    var s, r := Changed(f, g, 64), Changed(f, g, 68);
    SelfXor(Word(f[60..64]));
    StepsOfZero(96);
    ZeroXorWord(Steps(r, 32));
    assert f[64..68][..n] == f[64..64 + n] && g[64..68][..n] == g[64..64 + n];
    SameStart(f[64..68], g[64..68], n);
    assert f[68..72][n..] == f[68 + n..72] && g[68..72][n..] == g[68 + n..72];
    SameEnd(f[68..72], g[68..72], n);
    ByteMasks();
    if n == 1 {
      ByteReturns(r);
    } else if n == 2 {
      TwoBytesReturn(r);
    } else {
      ThreeBytesReturn(r);
    }
    StepsOfZero(32);
    XorIsZero(Word(f[64..68]), Word(g[64..68]));
    WordIsInjective(f[64..68], g[64..68]);
    XorIsZero(Word(f[68..72]), Word(g[68..72]));
    WordIsInjective(f[68..72], g[68..72]);
    assert f[60..72] == f[60..64] + f[64..68] + f[68..72] && g[60..72] == g[60..64] + g[64..68] + g[68..72];
  }

  /** For a frame without payload: the last two bytes of the payload checksum and the first two of
      the header checksum, in one window. */
  lemma UnusedWindow(f: bytes, g: bytes)
    requires DifferLate(f, g) && f[60..62] == g[60..62] && f[66..72] == g[66..72]
    requires ChecksumFollows(f, g)
    ensures f[60..72] == g[60..72]
  {
    hide Join, Xor, Word, Within, Steps, ByteMask;
    var p, s := Changed(f, g, 60), Changed(f, g, 64);
    assert f[68..72] == f[66..72][2..] && g[68..72] == g[66..72][2..];
    SelfXor(Word(f[68..72]));
    StepsOfZero(32);
    ZeroXorWord(Steps(p, 96));
    assert f[60..64][..2] == f[60..62] && g[60..64][..2] == g[60..62];
    SameStart(f[60..64], g[60..64], 2);
    assert f[64..68][2..] == f[66..72][..2] && g[64..68][2..] == g[66..72][..2];
    SameEnd(f[64..68], g[64..68], 2);
    ByteMasks();
    NoHighBytes(s);
    TwoHighBytesReturn(p);
    StepsOfZero(96);
    XorIsZero(Word(f[60..64]), Word(g[60..64]));
    WordIsInjective(f[60..64], g[60..64]);
    XorIsZero(Word(f[64..68]), Word(g[64..68]));
    WordIsInjective(f[64..68], g[64..68]);
    assert f[60..72] == f[60..64] + f[64..68] + f[68..72] && g[60..72] == g[60..64] + g[64..68] + g[68..72];
  }

  lemma NoHighBytes(w: bv32)
    requires Within(w, 0xFFFF)
    ensures w & 0xFFFF0000 == 0
  {}

  /** f and g agree outside the four bytes from k on. */
  predicate DifferInWindow(f: bytes, g: bytes, k: nat)
  {
    |f| == |g| && forall i :: 0 <= i < |f| && !(k <= i < k + 4) ==> f[i] == g[i]
  }

  lemma LateWindow(f: bytes, g: bytes, k: nat)
    requires |f| >= HEADER_SIZE && DifferInWindow(f, g, k) && 61 <= k <= 67
    ensures DifferLate(f, g)
  {}

  /** A window over part of the stored header checksum changes nothing, when the frame is accepted. */
  lemma WindowAtChecksum(f: bytes, g: bytes, k: nat)
    requires |f| >= HEADER_SIZE && DifferInWindow(f, g, k) && 61 <= k <= 67 && DifferLate(f, g)
    requires |f| == HEADER_SIZE ==> k != 61 && k != 63
    requires |f| > HEADER_SIZE ==> f[60..64] == g[60..64]
    requires ChecksumFollows(f, g)
    ensures f[60..72] == g[60..72]
  {
    hide DifferLate, ChecksumFollows;
    if k >= 65 {
      ReservedWindow(f, g, k - 64);
    } else if k == 62 && f[60..64] != g[60..64] {
      UnusedWindow(f, g);
    } else {
      assert f[60..64] == g[60..64];
      StoredOnly(f, g);
    }
  }

  lemma StoredOnly(f: bytes, g: bytes)
    requires DifferLate(f, g) && f[60..64] == g[60..64] && f[68..72] == g[68..72]
    requires ChecksumFollows(f, g)
    ensures f[60..72] == g[60..72]
  {
    hide Xor, Word, Steps;
    SelfXor(Word(f[60..64]));
    SelfXor(Word(f[68..72]));
    StepsOfZero(96);
    StepsOfZero(32);
    SelfXor(0);
    XorIsZero(Word(f[64..68]), Word(g[64..68]));
    WordIsInjective(f[64..68], g[64..68]);
    assert f[60..72] == f[60..64] + f[64..68] + f[68..72] && g[60..72] == g[60..64] + g[64..68] + g[68..72];
  }

  /** Any change inside four consecutive bytes of a valid frame is rejected, wherever it is; only a
      frame without payload has two windows, 61 and 63, where it may pass. */
  lemma WindowIsRejected(f: bytes, g: bytes, k: nat, maxPayload: nat, maxPayload': nat)
    requires ValidFrame(f, maxPayload) && f != g && DifferInWindow(f, g, k)
    requires |f| == HEADER_SIZE ==> k != 61 && k != 63
    ensures !ValidFrame(g, maxPayload')
  {
    hide ValidFrame, DifferLate, ChecksumFollows;
    ValidFrameIsLong(f, maxPayload);
    if k < 61 || 68 <= k {
      WindowElsewhereIsRejected(f, g, k, maxPayload, maxPayload');
    } else if ValidFrame(g, maxPayload') {
      LateWindow(f, g, k);
      LateChangeIsAccepted(f, g, maxPayload, maxPayload');
      WindowAtChecksum(f, g, k);
      SameParts(f, g);
      assert false;
    }
  }

  lemma SameParts(f: bytes, g: bytes)
    requires DifferLate(f, g) && f[60..72] == g[60..72]
    ensures f == g
  {
    assert f == f[..60] + f[60..72] + f[72..] && g == g[..60] + g[60..72] + g[72..];
  }

  // ---- Which bursts are rejected ----

  /** A burst that reaches the stored header checksum lies in the last three header words. */
  lemma BurstAtChecksum(f: bytes, g: bytes, k: nat, i: nat)
    requires |f| >= HEADER_SIZE && DifferOnlyInBurst(f, g, k) && 64 <= i < 68 && f[i] != g[i]
    ensures DifferLate(f, g)
  {
    hide MessageBits;
    var j := DifferingBit(f, g, i);
    forall p | 0 <= p < |f| && !(60 <= p < HEADER_SIZE)
      ensures f[p] == g[p]
    {
      if f[p] != g[p] {
        var q := DifferingBit(f, g, p);
      }
    }
  }

  /** A burst of at most 32 bits is accepted exactly when it stays in the last three header words,
      spares the payload checksum if it is used, and changes the header checksum to follow. */
  lemma BurstIsAccepted(f: bytes, g: bytes, k: nat, maxPayload: nat, maxPayload': nat)
    requires ValidFrame(f, maxPayload) && f != g && DifferOnlyInBurst(f, g, k)
    ensures ValidFrame(g, maxPayload') <==>
              && DifferLate(f, g)
              && |f| - HEADER_SIZE <= maxPayload'
              && (|f| > HEADER_SIZE ==> f[60..64] == g[60..64])
              && ChecksumFollows(f, g)
  {
    hide ValidFrame, DifferLate, ChecksumFollows, DifferOnlyInBurst;
    ValidFrameIsLong(f, maxPayload);
    BurstKeepsLength(f, g, k);
    if f[64..68] == g[64..68] {
      BurstIsRejected(f, g, k, maxPayload, maxPayload');
    } else {
      var i := DifferingByte(f[64..68], g[64..68]);
      assert f[64 + i] == f[64..68][i] && g[64 + i] == g[64..68][i];
      BurstAtChecksum(f, g, k, 64 + i);
    }
    if DifferLate(f, g) {
      LateChangeIsAccepted(f, g, maxPayload, maxPayload');
    }
  }

  lemma DifferingByte(x: bytes, y: bytes) returns (i: nat)
    requires |x| == |y| && x != y
    ensures i < |x| && x[i] != y[i]
  {
    i :| 0 <= i < |x| && x[i] != y[i];
  }

  // ---- Which errors pass ----

  /** The byte b with the bits of the byte e inverted. */
  function Flip(b: byte, e: byte): byte
  {
    hide *;
    NatOfWordBound(Xor(WordOfNat(b, 8), WordOfNat(e, 8)), 8);
    NatOfWord(Xor(WordOfNat(b, 8), WordOfNat(e, 8)), 8)
  }

  /** The frame f after the error pattern e. */
  function Flipped(f: bytes, e: bytes): (g: bytes)
    requires |f| == |e|
    ensures |g| == |f|
  {
    seq(|f|, i requires 0 <= i < |f| => Flip(f[i], e[i]))
  }

  lemma LowByteOfByte(w: bv32)
    requires Within(w, 0xFF)
    ensures LowByte(w) == w
  {}

  lemma WordOfFlip(b: byte, e: byte)
    ensures WordOfNat(Flip(b, e), 8) == Xor(WordOfNat(b, 8), WordOfNat(e, 8))
  {
    hide WordOfNat, NatOfWord, Xor, Within, LowByte;
    var w := Xor(WordOfNat(b, 8), WordOfNat(e, 8));
    ByteIsShort(b);
    ByteIsShort(e);
    XorKeepsWithin(WordOfNat(b, 8), WordOfNat(e, 8));
    IndexRoundTrip(w);
    LowByteOfByte(w);
  }

  lemma {:induction false} WordOfFlipped(s: bytes, e: bytes)
    requires |s| == |e|
    ensures Word(Flipped(s, e)) == Xor(Word(s), Word(e))
  {
    hide WordOfNat, Xor, Join, Flip;
    if s == [] {
      SelfXor(0);
    } else {
      WordOfFlip(s[0], e[0]);
      WordOfFlipped(s[1..], e[1..]);
      assert Flipped(s, e)[1..] == Flipped(s[1..], e[1..]);
      XorOfJoins(WordOfNat(s[0], 8), WordOfNat(e[0], 8), Word(s[1..]), Word(e[1..]));
    }
  }

  lemma FlipNothing(b: byte)
    ensures Flip(b, 0) == b
  {
    hide Flip, WordOfNat, Xor, NatOfWord;
    WordOfFlip(b, 0);
    WordOfZeroByte();
    XorZero(WordOfNat(b, 8));
    NatOfByteWord(b);
    NatOfByteWord(Flip(b, 0));
  }

  lemma NatOfByteWord(b: byte)
    ensures NatOfWord(WordOfNat(b, 8), 8) == b
  {
    hide WordOfNat, NatOfWord;
    assert Pow2(8) == 256;
    NatOfWordOfNat(b, 8);
  }

  lemma ChangedByFlips(f: bytes, e: bytes, i: nat)
    requires i + 4 <= |f| == |e|
    ensures Changed(f, Flipped(f, e), i) == Word(e[i..i + 4])
  {
    hide Word, Xor, Flip;
    assert Flipped(f, e)[i..i + 4] == Flipped(f[i..i + 4], e[i..i + 4]);
    WordOfFlipped(f[i..i + 4], e[i..i + 4]);
    XorTwice(Word(f[i..i + 4]), Word(e[i..i + 4]));
  }

  /** An error pattern in the last three header words. */
  function Pattern(crc: bytes, headerCrc: bytes, reserved: bytes, n: nat): (e: bytes)
    requires |crc| == |headerCrc| == |reserved| == 4
    ensures |e| == HEADER_SIZE + n
  {
    Zeros(60) + crc + headerCrc + reserved + Zeros(n)
  }

  lemma PatternParts(crc: bytes, headerCrc: bytes, reserved: bytes, n: nat)
    requires |crc| == |headerCrc| == |reserved| == 4
    ensures var e := Pattern(crc, headerCrc, reserved, n);
            && e[0..60] == Zeros(60) && e[60..64] == crc && e[64..68] == headerCrc && e[68..72] == reserved
            && e[HEADER_SIZE..HEADER_SIZE + n] == Zeros(n)
  {}

  lemma FlipsNothing(f: bytes, e: bytes, i: nat, j: nat)
    requires i <= j <= |f| == |e| && e[i..j] == Zeros(j - i)
    ensures Flipped(f, e)[i..j] == f[i..j]
  {
    hide Flip;
    forall k | i <= k < j
      ensures Flipped(f, e)[k] == f[k]
    {
      assert e[k] == e[i..j][k - i];
      FlipNothing(f[k]);
    }
  }

  lemma FlippedLate(f: bytes, e: bytes)
    requires |f| == |e| && |f| >= HEADER_SIZE
    requires e[0..60] == Zeros(60) && e[HEADER_SIZE..|e|] == Zeros(|f| - HEADER_SIZE)
    ensures DifferLate(f, Flipped(f, e))
  {
    hide Flipped;
    FlipsNothing(f, e, 0, 60);
    FlipsNothing(f, e, HEADER_SIZE, |f|);
    var g := Flipped(f, e);
    assert f[..60] == f[0..60] && g[..60] == g[0..60];
    assert f[HEADER_SIZE..] == f[HEADER_SIZE..|f|] && g[HEADER_SIZE..] == g[HEADER_SIZE..|f|];
  }

  /** Whether a receiver accepts the frame depends on the error pattern alone, not on the frame. */
  lemma PatternIsAccepted(f: bytes, crc: bytes, headerCrc: bytes, reserved: bytes, maxPayload: nat)
    requires |crc| == |headerCrc| == |reserved| == 4 && ValidFrame(f, maxPayload)
    requires |f| > HEADER_SIZE ==> crc == Zeros(4)
    ensures |f| >= HEADER_SIZE
    ensures ValidFrame(Flipped(f, Pattern(crc, headerCrc, reserved, |f| - HEADER_SIZE)), maxPayload) <==>
              Word(headerCrc) == Xor(Steps(Word(crc), 96), Steps(Word(reserved), 32))
  {
    hide Flipped, Pattern, Word, Xor, Steps, ValidFrame, DifferLate;
    ValidFrameIsLong(f, maxPayload);
    var e := Pattern(crc, headerCrc, reserved, |f| - HEADER_SIZE);
    var g := Flipped(f, e);
    PatternParts(crc, headerCrc, reserved, |f| - HEADER_SIZE);
    FlippedLate(f, e);
    if |f| > HEADER_SIZE {
      FlipsNothing(f, e, 60, 64);
    }
    ChangedByFlips(f, e, 60);
    ChangedByFlips(f, e, 64);
    ChangedByFlips(f, e, 68);
    ValidFrameIsWithin(f, maxPayload);
    LateChangeIsAccepted(f, g, maxPayload, maxPayload);
  }

  lemma ValidFrameIsWithin(f: bytes, maxPayload: nat)
    requires ValidFrame(f, maxPayload)
    ensures |f| - HEADER_SIZE <= maxPayload
  {}

  lemma BurstByteWords()
    ensures WordOfNat(0x00, 8) == 0x00 && WordOfNat(0x40, 8) == 0x40 && WordOfNat(0xB4, 8) == 0xB4
  {
    hide WordOfNat;
    WordOfByte(0x00);
    WordOfByte(0x40);
    WordOfByte(0xB4);
  }

  lemma BurstEndByteWords()
    ensures WordOfNat(0x62, 8) == 0x62 && WordOfNat(0xFD, 8) == 0xFD && WordOfNat(0x1E, 8) == 0x1E
  {
    hide WordOfNat;
    WordOfByte(0x62);
    WordOfByte(0xFD);
    WordOfByte(0x1E);
  }

  lemma FirstByteWords()
    ensures WordOfNat(0xED, 8) == 0xED && WordOfNat(0xA9, 8) == 0xA9 && WordOfNat(0x8F, 8) == 0x8F
  {
    hide WordOfNat;
    WordOfByte(0xED);
    WordOfByte(0xA9);
    WordOfByte(0x8F);
  }

  lemma SecondByteWords()
    ensures WordOfNat(0x2A, 8) == 0x2A && WordOfNat(0xF4, 8) == 0xF4 && WordOfNat(0x63, 8) == 0x63
  {
    hide WordOfNat;
    WordOfByte(0x2A);
    WordOfByte(0xF4);
    WordOfByte(0x63);
  }

  lemma LastByteWords()
    ensures WordOfNat(0x00, 8) == 0x00 && WordOfNat(0x19, 8) == 0x19 && WordOfNat(0x25, 8) == 0x25
  {
    hide WordOfNat;
    WordOfByte(0x00);
    WordOfByte(0x19);
    WordOfByte(0x25);
  }

  /** An error of 31 bits, from bit 526 of the frame to bit 556. */
  const BURST_CRC: bytes := [0x00, 0x40, 0xB4, 0x62]
  const BURST_RESERVED: bytes := [0xFD, 0x1E, 0x00, 0x00]

  lemma BurstWords()
    ensures Word(BURST_CRC) == 0x62B44000 && Word(BURST_RESERVED) == 0x00001EFD
  {
    hide WordOfNat, Word;
    BurstByteWords();
    BurstEndByteWords();
    FourBytes(0x00, 0x40, 0xB4, 0x62);
    FourBytes(0xFD, 0x1E, 0x00, 0x00);
  }

  lemma BurstByteSteps()
    ensures Steps(0x00001EFD, 8) == 0xC30C8EBF && Steps(0xC30C8EBF, 8) == 0x5B1DA293
    ensures Steps(0x5B1DA293, 8) == 0x695DDF5C && Steps(0x695DDF5C, 8) == 0x62B44000
  {}

  lemma BurstFollows()
    ensures Word(BURST_CRC) == Xor(Steps(Word(Zeros(4)), 96), Steps(Word(BURST_RESERVED), 32))
  {
    hide Steps, Word, Xor;
    BurstWords();
    BurstByteSteps();
    WordOfZeros();
    StepsOfZero(96);
    ZeroXorWord(Steps(0x00001EFD, 32));
    StepsCompose(0x00001EFD, 8, 8);
    StepsCompose(0x00001EFD, 16, 8);
    StepsCompose(0x00001EFD, 24, 8);
  }

  lemma {:induction false} WordBitsOfXor(v: bv32, w: bv32, n: nat, j: nat)
    requires j < n
    ensures WordBits(Xor(v, w), n)[j] == (WordBits(v, n)[j] != WordBits(w, n)[j])
    decreases n
  {
    hide Xor, Half, LowBit;
    HalfOfXor(v, w);
    if j == 0 {
    } else {
      WordBitsOfXor(Half(v), Half(w), n - 1, j - 1);
    }
  }

  lemma HalfOfXor(v: bv32, w: bv32)
    ensures Half(Xor(v, w)) == Xor(Half(v), Half(w))
    ensures LowBit(Xor(v, w)) == (LowBit(v) != LowBit(w))
  {
    ShiftOfXor(v, w);
    LowBitOfXor(v, w);
  }

  lemma BitsOfFlip(b: byte, e: byte, j: nat)
    requires j < 8 && !ByteBits(e)[j]
    ensures ByteBits(Flip(b, e))[j] == ByteBits(b)[j]
  {
    hide Flip, WordOfNat, Xor, WordBits;
    WordOfFlip(b, e);
    WordBitsOfXor(WordOfNat(b, 8), WordOfNat(e, 8), 8, j);
  }

  lemma ClearBits(j: nat)
    requires j < 8
    ensures !ByteBits(0)[j]
    ensures j < 6 ==> !ByteBits(0x40)[j]
    ensures j >= 6 ==> !ByteBits(0x1E)[j]
  {
    BurstByteWords();
    BurstEndByteWords();
    hide WordOfNat;
    assert WordBits(0, 8) == [false, false, false, false, false, false, false, false];
    assert WordBits(0x40, 8) == [false, false, false, false, false, false, true, false];
    assert WordBits(0x1E, 8) == [false, true, true, true, true, false, false, false];
  }

  lemma BurstPattern(n: nat, i: nat)
    requires i < HEADER_SIZE + n && !(66 <= i < 69)
    ensures Pattern(Zeros(4), BURST_CRC, BURST_RESERVED, n)[i] ==
              if i == 65 then 0x40 else if i == 69 then 0x1E else 0
  {}

  lemma BurstIsInBurst(f: bytes)
    requires |f| >= HEADER_SIZE
    ensures DifferOnlyInBurst(f, Flipped(f, Pattern(Zeros(4), BURST_CRC, BURST_RESERVED, |f| - HEADER_SIZE)), 526)
  {
    hide MessageBits, ByteBits, Flip, Pattern;
    var e := Pattern(Zeros(4), BURST_CRC, BURST_RESERVED, |f| - HEADER_SIZE);
    var g := Flipped(f, e);
    forall i | 0 <= i < 8 * |f| && !(526 <= i < 558)
      ensures MessageBits(f)[i] == MessageBits(g)[i]
    {
      BurstPattern(|f| - HEADER_SIZE, i / 8);
      ClearBits(i % 8);
      BitsOfFlip(f[i / 8], e[i / 8], i % 8);
      MessageBitAt(f, i / 8, i % 8);
      MessageBitAt(g, i / 8, i % 8);
    }
  }

  lemma NonZeroChange(f: bytes, e: bytes, i: nat)
    requires i + 4 <= |f| == |e| && Word(e[i..i + 4]) != 0
    ensures Flipped(f, e) != f
  {
    hide Word, Xor, Flipped;
    ChangedByFlips(f, e, i);
    SelfXor(Word(f[i..i + 4]));
  }

  /** 32 bits over the stored checksum are too many: every valid frame, with or without payload, has
      a burst of 31 bits that is accepted. */
  lemma BurstCanPass(f: bytes, maxPayload: nat)
    requires ValidFrame(f, maxPayload)
    ensures |f| >= HEADER_SIZE
    ensures var g := Flipped(f, Pattern(Zeros(4), BURST_CRC, BURST_RESERVED, |f| - HEADER_SIZE));
            ValidFrame(g, maxPayload) && g != f && DifferOnlyInBurst(f, g, 526)
  {
    hide ValidFrame, DifferOnlyInBurst, Flipped, Pattern, Word, Steps, Xor;
    ValidFrameIsLong(f, maxPayload);
    BurstFollows();
    PatternIsAccepted(f, Zeros(4), BURST_CRC, BURST_RESERVED, maxPayload);
    PatternParts(Zeros(4), BURST_CRC, BURST_RESERVED, |f| - HEADER_SIZE);
    BurstWords();
    NonZeroChange(f, Pattern(Zeros(4), BURST_CRC, BURST_RESERVED, |f| - HEADER_SIZE), 64);
    BurstIsInBurst(f);
  }

  // ---- The two windows of a frame without payload ----

  const FIRST_CRC: bytes := [0x00, 0xED, 0xA9, 0x8F]
  const FIRST_HEADER_CRC: bytes := [0x25, 0x00, 0x00, 0x00]
  const SECOND_CRC: bytes := [0x00, 0x00, 0x00, 0x19]
  const SECOND_HEADER_CRC: bytes := [0x2A, 0xF4, 0x63, 0x00]

  lemma WindowWords()
    ensures Word(FIRST_CRC) == 0x8FA9ED00 && Word(FIRST_HEADER_CRC) == 0x00000025
    ensures Word(SECOND_CRC) == 0x19000000 && Word(SECOND_HEADER_CRC) == 0x0063F42A
  {
    hide WordOfNat, Word;
    FirstByteWords();
    SecondByteWords();
    LastByteWords();
    FourBytes(0x00, 0xED, 0xA9, 0x8F);
    FourBytes(0x25, 0x00, 0x00, 0x00);
    FourBytes(0x00, 0x00, 0x00, 0x19);
    FourBytes(0x2A, 0xF4, 0x63, 0x00);
  }

  lemma FirstByteSteps()
    ensures Steps(0x8FA9ED00, 8) == 0x008FA9ED && Steps(0x008FA9ED, 8) == 0xDEBB116C
    ensures Steps(0xDEBB116C, 8) == 0x44DA9662 && Steps(0x44DA9662, 8) == 0xA3F8DAE2
  {}

  lemma FirstByteStepsMiddle()
    ensures Steps(0xA3F8DAE2, 8) == 0x4EA77B8E && Steps(0x4EA77B8E, 8) == 0x0A4E095C
    ensures Steps(0x0A4E095C, 8) == 0x62D753D6 && Steps(0x62D753D6, 8) == 0x6FD2A0B2
  {}

  lemma FirstByteStepsEnd()
    ensures Steps(0x6FD2A0B2, 8) == 0x25000000 && Steps(0x25000000, 8) == 0x00250000
    ensures Steps(0x00250000, 8) == 0x00002500 && Steps(0x00002500, 8) == 0x00000025
  {}

  lemma FirstSteps()
    ensures Steps(0x8FA9ED00, 96) == 0x00000025
  {
    hide Steps;
    FirstByteSteps();
    FirstByteStepsMiddle();
    FirstByteStepsEnd();
    StepsCompose(0x8FA9ED00, 8, 8);
    StepsCompose(0x8FA9ED00, 16, 8);
    StepsCompose(0x8FA9ED00, 24, 8);
    StepsCompose(0x8FA9ED00, 32, 8);
    StepsCompose(0x8FA9ED00, 40, 8);
    StepsCompose(0x8FA9ED00, 48, 8);
    StepsCompose(0x8FA9ED00, 56, 8);
    StepsCompose(0x8FA9ED00, 64, 8);
    StepsCompose(0x8FA9ED00, 72, 8);
    StepsCompose(0x8FA9ED00, 80, 8);
    StepsCompose(0x8FA9ED00, 88, 8);
  }

  lemma SecondByteSteps()
    ensures Steps(0x19000000, 8) == 0x00190000 && Steps(0x00190000, 8) == 0x00001900
    ensures Steps(0x00001900, 8) == 0x00000019 && Steps(0x00000019, 8) == 0x646BA8C0
  {}

  lemma SecondByteStepsMiddle()
    ensures Steps(0x646BA8C0, 8) == 0x9B00A918 && Steps(0x9B00A918, 8) == 0x13F798FF
    ensures Steps(0x13F798FF, 8) == 0x2D111815 && Steps(0x2D111815, 8) == 0x6DF0F5F3
  {}

  lemma SecondByteStepsEnd()
    ensures Steps(0x6DF0F5F3, 8) == 0x24D95353 && Steps(0x24D95353, 8) == 0xF246D91D
    ensures Steps(0xF246D91D, 8) == 0x63F42A00 && Steps(0x63F42A00, 8) == 0x0063F42A
  {}

  lemma SecondSteps()
    ensures Steps(0x19000000, 96) == 0x0063F42A
  {
    hide Steps;
    SecondByteSteps();
    SecondByteStepsMiddle();
    SecondByteStepsEnd();
    StepsCompose(0x19000000, 8, 8);
    StepsCompose(0x19000000, 16, 8);
    StepsCompose(0x19000000, 24, 8);
    StepsCompose(0x19000000, 32, 8);
    StepsCompose(0x19000000, 40, 8);
    StepsCompose(0x19000000, 48, 8);
    StepsCompose(0x19000000, 56, 8);
    StepsCompose(0x19000000, 64, 8);
    StepsCompose(0x19000000, 72, 8);
    StepsCompose(0x19000000, 80, 8);
    StepsCompose(0x19000000, 88, 8);
  }

  lemma FlipsOutsideWindow(f: bytes, e: bytes, k: nat)
    requires |f| == |e| && k + 4 <= |f| && e[0..k] == Zeros(k) && e[k + 4..|e|] == Zeros(|e| - k - 4)
    ensures DifferInWindow(f, Flipped(f, e), k)
  {
    hide Flipped;
    FlipsNothing(f, e, 0, k);
    FlipsNothing(f, e, k + 4, |f|);
    var g := Flipped(f, e);
    forall i | 0 <= i < |f| && !(k <= i < k + 4)
      ensures f[i] == g[i]
    {
      if i < k {
        assert f[i] == f[0..k][i] && g[i] == g[0..k][i];
      } else {
        assert f[i] == f[k + 4..|f|][i - k - 4] && g[i] == g[k + 4..|f|][i - k - 4];
      }
    }
  }

  lemma WindowPatterns()
    ensures var e := Pattern(FIRST_CRC, FIRST_HEADER_CRC, Zeros(4), 0);
            e[0..61] == Zeros(61) && e[65..HEADER_SIZE] == Zeros(7)
    ensures var e := Pattern(SECOND_CRC, SECOND_HEADER_CRC, Zeros(4), 0);
            e[0..63] == Zeros(63) && e[67..HEADER_SIZE] == Zeros(5)
  {}

  /** A pattern of the last two checksums that follows itself is accepted in a frame without payload. */
  lemma UnusedPatternIsAccepted(f: bytes, crc: bytes, headerCrc: bytes, maxPayload: nat)
    requires ValidFrame(f, maxPayload) && |f| == HEADER_SIZE && |crc| == |headerCrc| == 4
    requires Word(headerCrc) == Steps(Word(crc), 96) && Word(crc) != 0
    ensures var g := Flipped(f, Pattern(crc, headerCrc, Zeros(4), 0)); ValidFrame(g, maxPayload) && g != f
  {
    hide ValidFrame, Flipped, Pattern, Word, Steps, Xor;
    PatternParts(crc, headerCrc, Zeros(4), 0);
    WordOfZeros();
    StepsOfZero(32);
    ZeroXorWord(Steps(Word(crc), 96));
    PatternIsAccepted(f, crc, headerCrc, Zeros(4), maxPayload);
    NonZeroChange(f, Pattern(crc, headerCrc, Zeros(4), 0), 60);
  }

  /** Every valid frame without payload has a change at window 61 and one at window 63 that pass. */
  lemma EmptyFrameWindowsCanPass(f: bytes, maxPayload: nat)
    requires ValidFrame(f, maxPayload) && |f| == HEADER_SIZE
    ensures var g := Flipped(f, Pattern(FIRST_CRC, FIRST_HEADER_CRC, Zeros(4), 0));
            ValidFrame(g, maxPayload) && g != f && DifferInWindow(f, g, 61)
    ensures var g := Flipped(f, Pattern(SECOND_CRC, SECOND_HEADER_CRC, Zeros(4), 0));
            ValidFrame(g, maxPayload) && g != f && DifferInWindow(f, g, 63)
  {
    hide ValidFrame, DifferInWindow, Flipped, Pattern, Word, Steps;
    WindowWords();
    WindowPatterns();
    FirstSteps();
    UnusedPatternIsAccepted(f, FIRST_CRC, FIRST_HEADER_CRC, maxPayload);
    FlipsOutsideWindow(f, Pattern(FIRST_CRC, FIRST_HEADER_CRC, Zeros(4), 0), 61);
    SecondSteps();
    UnusedPatternIsAccepted(f, SECOND_CRC, SECOND_HEADER_CRC, maxPayload);
    FlipsOutsideWindow(f, Pattern(SECOND_CRC, SECOND_HEADER_CRC, Zeros(4), 0), 63);
  }
}
