/** The ego-contract data frame: a packed 72-byte header followed by a payload, each covered by
    a CRC-32, and the functions that validate one frame and walk a stream of them. */
module ContractFrame {
  import opened Bytes
  import opened Crc32

  const FRAME_MAGIC: nat := 0x314F4745
  const HEADER_SIZE: nat := 72

  datatype EgoFrameHeader = EgoFrameHeader(
    magic: nat, protocolVer: nat, headerSize: nat, frameType: nat, flags: nat,
    sessionIdHi: nat, sessionIdLo: nat, seqNo: nat, t0Ns: nat, t1Ns: nat,
    payloadSize: nat, payloadCrc32: nat, headerCrc32: nat, reserved0: nat)

  /** The header read by `memcpy` from 72 bytes. */
  function HeaderOf(b: bytes): (h: EgoFrameHeader)
    requires |b| == HEADER_SIZE
  {
    EgoFrameHeader(
      FromLe(b[0..4]), FromLe(b[4..6]), FromLe(b[6..8]), FromLe(b[8..12]), FromLe(b[12..16]),
      FromLe(b[16..24]), FromLe(b[24..32]), FromLe(b[32..40]), FromLe(b[40..48]), FromLe(b[48..56]),
      FromLe(b[56..60]), FromLe(b[60..64]), FromLe(b[64..68]), FromLe(b[68..72]))
  }

  function HeaderStart(h: EgoFrameHeader): (r: bytes)
    ensures |r| == 32
  {
    Le(h.magic, 4) + Le(h.protocolVer, 2) + Le(h.headerSize, 2) + Le(h.frameType, 4) + Le(h.flags, 4)
    + Le(h.sessionIdHi, 8) + Le(h.sessionIdLo, 8)
  }

  function HeaderMiddle(h: EgoFrameHeader): (r: bytes)
    ensures |r| == 32
  {
    Le(h.seqNo, 8) + Le(h.t0Ns, 8) + Le(h.t1Ns, 8) + Le(h.payloadSize, 4) + Le(h.payloadCrc32, 4)
  }

  /** The 72 bytes of the packed struct. */
  function HeaderBytes(h: EgoFrameHeader): (r: bytes)
    ensures |r| == HEADER_SIZE
  {
    HeaderStart(h) + HeaderMiddle(h) + Le(h.headerCrc32, 4) + Le(h.reserved0, 4)
  }

  lemma HeaderStartBytes(b: bytes)
    requires |b| == HEADER_SIZE
    ensures HeaderStart(HeaderOf(b)) == b[..32]
  {
    hide FromLe, Le;
    LeOfFromLe(b[0..4]);
    LeOfFromLe(b[4..6]);
    LeOfFromLe(b[6..8]);
    LeOfFromLe(b[8..12]);
    LeOfFromLe(b[12..16]);
    LeOfFromLe(b[16..24]);
    LeOfFromLe(b[24..32]);
    assert b[0..4] + b[4..6] == b[..6];
    assert b[..6] + b[6..8] == b[..8];
    assert b[..8] + b[8..12] == b[..12];
    assert b[..12] + b[12..16] == b[..16];
    assert b[..16] + b[16..24] == b[..24];
    assert b[..24] + b[24..32] == b[..32];
  }

  lemma HeaderMiddleBytes(b: bytes)
    requires |b| == HEADER_SIZE
    ensures HeaderMiddle(HeaderOf(b)) == b[32..64]
  {
    hide FromLe, Le;
    LeOfFromLe(b[32..40]);
    LeOfFromLe(b[40..48]);
    LeOfFromLe(b[48..56]);
    LeOfFromLe(b[56..60]);
    LeOfFromLe(b[60..64]);
    assert b[32..40] + b[40..48] == b[32..48];
    assert b[32..48] + b[48..56] == b[32..56];
    assert b[32..56] + b[56..60] == b[32..60];
    assert b[32..60] + b[60..64] == b[32..64];
  }

  /** Reading a header and writing it back gives the same bytes. */
  lemma HeaderRoundTrip(b: bytes)
    requires |b| == HEADER_SIZE
    ensures HeaderBytes(HeaderOf(b)) == b
  {
    hide FromLe, Le, HeaderStart, HeaderMiddle;
    HeaderStartBytes(b);
    HeaderMiddleBytes(b);
    LeOfFromLe(b[64..68]);
    LeOfFromLe(b[68..72]);
    assert b == b[..32] + b[32..64] + b[64..68] + b[68..72];
  }

  /** The 72 header bytes with the stored header checksum set to zero. */
  function Blanked(b: bytes): (r: bytes)
    requires |b| == HEADER_SIZE
    ensures |r| == HEADER_SIZE
  {
    b[..64] + Zeros(4) + b[68..]
  }

  /** Zeroing the struct field zeroes exactly bytes 64 to 67. */
  lemma BlankedHeader(b: bytes)
    requires |b| == HEADER_SIZE
    ensures HeaderBytes(HeaderOf(b).(headerCrc32 := 0)) == Blanked(b)
  {
    hide FromLe, Le, HeaderStart, HeaderMiddle;
    HeaderStartBytes(b);
    HeaderMiddleBytes(b);
    BlankingKeepsTheRest(HeaderOf(b));
    LeOfZero(4);
    LeOfFromLe(b[68..72]);
    assert b[..64] == b[..32] + b[32..64];
    assert b[68..] == b[68..72];
  }

  lemma BlankingKeepsTheRest(h: EgoFrameHeader)
    ensures HeaderStart(h.(headerCrc32 := 0)) == HeaderStart(h)
    ensures HeaderMiddle(h.(headerCrc32 := 0)) == HeaderMiddle(h)
  {}

  // ---- Validating one frame ----

  datatype Verdict =
    | Accepted | TooShort | BadHeader | PayloadTooLarge | SizeMismatch | PayloadCrcMismatch | HeaderCrcMismatch

  predicate ShapeIsValid(frame: bytes, maxPayload: nat)
  {
    && |frame| >= HEADER_SIZE
    && var h := HeaderOf(frame[..HEADER_SIZE]);
    && h.magic == FRAME_MAGIC
    && h.headerSize == HEADER_SIZE
    && h.payloadSize <= maxPayload
    && |frame| == HEADER_SIZE + h.payloadSize
  }

  predicate PayloadCrcIsValid(frame: bytes)
    requires |frame| >= HEADER_SIZE
  {
    |frame| > HEADER_SIZE ==> CrcValue(frame[HEADER_SIZE..]) == HeaderOf(frame[..HEADER_SIZE]).payloadCrc32
  }

  predicate HeaderCrcIsValid(frame: bytes)
    requires |frame| >= HEADER_SIZE
  {
    CrcValue(Blanked(frame[..HEADER_SIZE])) == HeaderOf(frame[..HEADER_SIZE]).headerCrc32
  }

  /** What it means for a frame to be valid: shape, payload checksum, header checksum. */
  predicate ValidFrame(frame: bytes, maxPayload: nat)
  {
    ShapeIsValid(frame, maxPayload) && PayloadCrcIsValid(frame) && HeaderCrcIsValid(frame)
  }

  /** The accept decision of `ValidateContractFrame` and, on rejection, the first test that fails. */
  method ValidateContractFrame(frame: bytes, maxPayload: nat) returns (v: Verdict)
    ensures v == Accepted <==> ValidFrame(frame, maxPayload)
    ensures v == TooShort <==> |frame| < HEADER_SIZE
    ensures |frame| >= HEADER_SIZE ==>
              var h := HeaderOf(frame[..HEADER_SIZE]);
              && (v == BadHeader <==> h.magic != FRAME_MAGIC || h.headerSize != HEADER_SIZE)
              && (v == PayloadTooLarge <==> v != BadHeader && h.payloadSize > maxPayload)
              && (v == SizeMismatch <==>
                    v != BadHeader && v != PayloadTooLarge && |frame| != HEADER_SIZE + h.payloadSize)
              && (v == PayloadCrcMismatch <==> ShapeIsValid(frame, maxPayload) && !PayloadCrcIsValid(frame))
              && (v == HeaderCrcMismatch <==>
                    ShapeIsValid(frame, maxPayload) && PayloadCrcIsValid(frame) && !HeaderCrcIsValid(frame))
  {
    hide Crc, CrcValue, NatOfWord, HeaderBytes, Blanked, FromLe;
    if |frame| < HEADER_SIZE {
      return TooShort;
    }
    var header := HeaderOf(frame[..HEADER_SIZE]);
    if header.magic != FRAME_MAGIC || header.headerSize != HEADER_SIZE {
      return BadHeader;
    }
    if header.payloadSize > maxPayload {
      return PayloadTooLarge;
    }
    if |frame| != HEADER_SIZE + header.payloadSize {
      return SizeMismatch;
    }
    if header.payloadSize > 0 {
      var payload := frame[HEADER_SIZE..];
      var crc := MaskCrc32(payload);
      CrcNumber(payload);
      if NatOfWord(crc, 32) != header.payloadCrc32 {
        return PayloadCrcMismatch;
      }
    }
    var zeroed := header.(headerCrc32 := 0);
    var crc := MaskCrc32(HeaderBytes(zeroed));
    CrcNumber(HeaderBytes(zeroed));
    BlankedHeader(frame[..HEADER_SIZE]);
    if NatOfWord(crc, 32) != header.headerCrc32 {
      return HeaderCrcMismatch;
    }
    return Accepted;
  }

  lemma CrcNumber(data: bytes)
    ensures CrcValue(data) == NatOfWord(Crc(data), 32)
  {}

  lemma Pow2Of32()
    ensures Pow2(32) == TWO_32
  {
    assert Pow2(8) == 256;
    assert Pow2(16) == 65536;
    assert Pow2(24) == 16777216;
  }

  lemma CrcIsWord(data: bytes)
    ensures CrcValue(data) < TWO_32
  {
    hide *;
    CrcNumber(data);
    NatOfWordBound(Crc(data), 32);
    Pow2Of32();
  }

  /** The valid frames, byte by byte. */
  lemma ValidFrameBytes(f: bytes, maxPayload: nat)
    ensures ValidFrame(f, maxPayload) <==>
              && |f| >= 72 && FromLe(f[0..4]) == FRAME_MAGIC && FromLe(f[6..8]) == 72
              && FromLe(f[56..60]) == |f| - 72 <= maxPayload
              && (|f| > 72 ==> CrcValue(f[72..]) == FromLe(f[60..64]))
              && CrcValue(f[..64] + Zeros(4) + f[68..72]) == FromLe(f[64..68])
  {
    hide FromLe, CrcValue;
    if |f| >= 72 {
      var h := f[..72];
      assert h[0..4] == f[0..4] && h[6..8] == f[6..8] && h[56..60] == f[56..60];
      assert h[60..64] == f[60..64] && h[64..68] == f[64..68];
      assert h[..64] == f[..64] && h[68..] == f[68..72];
    }
  }

  // ---- Every header and payload can be made a valid frame ----

  ghost predicate FieldsFit(h: EgoFrameHeader)
  {
    && h.magic < TWO_32 && h.protocolVer < TWO_16 && h.headerSize < TWO_16 && h.frameType < TWO_32
    && h.flags < TWO_32 && h.sessionIdHi < TWO_64 && h.sessionIdLo < TWO_64 && h.seqNo < TWO_64
    && h.t0Ns < TWO_64 && h.t1Ns < TWO_64 && h.payloadSize < TWO_32 && h.payloadCrc32 < TWO_32
    && h.headerCrc32 < TWO_32 && h.reserved0 < TWO_32
  }

  lemma StartSlices(h: EgoFrameHeader)
    ensures var s := HeaderStart(h);
            && s[0..4] == Le(h.magic, 4) && s[4..6] == Le(h.protocolVer, 2) && s[6..8] == Le(h.headerSize, 2)
            && s[8..12] == Le(h.frameType, 4) && s[12..16] == Le(h.flags, 4)
            && s[16..24] == Le(h.sessionIdHi, 8) && s[24..32] == Le(h.sessionIdLo, 8)
  {
    hide Le;
  }

  lemma MiddleSlices(h: EgoFrameHeader)
    ensures var m := HeaderMiddle(h);
            && m[0..8] == Le(h.seqNo, 8) && m[8..16] == Le(h.t0Ns, 8) && m[16..24] == Le(h.t1Ns, 8)
            && m[24..28] == Le(h.payloadSize, 4) && m[28..32] == Le(h.payloadCrc32, 4)
  {
    hide Le;
  }

  lemma SliceInside(x: bytes, m: bytes, y: bytes, i: nat, j: nat)
    requires i <= j <= |m|
    ensures (x + m + y)[|x| + i..|x| + j] == m[i..j]
  {}

  lemma StartReadsBack(h: EgoFrameHeader, rest: bytes)
    requires FieldsFit(h) && |rest| == 40
    ensures var r := HeaderOf(HeaderStart(h) + rest);
            && r.magic == h.magic && r.protocolVer == h.protocolVer && r.headerSize == h.headerSize
            && r.frameType == h.frameType && r.flags == h.flags
            && r.sessionIdHi == h.sessionIdHi && r.sessionIdLo == h.sessionIdLo
  {
    hide Le, FromLe, Pow256, HeaderStart;
    var s := HeaderStart(h);
    PowersOf256();
    StartSlices(h);
    assert [] + s + rest == s + rest;
    SliceInside([], s, rest, 0, 4);
    SliceInside([], s, rest, 4, 6);
    SliceInside([], s, rest, 6, 8);
    SliceInside([], s, rest, 8, 12);
    SliceInside([], s, rest, 12, 16);
    SliceInside([], s, rest, 16, 24);
    SliceInside([], s, rest, 24, 32);
    FromLeOfLe(h.magic, 4);
    FromLeOfLe(h.protocolVer, 2);
    FromLeOfLe(h.headerSize, 2);
    FromLeOfLe(h.frameType, 4);
    FromLeOfLe(h.flags, 4);
    FromLeOfLe(h.sessionIdHi, 8);
    FromLeOfLe(h.sessionIdLo, 8);
  }

  lemma MiddleReadsBack(h: EgoFrameHeader, start: bytes, rest: bytes)
    requires FieldsFit(h) && |start| == 32 && |rest| == 8
    ensures var r := HeaderOf(start + HeaderMiddle(h) + rest);
            && r.seqNo == h.seqNo && r.t0Ns == h.t0Ns && r.t1Ns == h.t1Ns
            && r.payloadSize == h.payloadSize && r.payloadCrc32 == h.payloadCrc32
  {
    hide Le, FromLe, Pow256, HeaderMiddle;
    var m := HeaderMiddle(h);
    PowersOf256();
    MiddleSlices(h);
    SliceInside(start, m, rest, 0, 8);
    SliceInside(start, m, rest, 8, 16);
    SliceInside(start, m, rest, 16, 24);
    SliceInside(start, m, rest, 24, 28);
    SliceInside(start, m, rest, 28, 32);
    FromLeOfLe(h.seqNo, 8);
    FromLeOfLe(h.t0Ns, 8);
    FromLeOfLe(h.t1Ns, 8);
    FromLeOfLe(h.payloadSize, 4);
    FromLeOfLe(h.payloadCrc32, 4);
  }

  /** Writing a header whose fields fit and reading it gives the same header. */
  lemma HeaderReadsBack(h: EgoFrameHeader)
    requires FieldsFit(h)
    ensures HeaderOf(HeaderBytes(h)) == h
  {
    hide Le, FromLe, Pow256, HeaderStart, HeaderMiddle;
    var s, m, c, r := HeaderStart(h), HeaderMiddle(h), Le(h.headerCrc32, 4), Le(h.reserved0, 4);
    assert s + m + c + r == s + (m + c + r) && s + m + c + r == s + m + (c + r);
    StartReadsBack(h, m + c + r);
    MiddleReadsBack(h, s, c + r);
    var b := HeaderBytes(h);
    assert b[64..68] == c && b[68..72] == r;
    PowersOf256();
    FromLeOfLe(h.headerCrc32, 4);
    FromLeOfLe(h.reserved0, 4);
  }

  /** The header with the fields a frame of this payload needs, but no header checksum yet. */
  function Unsealed(h: EgoFrameHeader, payload: bytes): EgoFrameHeader
  {
    h.(magic := FRAME_MAGIC, headerSize := HEADER_SIZE, payloadSize := |payload|,
       payloadCrc32 := CrcValue(payload), headerCrc32 := 0)
  }

  function Sealed(h: EgoFrameHeader, payload: bytes): EgoFrameHeader
  {
    var u := Unsealed(h, payload);
    u.(headerCrc32 := CrcValue(HeaderBytes(u)))
  }

  /** The sender's frame: sizes and both checksums filled in. It is valid exactly when the payload
      is within the receiver's limit, and its header is read back. */
  lemma SealedFrameIsValid(h: EgoFrameHeader, payload: bytes, maxPayload: nat)
    requires FieldsFit(h) && |payload| < TWO_32
    ensures var f := HeaderBytes(Sealed(h, payload)) + payload;
            && HeaderOf(f[..HEADER_SIZE]) == Sealed(h, payload) && f[HEADER_SIZE..] == payload
            && (ValidFrame(f, maxPayload) <==> |payload| <= maxPayload)
  {
    hide HeaderOf, HeaderBytes, CrcValue, Blanked;
    var s := Sealed(h, payload);
    CrcIsWord(payload);
    CrcIsWord(HeaderBytes(Unsealed(h, payload)));
    assert s.(headerCrc32 := 0) == Unsealed(h, payload);
    HeaderReadsBack(s);
    BlankedHeader(HeaderBytes(s));
    var f := HeaderBytes(s) + payload;
    assert f[..HEADER_SIZE] == HeaderBytes(s) && f[HEADER_SIZE..] == payload;
  }

  // ---- Which transmission errors are always rejected ----

  lemma CrcValuesDiffer(a: bytes, b: bytes, k: nat)
    requires |a| == |b| && MessageBits(a) != MessageBits(b)
    requires forall i :: 0 <= i < 8 * |a| && !(k <= i < k + 32) ==> MessageBits(a)[i] == MessageBits(b)[i]
    ensures CrcValue(a) != CrcValue(b)
  {
    hide Crc, NatOfWord, MessageBits;
    CrcDetectsBurst(a, b, k);
    if CrcValue(a) == CrcValue(b) {
      NatOfWordIsInjective(Crc(a), Crc(b));
    }
  }

  /** f and g agree on every bit outside the 32 bits from k on. */
  ghost predicate DifferOnlyInBurst(f: bytes, g: bytes, k: nat)
  {
    |f| == |g| && forall i :: 0 <= i < 8 * |f| && !(k <= i < k + 32) ==> MessageBits(f)[i] == MessageBits(g)[i]
  }

  lemma BitsOfSameBytes(a: bytes, b: bytes, i: nat, j: nat, n: nat)
    requires i < |a| && j < |b| && a[i] == b[j] && n < 8
    ensures MessageBits(a)[8 * i + n] == MessageBits(b)[8 * j + n]
  {
    hide *;
    MessageBitAt(a, i, n);
    MessageBitAt(b, j, n);
  }

  lemma ShiftedBits(f: bytes, a: bytes, lo: nat, i: nat)
    requires lo + |a| <= |f| && i < 8 * |a|
    requires forall k :: 0 <= k < |a| ==> a[k] == f[lo + k]
    ensures MessageBits(a)[i] == MessageBits(f)[8 * lo + i]
  {
    hide *;
    BitsOfSameBytes(a, f, i / 8, lo + i / 8, i % 8);
  }

  lemma SliceBits(f: bytes, lo: nat, hi: nat, i: nat)
    requires lo <= hi <= |f| && i < 8 * (hi - lo)
    ensures MessageBits(f[lo..hi])[i] == MessageBits(f)[8 * lo + i]
  {
    hide *;
    ShiftedBits(f, f[lo..hi], lo, i);
  }

  lemma BurstInSlice(f: bytes, g: bytes, k: nat, lo: nat, hi: nat)
    requires DifferOnlyInBurst(f, g, k) && lo <= hi <= |f|
    requires f[lo..hi] != g[lo..hi]
    ensures CrcValue(f[lo..hi]) != CrcValue(g[lo..hi])
  {
    hide MessageBits, CrcValue;
    var a, b := f[lo..hi], g[lo..hi];
    var d :| 0 <= d < |a| && a[d] != b[d];
    MessageBitsDiffer(a, b, d);
    var start := if k < 8 * lo then 0 else k - 8 * lo;
    forall i | 0 <= i < 8 * |a| && !(start <= i < start + 32)
      ensures MessageBits(a)[i] == MessageBits(b)[i]
    {
      SliceBits(f, lo, hi, i);
      SliceBits(g, lo, hi, i);
    }
    CrcValuesDiffer(a, b, start);
  }

  lemma BlankedBits(b: bytes, i: nat)
    requires |b| == HEADER_SIZE && i < 8 * HEADER_SIZE
    ensures 64 <= i / 8 < 68 ==> MessageBits(Blanked(b))[i] == ByteBits(0)[i % 8]
    ensures !(64 <= i / 8 < 68) ==> MessageBits(Blanked(b))[i] == MessageBits(b)[i]
  {
    hide MessageBits, ByteBits;
    MessageBitAt(Blanked(b), i / 8, i % 8);
    MessageBitAt(b, i / 8, i % 8);
  }

  lemma BurstInHeader(f: bytes, g: bytes, k: nat)
    requires |f| == |g| == HEADER_SIZE && DifferOnlyInBurst(f, g, k)
    requires Blanked(f) != Blanked(g)
    ensures CrcValue(Blanked(f)) != CrcValue(Blanked(g))
  {
    hide MessageBits, ByteBits, CrcValue, Blanked;
    var a, b := Blanked(f), Blanked(g);
    var d :| 0 <= d < |a| && a[d] != b[d];
    MessageBitsDiffer(a, b, d);
    forall i | 0 <= i < 8 * |a| && !(k <= i < k + 32)
      ensures MessageBits(a)[i] == MessageBits(b)[i]
    {
      BlankedBits(f, i);
      BlankedBits(g, i);
    }
    CrcValuesDiffer(a, b, k);
  }

  lemma HeaderBurst(f: bytes, g: bytes, k: nat)
    requires |f| >= HEADER_SIZE && DifferOnlyInBurst(f, g, k)
    ensures DifferOnlyInBurst(f[..HEADER_SIZE], g[..HEADER_SIZE], k)
  {
    hide MessageBits;
    forall i | 0 <= i < 8 * HEADER_SIZE && !(k <= i < k + 32)
      ensures MessageBits(f[..HEADER_SIZE])[i] == MessageBits(g[..HEADER_SIZE])[i]
    {
      SliceBits(f, 0, HEADER_SIZE, i);
      SliceBits(g, 0, HEADER_SIZE, i);
    }
  }

  /** A valid frame hit by any error burst of at most 32 bits that leaves the stored header
      checksum alone is rejected, whatever its length and whatever fields the burst hits. */
  lemma BurstIsRejected(f: bytes, g: bytes, k: nat, maxPayload: nat, maxPayload': nat)
    requires ValidFrame(f, maxPayload) && f != g && DifferOnlyInBurst(f, g, k)
    requires f[64..68] == g[64..68]
    ensures !ValidFrame(g, maxPayload')
  {
    hide DifferOnlyInBurst, FromLe, CrcValue;
    assert |f| == |g| by { BurstKeepsLength(f, g, k); }
    var hf, hg := f[..HEADER_SIZE], g[..HEADER_SIZE];
    assert hf[64..68] == f[64..68] && hg[64..68] == g[64..68];
    HeaderBurst(f, g, k);
    if Blanked(hf) != Blanked(hg) {
      BurstInHeader(hf, hg, k);
    } else {
      SameHeader(hf, hg);
      assert f == hf + f[HEADER_SIZE..] && g == hg + g[HEADER_SIZE..];
      assert f[HEADER_SIZE..|f|] == f[HEADER_SIZE..] && g[HEADER_SIZE..|f|] == g[HEADER_SIZE..];
      BurstInSlice(f, g, k, HEADER_SIZE, |f|);
    }
  }

  lemma BurstKeepsLength(f: bytes, g: bytes, k: nat)
    requires DifferOnlyInBurst(f, g, k)
    ensures |f| == |g|
  {}

  lemma SameHeader(a: bytes, b: bytes)
    requires |a| == |b| == HEADER_SIZE && Blanked(a) == Blanked(b) && a[64..68] == b[64..68]
    ensures a == b
  {
    var x, y := Blanked(a), Blanked(b);
    assert a[..64] == x[..64] && b[..64] == y[..64];
    assert a[68..] == x[68..] && b[68..] == y[68..];
    assert a == a[..64] + a[64..68] + a[68..] && b == b[..64] + b[64..68] + b[68..];
  }

  /** The byte form: any change inside four consecutive bytes outside bytes 64 to 67. */
  lemma WindowElsewhereIsRejected(f: bytes, g: bytes, k: nat, maxPayload: nat, maxPayload': nat)
    requires ValidFrame(f, maxPayload) && |f| == |g| && f != g
    requires k + 4 <= 64 || 68 <= k
    requires forall i :: 0 <= i < |f| && !(k <= i < k + 4) ==> f[i] == g[i]
    ensures !ValidFrame(g, maxPayload')
  {
    hide MessageBits, ByteBits, ValidFrame;
    forall i | 0 <= i < 8 * |f| && !(8 * k <= i < 8 * k + 32)
      ensures MessageBits(f)[i] == MessageBits(g)[i]
    {
      MessageBitAt(f, i / 8, i % 8);
      MessageBitAt(g, i / 8, i % 8);
    }
    ValidFrameIsLong(f, maxPayload);
    BurstIsRejected(f, g, 8 * k, maxPayload, maxPayload');
  }

  lemma ValidFrameIsLong(f: bytes, maxPayload: nat)
    requires ValidFrame(f, maxPayload)
    ensures |f| >= HEADER_SIZE
  {}

  /** A change confined to the stored header checksum is rejected too. */
  lemma StoredCrcChangeIsRejected(f: bytes, g: bytes, maxPayload: nat, maxPayload': nat)
    requires ValidFrame(f, maxPayload) && |f| == |g| && f[64..68] != g[64..68]
    requires f[..64] == g[..64] && f[68..] == g[68..]
    ensures !ValidFrame(g, maxPayload')
  {
    hide CrcValue, FromLe;
    var hf, hg := f[..HEADER_SIZE], g[..HEADER_SIZE];
    assert hf[..64] == f[..64] && hg[..64] == g[..64];
    assert hf[68..] == f[68..][..4] && hg[68..] == g[68..][..4];
    assert Blanked(hf) == Blanked(hg);
    assert hf[64..68] == f[64..68] && hg[64..68] == g[64..68];
    LeOfFromLe(f[64..68]);
    LeOfFromLe(g[64..68]);
  }

  // ---- Walking a stream of frames ----

  datatype ParseResult =
    | EndOfData
    | TruncatedHeader
    | BadMagicOrSize
    | TooLarge
    | TruncatedPayload
    | Frame(frame: bytes)

  /** The frame at the front of the unread bytes d. */
  function ParseHead(d: bytes, maxPayload: nat): ParseResult
  {
    if |d| < HEADER_SIZE then
      if d == [] then EndOfData else TruncatedHeader
    else
      var h := HeaderOf(d[..HEADER_SIZE]);
      if h.magic != FRAME_MAGIC || h.headerSize != HEADER_SIZE then BadMagicOrSize
      else if h.payloadSize > maxPayload then TooLarge
      else if |d| < HEADER_SIZE + h.payloadSize then TruncatedPayload
      else Frame(d[..HEADER_SIZE + h.payloadSize])
  }

  /** When there is a frame at the front, byte by byte, and why there is none. */
  lemma ParseHeadBytes(d: bytes, maxPayload: nat)
    ensures var r := ParseHead(d, maxPayload);
            && (r == EndOfData <==> d == []) && (r == TruncatedHeader <==> 0 < |d| < 72)
            && (|d| >= 72 ==>
                  var n := FromLe(d[56..60]);
                  && (r == BadMagicOrSize <==> FromLe(d[0..4]) != FRAME_MAGIC || FromLe(d[6..8]) != 72)
                  && (r == TooLarge <==> r != BadMagicOrSize && n > maxPayload)
                  && (r == TruncatedPayload <==> r != BadMagicOrSize && n <= maxPayload && |d| < 72 + n)
                  && (r.Frame? <==> r != BadMagicOrSize && n <= maxPayload && 72 + n <= |d|)
                  && (r.Frame? ==> r.frame == d[..72 + n]))
  {
    hide FromLe;
    if |d| >= 72 {
      var h := d[..72];
      assert h[0..4] == d[0..4] && h[6..8] == d[6..8] && h[56..60] == d[56..60];
    }
  }

  method ParseFrameAt(data: bytes, offset: nat, maxPayload: nat) returns (r: ParseResult, next: nat)
    requires offset <= |data|
    ensures r == ParseHead(data[offset..], maxPayload)
    ensures next == if r.Frame? then offset + |r.frame| else offset
    ensures r.Frame? ==> |r.frame| >= HEADER_SIZE && next <= |data| && r.frame == data[offset..next]
  {
    hide FromLe;
    next := offset;
    if offset + HEADER_SIZE > |data| {
      r := if offset == |data| then EndOfData else TruncatedHeader;
      return;
    }
    assert data[offset..][..HEADER_SIZE] == data[offset..offset + HEADER_SIZE];
    var header := HeaderOf(data[offset..offset + HEADER_SIZE]);
    if header.magic != FRAME_MAGIC || header.headerSize != HEADER_SIZE {
      return BadMagicOrSize, offset;
    }
    if header.payloadSize > maxPayload {
      return TooLarge, offset;
    }
    var frameSize := HEADER_SIZE + header.payloadSize;
    if offset + frameSize > |data| {
      return TruncatedPayload, offset;
    }
    assert data[offset..][..frameSize] == data[offset..offset + frameSize];
    r, next := Frame(data[offset..offset + frameSize]), offset + frameSize;
  }

  /** The frames handed to the callback and the returned verdict. */
  datatype Walk = Walk(handed: seq<bytes>, ok: bool)

  function WalkFrames(d: bytes, maxPayload: nat, accept: bytes -> bool): Walk
    decreases |d|
  {
    if d == [] then Walk([], true)
    else
      match ParseHead(d, maxPayload)
      case Frame(f) =>
        if !ValidFrame(f, maxPayload) then Walk([], false)
        else if !accept(f) then Walk([f], false)
        else var rest := WalkFrames(d[|f|..], maxPayload, accept); Walk([f] + rest.handed, rest.ok)
      case _ => Walk([], false)
  }

  /** The walk after the frames in done, continued on the unread bytes d. */
  function Resume(done: seq<bytes>, d: bytes, maxPayload: nat, accept: bytes -> bool): Walk
  {
    var rest := WalkFrames(d, maxPayload, accept);
    Walk(done + rest.handed, rest.ok)
  }

  lemma ResumeStep(done: seq<bytes>, d: bytes, maxPayload: nat, accept: bytes -> bool)
    requires d != []
    ensures var r := ParseHead(d, maxPayload);
            Resume(done, d, maxPayload, accept) ==
              if !r.Frame? || !ValidFrame(r.frame, maxPayload) then Walk(done, false)
              else if !accept(r.frame) then Walk(done + [r.frame], false)
              else Resume(done + [r.frame], d[|r.frame|..], maxPayload, accept)
  {
    hide ValidFrame, HeaderOf;
    var r := ParseHead(d, maxPayload);
    assert done + [] == done;
    if r.Frame? {
      var rest := WalkFrames(d[|r.frame|..], maxPayload, accept);
      assert done + ([r.frame] + rest.handed) == done + [r.frame] + rest.handed;
    }
  }

  method ForEachContractFrame(data: bytes, maxPayload: nat, accept: bytes -> bool)
      returns (handed: seq<bytes>, ok: bool)
    ensures Walk(handed, ok) == WalkFrames(data, maxPayload, accept)
  {
    hide ValidFrame, ParseHead, WalkFrames;
    var offset := 0;
    handed := [];
    ghost var whole := WalkFrames(data, maxPayload, accept);
    assert data[0..] == data && [] + whole.handed == whole.handed;
    while offset < |data|
      invariant offset <= |data|
      invariant Resume(handed, data[offset..], maxPayload, accept) == whole
      decreases |data| - offset
    {
      ResumeStep(handed, data[offset..], maxPayload, accept);
      var r, next := ParseFrameAt(data, offset, maxPayload);
      if !r.Frame? {
        return handed, offset == |data|;
      }
      var v := ValidateContractFrame(r.frame, maxPayload);
      if v != Accepted {
        return handed, false;
      }
      handed := handed + [r.frame];
      if !accept(r.frame) {
        return handed, false;
      }
      assert data[offset..][|r.frame|..] == data[next..];
      offset := next;
    }
    assert data[offset..] == [];
    WalkOfNothing(maxPayload, accept);
    assert handed + [] == handed;
    ok := true;
  }

  lemma WalkOfNothing(maxPayload: nat, accept: bytes -> bool)
    ensures WalkFrames([], maxPayload, accept) == Walk([], true)
  {}

  method CountContractFramesInBytes(data: bytes, maxPayload: nat) returns (count: nat)
    ensures count == |WalkFrames(data, maxPayload, f => true).handed|
  {
    var handed, _ := ForEachContractFrame(data, maxPayload, f => true);
    count := |handed|;
  }

  function Concat(frames: seq<bytes>): bytes
  {
    if frames == [] then [] else frames[0] + Concat(frames[1..])
  }

  /** How many leading frames lie wholly in the first n bytes. */
  function WholeFrames(frames: seq<bytes>, n: nat): (k: nat)
    ensures k <= |frames|
  {
    if frames == [] || n < |frames[0]| then 0 else 1 + WholeFrames(frames[1..], n - |frames[0]|)
  }

  ghost predicate AllValid(frames: seq<bytes>, maxPayload: nat)
  {
    forall f :: f in frames ==> ValidFrame(f, maxPayload)
  }

  /** WholeFrames is the largest k whose k frames take at most n bytes. */
  lemma {:induction false} WholeFramesIsLargest(frames: seq<bytes>, n: nat)
    ensures var k := WholeFrames(frames, n);
            |Concat(frames[..k])| <= n && (k < |frames| ==> n < |Concat(frames[..k + 1])|)
  {
    if frames == [] {
    } else if |frames[0]| > n {
      assert frames[..1][1..] == [];
    } else {
      var rest := frames[1..];
      WholeFramesIsLargest(rest, n - |frames[0]|);
      var k := WholeFrames(rest, n - |frames[0]|);
      assert frames[..k + 1][1..] == rest[..k];
      if k < |rest| {
        assert frames[..k + 2][1..] == rest[..k + 1];
      }
    }
  }

  lemma ParseValidHead(f: bytes, rest: bytes, maxPayload: nat)
    requires ValidFrame(f, maxPayload)
    ensures ParseHead(f + rest, maxPayload) == Frame(f)
  {
    hide FromLe, CrcValue;
    assert (f + rest)[..HEADER_SIZE] == f[..HEADER_SIZE];
    assert (f + rest)[..|f|] == f;
  }

  lemma ParseCutHead(f: bytes, n: nat, maxPayload: nat)
    requires ValidFrame(f, maxPayload) && 0 < n < |f|
    ensures ParseHead(f[..n], maxPayload) == if n < HEADER_SIZE then TruncatedHeader else TruncatedPayload
  {
    hide FromLe, CrcValue;
    if n >= HEADER_SIZE {
      assert f[..n][..HEADER_SIZE] == f[..HEADER_SIZE];
    }
  }

  /** A chunk of valid frames cut at any byte: exactly the whole frames before the cut are handed
      over, and the walk reports success exactly when the cut falls on a frame boundary. */
  lemma {:induction false} CutStream(frames: seq<bytes>, n: nat, maxPayload: nat, accept: bytes -> bool)
    requires AllValid(frames, maxPayload) && n <= |Concat(frames)|
    requires forall f :: f in frames ==> accept(f)
    ensures var k := WholeFrames(frames, n); var w := WalkFrames(Concat(frames)[..n], maxPayload, accept);
            w.handed == frames[..k] && (w.ok <==> n == |Concat(frames[..k])|)
    decreases |frames|
  {
    hide ValidFrame, ParseHead;
    var d := Concat(frames)[..n];
    if frames == [] || n == 0 {
      assert d == [];
      assert n == 0 && frames != [] ==> |frames[0]| > 0 by {
        if n == 0 && frames != [] {
          ValidFrameIsLong(frames[0], maxPayload);
        }
      }
    } else if n < |frames[0]| {
      assert d == frames[0][..n];
      ParseCutHead(frames[0], n, maxPayload);
    } else {
      var f, rest := frames[0], frames[1..];
      ValidFrameIsLong(f, maxPayload);
      var d' := Concat(rest)[..n - |f|];
      assert d == f + d';
      ParseValidHead(f, d', maxPayload);
      assert d[|f|..] == d';
      CutStream(rest, n - |f|, maxPayload, accept);
      var k := WholeFrames(rest, n - |f|);
      assert frames[..k + 1] == [f] + rest[..k];
      assert frames[..k + 1][1..] == rest[..k];
    }
  }

  /** An uncut stream of valid frames is walked completely. */
  lemma WholeStream(frames: seq<bytes>, maxPayload: nat, accept: bytes -> bool)
    requires AllValid(frames, maxPayload)
    requires forall f :: f in frames ==> accept(f)
    ensures WalkFrames(Concat(frames), maxPayload, accept) == Walk(frames, true)
  {
    hide AllValid, WalkFrames;
    var n := |Concat(frames)|;
    CutStream(frames, n, maxPayload, accept);
    WholeFramesOfAll(frames);
    assert Concat(frames)[..n] == Concat(frames);
    assert frames[..|frames|] == frames;
  }

  lemma {:induction false} WholeFramesOfAll(frames: seq<bytes>)
    ensures WholeFrames(frames, |Concat(frames)|) == |frames|
  {
    if frames == [] {
    } else {
      WholeFramesOfAll(frames[1..]);
    }
  }

  lemma {:induction false} ConcatOfSnoc(frames: seq<bytes>, f: bytes)
    ensures Concat(frames + [f]) == Concat(frames) + f
  {
    if frames == [] {
      assert Concat([f]) == f + Concat([f][1..]);
    } else {
      ConcatOfSnoc(frames[1..], f);
      assert (frames + [f])[1..] == frames[1..] + [f];
    }
  }
}
