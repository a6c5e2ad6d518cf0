/** Sequence numbers: the transport guard orders 32-bit numbers by signed difference across
    wrap-arounds; the contract tracker orders 64-bit numbers directly. */
module Sequencing {
  import opened Bytes
  import opened Crc32
  import opened Wrappers
  import opened LegacyPacket

  // ---- The transport guard ----

  datatype Counters = Counters(accepted: nat, rejected: nat, outOfOrder: nat, seqGaps: nat, packetsLost: nat,
      wraparounds: nat)

  datatype RejectReason =
    | Accepted | ParseError | InvalidMagicReason | InvalidVersion | BadLength | BadChecksum | OutOfOrder
    | UnknownTypeReason

  datatype Guard = Guard(seen: bool, lastSeq: uint32, counters: Counters)

  const NEW_GUARD: Guard := Guard(false, 0, Counters(0, 0, 0, 0, 0, 0))

  /** The unsigned 32-bit difference, reinterpreted as signed. */
  function SignedDiff(seq1: uint32, last: uint32): (d: int)
    ensures -0x8000_0000 <= d < 0x8000_0000
  {
    var u := (seq1 - last) % 0x1_0000_0000;
    if u < 0x8000_0000 then u else u - 0x1_0000_0000
  }

  function ReasonOf(v: Validation): RejectReason
  {
    match v
    case Valid => Accepted
    case InvalidMagic => InvalidMagicReason
    case BadProtocolVersion => InvalidVersion
    case BadPayloadVersion => InvalidVersion
    case UnknownType => UnknownTypeReason
    case SizeExceeded => BadLength
    case SizeMismatch => BadLength
    case ChecksumMismatch => BadChecksum
  }

  function Reject(g: Guard): Guard
  {
    g.(counters := g.counters.(rejected := g.counters.rejected + 1))
  }

  /** The guard after a packet that validated with this sequence number. */
  function Sequenced(g: Guard, seq1: uint32): Guard
  {
    var c := g.counters;
    if !g.seen then Guard(true, seq1, c.(accepted := c.accepted + 1))
    else
      var d := SignedDiff(seq1, g.lastSeq);
      if d <= 0 then Reject(g.(counters := c.(outOfOrder := c.outOfOrder + 1)))
      else
        Guard(true, seq1,
              c.(accepted := c.accepted + 1,
                 wraparounds := c.wraparounds + (if seq1 < g.lastSeq then 1 else 0),
                 seqGaps := c.seqGaps + (if d > 1 then 1 else 0),
                 packetsLost := c.packetsLost + (d - 1)))
  }

  function Guarded(g: Guard, b: bytes, maxPayload: nat): Guard
  {
    match DeserializePacket(b)
    case None => Reject(g)
    case Some(p) =>
      if ValidatePacketVerbose(p.header, p.payload, maxPayload) == Validation.Valid then Sequenced(g, p.header.seqNo)
      else Reject(g)
  }

  function RunGuard(packets: seq<bytes>, maxPayload: nat): Guard
  {
    if packets == [] then NEW_GUARD else Guarded(RunGuard(packets[..|packets| - 1], maxPayload),
        packets[|packets| - 1], maxPayload)
  }

  /** The sequence numbers of the valid packets, in order. */
  function SeqsOf(packets: seq<bytes>, maxPayload: nat): seq<uint32>
  {
    if packets == [] then []
    else
      var n := |packets| - 1;
      SeqsOf(packets[..n], maxPayload)
      + if ValidPacket(packets[n], maxPayload) then [DeserializePacket(packets[n]).value.header.seqNo] else []
  }

  class TransportGuard {
    const maxPayload: nat
    var lastSeq: uint32
    var seenFirst: bool
    var counters: Counters

    ghost function Now(): Guard
      reads this
    {
      Guard(seenFirst, lastSeq, counters)
    }

    constructor (maxPayload: nat)
      ensures Now() == NEW_GUARD && this.maxPayload == maxPayload
    {
      this.maxPayload := maxPayload;
      lastSeq, seenFirst, counters := 0, false, Counters(0, 0, 0, 0, 0, 0);
    }

    method ValidateDetailed(packetBytes: bytes) returns (reason: RejectReason)
      modifies this
      ensures Now() == Guarded(old(Now()), packetBytes, maxPayload)
      ensures reason == Accepted <==> counters.accepted == old(counters.accepted) + 1
      ensures reason == OutOfOrder <==> counters.outOfOrder == old(counters.outOfOrder) + 1
      ensures reason == ParseError <==> DeserializePacket(packetBytes) == None
      ensures reason != ParseError ==>
                var p := DeserializePacket(packetBytes).value;
                var v := ValidatePacketVerbose(p.header, p.payload, maxPayload);
                v != Validation.Valid ==> reason == ReasonOf(v)
    {
      hide DeserializePacket, SignedDiff, ValidatePacketVerbose;
      var packet := DeserializePacket(packetBytes);
      if packet == None {
        counters := counters.(rejected := counters.rejected + 1);
        return ParseError;
      }
      var header := packet.value.header;
      var validation := ValidatePacketVerbose(header, packet.value.payload, maxPayload);
      if validation != Validation.Valid {
        counters := counters.(rejected := counters.rejected + 1);
        return ReasonOf(validation);
      }
      if seenFirst {
        var diff := SignedDiff(header.seqNo, lastSeq);
        if diff <= 0 {
          counters := counters.(rejected := counters.rejected + 1);
          counters := counters.(outOfOrder := counters.outOfOrder + 1);
          return OutOfOrder;
        }
        if header.seqNo < lastSeq {
          counters := counters.(wraparounds := counters.wraparounds + 1);
        }
        if diff > 1 {
          counters := counters.(seqGaps := counters.seqGaps + 1);
          counters := counters.(packetsLost := counters.packetsLost + (diff - 1));
        }
      }
      lastSeq := header.seqNo;
      seenFirst := true;
      counters := counters.(accepted := counters.accepted + 1);
      return Accepted;
    }
  }

  /** The last accepted number with the wrap-arounds counted in. */
  function Extended(g: Guard): nat
  {
    g.counters.wraparounds * TWO_32 + g.lastSeq
  }

  /** What holds of the guard after packets whose valid ones carry these numbers. */
  ghost predicate Consistent(g: Guard, seqs: seq<uint32>, calls: nat)
  {
    && g.counters.accepted + g.counters.rejected == calls
    && g.counters.outOfOrder <= g.counters.rejected
    && g.counters.seqGaps <= g.counters.packetsLost
    && (g.seen <==> seqs != [])
    && (!g.seen ==> g.counters == Counters(0, calls, 0, 0, 0, 0))
    && (g.seen ==>
          && g.counters.accepted >= 1
          && |seqs| == g.counters.accepted + g.counters.outOfOrder
          && Extended(g) == seqs[0] + (g.counters.accepted - 1) + g.counters.packetsLost)
  }

  lemma AcceptedStep(g: Guard, seq1: uint32)
    requires g.seen && SignedDiff(seq1, g.lastSeq) > 0
    ensures Extended(Sequenced(g, seq1)) == Extended(g) + SignedDiff(seq1, g.lastSeq)
  {
    if seq1 < g.lastSeq {
      assert (seq1 - g.lastSeq) % 0x1_0000_0000 == seq1 - g.lastSeq + 0x1_0000_0000;
    }
  }

  /** Over any run, across any number of 32-bit wrap-arounds: the last accepted number, unwrapped,
      is the first one plus the accepted packets after it plus those counted as lost. */
  lemma {:induction false} GuardCountsEveryNumber(packets: seq<bytes>, maxPayload: nat)
    ensures Consistent(RunGuard(packets, maxPayload), SeqsOf(packets, maxPayload), |packets|)
  {
    hide DeserializePacket, ValidatePacketVerbose, SignedDiff;
    if packets == [] {
    } else {
      var n := |packets| - 1;
      GuardCountsEveryNumber(packets[..n], maxPayload);
      var g := RunGuard(packets[..n], maxPayload);
      if ValidPacket(packets[n], maxPayload) && g.seen {
        var s := DeserializePacket(packets[n]).value.header.seqNo;
        if SignedDiff(s, g.lastSeq) > 0 {
          AcceptedStep(g, s);
        }
      }
    }
  }

  /** A number is accepted when it lies less than half the range ahead of the last, modulo 2^32; the numbers
      jumped over are lost. */
  lemma SequencedStep(g: Guard, n: uint32)
    ensures var t, c, ahead := Sequenced(g, n), g.counters, (n + TWO_32 - g.lastSeq) % TWO_32;
            if !g.seen then t == Guard(true, n, c.(accepted := c.accepted + 1))
            else if 0 < ahead < 0x8000_0000 then
              t == Guard(true, n, Counters(c.accepted + 1, c.rejected, c.outOfOrder,
                                           c.seqGaps + (if ahead == 1 then 0 else 1), c.packetsLost + ahead - 1,
                                           c.wraparounds + (if n < g.lastSeq then 1 else 0)))
            else t == g.(counters := c.(rejected := c.rejected + 1, outOfOrder := c.outOfOrder + 1))
  {
    AheadIsDiff(n, g.lastSeq);
    hide SignedDiff;
  }

  lemma AheadIsDiff(n: uint32, last: uint32)
    ensures var ahead := (n + TWO_32 - last) % TWO_32;
            SignedDiff(n, last) == if ahead < 0x8000_0000 then ahead else ahead - TWO_32
  {}

  /** One packet, by its bytes: an invalid one is only rejected, of a valid one bytes 22 to 25 count. */
  lemma GuardStep(packets: seq<bytes>, b: bytes, maxPayload: nat)
    ensures ValidPacket(b, maxPayload) ==> |b| >= 34
    ensures var g, t := RunGuard(packets, maxPayload), RunGuard(packets + [b], maxPayload);
            if ValidPacket(b, maxPayload) then t == Sequenced(g, U32(b[22..26]))
            else t == g.(counters := g.counters.(rejected := g.counters.rejected + 1))
  {
    hide U16, U32, CrcValue, ValidatePacketVerbose, Sequenced;
    assert (packets + [b])[..|packets|] == packets;
  }

  /** The reasons, by the bytes of the packet. */
  lemma ReasonsOfBytes(b: bytes, maxPayload: nat)
    requires DeserializePacket(b).Some?
    ensures |b| >= 34
    ensures var p := DeserializePacket(b).value;
            var r := ReasonOf(ValidatePacketVerbose(p.header, p.payload, maxPayload));
            var magic, version := FromLe(b[0..4]) == PACKET_MAGIC, FromLe(b[4..6]) == 1 && FromLe(b[6..8]) == 1;
            var known := 1 <= FromLe(b[8..10]) <= 8;
            && (r == InvalidMagicReason <==> !magic)
            && (r == InvalidVersion <==> magic && !version)
            && (r == UnknownTypeReason <==> magic && version && !known)
            && (r == BadLength <==> magic && version && known && |b| - 34 > maxPayload)
            && (r == BadChecksum <==> magic && version && known && |b| - 34 <= maxPayload
                                      && FromLe(b[30..34]) != CrcValue(b[34..]))
            && (r == Accepted <==> ValidPacket(b, maxPayload))
  {
    hide FromLe, CrcValue;
  }

  /** The specification says that a number not above the last one is rejected. The code does that
      exactly as long as the two numbers are less than half the range apart: past a wrap-around it
      accepts smaller numbers, and a jump of half the range or more is rejected. */
  lemma DocumentedOrderHolds(seq1: uint32, last: uint32)
    ensures (SignedDiff(seq1, last) > 0 <==> seq1 > last) <==> -0x8000_0000 <= seq1 - last < 0x8000_0000
  {
    if seq1 < last {
      assert (seq1 - last) % 0x1_0000_0000 == seq1 - last + 0x1_0000_0000;
    }
  }

  /** An empty packet with this sequence number. */
  function NumberedPacket(n: uint32): bytes
  {
    SerializePacket(PacketHeader(PACKET_MAGIC, 1, 1, 1, 0, 0, n, 0, 0), [])
  }

  lemma NumberedPacketIsGuarded(g: Guard, n: uint32, maxPayload: nat)
    ensures Guarded(g, NumberedPacket(n), maxPayload) == Sequenced(g, n)
  {
    hide SerializePacket, DeserializePacket, Sequenced;
    PacketRoundTrip(PacketHeader(PACKET_MAGIC, 1, 1, 1, 0, 0, n, 0, 0), []);
  }

  /** Past a wrap-around: the packet 5 is accepted after the packet 2^32 - 1, whose number it is
      not above. */
  lemma SmallerNumberIsAccepted(maxPayload: nat)
    ensures RunGuard([NumberedPacket(0xFFFF_FFFF), NumberedPacket(5)], maxPayload)
              == Guard(true, 5, Counters(2, 0, 0, 1, 5, 1))
  {
    hide NumberedPacket, Guarded;
    var a, b := NumberedPacket(0xFFFF_FFFF), NumberedPacket(5);
    var first: seq<bytes>, both: seq<bytes> := [a], [a, b];
    assert both[..1] == first && first[..0] == [];
    assert RunGuard(first[..0], maxPayload) == NEW_GUARD;
    NumberedPacketIsGuarded(NEW_GUARD, 0xFFFF_FFFF, maxPayload);
    assert RunGuard(first, maxPayload) == Sequenced(NEW_GUARD, 0xFFFF_FFFF);
    NumberedPacketIsGuarded(Sequenced(NEW_GUARD, 0xFFFF_FFFF), 5, maxPayload);
    assert SignedDiff(5, 0xFFFF_FFFF) == 6;
  }

  // ---- The contract tracker ----

  class ContractTracker {
    var initialized: bool
    var lastSeq: uint64
    var outOfOrder: nat
    var gaps: nat
    var lost: nat
    ghost var seqs: seq<uint64>
    ghost var advances: nat

    /** The last number is the largest one seen; the numbers skipped on the way are counted as lost. */
    ghost predicate Valid()
      reads this
    {
      && (initialized <==> seqs != [])
      && gaps <= lost && gaps <= advances
      && (seqs == [] ==> outOfOrder == lost == advances == 0)
      && (seqs != [] ==>
            && lastSeq in seqs && (forall s :: s in seqs ==> s <= lastSeq)
            && |seqs| == 1 + advances + outOfOrder
            && lastSeq == seqs[0] + advances + lost)
    }

    constructor ()
      ensures Valid() && seqs == []
    {
      initialized, lastSeq, outOfOrder, gaps, lost := false, 0, 0, 0, 0;
      seqs, advances := [], 0;
    }

    method TrackContractSeq(seq1: uint64)
      requires Valid()
      modifies this
      ensures Valid() && seqs == old(seqs) + [seq1]
      ensures outOfOrder == old(outOfOrder) + (if old(seqs) != [] && seq1 <= old(lastSeq) then 1 else 0)
      ensures gaps == old(gaps) + (if old(seqs) != [] && seq1 > old(lastSeq) + 1 then 1 else 0)
    {
      seqs := seqs + [seq1];
      if !initialized {
        initialized := true;
        lastSeq := seq1;
        return;
      }
      if seq1 <= lastSeq {
        outOfOrder := outOfOrder + 1;
        return;
      }
      if seq1 > (lastSeq + 1) % TWO_64 {
        gaps := gaps + 1;
        lost := lost + (seq1 - lastSeq - 1);
      }
      advances := advances + 1;
      lastSeq := seq1;
    }
  }
}
