/** The legacy 34-byte packet header, packet serialisation and packet validation
    (runtimepc/protocol and its mirror in offline/include/ego_offline/protocol.hpp). */
module LegacyPacket {
  import opened Bytes
  import opened Crc32
  import opened Wrappers
  import opened ContractFrame

  const PACKET_MAGIC: nat := 0x45574F48
  const PACKET_HEADER_SIZE: nat := 34

  datatype PacketHeader = PacketHeader(
    magic: uint32, protocolVersion: uint16, payloadVersion: uint16, packetType: uint16,
    payloadSize: uint32, tsNs: uint64, seqNo: uint32, statusFlags: uint32, checksum: uint32)

  datatype Packet = Packet(header: PacketHeader, payload: bytes)

  function SerializeHeader(h: PacketHeader): (r: bytes)
    ensures |r| == PACKET_HEADER_SIZE
  {
    Le(h.magic, 4) + Le(h.protocolVersion, 2) + Le(h.payloadVersion, 2) + Le(h.packetType, 2)
    + Le(h.payloadSize, 4) + Le(h.tsNs, 8) + Le(h.seqNo, 4) + Le(h.statusFlags, 4) + Le(h.checksum, 4)
  }

  /** The header at the front of at least 34 bytes. */
  function HeaderAt(b: bytes): PacketHeader
    requires |b| >= PACKET_HEADER_SIZE
  {
    PacketHeader(U32(b[0..4]), U16(b[4..6]), U16(b[6..8]), U16(b[8..10]), U32(b[10..14]), U64(b[14..22]),
                 U32(b[22..26]), U32(b[26..30]), U32(b[30..34]))
  }

  /** The size field holds the length modulo 2^32. */
  function SerializePacket(h: PacketHeader, payload: bytes): bytes
  {
    CrcIsWord(payload);
    SerializeHeader(h.(payloadSize := |payload| % TWO_32, checksum := CrcValue(payload))) + payload
  }

  function DeserializePacket(b: bytes): Option<Packet>
  {
    if |b| < PACKET_HEADER_SIZE || PACKET_HEADER_SIZE + HeaderAt(b).payloadSize != |b| then None
    else Some(Packet(HeaderAt(b), b[PACKET_HEADER_SIZE..]))
  }

  /** Reading back what was written. */
  lemma HeaderOfSerialized(h: PacketHeader, rest: bytes)
    ensures HeaderAt(SerializeHeader(h) + rest) == h
  {
    hide Le, U16, U32, U64;
    var b := SerializeHeader(h) + rest;
    U32OfLe(h.magic);
    U16OfLe(h.protocolVersion);
    U16OfLe(h.payloadVersion);
    U16OfLe(h.packetType);
    U32OfLe(h.payloadSize);
    U64OfLe(h.tsNs);
    U32OfLe(h.seqNo);
    U32OfLe(h.statusFlags);
    U32OfLe(h.checksum);
    assert b[0..4] == Le(h.magic, 4);
    assert b[4..6] == Le(h.protocolVersion, 2);
    assert b[6..8] == Le(h.payloadVersion, 2);
    assert b[8..10] == Le(h.packetType, 2);
    assert b[10..14] == Le(h.payloadSize, 4);
    assert b[14..22] == Le(h.tsNs, 8);
    assert b[22..26] == Le(h.seqNo, 4);
    assert b[26..30] == Le(h.statusFlags, 4);
    assert b[30..34] == Le(h.checksum, 4);
  }

  lemma LeOfU(b: bytes)
    ensures |b| == 2 ==> Le(U16(b), 2) == b
    ensures |b| == 4 ==> Le(U32(b), 4) == b
    ensures |b| == 8 ==> Le(U64(b), 8) == b
  {
    LeOfFromLe(b);
  }

  /** Writing back what was read. */
  lemma SerializedOfHeader(b: bytes)
    requires |b| >= PACKET_HEADER_SIZE
    ensures SerializeHeader(HeaderAt(b)) == b[..PACKET_HEADER_SIZE]
  {
    hide Le, U16, U32, U64;
    LeOfU(b[0..4]);
    LeOfU(b[4..6]);
    LeOfU(b[6..8]);
    LeOfU(b[8..10]);
    LeOfU(b[10..14]);
    LeOfU(b[14..22]);
    LeOfU(b[22..26]);
    LeOfU(b[26..30]);
    LeOfU(b[30..34]);
    assert b[0..4] + b[4..6] == b[..6];
    assert b[..6] + b[6..8] == b[..8];
    assert b[..8] + b[8..10] == b[..10];
    assert b[..10] + b[10..14] == b[..14];
    assert b[..14] + b[14..22] == b[..22];
    assert b[..22] + b[22..26] == b[..26];
    assert b[..26] + b[26..30] == b[..30];
    assert b[..30] + b[30..34] == b[..34];
  }

  /** A serialised packet is read back exactly when its length fits the size field. */
  lemma PacketRoundTrip(h: PacketHeader, payload: bytes)
    ensures |payload| < TWO_32 ==>
              CrcValue(payload) < TWO_32 &&
              DeserializePacket(SerializePacket(h, payload))
                == Some(Packet(h.(payloadSize := |payload|, checksum := CrcValue(payload)), payload))
    ensures |payload| >= TWO_32 ==> DeserializePacket(SerializePacket(h, payload)) == None
  {
    hide HeaderAt, SerializeHeader, CrcValue;
    CrcIsWord(payload);
    var h' := h.(payloadSize := |payload| % TWO_32, checksum := CrcValue(payload));
    HeaderOfSerialized(h', payload);
    assert (SerializeHeader(h') + payload)[PACKET_HEADER_SIZE..] == payload;
  }

  /** Whatever can be deserialised is the serialisation of its own header and payload. */
  lemma DeserializeIsExact(b: bytes)
    requires DeserializePacket(b).Some?
    ensures var p := DeserializePacket(b).value; SerializeHeader(p.header) + p.payload == b
  {
    hide HeaderAt, SerializeHeader;
    SerializedOfHeader(b);
    assert b == b[..PACKET_HEADER_SIZE] + b[PACKET_HEADER_SIZE..];
  }

  // ---- Validation ----

  datatype Validation = Valid | InvalidMagic | BadProtocolVersion | BadPayloadVersion | UnknownType
                      | SizeExceeded | SizeMismatch | ChecksumMismatch

  predicate KnownType(t: nat)
  {
    1 <= t <= 8
  }

  function ValidatePacketVerbose(h: PacketHeader, payload: bytes, maxPayload: nat): Validation
  {
    if h.magic != PACKET_MAGIC then InvalidMagic
    else if h.protocolVersion != 1 then BadProtocolVersion
    else if h.payloadVersion != 1 then BadPayloadVersion
    else if !KnownType(h.packetType) then UnknownType
    else if h.payloadSize > maxPayload then SizeExceeded
    else if h.payloadSize != |payload| then Validation.SizeMismatch
    else if h.checksum != CrcValue(payload) then ChecksumMismatch
    else Validation.Valid
  }

  /** A byte string that deserialises to a packet the validator accepts. */
  predicate ValidPacket(b: bytes, maxPayload: nat)
  {
    match DeserializePacket(b)
    case Some(p) => ValidatePacketVerbose(p.header, p.payload, maxPayload) == Validation.Valid
    case None => false
  }

  /** Serialising any payload under a well-formed header gives a packet the validator accepts
      exactly when the payload fits both the limit and the size field. */
  lemma SerializedIsValid(h: PacketHeader, payload: bytes, maxPayload: nat)
    requires h.magic == PACKET_MAGIC && h.protocolVersion == 1 && h.payloadVersion == 1 && KnownType(h.packetType)
    ensures ValidPacket(SerializePacket(h, payload), maxPayload) <==> |payload| <= maxPayload && |payload| < TWO_32
  {
    hide DeserializePacket, SerializePacket, CrcValue;
    PacketRoundTrip(h, payload);
  }

  /** The accepted packets, byte by byte. */
  lemma ValidPacketBytes(b: bytes, maxPayload: nat)
    ensures ValidPacket(b, maxPayload) <==>
              && |b| >= 34 && FromLe(b[0..4]) == PACKET_MAGIC && FromLe(b[4..6]) == 1 && FromLe(b[6..8]) == 1
              && FromLe(b[8..10]) in {1, 2, 3, 4, 5, 6, 7, 8}
              && FromLe(b[10..14]) == |b| - 34 <= maxPayload && FromLe(b[30..34]) == CrcValue(b[34..])
  {
    hide FromLe, CrcValue;
  }
}
