/** The offline log reader: format detection, the two chunk scanners, and the sequential scan
    over the chunks of the manifest. */
module LogReader {
  import opened Bytes
  import opened Wrappers
  import opened ContractFrame
  import opened LegacyPacket
  import opened ManifestReader

  datatype Format = Unknown | Legacy | Contract

  /** A packet handed to the scan callback; contract holds the 72-byte header of a contract frame. */
  datatype RawPacket = RawPacket(
    header: PacketHeader, contract: Option<EgoFrameHeader>, payload: bytes, chunkId: int, fileOffset: nat)

  function HeaderLength(isContract: bool): nat
  {
    if isContract then HEADER_SIZE else PACKET_HEADER_SIZE
  }

  /** The bytes of the file a packet was read from. */
  function PacketLength(p: RawPacket): nat
  {
    HeaderLength(p.contract.Some?) + |p.payload|
  }

  // ---- One packet at the front of the unread bytes ----

  function LegacyHead(d: bytes, chunkId: int, offset: nat): Option<RawPacket>
  {
    if |d| < PACKET_HEADER_SIZE then None
    else
      var h := HeaderAt(d);
      if h.magic != PACKET_MAGIC || |d| < PACKET_HEADER_SIZE + h.payloadSize then None
      else Some(RawPacket(h, None, d[PACKET_HEADER_SIZE..PACKET_HEADER_SIZE + h.payloadSize], chunkId, offset))
  }

  /** The legacy view of a contract header; every other legacy field is zero. */
  function LegacyView(h: EgoFrameHeader): PacketHeader
  {
    PacketHeader(0, 0, 0, h.frameType % TWO_16, h.payloadSize % TWO_32, h.t0Ns % TWO_64, h.seqNo % TWO_32, 0, 0)
  }

  function ContractHead(d: bytes, chunkId: int, offset: nat): Option<RawPacket>
  {
    if |d| < HEADER_SIZE then None
    else
      var h := HeaderOf(d[..HEADER_SIZE]);
      if h.magic != FRAME_MAGIC || |d| < HEADER_SIZE + h.payloadSize then None
      else Some(RawPacket(LegacyView(h), Some(h), d[HEADER_SIZE..HEADER_SIZE + h.payloadSize], chunkId, offset))
  }

  /** A contract frame is found exactly when its magic, header and payload are there, and the packet
      has its start time, the low halves of its number and type, and its payload. */
  lemma ContractHeadFields(d: bytes, chunkId: int, offset: nat)
    ensures var r := ContractHead(d, chunkId, offset);
            && (r.Some? <==> |d| >= 72 && FromLe(d[0..4]) == FRAME_MAGIC && |d| >= 72 + FromLe(d[56..60]))
            && (r.Some? ==>
                  && r.value.header.tsNs == FromLe(d[40..48]) && r.value.header.seqNo == FromLe(d[32..40]) % TWO_32
                  && r.value.header.packetType == FromLe(d[8..12]) % TWO_16
                  && r.value.header.payloadSize == FromLe(d[56..60])
                  && r.value.payload == d[72..72 + FromLe(d[56..60])]
                  && r.value.contract == Some(HeaderOf(d[..72]))
                  && r.value.chunkId == chunkId && r.value.fileOffset == offset)
  {
    hide FromLe, Pow256;
    if |d| >= 72 {
      var h := d[..72];
      assert h[0..4] == d[0..4] && h[8..12] == d[8..12] && h[32..40] == d[32..40];
      assert h[40..48] == d[40..48] && h[56..60] == d[56..60];
      PowersOf256();
      FromLeBound(d[40..48]);
      FromLeBound(d[56..60]);
    }
  }

  /** The same for a legacy packet, whose 34-byte header is taken as it is. */
  lemma LegacyHeadFields(d: bytes, chunkId: int, offset: nat)
    ensures var r := LegacyHead(d, chunkId, offset);
            && (r.Some? <==> |d| >= 34 && FromLe(d[0..4]) == PACKET_MAGIC && |d| >= 34 + FromLe(d[10..14]))
            && (r.Some? ==>
                  && r.value.header.tsNs == FromLe(d[14..22]) && r.value.header.seqNo == FromLe(d[22..26])
                  && r.value.header.packetType == FromLe(d[8..10])
                  && r.value.header.protocolVersion == FromLe(d[4..6])
                  && r.value.header.checksum == FromLe(d[30..34])
                  && r.value.payload == d[34..34 + FromLe(d[10..14])]
                  && r.value.contract == None && r.value.chunkId == chunkId && r.value.fileOffset == offset)
  {
    hide FromLe;
  }

  function Head(isContract: bool, d: bytes, chunkId: int, offset: nat): (r: Option<RawPacket>)
    ensures r.Some? ==> 0 < PacketLength(r.value) <= |d|
  {
    if isContract then ContractHead(d, chunkId, offset) else LegacyHead(d, chunkId, offset)
  }

  /** All packets of the unread bytes d, which begin at offset of their file. */
  function Packets(isContract: bool, d: bytes, chunkId: int, offset: nat): seq<RawPacket>
    decreases |d|
  {
    match Head(isContract, d, chunkId, offset)
    case None => []
    case Some(p) => [p] + Packets(isContract, d[PacketLength(p)..], chunkId, offset + PacketLength(p))
  }

  /** The packets up to and including the first the callback refuses. */
  function UpToRefusal(ps: seq<RawPacket>, accept: RawPacket -> bool): seq<RawPacket>
  {
    if ps == [] then []
    else if !accept(ps[0]) then [ps[0]]
    else [ps[0]] + UpToRefusal(ps[1..], accept)
  }

  // ---- Scanning one chunk ----

  lemma HeadStep(isContract: bool, d: bytes, chunkId: int, offset: nat, done: seq<RawPacket>, accept: RawPacket -> bool)
    ensures var h := Head(isContract, d, chunkId, offset);
            done + UpToRefusal(Packets(isContract, d, chunkId, offset), accept) ==
              if h.None? then done
              else if !accept(h.value) then done + [h.value]
              else done + [h.value] + UpToRefusal(Packets(isContract, d[PacketLength(h.value)..], chunkId,
                  offset + PacketLength(h.value)), accept)
  {
    hide Head, PacketLength;
    var h := Head(isContract, d, chunkId, offset);
    if h.Some? {
      var rest := Packets(isContract, d[PacketLength(h.value)..], chunkId, offset + PacketLength(h.value));
      assert ([h.value] + rest)[1..] == rest;
      assert done + ([h.value] + UpToRefusal(rest, accept)) == done + [h.value] + UpToRefusal(rest, accept);
    }
  }

  method ScanLegacyChunk(data: bytes, chunkId: int, accept: RawPacket -> bool) returns (handed: seq<RawPacket>)
    ensures handed == UpToRefusal(Packets(false, data, chunkId, 0), accept)
  {
    hide Packets, UpToRefusal, HeaderAt;
    var offset := 0;
    handed := [];
    assert data[0..] == data && [] + UpToRefusal(Packets(false, data, chunkId, 0), accept)
           == UpToRefusal(Packets(false, data, chunkId, 0), accept);
    while true
      invariant offset <= |data|
      invariant handed + UpToRefusal(Packets(false, data[offset..], chunkId, offset), accept)
                == UpToRefusal(Packets(false, data, chunkId, 0), accept)
      decreases |data| - offset
    {
      var d := data[offset..];
      HeadStep(false, d, chunkId, offset, handed, accept);
      if |d| < PACKET_HEADER_SIZE {
        return;
      }
      var h := HeaderAt(d);
      if h.magic != PACKET_MAGIC {
        return;
      }
      if |d| < PACKET_HEADER_SIZE + h.payloadSize {
        return;
      }
      var packet := RawPacket(h, None, d[PACKET_HEADER_SIZE..PACKET_HEADER_SIZE + h.payloadSize], chunkId, offset);
      handed := handed + [packet];
      if !accept(packet) {
        return;
      }
      offset := offset + PACKET_HEADER_SIZE + h.payloadSize;
      assert d[PacketLength(packet)..] == data[offset..];
    }
  }

  method ScanContractChunk(data: bytes, chunkId: int, accept: RawPacket -> bool) returns (handed: seq<RawPacket>)
    ensures handed == UpToRefusal(Packets(true, data, chunkId, 0), accept)
  {
    hide Packets, UpToRefusal, HeaderOf, LegacyView;
    var offset := 0;
    handed := [];
    assert data[0..] == data && [] + UpToRefusal(Packets(true, data, chunkId, 0), accept)
           == UpToRefusal(Packets(true, data, chunkId, 0), accept);
    while true
      invariant offset <= |data|
      invariant handed + UpToRefusal(Packets(true, data[offset..], chunkId, offset), accept)
                == UpToRefusal(Packets(true, data, chunkId, 0), accept)
      decreases |data| - offset
    {
      var d := data[offset..];
      HeadStep(true, d, chunkId, offset, handed, accept);
      if |d| < HEADER_SIZE {
        return;
      }
      var h := HeaderOf(d[..HEADER_SIZE]);
      if h.magic != FRAME_MAGIC {
        return;
      }
      if |d| < HEADER_SIZE + h.payloadSize {
        return;
      }
      var packet := RawPacket(LegacyView(h), Some(h), d[HEADER_SIZE..HEADER_SIZE + h.payloadSize], chunkId, offset);
      handed := handed + [packet];
      if !accept(packet) {
        return;
      }
      offset := offset + HEADER_SIZE + h.payloadSize;
      assert d[PacketLength(packet)..] == data[offset..];
    }
  }

  // ---- Scanning the chunks of the manifest ----

  /** The magic is read into a zeroed word, so a shorter file leaves its high bytes zero. */
  function DetectFormat(files: map<string, bytes>, name: string): Format
  {
    if name !in files then Unknown
    else
      var d := files[name];
      var magic := FromLe(if |d| < 4 then d else d[..4]);
      if magic == FRAME_MAGIC then Contract
      else if magic == PACKET_MAGIC then Legacy
      else Unknown
  }

  /** How the packets of a chunk are read: the format found in the first chunk of the manifest
      counts for all, and only when it is unknown is each chunk looked at. */
  predicate ReadAsContract(files: map<string, bytes>, format: Format, c: OfflineChunk)
  {
    (if format == Unknown then DetectFormat(files, c.name) else format) == Contract
  }

  /** All packets of one chunk; a missing file has none. */
  function ChunkPackets(files: map<string, bytes>, format: Format, c: OfflineChunk): seq<RawPacket>
  {
    if c.name in files then Packets(ReadAsContract(files, format, c), files[c.name], c.chunkId, 0) else []
  }

  /** What a scan of the chunks hands over. A refusal ends the chunk it happens in, not the scan. */
  function Scanned(files: map<string, bytes>, format: Format, chunks: seq<OfflineChunk>,
      accept: RawPacket -> bool): seq<RawPacket>
    decreases |chunks|
  {
    if chunks == [] then []
    else
      var n := |chunks| - 1;
      Scanned(files, format, chunks[..n], accept) + UpToRefusal(ChunkPackets(files, format, chunks[n]), accept)
  }

  /** Every packet of every chunk, in manifest order. */
  function AllPackets(files: map<string, bytes>, format: Format, chunks: seq<OfflineChunk>): seq<RawPacket>
    decreases |chunks|
  {
    if chunks == [] then []
    else
      var n := |chunks| - 1;
      AllPackets(files, format, chunks[..n]) + ChunkPackets(files, format, chunks[n])
  }

  lemma {:induction false} NoRefusal(ps: seq<RawPacket>, accept: RawPacket -> bool)
    requires forall p :: p in ps ==> accept(p)
    ensures UpToRefusal(ps, accept) == ps
  {
    if ps == [] {
    } else {
      assert ps == [ps[0]] + ps[1..];
      assert ps[0] in ps;
      NoRefusal(ps[1..], accept);
    }
  }

  /** With a callback that never refuses, a scan hands over every packet. */
  lemma {:induction false} ScannedAll(files: map<string, bytes>, format: Format, chunks: seq<OfflineChunk>,
      accept: RawPacket -> bool)
    requires forall p :: p in AllPackets(files, format, chunks) ==> accept(p)
    ensures Scanned(files, format, chunks, accept) == AllPackets(files, format, chunks)
    decreases |chunks|
  {
    hide ChunkPackets;
    if chunks == [] {
    } else {
      var n := |chunks| - 1;
      ScannedAll(files, format, chunks[..n], accept);
      NoRefusal(ChunkPackets(files, format, chunks[n]), accept);
    }
  }

  // ---- What a callback that refuses does ----

  lemma {:induction false} RefusalEndsChunk(ps: seq<RawPacket>, accept: RawPacket -> bool)
    ensures var u := UpToRefusal(ps, accept);
            && (forall i :: 0 <= i < |u| - 1 ==> accept(u[i]))
            && (u == [] <==> ps == [])
            && (u != [] && accept(u[|u| - 1]) ==> u == ps)
  {
    if ps == [] || !accept(ps[0]) {
    } else {
      assert ps == [ps[0]] + ps[1..];
      RefusalEndsChunk(ps[1..], accept);
      var u := UpToRefusal(ps[1..], accept);
      if u != [] {
        assert ([ps[0]] + u)[|u|] == u[|u| - 1];
      }
    }
  }

  predicate StopsAtRefusal(handed: seq<RawPacket>, accept: RawPacket -> bool)
  {
    forall i :: 0 <= i < |handed| - 1 ==> accept(handed[i])
  }

  /** The callback refuses some packet of the list. */
  predicate Refuses(ps: seq<RawPacket>, accept: RawPacket -> bool)
  {
    exists i :: 0 <= i < |ps| && !accept(ps[i])
  }

  /** Cutting a list at its first refusal keeps whether there is one. */
  lemma {:induction false} RefusalIsKept(ps: seq<RawPacket>, accept: RawPacket -> bool)
    ensures Refuses(UpToRefusal(ps, accept), accept) <==> Refuses(ps, accept)
  {
    if ps == [] {
    } else if !accept(ps[0]) {
      assert UpToRefusal(ps, accept)[0] == ps[0];
    } else {
      RefusalIsKept(ps[1..], accept);
      RefusesAtOrAfter(ps, accept);
      RefusesAtOrAfter(UpToRefusal(ps, accept), accept);
      assert UpToRefusal(ps, accept)[1..] == UpToRefusal(ps[1..], accept);
    }
  }

  lemma RefusesAtOrAfter(ps: seq<RawPacket>, accept: RawPacket -> bool)
    requires ps != []
    ensures Refuses(ps, accept) <==> !accept(ps[0]) || Refuses(ps[1..], accept)
  {
    if Refuses(ps[1..], accept) {
      var i :| 0 <= i < |ps[1..]| && !accept(ps[1..][i]);
      assert !accept(ps[i + 1]);
    }
    if Refuses(ps, accept) && accept(ps[0]) {
      var i :| 0 <= i < |ps| && !accept(ps[i]);
      assert ps[1..][i - 1] == ps[i];
    }
  }

  lemma RefusesConcat(a: seq<RawPacket>, b: seq<RawPacket>, accept: RawPacket -> bool)
    ensures Refuses(a + b, accept) <==> Refuses(a, accept) || Refuses(b, accept)
  {
    if Refuses(a, accept) {
      var i :| 0 <= i < |a| && !accept(a[i]);
      assert (a + b)[i] == a[i];
    }
    if Refuses(b, accept) {
      var i :| 0 <= i < |b| && !accept(b[i]);
      assert (a + b)[|a| + i] == b[i];
    }
  }

  /** What was handed over ends at a refusal exactly if it did before the last chunk, and either
      nothing was refused before that chunk or the chunk has no packets. */
  lemma StopsConcat(before: seq<RawPacket>, u: seq<RawPacket>, accept: RawPacket -> bool)
    requires StopsAtRefusal(u, accept)
    ensures StopsAtRefusal(before + u, accept) <==>
            StopsAtRefusal(before, accept) && (u == [] || !Refuses(before, accept))
  {
    var all := before + u;
    assert forall i :: 0 <= i < |before| ==> all[i] == before[i];
    assert forall i :: |before| <= i < |all| ==> all[i] == u[i - |before|];
    if u == [] {
      assert all == before;
    }
  }

  lemma {:induction false} ScanRefuses(
    files: map<string, bytes>, format: Format, chunks: seq<OfflineChunk>, accept: RawPacket -> bool)
    ensures Refuses(Scanned(files, format, chunks, accept), accept) <==>
            exists i :: 0 <= i < |chunks| && Refuses(ChunkPackets(files, format, chunks[i]), accept)
    decreases |chunks|
  {
    hide ChunkPackets, UpToRefusal, Refuses;
    if chunks == [] {
      NothingToRefuse(accept);
    } else {
      var n := |chunks| - 1;
      var ps := ChunkPackets(files, format, chunks[n]);
      ScanRefuses(files, format, chunks[..n], accept);
      RefusesConcat(Scanned(files, format, chunks[..n], accept), UpToRefusal(ps, accept), accept);
      RefusalIsKept(ps, accept);
    }
  }

  lemma NothingToRefuse(accept: RawPacket -> bool)
    ensures !Refuses([], accept)
  {}

  /** No chunk with packets follows a chunk in which a packet is refused. */
  predicate QuietAfterRefusal(
    files: map<string, bytes>, format: Format, chunks: seq<OfflineChunk>, accept: RawPacket -> bool)
  {
    forall i, j :: 0 <= i < j < |chunks| && Refuses(ChunkPackets(files, format, chunks[i]), accept) ==>
                     ChunkPackets(files, format, chunks[j]) == []
  }

  /** The header file promises that a refusal stops the iteration. It does exactly when no chunk
      with packets follows a chunk in which a packet is refused; otherwise the scan goes on there. */
  lemma {:induction false} RefusalContinuesInNextChunk(
    files: map<string, bytes>, format: Format, chunks: seq<OfflineChunk>, accept: RawPacket -> bool)
    ensures StopsAtRefusal(Scanned(files, format, chunks, accept), accept) <==>
            QuietAfterRefusal(files, format, chunks, accept)
    decreases |chunks|
  {
    hide ChunkPackets, UpToRefusal, Refuses, StopsAtRefusal;
    if chunks == [] {
      NothingStops(accept);
    } else {
      var n := |chunks| - 1;
      var ps := ChunkPackets(files, format, chunks[n]);
      var before, u := Scanned(files, format, chunks[..n], accept), UpToRefusal(ps, accept);
      RefusalContinuesInNextChunk(files, format, chunks[..n], accept);
      ScanRefuses(files, format, chunks[..n], accept);
      RefusalEndsChunk(ps, accept);
      ChunkStops(ps, accept);
      StopsConcat(before, u, accept);
      assert QuietAfterRefusal(files, format, chunks, accept) <==>
             QuietAfterRefusal(files, format, chunks[..n], accept) && (ps == [] || !Refuses(before, accept));
    }
  }

  lemma NothingStops(accept: RawPacket -> bool)
    ensures StopsAtRefusal([], accept)
  {}

  lemma ChunkStops(ps: seq<RawPacket>, accept: RawPacket -> bool)
    ensures StopsAtRefusal(UpToRefusal(ps, accept), accept)
  {
    RefusalEndsChunk(ps, accept);
  }

  // ---- Packets and offsets ----

  /** The packet found again at its offset. */
  lemma {:induction false} PacketAtOffset(isContract: bool, d: bytes, chunkId: int, offset: nat, i: nat)
    requires i < |Packets(isContract, d, chunkId, offset)|
    ensures var p := Packets(isContract, d, chunkId, offset)[i];
            && offset <= p.fileOffset && p.fileOffset - offset <= |d| && p.chunkId == chunkId
            && Head(isContract, d[p.fileOffset - offset..], chunkId, p.fileOffset) == Some(p)
    decreases |d|
  {
    hide ContractHead, LegacyHead;
    HeadIsHere(isContract, d, chunkId, offset);
    var h := Head(isContract, d, chunkId, offset).value;
    if i == 0 {
      assert d[0..] == d;
    } else {
      var n := PacketLength(h);
      PacketAtOffset(isContract, d[n..], chunkId, offset + n, i - 1);
      var p := Packets(isContract, d, chunkId, offset)[i];
      assert d[n..][p.fileOffset - (offset + n)..] == d[p.fileOffset - offset..];
    }
  }

  lemma HeadIsHere(isContract: bool, d: bytes, chunkId: int, offset: nat)
    requires Head(isContract, d, chunkId, offset).Some?
    ensures var p := Head(isContract, d, chunkId, offset).value; p.fileOffset == offset && p.chunkId == chunkId
  {}

  // ---- A legacy log ----

  predicate Loggable(p: Packet)
  {
    p.header.magic == PACKET_MAGIC && p.header.payloadSize == |p.payload|
  }

  function LogBytes(ps: seq<Packet>): bytes
  {
    if ps == [] then [] else SerializeHeader(ps[0].header) + ps[0].payload + LogBytes(ps[1..])
  }

  /** The packets of such a log with their offsets. */
  function Logged(ps: seq<Packet>, chunkId: int, offset: nat): seq<RawPacket>
  {
    if ps == [] then []
    else
      [RawPacket(ps[0].header, None, ps[0].payload, chunkId, offset)]
      + Logged(ps[1..], chunkId, offset + PACKET_HEADER_SIZE + |ps[0].payload|)
  }

  lemma LoggedHead(p: Packet, rest: bytes, chunkId: int, offset: nat)
    requires Loggable(p)
    ensures LegacyHead(SerializeHeader(p.header) + p.payload + rest, chunkId, offset)
              == Some(RawPacket(p.header, None, p.payload, chunkId, offset))
  {
    hide HeaderAt, SerializeHeader;
    var h := SerializeHeader(p.header);
    var d := h + p.payload + rest;
    assert d == h + (p.payload + rest);
    HeaderOfSerialized(p.header, p.payload + rest);
    assert d[PACKET_HEADER_SIZE..PACKET_HEADER_SIZE + |p.payload|] == p.payload;
  }

  /** Serialised packets, one after the other, are scanned back as the same headers and payloads. */
  lemma {:induction false} LegacyLogReadsBack(ps: seq<Packet>, chunkId: int, offset: nat)
    requires forall p :: p in ps ==> Loggable(p)
    ensures Packets(false, LogBytes(ps), chunkId, offset) == Logged(ps, chunkId, offset)
    decreases |ps|
  {
    hide SerializeHeader, LegacyHead;
    if ps == [] {
      EmptyLog(chunkId, offset);
    } else {
      var p, rest := ps[0], LogBytes(ps[1..]);
      assert p in ps;
      LoggedHead(p, rest, chunkId, offset);
      var n := PACKET_HEADER_SIZE + |p.payload|;
      assert (SerializeHeader(p.header) + p.payload + rest)[n..] == rest;
      LegacyLogReadsBack(ps[1..], chunkId, offset + n);
    }
  }

  lemma EmptyLog(chunkId: int, offset: nat)
    ensures Packets(false, [], chunkId, offset) == []
  {}

  /** The format of a file is told by its first four bytes. */
  lemma FormatOfFile(files: map<string, bytes>, name: string)
    requires name in files
    ensures var d := files[name];
            && (DetectFormat(files, name) == Contract <==> |d| >= 4 && FromLe(d[0..4]) == FRAME_MAGIC)
            && (DetectFormat(files, name) == Legacy <==> |d| >= 4 && FromLe(d[0..4]) == PACKET_MAGIC)
  {
    hide FromLe, Pow256;
    var d := files[name];
    if |d| < 4 {
      FromLeBound(d);
      SmallPowers(|d|);
    } else {
      assert d[0..4] == d[..4];
    }
  }

  lemma SmallPowers(k: nat)
    requires k < 4
    ensures Pow256(k) <= 0x1_00_00_00
  {
    assert Pow256(0) == 1 && Pow256(1) == 256 && Pow256(2) == 0x1_00_00 && Pow256(3) == 0x1_00_00_00;
    assert k == 0 || k == 1 || k == 2 || k == 3;
  }

  lemma LegacyLogIsLegacy(ps: seq<Packet>, files: map<string, bytes>, name: string)
    requires name in files && files[name] == LogBytes(ps) && forall p :: p in ps ==> Loggable(p)
    ensures DetectFormat(files, name) == if ps == [] then Unknown else Legacy
  {
    hide SerializeHeader, HeaderAt, FromLe, DetectFormat;
    FormatOfFile(files, name);
    if ps != [] {
      assert ps[0] in ps;
      LoggedHead(ps[0], LogBytes(ps[1..]), 0, 0);
      LegacyHeadFields(files[name], 0, 0);
    }
  }

  function LoggedChunks(logs: seq<seq<Packet>>, chunks: seq<OfflineChunk>): seq<RawPacket>
    requires |logs| == |chunks|
  {
    if logs == [] then []
    else
      var n := |logs| - 1;
      LoggedChunks(logs[..n], chunks[..n]) + Logged(logs[n], chunks[n].chunkId, 0)
  }

  /** A log of any number of legacy chunk files, some of them empty, is scanned back: every packet of
      every chunk, in manifest order. */
  lemma {:induction false} LegacyLogIsScanned(files: map<string, bytes>, chunks: seq<OfflineChunk>,
      logs: seq<seq<Packet>>, format: Format, n: nat)
    requires |logs| == |chunks| && n <= |chunks|
    requires format == if chunks == [] then Unknown else DetectFormat(files, chunks[0].name)
    requires forall i :: 0 <= i < |chunks| ==> chunks[i].name in files && files[chunks[i].name] == LogBytes(logs[i])
    requires forall i :: 0 <= i < |chunks| ==> forall p :: p in logs[i] ==> Loggable(p)
    ensures AllPackets(files, format, chunks[..n]) == LoggedChunks(logs[..n], chunks[..n])
  {
    hide LogBytes, Packets, Loggable, DetectFormat, Logged;
    if n == 0 {
    } else {
      LegacyLogIsScanned(files, chunks, logs, format, n - 1);
      LegacyLogIsLegacy(logs[0], files, chunks[0].name);
      LegacyLogIsLegacy(logs[n - 1], files, chunks[n - 1].name);
      LegacyLogReadsBack(logs[n - 1], chunks[n - 1].chunkId, 0);
      if logs[n - 1] == [] {
        NothingLogged(chunks[n - 1].chunkId);
      }
      assert chunks[..n][..n - 1] == chunks[..n - 1] && logs[..n][..n - 1] == logs[..n - 1];
    }
  }

  lemma NothingLogged(chunkId: int)
    ensures LogBytes([]) == [] && Logged([], chunkId, 0) == []
    ensures Packets(true, [], chunkId, 0) == [] && Packets(false, [], chunkId, 0) == []
  {}

  function EmptyPacket(): Packet
  {
    Packet(PacketHeader(PACKET_MAGIC, 0, 0, 0, 0, 0, 0, 0, 0), [])
  }

  const TWO_CHUNKS := [OfflineChunk(0, "a", 0, 0, 1), OfflineChunk(1, "b", 0, 0, 1)]

  /** Two legacy chunks of one packet each, under a callback that refuses everything: the packet of
      the second chunk is handed over although the first was refused. */
  lemma RefusedScanGoesOn()
    ensures var log := LogBytes([EmptyPacket()]);
            var handed := Scanned(map["a" := log, "b" := log], Legacy, TWO_CHUNKS, _ => false);
            && handed == Logged([EmptyPacket()], 0, 0) + Logged([EmptyPacket()], 1, 0)
            && |handed| == 2 && !StopsAtRefusal(handed, _ => false)
  {
    hide LogBytes, Packets, EmptyPacket, UpToRefusal, StopsAtRefusal, Logged;
    var p, refuse := EmptyPacket(), (_: RawPacket) => false;
    var log := LogBytes([p]);
    var files := map["a" := log, "b" := log];
    EmptyPacketIsLoggable();
    LegacyLogReadsBack([p], 0, 0);
    LegacyLogReadsBack([p], 1, 0);
    OneLogged(p, 0, refuse);
    OneLogged(p, 1, refuse);
    assert TWO_CHUNKS[..1] == [TWO_CHUNKS[0]] && TWO_CHUNKS[..1][..0] == [];
    assert Scanned(files, Legacy, TWO_CHUNKS[..1], refuse) == Logged([p], 0, 0);
    var handed := Scanned(files, Legacy, TWO_CHUNKS, refuse);
    assert handed == Logged([p], 0, 0) + Logged([p], 1, 0);
    TwoRefused(handed, refuse);
  }

  lemma EmptyPacketIsLoggable()
    ensures Loggable(EmptyPacket())
  {}

  lemma OneLogged(p: Packet, chunkId: int, refuse: RawPacket -> bool)
    requires forall r :: !refuse(r)
    ensures |Logged([p], chunkId, 0)| == 1
    ensures UpToRefusal(Logged([p], chunkId, 0), refuse) == Logged([p], chunkId, 0)
  {
    var raw := RawPacket(p.header, None, p.payload, chunkId, 0);
    assert Logged([p], chunkId, 0) == [raw] + Logged([p][1..], chunkId, PACKET_HEADER_SIZE + |p.payload|);
    assert Logged([p], chunkId, 0) == [raw];
  }

  lemma TwoRefused(handed: seq<RawPacket>, refuse: RawPacket -> bool)
    requires |handed| == 2 && !refuse(handed[0])
    ensures !StopsAtRefusal(handed, refuse)
  {}
}
