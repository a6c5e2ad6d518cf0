/** From the recorder to the offline pipeline: what a closed session directory gives when it is
    scanned, and the pipeline's own checks on each packet. */
module Playback {
  import opened Bytes
  import opened Crc32
  import opened Wrappers
  import opened ContractFrame
  import opened LegacyPacket
  import opened Manifest
  import opened ChunkWriter
  import opened SessionFiles
  import opened Json
  import opened ManifestReader
  import opened LogReader
  import opened LogIndex

  // ---- The pipeline's check ----

  predicate Rechecks(h: EgoFrameHeader, payload: bytes)
  {
    && h.magic == FRAME_MAGIC
    && h.payloadSize == |payload|
    && (payload != [] ==> CrcValue(payload) == h.payloadCrc32)
    && CrcValue(HeaderBytes(h.(headerCrc32 := 0))) == h.headerCrc32
  }

  /** The check in the scan callback, with the table-driven checksum. */
  method RecheckContract(h: EgoFrameHeader, payload: bytes) returns (ok: bool)
    ensures ok <==> Rechecks(h, payload)
  {
    hide CrcValue, Crc, NatOfWord, HeaderBytes;
    ok := h.magic == FRAME_MAGIC && h.payloadSize == |payload|;
    if ok && h.payloadSize > 0 {
      var crc := TableCrc32(payload);
      CrcNumber(payload);
      ok := NatOfWord(crc, 32) == h.payloadCrc32;
    }
    if ok {
      var z := HeaderBytes(h.(headerCrc32 := 0));
      var crc := TableCrc32(z);
      CrcNumber(z);
      ok := NatOfWord(crc, 32) == h.headerCrc32;
    }
  }

  /** The recorder's validation is the pipeline's check plus the header size and payload limit. */
  lemma RecheckIsValidation(f: framed, maxPayload: nat)
    ensures ValidFrame(f, maxPayload) <==>
              Rechecks(HeaderIn(f), f[HEADER_SIZE..]) && HeaderIn(f).headerSize == HEADER_SIZE
                  && HeaderIn(f).payloadSize <= maxPayload
  {
    hide CrcValue, HeaderOf, HeaderBytes, Blanked;
    BlankedHeader(f[..HEADER_SIZE]);
  }

  // ---- Frames as packets ----

  function PacketOfFrame(f: framed, chunkId: int, offset: nat): RawPacket
  {
    RawPacket(LegacyView(HeaderIn(f)), Some(HeaderIn(f)), f[HEADER_SIZE..], chunkId, offset)
  }

  function FramePackets(frames: seq<framed>, chunkId: int, offset: nat): seq<RawPacket>
  {
    if frames == [] then []
    else [PacketOfFrame(frames[0], chunkId, offset)] + FramePackets(frames[1..], chunkId, offset + |frames[0]|)
  }

  lemma HeadOfFrame(f: framed, rest: bytes, chunkId: int, offset: nat, maxPayload: nat)
    requires ValidFrame(f, maxPayload)
    ensures Head(true, f + rest, chunkId, offset) == Some(PacketOfFrame(f, chunkId, offset))
    ensures PacketLength(PacketOfFrame(f, chunkId, offset)) == |f|
  {
    hide HeaderOf, CrcValue, LegacyView;
    var d := f + rest;
    assert d[..HEADER_SIZE] == f[..HEADER_SIZE];
    assert d[HEADER_SIZE..|f|] == f[HEADER_SIZE..];
  }

  /** A chunk of valid frames scanned as contract frames. */
  lemma {:induction false} PacketsOfFrames(frames: seq<framed>, chunkId: int, offset: nat, maxPayload: nat)
    requires AllValid(frames, maxPayload)
    ensures Packets(true, Concat(frames), chunkId, offset) == FramePackets(frames, chunkId, offset)
    decreases |frames|
  {
    hide Head, ValidFrame, PacketOfFrame, PacketLength;
    if frames == [] {
      NoPackets(true, chunkId, offset);
    } else {
      var f := frames[0];
      var rest: bytes := Concat(frames[1..]);
      assert f in frames;
      HeadOfFrame(f, rest, chunkId, offset, maxPayload);
      assert (f + rest)[|f|..] == rest;
      PacketsOfFrames(frames[1..], chunkId, offset + |f|, maxPayload);
    }
  }

  lemma NoPackets(isContract: bool, chunkId: int, offset: nat)
    ensures Packets(isContract, [], chunkId, offset) == []
  {}

  // ---- A session ----

  /** The chunk list the reader gets for these chunks. */
  function SeenChunks(contents: seq<seq<framed>>): (r: seq<OfflineChunk>)
    ensures |r| == |contents|
  {
    seq(|contents|, i requires 0 <= i < |contents| => Seen(i, InfoOf(i, contents[i])))
  }

  function SessionPackets(contents: seq<seq<framed>>): seq<RawPacket>
  {
    if contents == [] then []
    else
      var n := |contents| - 1;
      SessionPackets(contents[..n]) + FramePackets(contents[n], ToInt32(n), 0)
  }

  lemma SeenName(i: nat, frames: seq<framed>)
    ensures Seen(i, InfoOf(i, frames)).name == ChunkName(i) && Seen(i, InfoOf(i, frames)).chunkId == ToInt32(i)
  {}

  lemma FormatOfChunk(files: map<string, bytes>, frames: seq<framed>, name: string, maxPayload: nat)
    requires name in files && files[name] == Concat(frames) && AllValid(frames, maxPayload)
    ensures DetectFormat(files, name) == if frames == [] then Unknown else Contract
  {
    hide ValidFrame, HeaderOf;
    if frames != [] {
      var f := frames[0];
      assert f in frames;
      ValidFrameHasMagic(f, maxPayload);
      MagicIsFirst(f);
      assert Concat(frames)[..4] == f[..4];
    }
  }

  lemma MagicIsFirst(f: framed)
    ensures FromLe(f[..4]) == HeaderOf(f[..HEADER_SIZE]).magic
  {
    hide FromLe;
    assert f[..HEADER_SIZE][0..4] == f[..4];
  }

  predicate FormatFits(files: map<string, bytes>, format: Format, chunks: seq<OfflineChunk>)
  {
    format == if chunks == [] then Unknown else DetectFormat(files, chunks[0].name)
  }

  lemma ChunkOfSession(files: map<string, bytes>, contents: seq<seq<framed>>, format: Format, i: nat, maxPayload: nat)
    requires FilesHold(files, contents) && AllChunksValid(contents, maxPayload) && i < |contents|
    requires FormatFits(files, format, SeenChunks(contents))
    ensures ChunkPackets(files, format, SeenChunks(contents)[i]) == FramePackets(contents[i], ToInt32(i), 0)
  {
    hide Packets, FramePackets, DetectFormat, Concat, ChunkName, Seen, InfoOf, AllValid, ToInt32;
    SeenName(0, contents[0]);
    SeenName(i, contents[i]);
    var name := ChunkName(i);
    assert ChunkName(0) in files && name in files;
    FormatOfChunk(files, contents[0], ChunkName(0), maxPayload);
    FormatOfChunk(files, contents[i], name, maxPayload);
    PacketsOfFrames(contents[i], ToInt32(i), 0, maxPayload);
    if contents[i] == [] {
      ConcatOfNothing();
      NoPackets(true, ToInt32(i), 0);
      NoPackets(false, ToInt32(i), 0);
    }
  }

  /** Scanning the files of any recorded session, empty chunks included, gives its frames in order. */
  lemma {:induction false} ScanReadsSession(files: map<string, bytes>, contents: seq<seq<framed>>, format: Format,
      maxPayload: nat, n: nat)
    requires FilesHold(files, contents) && AllChunksValid(contents, maxPayload) && n <= |contents|
    requires FormatFits(files, format, SeenChunks(contents))
    ensures AllPackets(files, format, SeenChunks(contents)[..n]) == SessionPackets(contents[..n])
  {
    hide FilesHold, AllChunksValid, FormatFits, ChunkPackets, FramePackets, Seen, InfoOf, ToInt32;
    if n == 0 {
    } else {
      ScanReadsSession(files, contents, format, maxPayload, n - 1);
      ChunkOfSession(files, contents, format, n - 1, maxPayload);
      var chunks := SeenChunks(contents);
      assert chunks[..n][..n - 1] == chunks[..n - 1] && contents[..n][..n - 1] == contents[..n - 1];
    }
  }

  /** The frame a packet was read from. */
  function FrameOf(p: RawPacket): bytes
  {
    match p.contract
    case Some(h) => HeaderBytes(h) + p.payload
    case None => SerializeHeader(p.header) + p.payload
  }

  function FramesIn(ps: seq<RawPacket>): (r: seq<bytes>)
    ensures |r| == |ps|
  {
    seq(|ps|, i requires 0 <= i < |ps| => FrameOf(ps[i]))
  }

  lemma FrameOfPacket(f: framed, chunkId: int, offset: nat)
    ensures FrameOf(PacketOfFrame(f, chunkId, offset)) == f
  {
    hide HeaderOf, HeaderBytes, LegacyView;
    HeaderRoundTrip(f[..HEADER_SIZE]);
    assert f == f[..HEADER_SIZE] + f[HEADER_SIZE..];
  }

  ghost predicate AllRecheck(ps: seq<RawPacket>)
  {
    forall p :: p in ps ==> p.contract.Some? && Rechecks(p.contract.value, p.payload)
  }

  lemma {:induction false} FramesOfPackets(frames: seq<framed>, chunkId: int, offset: nat, maxPayload: nat)
    requires AllValid(frames, maxPayload)
    ensures FramesIn(FramePackets(frames, chunkId, offset)) == frames
    ensures AllRecheck(FramePackets(frames, chunkId, offset))
    decreases |frames|
  {
    hide FrameOf, PacketOfFrame, ValidFrame, Rechecks, HeaderIn;
    if frames == [] {
    } else {
      var f, rest := frames[0], FramePackets(frames[1..], chunkId, offset + |frames[0]|);
      assert f in frames;
      FramesOfPackets(frames[1..], chunkId, offset + |f|, maxPayload);
      FrameOfPacket(f, chunkId, offset);
      RecheckIsValidation(f, maxPayload);
      PacketFields(f, chunkId, offset);
      assert FramesIn([PacketOfFrame(f, chunkId, offset)] + rest) == [f] + FramesIn(rest);
      assert frames == [f] + frames[1..];
    }
  }

  lemma PacketFields(f: framed, chunkId: int, offset: nat)
    ensures PacketOfFrame(f, chunkId, offset).contract == Some(HeaderIn(f))
    ensures PacketOfFrame(f, chunkId, offset).payload == f[HEADER_SIZE..]
  {}

  lemma FramesInConcat(a: seq<RawPacket>, b: seq<RawPacket>)
    ensures FramesIn(a + b) == FramesIn(a) + FramesIn(b)
  {
    hide FrameOf;
    var f, g := FramesIn(a + b), FramesIn(a) + FramesIn(b);
    forall i | 0 <= i < |f|
      ensures f[i] == g[i]
    {
      assert f[i] == FrameOf((a + b)[i]);
    }
  }

  /** The headers and payloads of the scanned session are those of its frames, and each passes
      the pipeline's check. */
  lemma {:induction false} SessionFrames(contents: seq<seq<framed>>, maxPayload: nat)
    requires AllChunksValid(contents, maxPayload)
    ensures FramesIn(SessionPackets(contents)) == AllFrames(contents)
    ensures AllRecheck(SessionPackets(contents))
  {
    hide FrameOf, AllValid, FramePackets, FramesIn, ToInt32;
    if contents == [] {
      NoFramesIn();
    } else {
      var n := |contents| - 1;
      SessionFrames(contents[..n], maxPayload);
      FramesOfPackets(contents[n], ToInt32(n), 0, maxPayload);
      FramesInConcat(SessionPackets(contents[..n]), FramePackets(contents[n], ToInt32(n), 0));
    }
  }

  lemma NoFramesIn()
    ensures FramesIn([]) == []
  {}

  lemma SeenInfos(contents: seq<seq<framed>>)
    ensures seq(|Infos(contents)|, i requires 0 <= i < |Infos(contents)| => Seen(i, Infos(contents)[i]))
            == SeenChunks(contents)
  {
    hide Seen, InfoOf;
  }

  // ---- A manifest that cannot be read ----

  /** An empty frame that begins at this time. */
  function LateFrame(t0Ns: uint64): bytes
  {
    HeaderBytes(Sealed(EgoFrameHeader(0, 0, 0, 0, 0, 0, 0, 0, t0Ns, 0, 0, 0, 0, 0), []))
  }

  lemma LateFrameIsValid(t0Ns: uint64, maxPayload: nat)
    ensures var f := LateFrame(t0Ns);
            ValidFrame(f, maxPayload) && |f| == HEADER_SIZE && HeaderOf(f[..HEADER_SIZE]).t0Ns == t0Ns
  {
    hide HeaderBytes, HeaderOf, ValidFrame, CrcValue;
    var h := EgoFrameHeader(0, 0, 0, 0, 0, 0, 0, 0, t0Ns, 0, 0, 0, 0, 0);
    SealedFrameIsValid(h, [], maxPayload);
    var b := HeaderBytes(Sealed(h, []));
    assert b + [] == b && b[..HEADER_SIZE] == b;
  }

  /** One valid frame stamped 2^63 or later is recorded, and the manifest of its session cannot be
      read at all. */
  lemma LateFrameLosesTheManifest(t0Ns: uint64, maxPayload: nat, chunkMaxBytes: nat)
    requires t0Ns >= TWO_63 && chunkMaxBytes > 0
    ensures var contents := AfterWrites([WriteCall(LateFrame(t0Ns), false)], chunkMaxBytes);
            && ValidFrame(LateFrame(t0Ns), maxPayload)
            && contents == [[LateFrame(t0Ns)]]
            && ParseText(ManifestText(Infos(contents))) == Err
  {
    hide ValidFrame, HeaderOf, LateFrame, ParseText, ManifestText, Infos, Concat, AfterWrites, Written, AllChunksFit,
         HeaderIn;
    LateFrameIsValid(t0Ns, maxPayload);
    var f := LateFrame(t0Ns);
    ValidFrameHasMagic(f, maxPayload);
    OneWrite(f, chunkMaxBytes);
    LateChunk(f);
    ManifestTextReadsBack(Infos([[f]]));
  }

  lemma OneWrite(f: framed, chunkMaxBytes: nat)
    requires HeaderOf(f[..HEADER_SIZE]).magic == FRAME_MAGIC && chunkMaxBytes > 0
    ensures AfterWrites([WriteCall(f, false)], chunkMaxBytes) == [[f]]
  {
    hide HeaderOf;
    var calls := [WriteCall(f, false)];
    assert calls[..0] == [];
    assert AfterWrites(calls[..0], chunkMaxBytes) == [[]];
    FirstFrameWritten(f, chunkMaxBytes);
  }

  lemma LateChunk(f: framed)
    requires HeaderOf(f[..HEADER_SIZE]).t0Ns >= TWO_63
    ensures !AllChunksFit(Infos([[f]]), 0)
  {
    hide HeaderOf, ChunkName, Concat;
    var frames: seq<framed> := [f];
    assert InfoOf(0, frames).firstTs == HeaderIn(f).t0Ns;
    assert Infos([frames])[0] == InfoOf(0, frames);
    assert !ChunkFits(0, Infos([frames])[0]);
  }

  datatype Replay = Replay(packets: seq<RawPacket>, rejected: nat)

  /** A whole life of a session: recorded with any rotation and flush timing, closed, checked,
      then opened offline through its manifest and scanned with the pipeline's check. If the
      manifest's numbers fit 63 bits, the scan hands over exactly the recorded frames, in order,
      and none fails the check; if not, the manifest cannot be read. */
  method RecordAndReplay(calls: seq<WriteCall>, flushDue: seq<bool>, chunkMaxBytes: nat, flushPackets: nat,
      maxPayload: nat)
    returns (replay: Option<Replay>)
    requires AllValid(FramesOf(calls), maxPayload) && |flushDue| == |calls|
    requires |AfterWrites(calls, chunkMaxBytes)| <= TWO_32
    ensures replay.Some? <==> AllChunksFit(Infos(AfterWrites(calls, chunkMaxBytes)), 0)
    ensures replay.Some? ==>
              && FramesIn(replay.value.packets) == FramesOf(calls)
              && replay.value.packets == SessionPackets(AfterWrites(calls, chunkMaxBytes))
              && replay.value.rejected == 0
  {
    hide ValidFrame, AllFrames, FilesHold, Infos, Concat, ManifestText, ParseText, ManifestOf, HeaderOf, AllPackets,
         Scanned, DetectFormat, SessionPackets, FramesIn, AllChunksFit, Rechecks, AfterWrites, FramesOf,
         AllChunksValid, Seen, InfoOf;
    var w, result := RecordAndCheck(calls, flushDue, chunkMaxBytes, flushPackets, maxPayload);
    ghost var contents := w.contents;
    assert AllFrames(contents) == FramesOf(calls);
    ManifestTextReadsBack(Infos(contents));
    var m := FromJson(w.manifest.value, w.files.Keys);
    if m == None {
      return None;
    }
    assert AllChunksFit(Infos(contents), 0);
    ManifestReadsBack(Infos(contents));
    SeenInfos(contents);
    var reader := new EgoLogReader(w.files, m.value.chunks);
    var packets := reader.Scan(p => true);
    ScannedAll(reader.files, reader.format, reader.chunks, p => true);
    ChunksOfValidFrames(contents, maxPayload);
    assert reader.chunks[..|contents|] == reader.chunks && contents[..|contents|] == contents;
    ScanReadsSession(w.files, contents, reader.format, maxPayload, |contents|);
    SessionFrames(contents, maxPayload);
    assert FramesIn(SessionPackets(contents)) == AllFrames(contents);
    assert reader.chunks == SeenChunks(contents);
    assert packets == AllPackets(w.files, reader.format, reader.chunks);
    assert packets == SessionPackets(contents);
    assert FramesIn(packets) == FramesOf(calls);
    var rejected := 0;
    for i := 0 to |packets|
      invariant rejected == 0
    {
      assert packets[i] in packets;
      var ok := RecheckContract(packets[i].contract.value, packets[i].payload);
      if !ok {
        rejected := rejected + 1;
      }
    }
    replay := Some(Replay(packets, rejected));
  }
}
