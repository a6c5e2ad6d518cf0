/** The whole way of a frame: pushed by the receive thread, written before the stop, replayed from the
    session directory, and counted by the pipeline's accumulator. */
module EndToEnd {
  import opened Bytes
  import opened Wrappers
  import opened ContractFrame
  import opened ChunkWriter
  import opened SessionFiles
  import opened ManifestReader
  import opened LogReader
  import opened Playback
  import opened LogIndex
  import Recorder
  import StreamStatistics
  import Validator

  // ---- Recorder and replay ----

  /** The kept frames are pushed ones. */
  lemma KeptAreValid(pushed: seq<bytes>, evicted: set<nat>, maxPayload: nat)
    requires AllValid(pushed, maxPayload)
    ensures AllValid(Recorder.Frames(Recorder.Kept(pushed, evicted)), maxPayload)
  {
    hide ValidFrame, Recorder.Kept;
    var kept := Recorder.Kept(pushed, evicted);
    Recorder.KeptIds(pushed, evicted);
    forall f | f in Recorder.Frames(kept)
      ensures ValidFrame(f, maxPayload)
    {
      var i :| 0 <= i < |kept| && Recorder.Frames(kept)[i] == f;
      assert kept[i] in kept;
      assert pushed[kept[i].id] in pushed;
    }
  }

  lemma FramesOfConcat(a: seq<Recorder.Entry>, b: seq<Recorder.Entry>)
    ensures Recorder.Frames(a + b) == Recorder.Frames(a) + Recorder.Frames(b)
  {}

  /** A session closed after any interleaving of the threads, whose pushed frames were validated, is
      replayed: the pipeline gets the written frames. They are all the kept ones, that is the pushed
      ones the buffer did not drop, in arrival order, exactly when no frame was pushed after the
      drain; and a SESSION_ENDED stop sees to that. */
  method ClosedSessionReplays(ghost c: Recorder.Config, ghost acts: seq<Recorder.Action>,
      ghost r: Recorder.ClosedSession, calls: seq<WriteCall>, flushDue: seq<bool>, chunkMaxBytes: nat,
      flushPackets: nat, maxPayload: nat)
    returns (replay: Option<Replay>)
    requires Recorder.Run(c, acts).Some? && r in Recorder.Run(c, acts).value.closed
    requires AllValid(r.pushed, maxPayload)
    requires FramesOf(calls) == Recorder.Frames(r.file) && |flushDue| == |calls|
    requires |AfterWrites(calls, chunkMaxBytes)| <= TWO_32
    ensures replay.Some? <==> AllChunksFit(Infos(AfterWrites(calls, chunkMaxBytes)), 0)
    ensures replay.Some? ==>
              var kept := Recorder.Frames(Recorder.Kept(r.pushed, r.evicted));
              && replay.value.rejected == 0
              && (FramesIn(replay.value.packets) == kept <==> !r.late)
              && (r.byReceiver ==> FramesIn(replay.value.packets) == kept
                                   && |r.pushed| == |replay.value.packets| + r.dropCounter)
  {
    hide ValidFrame, Recorder.Kept, Recorder.Run, AfterWrites, AllChunksFit, Infos, FramesIn, SessionPackets;
    Recorder.AnyStopLosesAtMostOne(c, acts, r);
    KeptAreValid(r.pushed, r.evicted, maxPayload);
    FramesOfConcat(r.file, r.leftover);
    assert AllValid(FramesOf(calls), maxPayload) by {
      assert forall f :: f in FramesOf(calls) ==> f in Recorder.Frames(r.file) + Recorder.Frames(r.leftover);
    }
    if r.byReceiver {
      Recorder.SessionEndedStopConserves(c, acts, r);
    }
    assert |Recorder.Frames(r.file + r.leftover)| == |r.file| + |r.leftover|;
    if r.late {
      assert r.leftover != [] by {
        assert r.leftover == [] ==> r.file + r.leftover == r.file;
      }
    }
    replay := RecordAndReplay(calls, flushDue, chunkMaxBytes, flushPackets, maxPayload);
  }

  // ---- The accumulator on contract logs ----

  /** A frame the accumulator takes for an audio block with a sample rate of zero: the low half of
      its type is 1, and payload bytes 2 to 5 are zero. */
  predicate ZeroRateFrame(f: bytes)
  {
    && |f| >= HEADER_SIZE + 10
    && HeaderOf(f[..HEADER_SIZE]).frameType % TWO_16 == 1
    && f[HEADER_SIZE + 2..HEADER_SIZE + 6] == Zeros(4)
  }

  lemma ZeroField(b: bytes)
    requires |b| == 4
    ensures U32(b) == 0 <==> b == Zeros(4)
  {
    hide FromLe, Le;
    LeOfZero(4);
    LeOfFromLe(b);
    if b == Zeros(4) {
      U32OfLe(0);
    }
  }

  /** The packet of a frame has no sample rate to divide by exactly when the frame is of that kind. */
  lemma ZeroRateOfFrame(f: framed, chunkId: int, offset: nat)
    ensures !Validator.HasRate(PacketOfFrame(f, chunkId, offset)) <==> ZeroRateFrame(f)
  {
    hide HeaderOf, U32, Zeros;
    var p := PacketOfFrame(f, chunkId, offset);
    if |f| >= HEADER_SIZE + 10 {
      assert p.payload[2..6] == f[HEADER_SIZE + 2..HEADER_SIZE + 6];
      ZeroField(p.payload[2..6]);
    }
  }

  function Checked(ps: seq<RawPacket>): (r: seq<Validator.Fed>)
    requires forall p :: p in ps ==> p.contract.Some?
    ensures |r| == |ps|
  {
    seq(|ps|, i requires 0 <= i < |ps| => Validator.Fed(ps[i], Rechecks(ps[i].contract.value, ps[i].payload)))
  }

  predicate ZeroRateIn(ps: seq<RawPacket>)
  {
    exists i :: 0 <= i < |ps| && !Validator.HasRate(ps[i])
  }

  lemma {:induction false} AllAreValid(ps: seq<RawPacket>)
    requires AllRecheck(ps)
    ensures Validator.Valids(Checked(ps)) == ps
  {
    hide Rechecks;
    if ps == [] {
    } else {
      var n := |ps| - 1;
      assert ps[n] in ps && forall p :: p in ps[..n] ==> p in ps;
      AllAreValid(ps[..n]);
      assert Checked(ps)[..n] == Checked(ps[..n]);
      assert ps == ps[..n] + [ps[n]];
    }
  }

  /** The scan callback of the pipeline over packets that all pass its check. The accumulator does
      not finish exactly when one of them makes it divide by zero. */
  method Analyse(packets: seq<RawPacket>, fileOk: bool, cfg: Validator.Config)
    returns (r: Option<Validator.StreamValidation>)
    requires AllRecheck(packets)
    ensures r == None <==> ZeroRateIn(packets)
    ensures r.Some? ==>
              && Validator.Describes(r.value, |packets|, packets, cfg) && r.value.fileOk == fileOk
              && r.value.events == Validator.EventsOf(packets, cfg) && r.value.crcFailed == 0
  {
    hide Rechecks, Validator.Describes, Validator.EventsOf, Validator.HasRate;
    var acc := new Validator.ScanAccumulator(cfg, fileOk);
    for i := 0 to |packets|
      invariant fresh(acc) && acc.Valid() && acc.total == i && acc.valids == packets[..i]
      invariant acc.cfg == cfg && acc.sv.fileOk == fileOk
      invariant forall k :: 0 <= k < i ==> Validator.HasRate(packets[k])
    {
      assert packets[i] in packets;
      var ok := RecheckContract(packets[i].contract.value, packets[i].payload);
      var finished := acc.Feed(packets[i], ok);
      if !finished {
        return None;
      }
      assert packets[..i + 1] == packets[..i] + [packets[i]];
    }
    assert packets[..|packets|] == packets;
    r := Some(acc.sv);
  }

  predicate ZeroRateAmong(frames: seq<bytes>)
  {
    exists i :: 0 <= i < |frames| && ZeroRateFrame(frames[i])
  }

  lemma {:induction false} ZeroRateOfFrames(frames: seq<framed>, chunkId: int, offset: nat)
    ensures ZeroRateIn(FramePackets(frames, chunkId, offset)) <==> ZeroRateAmong(frames)
    decreases |frames|
  {
    hide PacketOfFrame, ZeroRateFrame, Validator.HasRate;
    if frames == [] {
    } else {
      var f, rest := frames[0], FramePackets(frames[1..], chunkId, offset + |frames[0]|);
      var p := PacketOfFrame(f, chunkId, offset);
      ZeroRateOfFrame(f, chunkId, offset);
      ZeroRateOfFrames(frames[1..], chunkId, offset + |f|);
      ZeroRateConcat([p], rest);
      AmongConcat([f], frames[1..]);
      assert [p][0] == p && [f][0] == f && frames == [f] + frames[1..];
    }
  }

  lemma ZeroRateConcat(a: seq<RawPacket>, b: seq<RawPacket>)
    ensures ZeroRateIn(a + b) <==> ZeroRateIn(a) || ZeroRateIn(b)
  {
    hide Validator.HasRate;
    if ZeroRateIn(a) {
      var i :| 0 <= i < |a| && !Validator.HasRate(a[i]);
      assert (a + b)[i] == a[i];
    }
    if ZeroRateIn(b) {
      var i :| 0 <= i < |b| && !Validator.HasRate(b[i]);
      assert (a + b)[|a| + i] == b[i];
    }
  }

  lemma AmongConcat(a: seq<bytes>, b: seq<bytes>)
    ensures ZeroRateAmong(a + b) <==> ZeroRateAmong(a) || ZeroRateAmong(b)
  {
    hide ZeroRateFrame;
    if ZeroRateAmong(a) {
      var i :| 0 <= i < |a| && ZeroRateFrame(a[i]);
      assert (a + b)[i] == a[i];
    }
    if ZeroRateAmong(b) {
      var i :| 0 <= i < |b| && ZeroRateFrame(b[i]);
      assert (a + b)[|a| + i] == b[i];
    }
  }

  lemma {:induction false} ZeroRateOfSession(contents: seq<seq<framed>>)
    ensures ZeroRateIn(SessionPackets(contents)) <==> ZeroRateAmong(AllFrames(contents))
  {
    hide FramePackets, ToInt32, ZeroRateFrame, Validator.HasRate;
    if contents == [] {
    } else {
      var n := |contents| - 1;
      ZeroRateOfSession(contents[..n]);
      ZeroRateOfFrames(contents[n], ToInt32(n), 0);
      ZeroRateConcat(SessionPackets(contents[..n]), FramePackets(contents[n], ToInt32(n), 0));
      AmongConcat(AllFrames(contents[..n]), contents[n]);
    }
  }

  // ---- The packets of the recorded frames ----

  /** What the pipeline sees of a frame is what its bytes say. */
  predicate Shows(p: RawPacket, f: bytes)
    requires |f| >= HEADER_SIZE
  {
    && p.header.tsNs == FromLe(f[40..48]) && p.header.seqNo == FromLe(f[32..40]) % TWO_32
    && p.header.packetType == FromLe(f[8..12]) % TWO_16 && p.payload == f[HEADER_SIZE..]
  }

  lemma PacketShowsFrame(f: framed, chunkId: int, offset: nat)
    ensures Shows(PacketOfFrame(f, chunkId, offset), f)
  {
    hide FromLe, Pow256;
    var h := f[..HEADER_SIZE];
    assert h[8..12] == f[8..12] && h[32..40] == f[32..40] && h[40..48] == f[40..48];
    PowersOf256();
    FromLeBound(f[40..48]);
  }

  predicate AllShow(ps: seq<RawPacket>, frames: seq<bytes>)
  {
    |ps| == |frames| && forall i :: 0 <= i < |ps| ==> |frames[i]| >= HEADER_SIZE && Shows(ps[i], frames[i])
  }

  lemma AllShowConcat(a: seq<RawPacket>, b: seq<RawPacket>, f: seq<bytes>, g: seq<bytes>)
    requires AllShow(a, f) && AllShow(b, g)
    ensures AllShow(a + b, f + g)
  {
    hide Shows;
  }

  lemma {:induction false} PacketsShowFrames(frames: seq<framed>, chunkId: int, offset: nat)
    ensures AllShow(FramePackets(frames, chunkId, offset), frames)
    decreases |frames|
  {
    hide PacketOfFrame, Shows;
    if frames == [] {
    } else {
      var f := frames[0];
      PacketShowsFrame(f, chunkId, offset);
      PacketsShowFrames(frames[1..], chunkId, offset + |f|);
      AllShowConcat([PacketOfFrame(f, chunkId, offset)], FramePackets(frames[1..], chunkId, offset + |f|),
                    [f], frames[1..]);
      assert frames == [f] + frames[1..];
    }
  }

  /** Packet i of a scanned session shows frame i of the recording. */
  lemma {:induction false} SessionShowsFrames(contents: seq<seq<framed>>)
    ensures AllShow(SessionPackets(contents), AllFrames(contents))
  {
    hide AllShow, FramePackets, ToInt32;
    if contents == [] {
      NothingShown();
    } else {
      var n := |contents| - 1;
      SessionShowsFrames(contents[..n]);
      PacketsShowFrames(contents[n], ToInt32(n), 0);
      AllShowConcat(SessionPackets(contents[..n]), FramePackets(contents[n], ToInt32(n), 0),
                    AllFrames(contents[..n]), contents[n]);
    }
  }

  lemma NothingShown()
    ensures AllShow([], [])
  {}

  /** The start time of a frame as the signed number the pipeline takes it for. */
  function StartTime(f: bytes): int
    requires |f| >= HEADER_SIZE
  {
    var t := FromLe(f[40..48]);
    if t < TWO_63 then t else t as int - TWO_64
  }

  /** The first time is the least start time; the last is the greatest, but at least 0. */
  ghost predicate Spans(sv: Validator.StreamValidation, frames: seq<bytes>)
  {
    && (forall f :: f in frames ==> |f| >= HEADER_SIZE && sv.tFirst <= StartTime(f) <= sv.tLast)
    && (frames != [] ==> exists f :: f in frames && sv.tFirst == StartTime(f))
    && (sv.tLast == 0 || exists f :: f in frames && sv.tLast == StartTime(f))
    && sv.tLast >= 0
  }

  lemma SpanOfFrames(sv: Validator.StreamValidation, ps: seq<RawPacket>, frames: seq<bytes>)
    requires AllShow(ps, frames) && sv.tFirst == Validator.Earliest(ps) && sv.tLast == Validator.Latest(ps)
    ensures Spans(sv, frames)
  {
    hide FromLe, Validator.Earliest, Validator.Latest;
    forall i | 0 <= i < |ps|
      ensures TimeOf(ps[i]) == StartTime(frames[i])
    {
      assert Shows(ps[i], frames[i]);
    }
    hide TimeOf, StartTime, Shows;
    StreamStatistics.LatestIsGreatest(ps);
    if ps != [] {
      StreamStatistics.EarliestIsLeast(ps);
    }
  }

  datatype Analysis = NoManifest | DividedByZero | Analysed(sv: Validator.StreamValidation)

  /** Record, replay, analyse: with a readable manifest the analysis divides by zero exactly when some
      recorded frame has type 1 modulo 2^16 and a zero rate word. Otherwise every recorded frame is
      counted as a valid packet, packet i shows frame i, and first and last time are the least and
      greatest start times of the frames. */
  method RecordAndAnalyse(calls: seq<WriteCall>, flushDue: seq<bool>, chunkMaxBytes: nat, flushPackets: nat,
      maxPayload: nat, cfg: Validator.Config)
    returns (r: Analysis)
    requires AllValid(FramesOf(calls), maxPayload) && |flushDue| == |calls|
    requires |AfterWrites(calls, chunkMaxBytes)| <= TWO_32
    ensures r == NoManifest <==> !AllChunksFit(Infos(AfterWrites(calls, chunkMaxBytes)), 0)
    ensures r == DividedByZero <==> r != NoManifest && ZeroRateAmong(FramesOf(calls))
    ensures r.Analysed? ==>
              var packets := SessionPackets(AfterWrites(calls, chunkMaxBytes));
              && Validator.Describes(r.sv, |calls|, packets, cfg) && r.sv.events == Validator.EventsOf(packets, cfg)
              && r.sv.valid == |calls| && r.sv.crcFailed == 0
              && AllShow(packets, FramesOf(calls)) && Spans(r.sv, FramesOf(calls))
  {
    hide AllShow, Spans, ValidFrame, AfterWrites, AllChunksFit, Infos, FramesIn, SessionPackets, AllFrames, ZeroRateIn,
         ZeroRateAmong, AllRecheck, AllChunksValid;
    var replay := RecordAndReplay(calls, flushDue, chunkMaxBytes, flushPackets, maxPayload);
    if replay == None {
      return NoManifest;
    }
    ghost var contents := AfterWrites(calls, chunkMaxBytes);
    var packets := replay.value.packets;
    AllFramesWritten(calls, chunkMaxBytes, maxPayload);
    ChunksOfValidFrames(contents, maxPayload);
    SessionFrames(contents, maxPayload);
    ZeroRateOfSession(contents);
    assert |packets| == |FramesIn(packets)| == |calls|;
    var sv := Analyse(packets, true, cfg);
    SessionShowsFrames(contents);
    if sv.Some? {
      SpanOfFrames(sv.value, packets, FramesOf(calls));
    }
    r := if sv == None then DividedByZero else Analysed(sv.value);
  }

  /** A SESSION_STARTED frame with ten zero payload bytes. */
  function StartedFrame(): bytes
  {
    HeaderBytes(Sealed(EgoFrameHeader(0, 0, 0, 1, 0, 0, 0, 0, 0, 0, 0, 0, 0, 0), Zeros(10))) + Zeros(10)
  }

  /** It is valid for the recorder and makes the pipeline divide by zero. */
  lemma StartedFrameDividesByZero(maxPayload: nat)
    requires maxPayload >= 10
    ensures ValidFrame(StartedFrame(), maxPayload) && ZeroRateFrame(StartedFrame())
  {
    hide HeaderBytes, HeaderOf, Sealed, ValidFrame, Zeros;
    var h := EgoFrameHeader(0, 0, 0, 1, 0, 0, 0, 0, 0, 0, 0, 0, 0, 0);
    SealedFrameIsValid(h, Zeros(10), maxPayload);
    SealedKeepsType(h, Zeros(10));
    ZerosInside();
    assert StartedFrame()[HEADER_SIZE + 2..HEADER_SIZE + 6] == Zeros(10)[2..6];
  }

  lemma SealedKeepsType(h: EgoFrameHeader, payload: bytes)
    ensures Sealed(h, payload).frameType == h.frameType
  {
    hide HeaderBytes;
  }

  lemma ZerosInside()
    ensures Zeros(10)[2..6] == Zeros(4)
  {}
}
