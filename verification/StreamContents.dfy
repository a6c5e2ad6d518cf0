/** What the deframer makes of frames that are whole but bad: byte by byte, in both modes. */
module StreamContents {
  import opened Bytes
  import opened Crc32
  import opened ContractFrame
  import opened LegacyPacket
  import opened StreamFraming

  // ---- Whole frames around any packets ----

  /** The deframer takes these bytes for one packet: in the bare mode by magic and size field, in the
      wrapped mode by the outer frame alone. */
  predicate Framable(p: Policy, f: bytes, maxPayload: nat)
  {
    |f| >= 34 &&
    if p == Off then FromLe(f[0..4]) == PACKET_MAGIC && FromLe(f[10..14]) == |f| - 34 <= maxPayload else |f| <= 4087
  }

  /** The valid ones of the packets. */
  function ValidOnes(packets: seq<bytes>, maxPayload: nat): (r: seq<bytes>)
    ensures |r| <= |packets|
  {
    if packets == [] then []
    else
      (if ValidPacket(packets[0], maxPayload) then [packets[0]] else []) + ValidOnes(packets[1..], maxPayload)
  }

  lemma BareFrameTurn(f: bytes, rest: bytes, maxPayload: nat)
    requires Framable(Off, f, maxPayload)
    ensures PacketTurn(f + rest, maxPayload) == Take(f, |f|)
  {
    hide FromLe;
    var b := f + rest;
    assert b[0..4] == f[0..4] && b[10..14] == f[10..14] && b[..|f|] == f;
  }

  lemma FrameTurn(p: Policy, version: byte, f: bytes, rest: bytes, maxPayload: nat)
    requires Framable(p, f, maxPayload)
    ensures TurnOf(p, Framed(p, version, f) + rest, maxPayload) == Take(f, |Framed(p, version, f)|)
  {
    hide PacketTurn, WrappedTurn, Wrap, FromLe;
    if p == Off {
      BareFrameTurn(f, rest, maxPayload);
    } else {
      WrapTurn(version, f, rest);
    }
  }

  lemma TakenCounts(s: State, f: bytes, size: nat, maxPayload: nat)
    requires size <= |s.buffer|
    ensures var t := Taken(s, f, size, maxPayload); var k := |ValidOnes([f], maxPayload)|;
            && t.buffer == s.buffer[size..] && t.handed == s.handed + ValidOnes([f], maxPayload)
            && t.stats == Stats(s.stats.framesSeen + 1, s.stats.emitted + k, s.stats.rejected + 1 - k,
                                s.stats.crcOuter, s.stats.syncLosses)
  {
    hide ValidPacket;
    var one: seq<bytes> := [f];
    assert one[1..] == [];
    assert s.handed + [] == s.handed;
  }

  lemma {:induction false} StreamIsFiltered(p: Policy, version: byte, packets: seq<bytes>, s: State, maxPayload: nat)
    requires p == On ==> forall k :: 0 <= k < |packets| ==> |packets[k]| + 9 <= MAX_WRAPPED
    requires forall f :: f in packets ==> Framable(p, f, maxPayload)
    requires s.buffer == Stream(p, version, packets)
    ensures var n, k := |packets|, |ValidOnes(packets, maxPayload)|;
            Drained(p, s, maxPayload)
              == State([], Stats(s.stats.framesSeen + n, s.stats.emitted + k, s.stats.rejected + n - k,
                                 s.stats.crcOuter, s.stats.syncLosses), s.handed + ValidOnes(packets, maxPayload))
    decreases |packets|
  {
    hide ValidPacket, TurnOf, Framed, Drained, Taken;
    DrainedStep(p, s, maxPayload);
    if packets == [] {
      EmptyWaits(p, maxPayload);
      assert s.handed + [] == s.handed;
    } else {
      var f, rest := packets[0], Stream(p, version, packets[1..]);
      assert f in packets;
      FrameTurn(p, version, f, rest, maxPayload);
      var frame := Framed(p, version, f);
      assert (frame + rest)[|frame|..] == rest;
      TakenCounts(s, f, |frame|, maxPayload);
      StreamIsFiltered(p, version, packets[1..], Taken(s, f, |frame|, maxPayload), maxPayload);
      FirstOfValid(packets, maxPayload);
      assert s.handed + (ValidOnes([f], maxPayload) + ValidOnes(packets[1..], maxPayload))
             == s.handed + ValidOnes([f], maxPayload) + ValidOnes(packets[1..], maxPayload);
    }
  }

  lemma FirstOfValid(packets: seq<bytes>, maxPayload: nat)
    requires packets != []
    ensures ValidOnes(packets, maxPayload)
            == ValidOnes([packets[0]], maxPayload) + ValidOnes(packets[1..], maxPayload)
  {
    hide ValidPacket;
    var one: seq<bytes> := [packets[0]];
    assert one[1..] == [];
  }

  /** Whole frames around any packets, cut into any chunks: the valid packets are handed over in order,
      the others are rejected one by one, and the frame boundary is never lost. */
  lemma FramesAreFiltered(p: Policy, version: byte, packets: seq<bytes>, chunks: seq<bytes>, maxPayload: nat)
    requires p == On ==> forall k :: 0 <= k < |packets| ==> |packets[k]| + 9 <= MAX_WRAPPED
    requires forall f :: f in packets ==> Framable(p, f, maxPayload)
    requires Concat(chunks) == Stream(p, version, packets)
    ensures var n, valid := |packets|, ValidOnes(packets, maxPayload);
            FedAll(p, chunks, maxPayload) == State([], Stats(n, |valid|, n - |valid|, 0, 0), valid)
  {
    hide *;
    ChunkingDoesNotMatter(p, chunks, maxPayload);
    FedFresh(p, Concat(chunks), maxPayload);
    StreamIsFiltered(p, version, packets, State(Concat(chunks), Stats(0, 0, 0, 0, 0), []), maxPayload);
    assert [] + ValidOnes(packets, maxPayload) == ValidOnes(packets, maxPayload);
  }

  // ---- Broken outer frames ----

  lemma DroppedFirst(b: bytes, badCrc: bool, maxPayload: nat)
    requires TurnOf(On, b, maxPayload) == Drop(badCrc)
    ensures Fed(On, FRESH, b, maxPayload) == State(b[1..], Stats(0, 0, 1, if badCrc then 1 else 0, 1), [])
  {
    hide TurnOf, Drained, Jammed;
    FedFresh(On, b, maxPayload);
    var s := State(b, Stats(0, 0, 0, 0, 0), []);
    DrainedStep(On, s, maxPayload);
    TurnJams(b, maxPayload);
    TurnJams(b[1..], maxPayload);
    DrainedStep(On, Dropped(s, badCrc), maxPayload);
  }

  /** In the wrapped mode a frame start with a length outside 39 to 4092 is rejected as soon as the
      length is there. */
  lemma BadLengthIsRejected(chunks: seq<bytes>, maxPayload: nat)
    requires var b := Concat(chunks);
             && |b| >= 4 && b[0] == 0xA5 && b[1] == 0x5A && (FromLe(b[2..4]) < 39 || FromLe(b[2..4]) > 4092)
    ensures FedAll(On, chunks, maxPayload) == State(Concat(chunks)[1..], Stats(0, 0, 1, 0, 1), [])
  {
    hide FromLe, Fed, FedAll, CrcValue;
    ChunkingDoesNotMatter(On, chunks, maxPayload);
    DroppedFirst(Concat(chunks), false, maxPayload);
  }

  /** A whole frame whose last four bytes are not the checksum of version and packet is rejected and
      counted as a checksum failure; a shorter one is waited for. */
  lemma BadChecksumIsRejected(chunks: seq<bytes>, maxPayload: nat)
    requires var b := Concat(chunks); |b| >= 4 && b[0] == 0xA5 && b[1] == 0x5A && 39 <= FromLe(b[2..4]) <= 4092
    ensures var b := Concat(chunks); var len := FromLe(b[2..4]);
            && (|b| < 4 + len ==> FedAll(On, chunks, maxPayload) == State(b, Stats(0, 0, 0, 0, 0), []))
            && (|b| >= 4 + len && FromLe(b[len..len + 4]) != CrcValue(b[4..len]) ==>
                  FedAll(On, chunks, maxPayload) == State(b[1..], Stats(0, 0, 1, 1, 1), []))
  {
    hide FromLe, Fed, FedAll, CrcValue, Drained;
    ChunkingDoesNotMatter(On, chunks, maxPayload);
    var b := Concat(chunks);
    var len := FromLe(b[2..4]);
    if |b| < 4 + len {
      FedFresh(On, b, maxPayload);
      DrainedStep(On, State(b, Stats(0, 0, 0, 0, 0), []), maxPayload);
    } else if FromLe(b[len..len + 4]) != CrcValue(b[4..len]) {
      DroppedFirst(b, true, maxPayload);
    }
  }

  /** In the bare mode a magic with a size above the limit costs one byte, and an incomplete header or
      payload is waited for. */
  lemma OversizeIsDropped(chunks: seq<bytes>, maxPayload: nat)
    requires |Concat(chunks)| >= 34 ==> FromLe(Concat(chunks)[0..4]) == PACKET_MAGIC
    ensures var b := Concat(chunks);
            && (|b| < 34 || (FromLe(b[10..14]) <= maxPayload && |b| < 34 + FromLe(b[10..14])) ==>
                  FedAll(Off, chunks, maxPayload) == State(b, Stats(0, 0, 0, 0, 0), []))
            && (|b| >= 34 && FromLe(b[10..14]) > maxPayload ==>
                  FedAll(Off, chunks, maxPayload)
                    == Drained(Off, State(b[1..], Stats(0, 0, 1, 0, 1), []), maxPayload))
  {
    hide FromLe, Fed, FedAll, Drained;
    ChunkingDoesNotMatter(Off, chunks, maxPayload);
    FedFresh(Off, Concat(chunks), maxPayload);
    DrainedStep(Off, State(Concat(chunks), Stats(0, 0, 0, 0, 0), []), maxPayload);
  }
}
