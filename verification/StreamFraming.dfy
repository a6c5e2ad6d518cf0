/** The incremental deframer `Sc589Unwrap` in its two fixed modes: bare packets, and packets
    wrapped in A5 5A frames with an outer checksum. */
module StreamFraming {
  import opened Bytes
  import opened Crc32
  import opened Wrappers
  import opened ContractFrame
  import opened LegacyPacket

  datatype Policy = Off | On

  datatype Stats = Stats(framesSeen: nat, emitted: nat, rejected: nat, crcOuter: nat, syncLosses: nat)

  /** The deframer: unread bytes, statistics, and the packets handed over. */
  datatype State = State(buffer: bytes, stats: Stats, handed: seq<bytes>)

  const FRESH: State := State([], Stats(0, 0, 0, 0, 0), [])

  /** One turn of the consume loop: wait for bytes, drop one byte, or take a frame of this size. */
  datatype Turn = Wait | Drop(badCrc: bool) | Take(packet: bytes, size: nat)

  const MAX_WRAPPED: nat := 4096

  function PacketTurn(b: bytes, maxPayload: nat): (t: Turn)
    ensures t.Take? ==> 0 < t.size <= |b|
    ensures t.Drop? ==> b != []
  {
    if |b| < PACKET_HEADER_SIZE then Wait
    else
      var h := HeaderAt(b);
      if h.magic != PACKET_MAGIC || h.payloadSize > maxPayload then Drop(false)
      else if |b| < PACKET_HEADER_SIZE + h.payloadSize then Wait
      else Take(b[..PACKET_HEADER_SIZE + h.payloadSize], PACKET_HEADER_SIZE + h.payloadSize)
  }

  predicate StartsWithSof(b: bytes)
  {
    |b| >= 2 && b[0] == 0xA5 && b[1] == 0x5A
  }

  function WrappedTurn(b: bytes): (t: Turn)
    ensures t.Take? ==> 0 < t.size <= |b|
    ensures t.Drop? ==> b != []
  {
    if !StartsWithSof(b) || |b| < 4 then Wait
    else
      var len := U16(b[2..4]);
      if len < 1 + PACKET_HEADER_SIZE + 4 || 4 + len > MAX_WRAPPED then Drop(false)
      else if |b| < 4 + len then Wait
      else if CrcValue(b[4..len]) != U32(b[len..len + 4]) then Drop(true)
      else Take(b[5..len], 4 + len)
  }

  function TurnOf(p: Policy, b: bytes, maxPayload: nat): (t: Turn)
    ensures t.Take? ==> 0 < t.size <= |b|
    ensures t.Drop? ==> b != []
  {
    if p == Off then PacketTurn(b, maxPayload) else WrappedTurn(b)
  }

  /** A taken packet is handed over if it validates and counted as rejected if not. */
  function Emitted(s: State, packet: bytes, maxPayload: nat): State
  {
    if ValidPacket(packet, maxPayload) then s.(handed := s.handed + [packet],
        stats := s.stats.(emitted := s.stats.emitted + 1))
    else s.(stats := s.stats.(rejected := s.stats.rejected + 1))
  }

  function Dropped(s: State, badCrc: bool): State
    requires s.buffer != []
  {
    s.(buffer := s.buffer[1..],
       stats := s.stats.(rejected := s.stats.rejected + 1, syncLosses := s.stats.syncLosses + 1,
                         crcOuter := s.stats.crcOuter + if badCrc then 1 else 0))
  }

  function Taken(s: State, packet: bytes, size: nat, maxPayload: nat): State
    requires size <= |s.buffer|
  {
    Emitted(s.(buffer := s.buffer[size..], stats := s.stats.(framesSeen := s.stats.framesSeen + 1)), packet, maxPayload)
  }

  /** The consume loop. */
  function Drained(p: Policy, s: State, maxPayload: nat): State
    decreases |s.buffer|
  {
    match TurnOf(p, s.buffer, maxPayload)
    case Wait => s
    case Drop(badCrc) => Drained(p, Dropped(s, badCrc), maxPayload)
    case Take(packet, size) => Drained(p, Taken(s, packet, size, maxPayload), maxPayload)
  }

  function Fed(p: Policy, s: State, data: bytes, maxPayload: nat): State
  {
    Drained(p, s.(buffer := s.buffer + data), maxPayload)
  }

  function FedAll(p: Policy, chunks: seq<bytes>, maxPayload: nat): State
  {
    if chunks == [] then FRESH
    else Fed(p, FedAll(p, chunks[..|chunks| - 1], maxPayload), chunks[|chunks| - 1], maxPayload)
  }

  // ---- The splitting of the input does not matter ----

  /** A turn that does not wait is decided by bytes already there. */
  lemma TurnIsStable(p: Policy, b: bytes, more: bytes, maxPayload: nat)
    requires !TurnOf(p, b, maxPayload).Wait?
    ensures TurnOf(p, b + more, maxPayload) == TurnOf(p, b, maxPayload)
  {
    hide U16, U32, CrcValue, HeaderAt;
    var c := b + more;
    if p == Off {
      HeaderIsStable(b, more);
      var n := PACKET_HEADER_SIZE + HeaderAt(b).payloadSize;
      if n <= |b| {
        assert c[..n] == b[..n];
      }
    } else {
      assert c[2..4] == b[2..4];
      var len := U16(b[2..4]);
      if 5 <= len && 4 + len <= |b| {
        assert c[4..len] == b[4..len] && c[len..len + 4] == b[len..len + 4] && c[5..len] == b[5..len];
      }
    }
  }

  lemma HeaderIsStable(b: bytes, more: bytes)
    requires |b| >= PACKET_HEADER_SIZE
    ensures HeaderAt(b + more) == HeaderAt(b)
  {
    hide U16, U32, U64;
    var c := b + more;
    assert c[0..4] == b[0..4] && c[4..6] == b[4..6] && c[6..8] == b[6..8] && c[8..10] == b[8..10]
           && c[10..14] == b[10..14];
    assert c[14..22] == b[14..22] && c[22..26] == b[22..26] && c[26..30] == b[26..30] && c[30..34] == b[30..34];
  }

  /** Draining early changes nothing about what is drained later. */
  lemma {:induction false} DrainFirst(p: Policy, s: State, more: bytes, maxPayload: nat)
    ensures Drained(p, s.(buffer := s.buffer + more), maxPayload)
              == Drained(p, Drained(p, s, maxPayload).(buffer := Drained(p, s, maxPayload).buffer + more), maxPayload)
    decreases |s.buffer|
  {
    hide TurnOf, ValidPacket, Drained;
    var t := TurnOf(p, s.buffer, maxPayload);
    DrainedStep(p, s, maxPayload);
    if t.Wait? {
    } else {
      TurnIsStable(p, s.buffer, more, maxPayload);
      DrainedStep(p, s.(buffer := s.buffer + more), maxPayload);
      var b := s.buffer + more;
      if t.Drop? {
        assert b[1..] == s.buffer[1..] + more;
        DrainFirst(p, Dropped(s, t.badCrc), more, maxPayload);
      } else {
        assert b[t.size..] == s.buffer[t.size..] + more;
        DrainFirst(p, Taken(s, t.packet, t.size, maxPayload), more, maxPayload);
      }
    }
  }

  lemma NothingToDrain(p: Policy, maxPayload: nat)
    ensures Drained(p, FRESH, maxPayload) == FRESH
  {}

  /** In both modes the packets, the statistics and the left-over bytes depend only on the bytes
      fed, never on how they were split into chunks. */
  lemma {:induction false} ChunkingDoesNotMatter(p: Policy, chunks: seq<bytes>, maxPayload: nat)
    ensures FedAll(p, chunks, maxPayload) == Fed(p, FRESH, Concat(chunks), maxPayload)
  {
    hide Drained, Concat;
    if chunks == [] {
      NothingToDrain(p, maxPayload);
      NothingConcat();
      assert FRESH.buffer + [] == FRESH.buffer;
    } else {
      var n := |chunks| - 1;
      ChunkingDoesNotMatter(p, chunks[..n], maxPayload);
      var c := Concat(chunks[..n]);
      DrainFirst(p, FRESH.(buffer := FRESH.buffer + c), chunks[n], maxPayload);
      ConcatOfSnoc(chunks[..n], chunks[n]);
      assert chunks == chunks[..n] + [chunks[n]];
      assert FRESH.buffer + c + chunks[n] == FRESH.buffer + (c + chunks[n]);
    }
  }

  lemma NothingConcat()
    ensures Concat([]) == []
  {}

  // ---- Valid streams are emitted exactly ----

  lemma ValidPacketTurn(f: bytes, rest: bytes, maxPayload: nat)
    requires ValidPacket(f, maxPayload)
    ensures PacketTurn(f + rest, maxPayload) == Take(f, |f|)
  {
    hide HeaderAt, CrcValue;
    HeaderIsStable(f, rest);
    assert (f + rest)[..|f|] == f;
  }

  /** A5 5A, the length, a version byte, the packet, and the checksum of version and packet. */
  function Wrap(version: byte, packet: bytes): bytes
    requires |packet| + 9 <= MAX_WRAPPED
  {
    CrcIsWord([version] + packet);
    [0xA5, 0x5A] + Le(|packet| + 5, 2) + [version] + packet + Le(CrcValue([version] + packet), 4)
  }

  /** The wrapped mode takes any whole frame, whatever the packet inside. */
  lemma WrapTurn(version: byte, f: bytes, rest: bytes)
    requires PACKET_HEADER_SIZE <= |f| && |f| + 9 <= MAX_WRAPPED
    ensures WrappedTurn(Wrap(version, f) + rest) == Take(f, |Wrap(version, f)|)
  {
    hide CrcValue, U16, U32, Le;
    var b := Wrap(version, f) + rest;
    var len := |f| + 5;
    var crc := CrcValue([version] + f);
    CrcIsWord([version] + f);
    assert b[2..4] == Le(len, 2);
    U16OfLe(len);
    assert b[4..len] == [version] + f;
    assert b[len..len + 4] == Le(crc, 4);
    U32OfLe(crc);
    assert b[5..len] == f;
  }

  /** What one valid packet looks like in the stream. */
  function Framed(p: Policy, version: byte, packet: bytes): bytes
    requires p == On ==> |packet| + 9 <= MAX_WRAPPED
  {
    if p == Off then packet else Wrap(version, packet)
  }

  function Stream(p: Policy, version: byte, packets: seq<bytes>): bytes
    requires p == On ==> forall k :: 0 <= k < |packets| ==> |packets[k]| + 9 <= MAX_WRAPPED
  {
    if packets == [] then [] else Framed(p, version, packets[0]) + Stream(p, version, packets[1..])
  }

  lemma FramedTurn(p: Policy, version: byte, f: bytes, rest: bytes, maxPayload: nat)
    requires ValidPacket(f, maxPayload) && (p == On ==> |f| + 9 <= MAX_WRAPPED)
    ensures TurnOf(p, Framed(p, version, f) + rest, maxPayload) == Take(f, |Framed(p, version, f)|)
  {
    hide HeaderAt, CrcValue, PacketTurn, WrappedTurn, Wrap;
    if p == Off {
      ValidPacketTurn(f, rest, maxPayload);
    } else {
      WrapTurn(version, f, rest);
    }
  }

  lemma {:induction false} StreamIsEmitted(p: Policy, version: byte, packets: seq<bytes>, s: State, maxPayload: nat)
    requires forall f :: f in packets ==> ValidPacket(f, maxPayload)
    requires p == On ==> forall k :: 0 <= k < |packets| ==> |packets[k]| + 9 <= MAX_WRAPPED
    requires s.buffer == Stream(p, version, packets)
    ensures var n := |packets|; var r := Drained(p, s, maxPayload);
            && r.buffer == [] && r.handed == s.handed + packets
            && r.stats == s.stats.(framesSeen := s.stats.framesSeen + n, emitted := s.stats.emitted + n)
    decreases |packets|
  {
    hide ValidPacket, TurnOf, Framed;
    if packets == [] {
      EmptyWaits(p, maxPayload);
    } else {
      var f, rest := packets[0], Stream(p, version, packets[1..]);
      assert f in packets;
      FramedTurn(p, version, f, rest, maxPayload);
      var frame := Framed(p, version, f);
      assert (frame + rest)[|frame|..] == rest;
      StreamIsEmitted(p, version, packets[1..], Taken(s, f, |frame|, maxPayload), maxPayload);
      assert s.handed + packets == s.handed + [f] + packets[1..];
    }
  }

  lemma EmptyWaits(p: Policy, maxPayload: nat)
    ensures TurnOf(p, [], maxPayload) == Wait
  {}

  /** A stream of valid packets, bare or correctly wrapped, cut into any chunks: exactly the packets
      are handed over, in order; nothing is rejected, lost or left over. */
  lemma ValidStreamIsEmitted(p: Policy, version: byte, packets: seq<bytes>, chunks: seq<bytes>, maxPayload: nat)
    requires forall f :: f in packets ==> ValidPacket(f, maxPayload)
    requires p == On ==> forall k :: 0 <= k < |packets| ==> |packets[k]| + 9 <= MAX_WRAPPED
    requires Concat(chunks) == Stream(p, version, packets)
    ensures FedAll(p, chunks, maxPayload) == State([], Stats(|packets|, |packets|, 0, 0, 0), packets)
  {
    hide ValidPacket, Stream, Drained, Concat;
    ChunkingDoesNotMatter(p, chunks, maxPayload);
    var s := FRESH.(buffer := FRESH.buffer + Concat(chunks));
    assert s.buffer == Stream(p, version, packets);
    StreamIsEmitted(p, version, packets, s, maxPayload);
    assert FRESH.handed + packets == packets;
  }

  // ---- The bare mode finds its way back ----

  /** A packet could start at position i. */
  predicate MagicAt(b: bytes, i: nat)
  {
    i + 4 <= |b| && U32(b[i..i + 4]) == PACKET_MAGIC
  }

  lemma JunkTurn(b: bytes, maxPayload: nat)
    requires |b| >= PACKET_HEADER_SIZE && !MagicAt(b, 0)
    ensures TurnOf(Off, b, maxPayload) == Drop(false)
  {
    hide U16, U32, U64;
  }

  lemma MagicLater(b: bytes, i: nat)
    requires b != []
    ensures MagicAt(b[1..], i) <==> MagicAt(b, i + 1)
  {
    hide U32;
    if i + 5 <= |b| {
      assert b[1..][i..i + 4] == b[i + 1..i + 5];
    }
  }

  lemma StreamHasHeader(packets: seq<bytes>, maxPayload: nat)
    requires packets != [] && ValidPacket(packets[0], maxPayload)
    ensures |Stream(Off, 0, packets)| >= PACKET_HEADER_SIZE
  {
    hide HeaderAt;
  }

  lemma {:induction false} JunkIsDrained(junk: bytes, packets: seq<bytes>, s: State, maxPayload: nat)
    requires packets != [] && forall f :: f in packets ==> ValidPacket(f, maxPayload)
    requires s.buffer == junk + Stream(Off, 0, packets)
    requires forall i :: 0 <= i < |junk| ==> !MagicAt(s.buffer, i)
    ensures var n, k := |packets|, |junk|;
            Drained(Off, s, maxPayload)
              == State([], Stats(s.stats.framesSeen + n, s.stats.emitted + n, s.stats.rejected + k, s.stats.crcOuter,
                                 s.stats.syncLosses + k), s.handed + packets)
    decreases |junk|
  {
    hide ValidPacket, TurnOf, Stream, Drained, MagicAt;
    if junk == [] {
      StreamIsEmitted(Off, 0, packets, s, maxPayload);
    } else {
      assert packets[0] in packets;
      StreamHasHeader(packets, maxPayload);
      JunkTurn(s.buffer, maxPayload);
      DrainedStep(Off, s, maxPayload);
      assert s.buffer[1..] == junk[1..] + Stream(Off, 0, packets);
      forall i | 0 <= i < |junk[1..]|
        ensures !MagicAt(s.buffer[1..], i)
      {
        MagicLater(s.buffer, i);
      }
      JunkIsDrained(junk[1..], packets, Dropped(s, false), maxPayload);
    }
  }

  /** Bytes in which no packet starts, then valid packets, cut into any chunks: in the bare mode exactly
      those bytes are dropped, and then the packets are handed over in order. */
  lemma BareModeResynchronises(junk: bytes, packets: seq<bytes>, chunks: seq<bytes>, maxPayload: nat)
    requires packets != [] && forall f :: f in packets ==> ValidPacket(f, maxPayload)
    requires Concat(chunks) == junk + Stream(Off, 0, packets)
    requires forall i :: 0 <= i < |junk| ==> !MagicAt(Concat(chunks), i)
    ensures FedAll(Off, chunks, maxPayload) == State([], Stats(|packets|, |packets|, |junk|, 0, |junk|), packets)
  {
    hide *;
    ChunkingDoesNotMatter(Off, chunks, maxPayload);
    FedFresh(Off, Concat(chunks), maxPayload);
    JunkIsDrained(junk, packets, State(Concat(chunks), Stats(0, 0, 0, 0, 0), []), maxPayload);
    assert [] + packets == packets;
  }

  lemma FedFresh(p: Policy, b: bytes, maxPayload: nat)
    ensures Fed(p, FRESH, b, maxPayload) == Drained(p, State(b, Stats(0, 0, 0, 0, 0), []), maxPayload)
  {
    hide Drained;
    assert [] + b == b;
  }

  // ---- Whatever is fed ----

  /** Only valid packets are handed over, and each rejection is a dropped byte or a refused packet. */
  ghost predicate Accounted(s: State, maxPayload: nat)
  {
    && |s.handed| == s.stats.emitted <= s.stats.framesSeen
    && s.stats.rejected + s.stats.emitted == s.stats.syncLosses + s.stats.framesSeen
    && s.stats.crcOuter <= s.stats.syncLosses
    && forall f :: f in s.handed ==> ValidPacket(f, maxPayload)
  }

  lemma {:induction false} DrainKeepsAccounts(p: Policy, s: State, maxPayload: nat)
    requires Accounted(s, maxPayload)
    ensures Accounted(Drained(p, s, maxPayload), maxPayload)
    ensures TurnOf(p, Drained(p, s, maxPayload).buffer, maxPayload) == Wait
    decreases |s.buffer|
  {
    hide TurnOf, ValidPacket;
    match TurnOf(p, s.buffer, maxPayload)
    case Wait =>
    case Drop(badCrc) =>
      DrainKeepsAccounts(p, Dropped(s, badCrc), maxPayload);
    case Take(packet, size) =>
      DrainKeepsAccounts(p, Taken(s, packet, size, maxPayload), maxPayload);
  }

  lemma {:induction false} AccountsAlwaysHold(p: Policy, chunks: seq<bytes>, maxPayload: nat)
    ensures Accounted(FedAll(p, chunks, maxPayload), maxPayload)
  {
    hide Drained, ValidPacket;
    if chunks == [] {
    } else {
      var n := |chunks| - 1;
      AccountsAlwaysHold(p, chunks[..n], maxPayload);
      var s := FedAll(p, chunks[..n], maxPayload);
      DrainKeepsAccounts(p, s.(buffer := s.buffer + chunks[n]), maxPayload);
    }
  }

  // ---- The wrapped mode does not resynchronise ----

  /** The unread bytes can no longer begin with A5 5A. */
  predicate Jammed(b: bytes)
  {
    (|b| >= 1 && b[0] != 0xA5) || (|b| >= 2 && b[1] != 0x5A)
  }

  /** A byte was dropped at most once, and then the unread bytes are jammed. */
  predicate JammedByLoss(s: State)
  {
    s.stats.syncLosses <= 1 && (s.stats.syncLosses == 1 ==> Jammed(s.buffer))
  }

  lemma TurnJams(b: bytes, maxPayload: nat)
    ensures var t := TurnOf(On, b, maxPayload);
            && (Jammed(b) ==> t == Wait)
            && (t.Drop? ==> Jammed(b[1..]))
  {
    hide U16, U32, CrcValue;
  }

  lemma {:induction false} DrainJams(s: State, maxPayload: nat)
    requires JammedByLoss(s)
    ensures JammedByLoss(Drained(On, s, maxPayload))
    decreases |s.buffer|
  {
    hide TurnOf, ValidPacket, Jammed;
    TurnJams(s.buffer, maxPayload);
    match TurnOf(On, s.buffer, maxPayload)
    case Wait =>
    case Drop(badCrc) =>
      DrainJams(Dropped(s, badCrc), maxPayload);
    case Take(packet, size) =>
      DrainJams(Taken(s, packet, size, maxPayload), maxPayload);
  }

  lemma {:induction false} RunJams(chunks: seq<bytes>, maxPayload: nat)
    ensures JammedByLoss(FedAll(On, chunks, maxPayload))
  {
    hide Drained;
    if chunks == [] {
    } else {
      var n := |chunks| - 1;
      RunJams(chunks[..n], maxPayload);
      var s := FedAll(On, chunks[..n], maxPayload);
      DrainJams(s.(buffer := s.buffer + chunks[n]), maxPayload);
    }
  }

  /** Jammed bytes stay jammed: everything fed later is only kept. */
  lemma JammedKeepsAll(s: State, more: bytes, maxPayload: nat)
    requires Jammed(s.buffer)
    ensures Fed(On, s, more, maxPayload) == s.(buffer := s.buffer + more)
  {
    hide TurnOf;
    TurnJams(s.buffer + more, maxPayload);
  }

  /** In the wrapped mode the first dropped byte of a run is the last event: no second one is ever
      dropped, and from then on every byte fed is only kept. */
  lemma WrappedDropIsFinal(chunks: seq<bytes>, more: bytes, maxPayload: nat)
    ensures var s := FedAll(On, chunks, maxPayload);
            && s.stats.syncLosses <= 1
            && (s.stats.syncLosses == 1 ==> Fed(On, s, more, maxPayload) == s.(buffer := s.buffer + more))
  {
    hide FedAll, Fed, Jammed;
    RunJams(chunks, maxPayload);
    var s := FedAll(On, chunks, maxPayload);
    if s.stats.syncLosses == 1 {
      JammedKeepsAll(s, more, maxPayload);
    }
  }

  /** Bytes that complete the four-byte start of a frame, and with it an impossible length, or the
      frame that the unread bytes announce. */
  function Continuation(b: bytes): bytes
  {
    if |b| < 4 then [0xA5, 0x5A, 0xFF, 0xFF][|b|..] else Zeros(4 + U16(b[2..4]))
  }

  lemma ContinuationTurns(b: bytes, maxPayload: nat)
    requires TurnOf(On, b, maxPayload) == Wait && !Jammed(b)
    ensures TurnOf(On, b + Continuation(b), maxPayload) != Wait
  {
    hide U32, CrcValue;
    var c := b + Continuation(b);
    if |b| < 4 {
      assert c[2..4][1] == 0xFF;
      LongLength(c[2..4]);
    } else {
      assert c[2..4] == b[2..4];
    }
  }

  lemma LongLength(b: bytes)
    requires |b| == 2 && b[1] == 0xFF
    ensures U16(b) >= 0xFF00
  {
    U16IsSum(b);
  }

  lemma U16IsSum(b: bytes)
    requires |b| == 2
    ensures U16(b) as int == b[0] as int + 256 * b[1] as int
  {
    assert FromLe(b[1..]) == b[1..][0] + 256 * FromLe(b[1..][1..]);
  }

  lemma EventsOnlyGrow(s: State, maxPayload: nat)
    requires TurnOf(On, s.buffer, maxPayload) != Wait
    ensures Drained(On, s, maxPayload).stats != s.stats
  {
    hide TurnOf, ValidPacket;
    match TurnOf(On, s.buffer, maxPayload)
    case Drop(badCrc) =>
      CountersOnlyGrow(Dropped(s, badCrc), maxPayload);
    case Take(packet, size) =>
      CountersOnlyGrow(Taken(s, packet, size, maxPayload), maxPayload);
  }

  lemma {:induction false} CountersOnlyGrow(s: State, maxPayload: nat)
    ensures var d := Drained(On, s, maxPayload).stats;
            d.framesSeen >= s.stats.framesSeen && d.syncLosses >= s.stats.syncLosses
    decreases |s.buffer|
  {
    hide TurnOf, ValidPacket;
    match TurnOf(On, s.buffer, maxPayload)
    case Wait =>
    case Drop(badCrc) =>
      CountersOnlyGrow(Dropped(s, badCrc), maxPayload);
    case Take(packet, size) =>
      CountersOnlyGrow(Taken(s, packet, size, maxPayload), maxPayload);
  }

  /** A run in the wrapped mode is stuck for good exactly when its unread bytes are jammed, by a
      drop or by bytes that were no frame to begin with. */
  lemma StuckExactlyWhenJammed(chunks: seq<bytes>, maxPayload: nat)
    ensures var s := FedAll(On, chunks, maxPayload);
            Jammed(s.buffer) <==> forall more :: Fed(On, s, more, maxPayload).stats == s.stats
  {
    hide FedAll, Drained, TurnOf, Jammed, Continuation;
    var s := FedAll(On, chunks, maxPayload);
    if Jammed(s.buffer) {
      forall more
        ensures Fed(On, s, more, maxPayload).stats == s.stats
      {
        JammedKeepsAll(s, more, maxPayload);
      }
    } else {
      RunIsDrained(On, chunks, maxPayload);
      ContinuationTurns(s.buffer, maxPayload);
      var more := Continuation(s.buffer);
      EventsOnlyGrow(s.(buffer := s.buffer + more), maxPayload);
      assert Fed(On, s, more, maxPayload).stats != s.stats;
    }
  }

  /** Between feeds the loop waits for bytes. */
  lemma RunIsDrained(p: Policy, chunks: seq<bytes>, maxPayload: nat)
    ensures TurnOf(p, FedAll(p, chunks, maxPayload).buffer, maxPayload) == Wait
  {
    hide Drained, ValidPacket;
    if chunks == [] {
      EmptyWaits(p, maxPayload);
    } else {
      var s := FedAll(p, chunks[..|chunks| - 1], maxPayload);
      AccountsAlwaysHold(p, chunks[..|chunks| - 1], maxPayload);
      DrainKeepsAccounts(p, s.(buffer := s.buffer + chunks[|chunks| - 1]), maxPayload);
    }
  }

  /** A frame start with length 0, then any wrapped packet: the packet is never handed over. */
  lemma BadLengthLosesThePacket(version: byte, packet: bytes, maxPayload: nat)
    requires |packet| + 9 <= MAX_WRAPPED
    ensures FedAll(On, [[0xA5, 0x5A, 0, 0], Wrap(version, packet)], maxPayload)
              == State([0x5A, 0, 0] + Wrap(version, packet), Stats(0, 0, 1, 0, 1), [])
  {
    hide Wrap, Drained;
    var bad: bytes, next := [0xA5, 0x5A, 0, 0], Wrap(version, packet);
    BadLengthDrops(maxPayload);
    var first: seq<bytes>, both: seq<bytes> := [bad], [bad, next];
    assert both[..1] == first && first[..0] == [];
    var s := FedAll(On, first, maxPayload);
    assert FRESH.buffer + bad == bad;
    assert FedAll(On, first[..0], maxPayload) == FRESH;
    assert s == Fed(On, FRESH, bad, maxPayload);
    JammedKeepsAll(s, next, maxPayload);
  }

  lemma BadLengthDrops(maxPayload: nat)
    ensures Drained(On, FRESH.(buffer := [0xA5, 0x5A, 0, 0]), maxPayload)
            == State([0x5A, 0, 0], Stats(0, 0, 1, 0, 1), [])
  {
    hide U32, CrcValue, ValidPacket, PacketTurn;
    var b: bytes := [0xA5, 0x5A, 0, 0];
    assert b[2..4] == [0, 0] && b[1..] == [0x5A, 0, 0];
    U16IsSum([0, 0]);
    var s := FRESH.(buffer := b);
    assert TurnOf(On, b, maxPayload) == Drop(false);
    assert TurnOf(On, b[1..], maxPayload) == Wait;
    DrainedStep(On, s, maxPayload);
    DrainedStep(On, Dropped(s, false), maxPayload);
  }

  // ---- The object ----

  class Sc589Unwrap {
    const policy: Policy
    const maxPayload: nat
    var buffer: bytes
    var stats: Stats
    var handed: seq<bytes>

    ghost function Now(): State
      reads this
    {
      State(buffer, stats, handed)
    }

    constructor (policy: Policy, maxPayload: nat)
      ensures Now() == FRESH && this.policy == policy && this.maxPayload == maxPayload
    {
      this.policy, this.maxPayload := policy, maxPayload;
      buffer, stats, handed := [], Stats(0, 0, 0, 0, 0), [];
    }

    method Feed(data: bytes)
      modifies this
      ensures Now() == Fed(policy, old(Now()), data, maxPayload)
    {
      hide TurnOf, Dropped, Taken;
      buffer := buffer + data;
      var more := true;
      while more
        invariant Drained(policy, Now(), maxPayload) == Fed(policy, old(Now()), data, maxPayload)
        invariant !more ==> TurnOf(policy, buffer, maxPayload) == Wait
        decreases more, |buffer|
      {
        if policy == Off {
          more := TryConsumePacketOnly();
        } else {
          more := TryConsumeWrappedFrame();
        }
      }
    }

    /** One turn; false means more bytes are needed. */
    method TryConsumePacketOnly() returns (consumed: bool)
      requires policy == Off
      modifies this
      ensures consumed <==> !old(TurnOf(policy, buffer, maxPayload)).Wait?
      ensures Drained(policy, Now(), maxPayload) == old(Drained(policy, Now(), maxPayload))
      ensures consumed ==> |buffer| < old(|buffer|)
      ensures !consumed ==> Now() == old(Now())
    {
      hide HeaderAt, ValidPacket, Drained, Dropped, Emitted, WrappedTurn;
      DrainedStep(policy, Now(), maxPayload);
      if |buffer| < PACKET_HEADER_SIZE {
        return false;
      }
      var header := HeaderAt(buffer);
      if header.magic != PACKET_MAGIC || header.payloadSize > maxPayload {
        Reject(false);
        return true;
      }
      var packetSize := PACKET_HEADER_SIZE + header.payloadSize;
      if |buffer| < packetSize {
        return false;
      }
      var packet := buffer[..packetSize];
      buffer := buffer[packetSize..];
      stats := stats.(framesSeen := stats.framesSeen + 1);
      Emit(packet);
      return true;
    }

    method TryConsumeWrappedFrame() returns (consumed: bool)
      requires policy == On
      modifies this
      ensures consumed <==> !old(TurnOf(policy, buffer, maxPayload)).Wait?
      ensures Drained(policy, Now(), maxPayload) == old(Drained(policy, Now(), maxPayload))
      ensures consumed ==> |buffer| < old(|buffer|)
      ensures !consumed ==> Now() == old(Now())
    {
      hide U16, U32, CrcValue, Crc, NatOfWord, ValidPacket, Drained, Dropped, Emitted, PacketTurn;
      DrainedStep(policy, Now(), maxPayload);
      if !StartsWithSof(buffer) || |buffer| < 4 {
        return false;
      }
      var wrappedLen := U16(buffer[2..4]);
      if wrappedLen < 1 + PACKET_HEADER_SIZE + 4 || 4 + wrappedLen > MAX_WRAPPED {
        Reject(false);
        return true;
      }
      if |buffer| < 4 + wrappedLen {
        return false;
      }
      var innerSize := wrappedLen - 1 - 4;
      var expected := U32(buffer[wrappedLen..wrappedLen + 4]);
      var region := buffer[4..4 + 1 + innerSize];
      var crc := BranchCrc32(region);
      CrcNumber(region);
      if NatOfWord(crc, 32) != expected {
        Reject(true);
        return true;
      }
      var inner := buffer[5..5 + innerSize];
      buffer := buffer[4 + wrappedLen..];
      stats := stats.(framesSeen := stats.framesSeen + 1);
      Emit(inner);
      return true;
    }

    /** Counts a rejection and drops the first byte. */
    method Reject(badCrc: bool)
      requires buffer != []
      modifies this
      ensures Now() == Dropped(old(Now()), badCrc) && |buffer| == old(|buffer|) - 1
    {
      if badCrc {
        stats := stats.(crcOuter := stats.crcOuter + 1);
      }
      stats := stats.(rejected := stats.rejected + 1);
      buffer := buffer[1..];
      stats := stats.(syncLosses := stats.syncLosses + 1);
    }

    method Emit(packet: bytes)
      modifies `stats, `handed
      ensures Now() == Emitted(old(Now()), packet, maxPayload)
    {
      hide HeaderAt, CrcValue;
      var parsed := DeserializePacket(packet);
      if parsed == None || ValidatePacketVerbose(parsed.value.header, parsed.value.payload,
          maxPayload) != Validation.Valid {
        stats := stats.(rejected := stats.rejected + 1);
        return;
      }
      handed := handed + [packet];
      stats := stats.(emitted := stats.emitted + 1);
    }
  }

  lemma DrainedStep(p: Policy, s: State, maxPayload: nat)
    ensures var t := TurnOf(p, s.buffer, maxPayload);
            Drained(p, s, maxPayload) ==
              if t.Wait? then s
              else if t.Drop? then Drained(p, Dropped(s, t.badCrc), maxPayload)
              else Drained(p, Taken(s, t.packet, t.size, maxPayload), maxPayload)
  {
    hide TurnOf;
  }
}
