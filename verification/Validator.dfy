/** Stream statistics: the offline validator's two-pass computation and the pipeline's fused
    one-pass accumulator, both against one reference definition over the whole stream. */
module Validator {
  import opened Bytes
  import opened Crc32
  import opened LegacyPacket
  import opened LogReader
  import opened LogIndex

  /** Thresholds in nanoseconds. The audio threshold is the product of a double and the nominal
      period, cast back to an integer. */
  datatype Config = Config(maxJump: int, telemetryGap: int, audioThreshold: nat -> int, minValidSeconds: real)

  datatype GapType = SeqGap | TimestampGap | AudioGap | TelemetryGap | FileTruncated
  datatype Severity = Warning | Error

  datatype GapEvent = GapEvent(t: int, gapType: GapType, expectedSeq: nat, actualSeq: nat, duration: int,
      severity: Severity)

  datatype StreamValidation = StreamValidation(
    fileOk: bool, total: nat, valid: nat, lost: nat, crcFailed: nat, timestampViolations: nat, monotonicViolations: nat,
    audioGaps: nat, telemetryGaps: nat, tFirst: int, tLast: int, events: seq<GapEvent>)

  const NO_STATS: StreamValidation := StreamValidation(true, 0, 0, 0, 0, 0, 0, 0, 0, 0, 0, [])

  // ---- Checking one packet ----

  datatype ParseStatus = ParseOk | BadMagic | BadVersion | TooBig | Truncated | CrcFail

  const MAX_PARSED_PAYLOAD: nat := 8192

  function Parse(p: RawPacket): ParseStatus
  {
    var h := p.header;
    if h.magic != PACKET_MAGIC then BadMagic
    else if h.protocolVersion != 1 then BadVersion
    else if h.payloadSize > MAX_PARSED_PAYLOAD then TooBig
    else if |p.payload| < h.payloadSize then Truncated
    else if h.payloadSize > 0 && CrcValue(p.payload[..h.payloadSize]) != h.checksum then CrcFail
    else ParseOk
  }

  /** A scanned packet and the verdict of the check before it is fed. */
  datatype Fed = Fed(raw: RawPacket, ok: bool)

  predicate IsAudio(p: RawPacket)
  {
    p.header.packetType == 1 && |p.payload| >= 10
  }

  function SampleRate(p: RawPacket): nat
    requires IsAudio(p)
  {
    U32(p.payload[2..6])
  }

  /** The duration of an audio block in nanoseconds. */
  function Period(p: RawPacket): nat
    requires IsAudio(p) && SampleRate(p) != 0
  {
    U32(p.payload[6..10]) * 1_000_000_000 / SampleRate(p)
  }

  predicate HasRate(p: RawPacket)
  {
    IsAudio(p) ==> SampleRate(p) != 0
  }

  predicate IsImu(p: RawPacket)
  {
    p.header.packetType == 3
  }

  // ---- The reference: statistics of a whole stream ----

  function Valids(fs: seq<Fed>): seq<RawPacket>
  {
    if fs == [] then []
    else
      var n := |fs| - 1;
      Valids(fs[..n]) + if fs[n].ok then [fs[n].raw] else []
  }

  /** Numbers missing before cur: none when the 32-bit successor of prev is not below cur. */
  function Missing(prev: RawPacket, cur: RawPacket): nat
  {
    var expected := (prev.header.seqNo + 1) % TWO_32;
    if cur.header.seqNo > expected then cur.header.seqNo - expected else 0
  }

  function MissingIn(v: seq<RawPacket>): nat
  {
    if |v| < 2 then 0
    else
      var n := |v| - 1;
      MissingIn(v[..n]) + Missing(v[n - 1], v[n])
  }

  function SeqGapsIn(v: seq<RawPacket>): nat
  {
    if |v| < 2 then 0
    else
      var n := |v| - 1;
      SeqGapsIn(v[..n]) + if Missing(v[n - 1], v[n]) > 0 then 1 else 0
  }

  function ZeroTimes(v: seq<RawPacket>): nat
  {
    if v == [] then 0
    else
      var n := |v| - 1;
      ZeroTimes(v[..n]) + if TimeOf(v[n]) == 0 then 1 else 0
  }

  function StepsBack(v: seq<RawPacket>): nat
  {
    if |v| < 2 then 0
    else
      var n := |v| - 1;
      StepsBack(v[..n]) + if TimeOf(v[n]) < TimeOf(v[n - 1]) then 1 else 0
  }

  /** Neighbours further apart than the limit. */
  function Jumps(v: seq<RawPacket>, limit: int): nat
  {
    if |v| < 2 then 0
    else
      var n := |v| - 1;
      Jumps(v[..n], limit) + if TimeOf(v[n]) - TimeOf(v[n - 1]) > limit then 1 else 0
  }

  function AudioIn(v: seq<RawPacket>): (r: seq<RawPacket>)
    ensures forall p :: p in r ==> IsAudio(p) && p in v
  {
    if v == [] then []
    else
      var n := |v| - 1;
      AudioIn(v[..n]) + if IsAudio(v[n]) then [v[n]] else []
  }

  function ImuIn(v: seq<RawPacket>): seq<RawPacket>
  {
    if v == [] then []
    else
      var n := |v| - 1;
      ImuIn(v[..n]) + if IsImu(v[n]) then [v[n]] else []
  }

  ghost predicate AllRates(v: seq<RawPacket>)
  {
    forall p :: p in v ==> HasRate(p)
  }

  /** The first period of the stream that is not zero in 32 bits. */
  function Nominal(a: seq<RawPacket>): nat
  {
    if a == [] then 0
    else
      var n := |a| - 1;
      if Nominal(a[..n]) != 0 then Nominal(a[..n])
      else if IsAudio(a[n]) && HasRate(a[n]) then Period(a[n]) % TWO_32 else 0
  }

  predicate AudioGapAt(prevTs: int, ts: int, nominal: nat, c: Config)
  {
    prevTs != 0 && nominal > 0 && ts - prevTs > c.audioThreshold(nominal)
  }

  function AudioGapsIn(a: seq<RawPacket>, c: Config): nat
  {
    if |a| < 2 then 0
    else
      var n := |a| - 1;
      AudioGapsIn(a[..n], c) + if AudioGapAt(TimeOf(a[n - 1]), TimeOf(a[n]), Nominal(a), c) then 1 else 0
  }

  function ImuGapsIn(m: seq<RawPacket>, limit: int): nat
  {
    if |m| < 2 then 0
    else
      var n := |m| - 1;
      ImuGapsIn(m[..n], limit) + if TimeOf(m[n - 1]) != 0 && TimeOf(m[n]) - TimeOf(m[n - 1]) > limit then 1 else 0
  }

  function LastTime(v: seq<RawPacket>): int
  {
    if v == [] then 0 else TimeOf(v[|v| - 1])
  }

  function Earliest(v: seq<RawPacket>): int
  {
    if v == [] then 0
    else if |v| == 1 then TimeOf(v[0])
    else
      var n := |v| - 1;
      if TimeOf(v[n]) < Earliest(v[..n]) then TimeOf(v[n]) else Earliest(v[..n])
  }

  /** Starts at 0, so it is never negative. */
  function Latest(v: seq<RawPacket>): int
  {
    if v == [] then 0
    else
      var n := |v| - 1;
      if TimeOf(v[n]) > Latest(v[..n]) then TimeOf(v[n]) else Latest(v[..n])
  }

  /** The statistics of a stream of which v are the valid packets; lost numbers are those missing
      in the sequence plus the packets that failed the check. */
  predicate Describes(s: StreamValidation, total: nat, v: seq<RawPacket>, c: Config)
  {
    && |v| <= total
    && s.total == total && s.valid == |v|
    && s.lost == total - |v| + MissingIn(v)
    && s.timestampViolations == ZeroTimes(v) + Jumps(v, c.maxJump)
    && s.monotonicViolations == StepsBack(v)
    && s.audioGaps == AudioGapsIn(AudioIn(v), c)
    && s.telemetryGaps == ImuGapsIn(ImuIn(v), c.telemetryGap)
    && s.tFirst == Earliest(v) && s.tLast == Latest(v)
  }

  // ---- What one more packet does ----

  lemma OneMoreValid(v: seq<RawPacket>, p: RawPacket, c: Config)
    ensures var w := v + [p]; var first := v == [];
            && MissingIn(w) == MissingIn(v) + (if first then 0 else Missing(v[|v| - 1], p))
            && SeqGapsIn(w) == SeqGapsIn(v) + (if !first && Missing(v[|v| - 1], p) > 0 then 1 else 0)
            && ZeroTimes(w) == ZeroTimes(v) + (if TimeOf(p) == 0 then 1 else 0)
            && StepsBack(w) == StepsBack(v) + (if !first && TimeOf(p) < LastTime(v) then 1 else 0)
            && Jumps(w, c.maxJump) == Jumps(v, c.maxJump)
               + (if !first && TimeOf(p) - LastTime(v) > c.maxJump then 1 else 0)
            && Earliest(w) == (if first || TimeOf(p) < Earliest(v) then TimeOf(p) else Earliest(v))
            && Latest(w) == (if TimeOf(p) > Latest(v) then TimeOf(p) else Latest(v))
            && LastTime(w) == TimeOf(p)
  {
    hide TimeOf, Missing;
    assert (v + [p])[..|v|] == v;
  }

  lemma AudioInStep(v: seq<RawPacket>, p: RawPacket)
    ensures AudioIn(v + [p]) == if IsAudio(p) then AudioIn(v) + [p] else AudioIn(v)
  {
    hide IsAudio;
    assert (v + [p])[..|v|] == v;
  }

  lemma NominalStep(a: seq<RawPacket>, p: RawPacket)
    requires IsAudio(p) && HasRate(p)
    ensures Nominal(a + [p]) == if Nominal(a) == 0 then Period(p) % TWO_32 else Nominal(a)
  {
    hide IsAudio, Period;
    assert (a + [p])[..|a|] == a;
  }

  lemma AudioGapsStep(a: seq<RawPacket>, p: RawPacket, c: Config)
    ensures AudioGapsIn(a + [p], c) == AudioGapsIn(a, c)
              + (if AudioGapAt(LastTime(a), TimeOf(p), Nominal(a + [p]), c) then 1 else 0)
    ensures LastTime(a + [p]) == TimeOf(p)
  {
    hide TimeOf, Nominal;
    assert (a + [p])[..|a|] == a;
  }

  lemma OneMoreAudio(v: seq<RawPacket>, p: RawPacket, c: Config)
    requires HasRate(p)
    ensures var a := AudioIn(v); var w := v + [p];
            if !IsAudio(p) then AudioIn(w) == a
            else
              var nominal := if Nominal(a) == 0 then Period(p) % TWO_32 else Nominal(a);
              && Nominal(AudioIn(w)) == nominal
              && AudioGapsIn(AudioIn(w), c) == AudioGapsIn(a, c)
                 + (if AudioGapAt(LastTime(a), TimeOf(p), nominal, c) then 1 else 0)
              && LastTime(AudioIn(w)) == TimeOf(p)
  {
    hide TimeOf, Period, IsAudio, AudioIn, Nominal, AudioGapsIn, AudioGapAt, LastTime;
    AudioInStep(v, p);
    if IsAudio(p) {
      NominalStep(AudioIn(v), p);
      AudioGapsStep(AudioIn(v), p, c);
    }
  }

  lemma ImuInStep(v: seq<RawPacket>, p: RawPacket)
    ensures ImuIn(v + [p]) == if IsImu(p) then ImuIn(v) + [p] else ImuIn(v)
  {
    hide IsImu;
    assert (v + [p])[..|v|] == v;
  }

  lemma ImuGapsStep(m: seq<RawPacket>, p: RawPacket, limit: int)
    ensures ImuGapsIn(m + [p], limit) == ImuGapsIn(m, limit)
              + (if LastTime(m) != 0 && TimeOf(p) - LastTime(m) > limit then 1 else 0)
    ensures LastTime(m + [p]) == TimeOf(p)
  {
    hide TimeOf;
    assert (m + [p])[..|m|] == m;
  }

  lemma OneMoreImu(v: seq<RawPacket>, p: RawPacket, c: Config)
    ensures var m := ImuIn(v); var w := v + [p];
            if !IsImu(p) then ImuIn(w) == m
            else
              && ImuGapsIn(ImuIn(w), c.telemetryGap) == ImuGapsIn(m, c.telemetryGap)
                 + (if LastTime(m) != 0 && TimeOf(p) - LastTime(m) > c.telemetryGap then 1 else 0)
              && LastTime(ImuIn(w)) == TimeOf(p)
  {
    hide TimeOf, IsImu, ImuIn, ImuGapsIn, LastTime;
    ImuInStep(v, p);
    ImuGapsStep(ImuIn(v), p, c.telemetryGap);
  }

  // ---- What is new about a packet that follows v ----

  function NominalNext(v: seq<RawPacket>, p: RawPacket): nat
    requires HasRate(p) && IsAudio(p)
  {
    if Nominal(AudioIn(v)) == 0 then Period(p) % TWO_32 else Nominal(AudioIn(v))
  }

  predicate NewAudioGap(v: seq<RawPacket>, p: RawPacket, c: Config)
  {
    IsAudio(p) && HasRate(p) && AudioGapAt(LastTime(AudioIn(v)), TimeOf(p), NominalNext(v, p), c)
  }

  predicate NewImuGap(v: seq<RawPacket>, p: RawPacket, c: Config)
  {
    IsImu(p) && LastTime(ImuIn(v)) != 0 && TimeOf(p) - LastTime(ImuIn(v)) > c.telemetryGap
  }

  predicate SteppedBack(v: seq<RawPacket>, p: RawPacket)
  {
    v != [] && TimeOf(p) < LastTime(v)
  }

  predicate Jumped(v: seq<RawPacket>, p: RawPacket, c: Config)
  {
    v != [] && TimeOf(p) - LastTime(v) > c.maxJump
  }

  function NewMissing(v: seq<RawPacket>, p: RawPacket): nat
  {
    if v == [] then 0 else Missing(v[|v| - 1], p)
  }

  function Bit(b: bool): nat
  {
    if b then 1 else 0
  }

  // ---- The reference: events of a whole stream ----

  /** One event per gap, step back, jump, audio gap and telemetry gap; only a gap of more than ten
      numbers is an error. */
  function SeqEvent(v: seq<RawPacket>, p: RawPacket): seq<GapEvent>
  {
    var lost := NewMissing(v, p);
    if lost == 0 then []
    else
      [GapEvent(TimeOf(p), SeqGap, p.header.seqNo - lost, p.header.seqNo, TimeOf(p) - LastTime(v),
                if lost > 10 then Error else Warning)]
  }

  function BackEvent(v: seq<RawPacket>, p: RawPacket): seq<GapEvent>
  {
    if SteppedBack(v, p) then [GapEvent(TimeOf(p), TimestampGap, 0, 0, LastTime(v) - TimeOf(p), Warning)] else []
  }

  function JumpEvent(v: seq<RawPacket>, p: RawPacket, c: Config): seq<GapEvent>
  {
    if Jumped(v, p, c) then [GapEvent(TimeOf(p), TimestampGap, 0, 0, TimeOf(p) - LastTime(v), Warning)] else []
  }

  function AudioEvent(v: seq<RawPacket>, p: RawPacket, c: Config): seq<GapEvent>
  {
    if NewAudioGap(v, p, c) then [GapEvent(TimeOf(p), AudioGap, 0, 0, TimeOf(p) - LastTime(AudioIn(v)), Warning)]
        else []
  }

  function ImuEvent(v: seq<RawPacket>, p: RawPacket, c: Config): seq<GapEvent>
  {
    if NewImuGap(v, p, c) then [GapEvent(TimeOf(p), TelemetryGap, 0, 0, TimeOf(p) - LastTime(ImuIn(v)), Warning)]
        else []
  }

  /** The events of a packet that follows v, but for the sequence gap. */
  function TimeEvents(v: seq<RawPacket>, p: RawPacket, c: Config): seq<GapEvent>
  {
    BackEvent(v, p) + JumpEvent(v, p, c) + AudioEvent(v, p, c) + ImuEvent(v, p, c)
  }

  /** The events of a stream of valid packets, packet by packet. */
  function EventsOf(v: seq<RawPacket>, c: Config): seq<GapEvent>
  {
    if v == [] then []
    else
      var n := |v| - 1;
      EventsOf(v[..n], c) + (SeqEvent(v[..n], v[n]) + TimeEvents(v[..n], v[n], c))
  }

  /** The times at which the usable ranges are cut. */
  function Breaks(events: seq<GapEvent>): seq<int>
  {
    if events == [] then []
    else
      var n := |events| - 1;
      Breaks(events[..n]) + if events[n].severity == Error then [events[n].t] else []
  }

  lemma {:induction false} BreaksConcat(a: seq<GapEvent>, b: seq<GapEvent>)
    ensures Breaks(a + b) == Breaks(a) + Breaks(b)
  {
    if b == [] {
      assert a + b == a;
    } else {
      var n := |b| - 1;
      assert (a + b)[..|a| + n] == a + b[..n];
      BreaksConcat(a, b[..n]);
    }
  }

  lemma {:induction false} WarningsBreakNothing(events: seq<GapEvent>)
    requires forall e :: e in events ==> e.severity == Warning
    ensures Breaks(events) == []
  {
    if events == [] {
    } else {
      var n := |events| - 1;
      assert events[n] in events;
      assert forall e :: e in events[..n] ==> e in events;
      WarningsBreakNothing(events[..n]);
    }
  }

  /** The times of the valid packets before which more than ten numbers are missing. */
  function GapBreaks(v: seq<RawPacket>): seq<int>
  {
    if |v| < 2 then []
    else
      var n := |v| - 1;
      GapBreaks(v[..n]) + if Missing(v[n - 1], v[n]) > 10 then [TimeOf(v[n])] else []
  }

  lemma OneSeqBreak(v: seq<RawPacket>, p: RawPacket)
    ensures Breaks(SeqEvent(v, p)) == if NewMissing(v, p) > 10 then [TimeOf(p)] else []
  {
    hide TimeOf, Missing, LastTime;
    var e := SeqEvent(v, p);
    if e != [] {
      assert e == [e[0]] && e[..0] == [];
      assert Breaks(e[..0]) == [];
    }
  }

  lemma TimeEventsWarn(v: seq<RawPacket>, p: RawPacket, c: Config)
    ensures Breaks(TimeEvents(v, p, c)) == []
  {
    hide TimeOf, LastTime, AudioIn, ImuIn, SteppedBack, Jumped, NewAudioGap, NewImuGap, Breaks;
    WarningsBreakNothing(TimeEvents(v, p, c));
  }

  lemma GapBreaksStep(v: seq<RawPacket>, p: RawPacket)
    ensures GapBreaks(v + [p]) == GapBreaks(v) + if NewMissing(v, p) > 10 then [TimeOf(p)] else []
  {
    hide TimeOf, Missing;
    assert (v + [p])[..|v|] == v;
  }

  /** The accumulator's events cut a stream exactly there. */
  lemma {:induction false} EventsBreakAtGaps(v: seq<RawPacket>, c: Config)
    ensures Breaks(EventsOf(v, c)) == GapBreaks(v)
  {
    hide TimeOf, SeqEvent, TimeEvents, NewMissing, Missing;
    if v == [] {
    } else {
      var n := |v| - 1;
      EventsBreakAtGaps(v[..n], c);
      BreaksConcat(EventsOf(v[..n], c), SeqEvent(v[..n], v[n]) + TimeEvents(v[..n], v[n], c));
      BreaksConcat(SeqEvent(v[..n], v[n]), TimeEvents(v[..n], v[n], c));
      OneSeqBreak(v[..n], v[n]);
      TimeEventsWarn(v[..n], v[n], c);
      assert v == v[..n] + [v[n]];
      GapBreaksStep(v[..n], v[n]);
    }
  }

  lemma NewEventsAreCounted(v: seq<RawPacket>, p: RawPacket, c: Config)
    ensures |SeqEvent(v, p) + TimeEvents(v, p, c)|
              == Bit(NewMissing(v, p) > 0) + Bit(SteppedBack(v, p)) + Bit(Jumped(v, p, c))
                 + Bit(NewAudioGap(v, p, c)) + Bit(NewImuGap(v, p, c))
  {
    hide TimeOf, LastTime, AudioIn, ImuIn, NewMissing, SteppedBack, Jumped, NewAudioGap, NewImuGap;
  }

  /** One event for each counted anomaly. */
  lemma {:induction false} EventsAreCounted(v: seq<RawPacket>, c: Config)
    requires AllRates(v)
    ensures |EventsOf(v, c)| == EventCount(v, c)
  {
    hide SeqEvent, TimeEvents, NewMissing, SteppedBack, Jumped, NewAudioGap, NewImuGap, Bit, EventCount, HasRate;
    if v == [] {
      NothingCounted(c);
    } else {
      var n := |v| - 1;
      assert v[n] in v && v == v[..n] + [v[n]];
      EventsAreCounted(v[..n], c);
      NewEventsAreCounted(v[..n], v[n], c);
      EventCountStep(v[..n], v[n], c);
    }
  }

  function EventCount(v: seq<RawPacket>, c: Config): nat
  {
    SeqGapsIn(v) + StepsBack(v) + Jumps(v, c.maxJump) + AudioGapsIn(AudioIn(v), c) + ImuGapsIn(ImuIn(v), c.telemetryGap)
  }

  lemma EventCountStep(v: seq<RawPacket>, p: RawPacket, c: Config)
    requires HasRate(p)
    ensures EventCount(v + [p], c) == EventCount(v, c)
              + Bit(NewMissing(v, p) > 0) + Bit(SteppedBack(v, p)) + Bit(Jumped(v, p, c))
              + Bit(NewAudioGap(v, p, c)) + Bit(NewImuGap(v, p, c))
  {
    hide TimeOf, Missing, MissingIn, SeqGapsIn, ZeroTimes, StepsBack, Jumps, AudioIn, ImuIn, AudioGapsIn, ImuGapsIn,
         Nominal, Earliest, Latest, LastTime, Period, IsAudio, IsImu, AudioGapAt, HasRate;
    OneMoreValid(v, p, c);
    OneMoreAudio(v, p, c);
    OneMoreImu(v, p, c);
  }

  lemma NothingCounted(c: Config)
    ensures EventCount([], c) == 0
  {}

  // ---- One pass ----

  class ScanAccumulator {
    const cfg: Config
    var sv: StreamValidation
    var first: bool
    var prevTs: int
    var prevAudioTs: int
    var prevImuTs: int
    var nominalPeriod: nat
    var prevSeq: nat
    ghost var total: nat
    ghost var valids: seq<RawPacket>

    /** The working variables are those of the stream fed so far. */
    ghost predicate Tracks()
      reads this
    {
      && AllRates(valids)
      && (first <==> valids == [])
      && (first ==> sv.events == [])
      && (valids != [] ==> prevTs == LastTime(valids) && prevSeq == valids[|valids| - 1].header.seqNo)
      && prevAudioTs == LastTime(AudioIn(valids)) && nominalPeriod == Nominal(AudioIn(valids))
      && prevImuTs == LastTime(ImuIn(valids))
    }

    ghost predicate Valid()
      reads this
    {
      && Tracks()
      && Describes(sv, total, valids, cfg)
      && sv.crcFailed == total - |valids|
      && EventsInside(sv.events, sv.tFirst, sv.tLast)
      && sv.events == EventsOf(valids, cfg)
    }

    constructor (cfg: Config, fileOk: bool)
      ensures Valid() && this.cfg == cfg && valids == [] && total == 0 && sv.fileOk == fileOk
    {
      this.cfg := cfg;
      sv := NO_STATS.(fileOk := fileOk);
      first, prevTs, prevAudioTs, prevImuTs, nominalPeriod, prevSeq := true, 0, 0, 0, 0, 0;
      total, valids := 0, [];
    }

    /** Does not finish exactly for a checked packet of type 1 whose sample rate is zero: the source
        divides by it. */
    method Feed(raw: RawPacket, ok: bool) returns (finished: bool)
      requires Valid()
      modifies this
      ensures finished <==> !ok || HasRate(raw)
      ensures finished ==> Valid() && total == old(total) + 1 && sv.fileOk == old(sv.fileOk)
      ensures finished ==> valids == old(valids) + if ok then [raw] else []
    {
      hide Describes, EventsInside, AllRates, HasRate, LastTime, AudioIn, ImuIn, Nominal, SeqGapsIn, StepsBack, Jumps;
      total := total + 1;
      if ok {
        finished := FeedValid(raw);
      } else {
        FailedPacket(sv, total - 1, valids, cfg);
        sv := sv.(total := sv.total + 1, crcFailed := sv.crcFailed + 1, lost := sv.lost + 1);
        assert valids + [] == valids;
        finished := true;
      }
    }

    /** `feed` after the check has passed. */
    method FeedValid(raw: RawPacket) returns (finished: bool)
      requires total > 0 && Tracks()
      requires Describes(sv, total - 1, valids, cfg) && sv.crcFailed == total - 1 - |valids|
      requires EventsInside(sv.events, sv.tFirst, sv.tLast)
      requires sv.events == EventsOf(valids, cfg)
      modifies `sv, `first, `prevTs, `prevAudioTs, `prevImuTs, `nominalPeriod, `prevSeq, `valids
      ensures finished <==> HasRate(raw)
      ensures finished ==> Valid() && sv.fileOk == old(sv.fileOk) && valids == old(valids) + [raw]
    {
      hide TimeOf, AudioIn, ImuIn, Nominal, LastTime, IsAudio, IsImu, HasRate, EventsInside, EventsInsideOr, AllRates,
           Describes, EventsOf, NewMissing, SteppedBack, Jumped, NewAudioGap, NewImuGap, NominalNext, Bit, Missing;
      hide Advanced;
      ghost var o := sv;
      finished := CheckAll(raw);
      if !finished {
        return;
      }
      TracksNext(valids, raw, cfg);
      DescribesNext(o, total - 1, valids, raw, cfg);
      prevTs := TimeOf(raw);
      first := false;
      valids := valids + [raw];
    }

    /** All checks of `feed` on a valid packet, before it becomes the previous one. */
    method CheckAll(raw: RawPacket) returns (finished: bool)
      requires Tracks() && EventsInside(sv.events, sv.tFirst, sv.tLast)
      modifies `sv, `prevAudioTs, `prevImuTs, `nominalPeriod, `prevSeq
      ensures finished <==> HasRate(raw)
      ensures finished ==>
                && sv == Advanced(old(sv), valids, raw, cfg)
                && EventsInside(sv.events, sv.tFirst, sv.tLast)
                && nominalPeriod == (if IsAudio(raw) then NominalNext(valids, raw) else old(nominalPeriod))
                && prevAudioTs == (if IsAudio(raw) then TimeOf(raw) else old(prevAudioTs))
                && prevImuTs == (if IsImu(raw) then TimeOf(raw) else old(prevImuTs))
                && prevSeq == raw.header.seqNo
    {
      hide TimeOf, AudioIn, ImuIn, Nominal, LastTime, IsAudio, IsImu, HasRate, EventsInside, EventsInsideOr, AllRates,
           NewMissing, SteppedBack, Jumped, NewAudioGap, NewImuGap, NominalNext, Bit, Missing, SeqEvent, BackEvent,
           JumpEvent, AudioEvent, ImuEvent, TimeEvents;
      AllEvents(sv.events, valids, raw, cfg);
      if first {
        NoneAtFirst(raw, cfg);
      }
      CheckSequence(raw);
      sv := sv.(total := sv.total + 1, valid := sv.valid + 1);
      CheckTimes(raw);
      UpdateSpan(raw);
      finished := CheckAudio(raw);
      if finished {
        CheckImu(raw);
      }
    }

    /** The sequence part of `feed`. */
    method CheckSequence(raw: RawPacket)
      requires EventsInside(sv.events, sv.tFirst, sv.tLast)
      requires (first <==> valids == [])
      requires !first ==> prevSeq == valids[|valids| - 1].header.seqNo && prevTs == LastTime(valids)
      modifies `sv, `prevSeq
      ensures var o := old(sv);
              sv == o.(lost := o.lost + NewMissing(valids, raw), events := o.events + SeqEvent(valids, raw))
      ensures EventsInsideOr(sv.events, sv.tFirst, sv.tLast, TimeOf(raw))
      ensures prevSeq == raw.header.seqNo
    {
      hide TimeOf, EventsInside, EventsInsideOr;
      InsideIsEnough(sv.events, sv.tFirst, sv.tLast, TimeOf(raw));
      if !first {
        var expected := (prevSeq + 1) % TWO_32;
        if raw.header.seqNo != expected && raw.header.seqNo > expected {
          var lost := raw.header.seqNo - expected;
          sv := sv.(lost := sv.lost + lost);
          var g := GapEvent(TimeOf(raw), SeqGap, expected, raw.header.seqNo, TimeOf(raw) - prevTs, if lost > 10
              then Error else Warning);
          EventAdded(sv.events, sv.tFirst, sv.tLast, g);
          sv := sv.(events := sv.events + [g]);
        }
      }
      prevSeq := raw.header.seqNo;
    }

    /** The timestamp part of `feed`. */
    method CheckTimes(raw: RawPacket)
      requires EventsInsideOr(sv.events, sv.tFirst, sv.tLast, TimeOf(raw))
      requires (first <==> valids == []) && (!first ==> prevTs == LastTime(valids))
      modifies `sv
      ensures var o := old(sv); var back := Bit(SteppedBack(valids, raw)); var jump := Bit(Jumped(valids, raw, cfg));
              sv == o.(timestampViolations := o.timestampViolations + Bit(TimeOf(raw) == 0) + jump,
                          monotonicViolations := o.monotonicViolations + back,
                          events := o.events + BackEvent(valids, raw) + JumpEvent(valids, raw, cfg))
      ensures EventsInsideOr(sv.events, sv.tFirst, sv.tLast, TimeOf(raw))
    {
      hide TimeOf, EventsInside, EventsInsideOr;
      var ts := TimeOf(raw);
      if ts == 0 {
        sv := sv.(timestampViolations := sv.timestampViolations + 1);
      }
      if !first && ts < prevTs {
        sv := sv.(monotonicViolations := sv.monotonicViolations + 1);
        var g := GapEvent(ts, TimestampGap, 0, 0, prevTs - ts, Warning);
        EventAdded(sv.events, sv.tFirst, sv.tLast, g);
        sv := sv.(events := sv.events + [g]);
      }
      if !first {
        var jump := ts - prevTs;
        if jump > cfg.maxJump {
          sv := sv.(timestampViolations := sv.timestampViolations + 1);
          var g := GapEvent(ts, TimestampGap, 0, 0, jump, Warning);
          EventAdded(sv.events, sv.tFirst, sv.tLast, g);
          sv := sv.(events := sv.events + [g]);
        }
      }
    }

    method UpdateSpan(raw: RawPacket)
      requires EventsInsideOr(sv.events, sv.tFirst, sv.tLast, TimeOf(raw)) && (first ==> sv.events == [])
      modifies `sv
      ensures var ts := TimeOf(raw); var o := old(sv);
              sv == o.(tFirst := if first || ts < o.tFirst then ts else o.tFirst,
                       tLast := if ts > o.tLast then ts else o.tLast)
      ensures EventsInside(sv.events, sv.tFirst, sv.tLast) && sv.tFirst <= TimeOf(raw) <= sv.tLast
    {
      hide TimeOf, EventsInside, EventsInsideOr;
      var ts := TimeOf(raw);
      ghost var lo, hi := sv.tFirst, sv.tLast;
      if first || ts < sv.tFirst {
        sv := sv.(tFirst := ts);
      }
      if ts > sv.tLast {
        sv := sv.(tLast := ts);
      }
      SpanCovers(sv.events, lo, hi, sv.tFirst, sv.tLast, ts);
    }

    method CheckAudio(raw: RawPacket) returns (finished: bool)
      requires EventsInside(sv.events, sv.tFirst, sv.tLast) && sv.tFirst <= TimeOf(raw) <= sv.tLast
      requires prevAudioTs == LastTime(AudioIn(valids)) && nominalPeriod == Nominal(AudioIn(valids))
      modifies `sv, `nominalPeriod, `prevAudioTs
      ensures finished <==> HasRate(raw)
      ensures EventsInside(sv.events, sv.tFirst, sv.tLast)
      ensures finished ==>
                var o := old(sv); var gap := Bit(NewAudioGap(valids, raw, cfg));
                && sv == o.(audioGaps := o.audioGaps + gap, events := o.events + AudioEvent(valids, raw, cfg))
                && nominalPeriod == (if IsAudio(raw) then NominalNext(valids, raw) else old(nominalPeriod))
                && prevAudioTs == (if IsAudio(raw) then TimeOf(raw) else old(prevAudioTs))
    {
      hide TimeOf, AudioIn, Nominal, LastTime;
      var ts := TimeOf(raw);
      if IsAudio(raw) {
        if SampleRate(raw) == 0 {
          return false;
        }
        var period := Period(raw);
        if nominalPeriod == 0 {
          nominalPeriod := period % TWO_32;
        }
        if prevAudioTs != 0 && nominalPeriod > 0 {
          var gap := ts - prevAudioTs;
          if gap > cfg.audioThreshold(nominalPeriod) {
            sv := sv.(audioGaps := sv.audioGaps + 1);
            sv := sv.(events := sv.events + [GapEvent(ts, AudioGap, 0, 0, gap, Warning)]);
          }
        }
        prevAudioTs := ts;
      }
      return true;
    }

    method CheckImu(raw: RawPacket)
      requires EventsInside(sv.events, sv.tFirst, sv.tLast) && sv.tFirst <= TimeOf(raw) <= sv.tLast
      requires prevImuTs == LastTime(ImuIn(valids))
      modifies `sv, `prevImuTs
      ensures EventsInside(sv.events, sv.tFirst, sv.tLast)
      ensures var o := old(sv); var gap := Bit(NewImuGap(valids, raw, cfg));
              sv == o.(telemetryGaps := o.telemetryGaps + gap, events := o.events + ImuEvent(valids, raw, cfg))
      ensures prevImuTs == (if IsImu(raw) then TimeOf(raw) else old(prevImuTs))
    {
      hide TimeOf, ImuIn, LastTime;
      var ts := TimeOf(raw);
      if IsImu(raw) {
        if prevImuTs != 0 {
          var gap := ts - prevImuTs;
          if gap > cfg.telemetryGap {
            sv := sv.(telemetryGaps := sv.telemetryGaps + 1);
            sv := sv.(events := sv.events + [GapEvent(ts, TelemetryGap, 0, 0, gap, Warning)]);
          }
        }
        prevImuTs := ts;
      }
    }
  }

  lemma NoneAtFirst(p: RawPacket, c: Config)
    ensures SeqEvent([], p) == BackEvent([], p) == JumpEvent([], p, c) == []
  {}

  lemma AllEvents(events: seq<GapEvent>, v: seq<RawPacket>, p: RawPacket, c: Config)
    ensures events + SeqEvent(v, p) + BackEvent(v, p) + JumpEvent(v, p, c) + AudioEvent(v, p, c) + ImuEvent(v, p, c)
              == events + (SeqEvent(v, p) + TimeEvents(v, p, c))
  {
    hide SeqEvent, BackEvent, JumpEvent, AudioEvent, ImuEvent;
  }

  /** The statistics after one more valid packet. */
  function Advanced(o: StreamValidation, v: seq<RawPacket>, p: RawPacket, c: Config): (r: StreamValidation)
    ensures r.fileOk == o.fileOk && r.crcFailed == o.crcFailed
    ensures r.events == o.events + (SeqEvent(v, p) + TimeEvents(v, p, c))
  {
    var ts := TimeOf(p);
    o.(total := o.total + 1, valid := o.valid + 1, lost := o.lost + NewMissing(v, p),
       timestampViolations := o.timestampViolations + Bit(ts == 0) + Bit(Jumped(v, p, c)),
       monotonicViolations := o.monotonicViolations + Bit(SteppedBack(v, p)),
       tFirst := if v == [] || ts < o.tFirst then ts else o.tFirst, tLast := if ts > o.tLast then ts else o.tLast,
       audioGaps := o.audioGaps + Bit(NewAudioGap(v, p, c)), telemetryGaps := o.telemetryGaps + Bit(NewImuGap(v, p, c)),
       events := o.events + (SeqEvent(v, p) + TimeEvents(v, p, c)))
  }

  lemma DescribesNext(o: StreamValidation, total: nat, v: seq<RawPacket>, p: RawPacket, c: Config)
    requires Describes(o, total, v, c) && HasRate(p)
    ensures Describes(Advanced(o, v, p, c), total + 1, v + [p], c)
    ensures EventsOf(v + [p], c) == EventsOf(v, c) + (SeqEvent(v, p) + TimeEvents(v, p, c))
  {
    hide TimeOf, Missing, MissingIn, SeqGapsIn, ZeroTimes, StepsBack, Jumps, AudioIn, ImuIn, AudioGapsIn, ImuGapsIn,
         Nominal, Earliest, Latest, LastTime, Period, IsAudio, IsImu, AudioGapAt, HasRate, SeqEvent, TimeEvents;
    OneMoreValid(v, p, c);
    OneMoreAudio(v, p, c);
    OneMoreImu(v, p, c);
    assert (v + [p])[..|v|] == v;
  }

  /** How the working variables follow the stream. */
  lemma TracksNext(v: seq<RawPacket>, p: RawPacket, c: Config)
    requires AllRates(v) && HasRate(p)
    ensures var w := v + [p];
            && AllRates(w) && LastTime(w) == TimeOf(p) && w[|w| - 1] == p
            && Nominal(AudioIn(w)) == (if IsAudio(p) then NominalNext(v, p) else Nominal(AudioIn(v)))
            && LastTime(AudioIn(w)) == (if IsAudio(p) then TimeOf(p) else LastTime(AudioIn(v)))
            && LastTime(ImuIn(w)) == (if IsImu(p) then TimeOf(p) else LastTime(ImuIn(v)))
  {
    hide TimeOf, AudioIn, ImuIn, Nominal, LastTime, Period, IsAudio, IsImu, HasRate, AllRates;
    OneMoreValid(v, p, c);
    OneMoreAudio(v, p, c);
    OneMoreImu(v, p, c);
    RatesAfter(v, p);
  }

  lemma FailedPacket(s: StreamValidation, total: nat, v: seq<RawPacket>, c: Config)
    requires Describes(s, total, v, c)
    ensures Describes(s.(total := s.total + 1, crcFailed := s.crcFailed + 1, lost := s.lost + 1), total + 1, v, c)
  {}

  lemma RatesAfter(v: seq<RawPacket>, p: RawPacket)
    requires AllRates(v) && HasRate(p)
    ensures AllRates(v + [p])
  {
    hide HasRate;
  }

  /** Every event lies between the two times. */
  predicate EventsInside(events: seq<GapEvent>, lo: int, hi: int)
  {
    forall i :: 0 <= i < |events| ==> lo <= events[i].t <= hi
  }

  predicate EventsInsideOr(events: seq<GapEvent>, lo: int, hi: int, t: int)
  {
    forall i :: 0 <= i < |events| ==> lo <= events[i].t <= hi || events[i].t == t
  }

  lemma InsideIsEnough(events: seq<GapEvent>, lo: int, hi: int, t: int)
    requires EventsInside(events, lo, hi)
    ensures EventsInsideOr(events, lo, hi, t)
  {}

  lemma EventAdded(events: seq<GapEvent>, lo: int, hi: int, e: GapEvent)
    requires EventsInsideOr(events, lo, hi, e.t)
    ensures EventsInsideOr(events + [e], lo, hi, e.t)
  {}

  /** Once the span covers t, so are all events. */
  lemma SpanCovers(events: seq<GapEvent>, lo: int, hi: int, lo': int, hi': int, t: int)
    requires EventsInsideOr(events, lo, hi, t) && lo' <= t <= hi'
    requires events == [] || (lo' <= lo && hi <= hi')
    ensures EventsInside(events, lo', hi')
  {}
}
