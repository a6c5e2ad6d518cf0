/** The validator's own computation of the stream statistics: one scan that collects counters and
    the sequence numbers, then a second pass over the collected numbers. */
module LogValidator {
  import opened Bytes
  import opened Crc32
  import opened Wrappers
  import opened LegacyPacket
  import opened ManifestReader
  import opened LogReader
  import opened LogIndex
  import opened Validator

  /** What the scan callback collects for the second pass. */
  datatype SeqTime = SeqTime(seqNo: uint32, ts: int)

  function Checked(ps: seq<RawPacket>): (r: seq<Fed>)
    ensures |r| == |ps|
  {
    seq(|ps|, i requires 0 <= i < |ps| => Fed(ps[i], Parse(ps[i]) == ParseOk))
  }

  function CrcFailures(ps: seq<RawPacket>): nat
  {
    if ps == [] then 0
    else
      var n := |ps| - 1;
      CrcFailures(ps[..n]) + if Parse(ps[n]) == CrcFail then 1 else 0
  }

  function SeqTimes(v: seq<RawPacket>): (r: seq<SeqTime>)
    ensures |r| == |v|
  {
    seq(|v|, i requires 0 <= i < |v| => SeqTime(v[i].header.seqNo, TimeOf(v[i])))
  }

  // ---- The events of the two passes ----

  /** The events the scan callback adds for a packet that follows fs; a failed packet and a zero
      time are errors here. */
  function ScanEvents(fs: seq<Fed>, f: Fed, c: Config): seq<GapEvent>
  {
    if !f.ok then [GapEvent(TimeOf(f.raw), FileTruncated, 0, 0, 0, Error)]
    else ZeroEvent(f.raw) + TimeEvents(Valids(fs), f.raw, c)
  }

  function ZeroEvent(p: RawPacket): seq<GapEvent>
  {
    if TimeOf(p) == 0 then [GapEvent(TimeOf(p), TimestampGap, 0, 0, 0, Error)] else []
  }

  function ScanEventsOf(fs: seq<Fed>, c: Config): seq<GapEvent>
  {
    if fs == [] then []
    else
      var n := |fs| - 1;
      ScanEventsOf(fs[..n], c) + ScanEvents(fs[..n], fs[n], c)
  }

  /** The events of the second pass. */
  function SeqEventsOf(v: seq<RawPacket>): seq<GapEvent>
  {
    if v == [] then []
    else
      var n := |v| - 1;
      SeqEventsOf(v[..n]) + SeqEvent(v[..n], v[n])
  }

  lemma SeqEventsStep(v: seq<RawPacket>, i: nat)
    requires i < |v|
    ensures SeqEventsOf(v[..i + 1]) == SeqEventsOf(v[..i]) + SeqEvent(v[..i], v[i])
  {
    hide SeqEvent;
    assert v[..i + 1][..i] == v[..i];
  }

  /** The second pass: sequence gaps of the collected list. */
  method CheckSeqGaps(list: seq<SeqTime>, sv: StreamValidation, ghost v: seq<RawPacket>) returns (out: StreamValidation)
    requires list == SeqTimes(v)
    ensures out == sv.(lost := sv.lost + MissingIn(v), events := sv.events + SeqEventsOf(v))
  {
    hide TimeOf, MissingIn, SeqEventsOf, SeqEvent, Missing;
    out := sv;
    ShortList(v);
    if |list| < 2 {
      return;
    }
    for i := 1 to |list|
      invariant out == sv.(lost := sv.lost + MissingIn(v[..i]), events := sv.events + SeqEventsOf(v[..i]))
    {
      OneSeqStep(v, i);
      var expected := (list[i - 1].seqNo + 1) % TWO_32;
      var actual := list[i].seqNo;
      if actual != expected && actual > expected {
        var lost := actual - expected;
        out := out.(lost := out.lost + lost);
        var g := GapEvent(list[i].ts, SeqGap, expected, actual, list[i].ts - list[i - 1].ts,
                          if lost > 10 then Error else Warning);
        out := out.(events := out.events + [g]);
      }
    }
    assert v[..|v|] == v;
  }

  /** What the pair of neighbours at i adds. */
  lemma OneSeqStep(v: seq<RawPacket>, i: nat)
    requires 0 < i < |v|
    ensures var expected := (v[i - 1].header.seqNo + 1) % TWO_32; var actual := v[i].header.seqNo;
            var lost := if actual > expected then actual - expected else 0;
            && MissingIn(v[..i + 1]) == MissingIn(v[..i]) + lost
            && SeqEventsOf(v[..i + 1]) == SeqEventsOf(v[..i]) +
                 if lost == 0 then []
                 else
                   [GapEvent(TimeOf(v[i]), SeqGap, expected, actual, TimeOf(v[i]) - TimeOf(v[i - 1]),
                             if lost > 10 then Error else Warning)]
  {
    hide TimeOf, SeqEventsOf;
    SeqEventsStep(v, i);
    assert v[..i + 1][..i] == v[..i];
  }

  lemma ShortList(v: seq<RawPacket>)
    ensures |v| < 2 ==> SeqEventsOf(v) == [] && MissingIn(v) == 0
    ensures |v| >= 1 ==> SeqEventsOf(v[..1]) == [] && MissingIn(v[..1]) == 0
  {
    if |v| >= 1 {
      SeqEventsStep(v, 0);
      assert v[..0] == [];
    }
    if |v| == 1 {
      assert v[..1] == v;
    }
  }

  /** Zero time, step back, jump, and the span. */
  method TimeChecks(sv: StreamValidation, raw: RawPacket, first: bool, prevTs: int, cfg: Config,
      ghost v: seq<RawPacket>)
    returns (out: StreamValidation)
    requires (first <==> v == []) && (!first ==> prevTs == LastTime(v))
    ensures var ts := TimeOf(raw); var zero := Bit(ts == 0); var back := Bit(SteppedBack(v, raw));
            var jump := Bit(Jumped(v, raw, cfg));
            out == sv.(timestampViolations := sv.timestampViolations + zero + jump,
                       monotonicViolations := sv.monotonicViolations + back,
                       tFirst := if v == [] || ts < sv.tFirst then ts else sv.tFirst,
                       tLast := if ts > sv.tLast then ts else sv.tLast,
                       events := sv.events + ZeroEvent(raw) + BackEvent(v, raw) + JumpEvent(v, raw, cfg))
  {
    hide TimeOf, LastTime;
    out := sv;
    var ts := TimeOf(raw);
    if ts == 0 {
      out := out.(timestampViolations := out.timestampViolations + 1);
      out := out.(events := out.events + [GapEvent(ts, TimestampGap, 0, 0, 0, Error)]);
    }
    if !first && ts < prevTs {
      out := out.(monotonicViolations := out.monotonicViolations + 1);
      out := out.(events := out.events + [GapEvent(ts, TimestampGap, 0, 0, prevTs - ts, Warning)]);
    }
    if !first {
      var jump := ts - prevTs;
      if jump > cfg.maxJump {
        out := out.(timestampViolations := out.timestampViolations + 1);
        out := out.(events := out.events + [GapEvent(ts, TimestampGap, 0, 0, jump, Warning)]);
      }
    }
    if first || ts < out.tFirst {
      out := out.(tFirst := ts);
    }
    if ts > out.tLast {
      out := out.(tLast := ts);
    }
  }

  /** Not finished: the division by the sample rate. */
  method AudioCheck(sv: StreamValidation, raw: RawPacket, nominal: nat, prevAudioTs: int, cfg: Config,
      ghost v: seq<RawPacket>)
    returns (finished: bool, out: StreamValidation, nominal': nat, prevAudioTs': int)
    requires prevAudioTs == LastTime(AudioIn(v)) && nominal == Nominal(AudioIn(v))
    ensures finished <==> HasRate(raw)
    ensures finished ==>
              var gap := Bit(NewAudioGap(v, raw, cfg));
              && out == sv.(audioGaps := sv.audioGaps + gap, events := sv.events + AudioEvent(v, raw, cfg))
              && nominal' == (if IsAudio(raw) then NominalNext(v, raw) else nominal)
              && prevAudioTs' == (if IsAudio(raw) then TimeOf(raw) else prevAudioTs)
  {
    hide TimeOf, AudioIn, Nominal, LastTime;
    finished, out, nominal', prevAudioTs' := true, sv, nominal, prevAudioTs;
    var ts := TimeOf(raw);
    if IsAudio(raw) {
      if SampleRate(raw) == 0 {
        finished := false;
        return;
      }
      var period := Period(raw);
      if nominal' == 0 {
        nominal' := period % TWO_32;
      }
      if prevAudioTs' != 0 && nominal' > 0 {
        var gap := ts - prevAudioTs';
        if gap > cfg.audioThreshold(nominal') {
          out := out.(audioGaps := out.audioGaps + 1);
          out := out.(events := out.events + [GapEvent(ts, AudioGap, 0, 0, gap, Warning)]);
        }
      }
      prevAudioTs' := ts;
    }
  }

  method ImuCheck(sv: StreamValidation, raw: RawPacket, prevImuTs: int, cfg: Config, ghost v: seq<RawPacket>)
    returns (out: StreamValidation, prevImuTs': int)
    requires prevImuTs == LastTime(ImuIn(v))
    ensures var gap := Bit(NewImuGap(v, raw, cfg));
            out == sv.(telemetryGaps := sv.telemetryGaps + gap, events := sv.events + ImuEvent(v, raw, cfg))
    ensures prevImuTs' == if IsImu(raw) then TimeOf(raw) else prevImuTs
  {
    hide TimeOf, ImuIn, LastTime;
    out, prevImuTs' := sv, prevImuTs;
    var ts := TimeOf(raw);
    if IsImu(raw) {
      if prevImuTs' != 0 {
        var gap := ts - prevImuTs';
        if gap > cfg.telemetryGap {
          out := out.(telemetryGaps := out.telemetryGaps + 1);
          out := out.(events := out.events + [GapEvent(ts, TelemetryGap, 0, 0, gap, Warning)]);
        }
      }
      prevImuTs' := ts;
    }
  }

  /** What the scan has collected, before the second pass adds the missing numbers. */
  predicate Collected(sv: StreamValidation, fs: seq<Fed>, c: Config)
  {
    && Describes(sv.(lost := sv.lost + MissingIn(Valids(fs))), |fs|, Valids(fs), c)
    && sv.events == ScanEventsOf(fs, c)
  }

  /** The statistics one valid packet later, but for the missing numbers. */
  function Collecting(o: StreamValidation, v: seq<RawPacket>, p: RawPacket, c: Config): StreamValidation
  {
    Advanced(o, v, p, c).(lost := o.lost, events := o.events + (ZeroEvent(p) + TimeEvents(v, p, c)))
  }

  lemma FedStep(fs: seq<Fed>, f: Fed, c: Config)
    ensures Valids(fs + [f]) == if f.ok then Valids(fs) + [f.raw] else Valids(fs)
    ensures ScanEventsOf(fs + [f], c) == ScanEventsOf(fs, c) + ScanEvents(fs, f, c)
  {
    hide ScanEvents;
    assert (fs + [f])[..|fs|] == fs;
  }

  lemma CollectedNext(o: StreamValidation, fs: seq<Fed>, p: RawPacket, c: Config)
    requires Collected(o, fs, c) && HasRate(p)
    ensures Collected(Collecting(o, Valids(fs), p, c), fs + [Fed(p, true)], c)
  {
    hide TimeOf, Missing, MissingIn, SeqGapsIn, ZeroTimes, StepsBack, Jumps, AudioIn, ImuIn, AudioGapsIn, ImuGapsIn,
         Nominal, Earliest, Latest, LastTime, Period, IsAudio, IsImu, AudioGapAt, HasRate, Valids, SeqEvent,
         TimeEvents, ZeroEvent, ScanEventsOf;
    var v := Valids(fs);
    FedStep(fs, Fed(p, true), c);
    OneMoreValid(v, p, c);
    OneMoreAudio(v, p, c);
    OneMoreImu(v, p, c);
  }

  /** The variables the scan callback captures. */
  datatype Progress = Progress(
    sv: StreamValidation, list: seq<SeqTime>, first: bool, prevTs: int, nominal: nat, prevAudioTs: int, prevImuTs: int)

  /** They describe the packets scanned so far. */
  ghost predicate Working(s: Progress, fs: seq<Fed>, c: Config)
  {
    var v := Valids(fs);
    && Collected(s.sv, fs, c) && AllRates(v) && s.list == SeqTimes(v)
    && (s.first <==> v == []) && (!s.first ==> s.prevTs == LastTime(v))
    && s.prevAudioTs == LastTime(AudioIn(v)) && s.nominal == Nominal(AudioIn(v)) && s.prevImuTs == LastTime(ImuIn(v))
    && s.sv.fileOk
  }

  lemma EventsInOrder(events: seq<GapEvent>, v: seq<RawPacket>, p: RawPacket, c: Config)
    ensures events + ZeroEvent(p) + BackEvent(v, p) + JumpEvent(v, p, c) + AudioEvent(v, p, c) + ImuEvent(v, p, c)
              == events + (ZeroEvent(p) + TimeEvents(v, p, c))
  {
    hide ZeroEvent, BackEvent, JumpEvent, AudioEvent, ImuEvent;
  }

  /** A valid packet in the scan callback. */
  method CollectValid(s: Progress, raw: RawPacket, cfg: Config, ghost fs: seq<Fed>) returns (r: Option<Progress>)
    requires Working(s, fs, cfg)
    ensures r.Some? <==> HasRate(raw)
    ensures r.Some? ==> Working(r.value, fs + [Fed(raw, true)], cfg) && r.value.sv.crcFailed == s.sv.crcFailed
  {
    hide TimeOf, AudioIn, ImuIn, Nominal, LastTime, IsAudio, IsImu, HasRate, AllRates, Collected, SeqTimes, Valids,
         NewMissing, SteppedBack, Jumped, NewAudioGap, NewImuGap, NominalNext, Bit, ZeroEvent, SeqEvent, BackEvent,
         JumpEvent, AudioEvent, ImuEvent, TimeEvents;
    ghost var v := Valids(fs);
    SeqTimesOfSnoc(v, raw);
    FedStep(fs, Fed(raw, true), cfg);
    EventsInOrder(s.sv.events, v, raw, cfg);
    var out := TimeChecks(s.sv.(total := s.sv.total + 1, valid := s.sv.valid + 1), raw, s.first, s.prevTs, cfg, v);
    var list := s.list + [SeqTime(raw.header.seqNo, TimeOf(raw))];
    var finished, nominal, prevAudioTs, prevImuTs;
    finished, out, nominal, prevAudioTs := AudioCheck(out, raw, s.nominal, s.prevAudioTs, cfg, v);
    if !finished {
      return None;
    }
    TracksNext(v, raw, cfg);
    CollectedNext(s.sv, fs, raw, cfg);
    out, prevImuTs := ImuCheck(out, raw, s.prevImuTs, cfg, v);
    r := Some(Progress(out, list, false, TimeOf(raw), nominal, prevAudioTs, prevImuTs));
  }

  /** A packet that failed its check. */
  method CollectFailed(s: Progress, raw: RawPacket, status: ParseStatus, cfg: Config, ghost fs: seq<Fed>)
      returns (s': Progress)
    requires Working(s, fs, cfg)
    ensures Working(s', fs + [Fed(raw, false)], cfg)
    ensures s'.sv.crcFailed == s.sv.crcFailed + if status == CrcFail then 1 else 0
  {
    hide TimeOf, AudioIn, ImuIn, Nominal, LastTime, AllRates, Collected, SeqTimes, Valids;
    var crc := if status == CrcFail then s.sv.crcFailed + 1 else s.sv.crcFailed;
    var g := GapEvent(TimeOf(raw), FileTruncated, 0, 0, 0, Error);
    FedStep(fs, Fed(raw, false), cfg);
    CollectedFailure(s.sv, fs, raw, cfg, crc);
    s' := s.(sv := s.sv.(total := s.sv.total + 1, crcFailed := crc, lost := s.sv.lost + 1,
        events := s.sv.events + [g]));
  }

  lemma CollectedFailure(sv: StreamValidation, fs: seq<Fed>, raw: RawPacket, c: Config, crc: nat)
    requires Collected(sv, fs, c)
    ensures var g := GapEvent(TimeOf(raw), FileTruncated, 0, 0, 0, Error);
            Collected(sv.(total := sv.total + 1, crcFailed := crc, lost := sv.lost + 1, events := sv.events + [g]),
                      fs + [Fed(raw, false)], c)
  {
    hide TimeOf, Valids, MissingIn, ZeroTimes, StepsBack, Jumps, AudioIn, ImuIn, AudioGapsIn, ImuGapsIn, Earliest,
         Latest, ScanEventsOf;
    FedStep(fs, Fed(raw, false), c);
  }

  /** A packet that passes its check has type 1 and a sample rate of zero. */
  predicate ZeroRateIn(ps: seq<RawPacket>)
  {
    exists i :: 0 <= i < |ps| && Parse(ps[i]) == ParseOk && !HasRate(ps[i])
  }

  lemma ZeroRateStep(ps: seq<RawPacket>, i: nat)
    requires i < |ps|
    ensures ZeroRateIn(ps[..i + 1]) <==> ZeroRateIn(ps[..i]) || (Parse(ps[i]) == ParseOk && !HasRate(ps[i]))
    ensures ZeroRateIn(ps[..i + 1]) ==> ZeroRateIn(ps)
  {
    hide Parse, HasRate;
    if ZeroRateIn(ps[..i]) {
      var k :| 0 <= k < i && Parse(ps[..i][k]) == ParseOk && !HasRate(ps[..i][k]);
      assert ps[..i + 1][k] == ps[..i][k];
    }
    if Parse(ps[i]) == ParseOk && !HasRate(ps[i]) {
      assert ps[..i + 1][i] == ps[i];
    }
  }

  datatype Collection = Collection(sv: StreamValidation, list: seq<SeqTime>)

  /** The scan over the packets of the log. */
  method Collect(ps: seq<RawPacket>, cfg: Config) returns (r: Option<Collection>)
    ensures r == None <==> ZeroRateIn(ps)
    ensures r.Some? ==>
              && Collected(r.value.sv, Checked(ps), cfg) && r.value.list == SeqTimes(Valids(Checked(ps)))
              && r.value.sv.crcFailed == CrcFailures(ps) && r.value.sv.fileOk
  {
    hide HasRate, Working, Parse, Valids, Checked, CrcFailures, ZeroRateIn;
    var s := Progress(NO_STATS, [], true, 0, 0, 0, 0);
    NothingCollected(cfg);
    NoZeroRate();
    assert ps[..0] == [];
    for i := 0 to |ps|
      invariant Working(s, Checked(ps[..i]), cfg) && s.sv.crcFailed == CrcFailures(ps[..i])
      invariant !ZeroRateIn(ps[..i])
    {
      CheckedStep(ps, i);
      ZeroRateStep(ps, i);
      var status := Parse(ps[i]);
      if status != ParseOk {
        s := CollectFailed(s, ps[i], status, cfg, Checked(ps[..i]));
      } else {
        var next := CollectValid(s, ps[i], cfg, Checked(ps[..i]));
        if next == None {
          return None;
        }
        s := next.value;
      }
    }
    assert ps[..|ps|] == ps;
    WorkingGives(s, Checked(ps), cfg);
    r := Some(Collection(s.sv, s.list));
  }

  lemma NoZeroRate()
    ensures !ZeroRateIn([])
  {}

  lemma WorkingGives(s: Progress, fs: seq<Fed>, c: Config)
    requires Working(s, fs, c)
    ensures Collected(s.sv, fs, c) && s.list == SeqTimes(Valids(fs)) && s.sv.fileOk
  {
    hide Collected, SeqTimes, AudioIn, ImuIn, Nominal, LastTime, AllRates;
  }

  lemma NothingCollected(c: Config)
    ensures Working(Progress(NO_STATS, [], true, 0, 0, 0, 0), Checked([]), c) && CrcFailures([]) == 0
  {
    NothingChecked();
  }

  lemma CheckedStep(ps: seq<RawPacket>, i: nat)
    requires i < |ps|
    ensures Checked(ps[..i + 1]) == Checked(ps[..i]) + [Fed(ps[i], Parse(ps[i]) == ParseOk)]
    ensures CrcFailures(ps[..i + 1]) == CrcFailures(ps[..i]) + if Parse(ps[i]) == CrcFail then 1 else 0
  {
    hide Parse;
    assert ps[..i + 1][..i] == ps[..i];
  }

  lemma SeqTimesOfSnoc(v: seq<RawPacket>, p: RawPacket)
    ensures SeqTimes(v + [p]) == SeqTimes(v) + [SeqTime(p.header.seqNo, TimeOf(p))]
  {
    hide TimeOf;
  }

  lemma ValidsStep(ps: seq<RawPacket>, i: nat)
    requires i < |ps|
    ensures Valids(Checked(ps[..i + 1])) ==
              if Parse(ps[i]) == ParseOk then Valids(Checked(ps[..i])) + [ps[i]] else Valids(Checked(ps[..i]))
    ensures CrcFailures(ps[..i + 1]) == CrcFailures(ps[..i]) + if Parse(ps[i]) == CrcFail then 1 else 0
  {
    hide Parse;
    var n := Checked(ps[..i + 1]);
    assert n[..i] == Checked(ps[..i]);
    assert ps[..i + 1][..i] == ps[..i];
    assert Valids(n) == Valids(n[..i]) + if n[i].ok then [n[i].raw] else [];
  }

  /** What `validate_ego` returns for a log whose chunk files exist. Packets the manifest promises
      beyond the valid ones count as lost. */
  ghost predicate Validated(sv: StreamValidation, ps: seq<RawPacket>, manifestCount: nat, cfg: Config)
  {
    var v := Valids(Checked(ps)); var short := if manifestCount > |v| then manifestCount - |v| else 0;
    && sv.lost >= short
    && Describes(sv.(lost := sv.lost - short), |ps|, v, cfg)
    && sv.events == ScanEventsOf(Checked(ps), cfg) + SeqEventsOf(v)
    && sv.crcFailed == CrcFailures(ps) && sv.fileOk
  }

  /** ps: what scanning the chunks of the manifest hands over; names: the files that exist. */
  method ValidateEgo(chunks: seq<OfflineChunk>, names: set<string>, ps: seq<RawPacket>, manifestCount: nat, cfg: Config)
    returns (r: Option<StreamValidation>)
    ensures (exists c :: c in chunks && c.name !in names) ==> r == Some(NO_STATS.(fileOk := false))
    ensures (forall c :: c in chunks ==> c.name in names) ==>
              && (r == None <==> ZeroRateIn(ps))
              && (r.Some? ==> Validated(r.value, ps, manifestCount, cfg))
  {
    hide MissingIn, SeqGapsIn, ZeroTimes, StepsBack, Jumps, AudioIn, ImuIn, AudioGapsIn, ImuGapsIn, Earliest, Latest,
         ZeroRateIn, Valids;
    if exists c :: c in chunks && c.name !in names {
      return Some(NO_STATS.(fileOk := false));
    }
    var collected := Collect(ps, cfg);
    if collected == None {
      return None;
    }
    var sv := CheckSeqGaps(collected.value.list, collected.value.sv, Valids(Checked(ps)));
    if manifestCount > 0 && sv.valid < manifestCount {
      sv := sv.(lost := sv.lost + (manifestCount - sv.valid));
    }
    r := Some(sv);
  }

  // ---- One pass against two ----

  function Failures(ps: seq<RawPacket>): nat
  {
    if ps == [] then 0
    else
      var n := |ps| - 1;
      Failures(ps[..n]) + if Parse(ps[n]) == ParseOk then 0 else 1
  }

  lemma {:induction false} FailuresAre(ps: seq<RawPacket>)
    ensures Failures(ps) == |ps| - |Valids(Checked(ps))| && CrcFailures(ps) <= Failures(ps)
    ensures CrcFailures(ps) == Failures(ps) <==> forall p :: p in ps ==> Parse(p) == ParseOk || Parse(p) == CrcFail
  {
    hide Parse, Valids;
    if ps == [] {
      NothingChecked();
    } else {
      var n := |ps| - 1;
      FailuresAre(ps[..n]);
      ValidsStep(ps, n);
      assert ps[..n + 1] == ps;
      assert ps == ps[..n] + [ps[n]];
    }
  }

  lemma NothingChecked()
    ensures Valids(Checked([])) == []
  {}

  /** A packet of an unknown protocol version fails the check, but not its checksum. */
  lemma BadVersionIsNoCrcFailure()
    ensures var p := RawPacket(PacketHeader(PACKET_MAGIC, 2, 0, 0, 0, 0, 0, 0, 0), None, [], 0, 0);
            Failures([p]) == 1 && CrcFailures([p]) == 0
  {
    var p := RawPacket(PacketHeader(PACKET_MAGIC, 2, 0, 0, 0, 0, 0, 0, 0), None, [], 0, 0);
    assert Parse(p) == BadVersion && [p][..0] == [];
  }

  /** The verdict on a packet of a legacy file, byte by byte. The recorder accepts the same packet exactly
      when in addition payload version and type are known, and an empty payload has its checksum too. */
  lemma VerdictOnBytes(d: bytes, chunkId: int, offset: nat)
    requires LegacyHead(d, chunkId, offset).Some?
    ensures |d| >= 34 && |d| >= 34 + FromLe(d[10..14])
    ensures var p, n := LegacyHead(d, chunkId, offset).value, FromLe(d[10..14]);
            var sound := FromLe(d[30..34]) == CrcValue(d[34..34 + n]);
            && (Parse(p) == ParseOk <==> FromLe(d[4..6]) == 1 && n <= 8192 && (n == 0 || sound))
            && (Parse(p) == CrcFail <==> FromLe(d[4..6]) == 1 && 0 < n <= 8192 && !sound)
            && (ValidPacket(d[..34 + n], 8192) <==>
                  Parse(p) == ParseOk && FromLe(d[6..8]) == 1 && 1 <= FromLe(d[8..10]) <= 8 && sound)
  {
    LegacyHeadFields(d, chunkId, offset);
    var p, n := LegacyHead(d, chunkId, offset).value, FromLe(d[10..14]);
    assert p.header.magic == PACKET_MAGIC && p.header.payloadSize == n;
    hide FromLe, CrcValue, LegacyHead, ValidPacket;
    assert p.payload[..n] == d[34..34 + n];
    PacketInFile(d, n);
  }

  lemma PacketInFile(d: bytes, n: nat)
    requires |d| >= 34 + n && FromLe(d[0..4]) == PACKET_MAGIC && FromLe(d[10..14]) == n
    ensures ValidPacket(d[..34 + n], 8192) <==>
            && FromLe(d[4..6]) == 1 && FromLe(d[6..8]) == 1 && 1 <= FromLe(d[8..10]) <= 8 && n <= 8192
            && FromLe(d[30..34]) == CrcValue(d[34..34 + n])
  {
    hide FromLe, CrcValue, ValidPacket;
    var b := d[..34 + n];
    assert b[0..4] == d[0..4] && b[4..6] == d[4..6] && b[6..8] == d[6..8] && b[8..10] == d[8..10];
    assert b[10..14] == d[10..14] && b[30..34] == d[30..34] && b[34..] == d[34..34 + n];
    ValidPacketBytes(b, 8192);
  }

  // ---- Failed packets are reported ----

  /** The times of the events of one kind. */
  function TimesOfKind(events: seq<GapEvent>, kind: GapType): seq<int>
  {
    if events == [] then []
    else
      var n := |events| - 1;
      TimesOfKind(events[..n], kind) + if events[n].gapType == kind then [events[n].t] else []
  }

  /** The times of the packets that fail the check. */
  function FailedTimes(ps: seq<RawPacket>): seq<int>
  {
    if ps == [] then []
    else
      var n := |ps| - 1;
      FailedTimes(ps[..n]) + if Parse(ps[n]) == ParseOk then [] else [TimeOf(ps[n])]
  }

  lemma {:induction false} TimesOfConcat(a: seq<GapEvent>, b: seq<GapEvent>, kind: GapType)
    ensures TimesOfKind(a + b, kind) == TimesOfKind(a, kind) + TimesOfKind(b, kind)
    decreases |b|
  {
    if b == [] {
      assert a + b == a;
    } else {
      var n := |b| - 1;
      TimesOfConcat(a, b[..n], kind);
      assert (a + b)[..|a| + n] == a + b[..n];
    }
  }

  lemma {:induction false} NoneOfKind(events: seq<GapEvent>, kind: GapType)
    requires forall e :: e in events ==> e.gapType != kind
    ensures TimesOfKind(events, kind) == []
  {
    if events == [] {
    } else {
      var n := |events| - 1;
      assert events[n] in events && forall e :: e in events[..n] ==> e in events;
      NoneOfKind(events[..n], kind);
    }
  }

  lemma OtherKinds(v: seq<RawPacket>, p: RawPacket, c: Config)
    ensures forall e :: e in TimeEvents(v, p, c) + SeqEvent(v, p) + ZeroEvent(p) ==> e.gapType != FileTruncated
  {
    hide TimeOf, NewAudioGap, NewImuGap, SteppedBack, Jumped;
  }

  lemma {:induction false} SeqEventsAreOther(v: seq<RawPacket>)
    ensures forall e :: e in SeqEventsOf(v) ==> e.gapType != FileTruncated
  {
    hide SeqEvent, TimeEvents;
    if v == [] {
    } else {
      var n := |v| - 1;
      SeqEventsAreOther(v[..n]);
      SeqEventIsOther(v[..n], v[n]);
    }
  }

  lemma SeqEventIsOther(v: seq<RawPacket>, p: RawPacket)
    ensures forall e :: e in SeqEvent(v, p) ==> e.gapType != FileTruncated
  {}

  lemma OneFailed(t: int)
    ensures TimesOfKind([GapEvent(t, FileTruncated, 0, 0, 0, Error)], FileTruncated) == [t]
  {
    var e := [GapEvent(t, FileTruncated, 0, 0, 0, Error)];
    assert e[..0] == [];
  }

  /** The two-pass validator reports one truncation event for each failed packet, at its time and in order. */
  lemma {:induction false} FailedAreReported(ps: seq<RawPacket>, c: Config)
    ensures TimesOfKind(ScanEventsOf(Checked(ps), c), FileTruncated) == FailedTimes(ps)
    ensures TimesOfKind(ScanEventsOf(Checked(ps), c) + SeqEventsOf(Valids(Checked(ps))), FileTruncated)
            == FailedTimes(ps)
  {
    hide Parse, TimeEvents, ZeroEvent, TimeOf, SeqEventsOf, Valids, TimesOfKind;
    var v := Valids(Checked(ps));
    SeqEventsAreOther(v);
    NoneOfKind(SeqEventsOf(v), FileTruncated);
    TimesOfConcat(ScanEventsOf(Checked(ps), c), SeqEventsOf(v), FileTruncated);
    if ps == [] {
      NoneOfKind([], FileTruncated);
    } else {
      var n := |ps| - 1;
      var f := Fed(ps[n], Parse(ps[n]) == ParseOk);
      FailedAreReported(ps[..n], c);
      assert Checked(ps)[..n] == Checked(ps[..n]);
      var added := ScanEvents(Checked(ps[..n]), f, c);
      TimesOfConcat(ScanEventsOf(Checked(ps[..n]), c), added, FileTruncated);
      if f.ok {
        OtherKinds(Valids(Checked(ps[..n])), ps[n], c);
        NoneOfKind(added, FileTruncated);
      } else {
        OneFailed(TimeOf(ps[n]));
      }
    }
  }

  // ---- Where the ranges are cut ----

  /** The breaks the scan callback adds beyond the gaps: failed packets and zero times. */
  function ScanBreaks(fs: seq<Fed>): seq<int>
  {
    if fs == [] then []
    else
      var n := |fs| - 1;
      ScanBreaks(fs[..n]) + if !fs[n].ok || TimeOf(fs[n].raw) == 0 then [TimeOf(fs[n].raw)] else []
  }

  lemma OneBreak(e: GapEvent)
    ensures Breaks([e]) == if e.severity == Error then [e.t] else []
  {
    assert [e][..0] == [];
    assert Breaks([e][..0]) == [];
  }

  lemma ScanEventsBreakOnce(fs: seq<Fed>, f: Fed, c: Config)
    ensures Breaks(ScanEvents(fs, f, c)) == if !f.ok || TimeOf(f.raw) == 0 then [TimeOf(f.raw)] else []
  {
    hide TimeOf, TimeEvents, Breaks;
    if f.ok {
      BreaksConcat(ZeroEvent(f.raw), TimeEvents(Valids(fs), f.raw, c));
      TimeEventsWarn(Valids(fs), f.raw, c);
      NoBreaks();
      OneBreak(GapEvent(TimeOf(f.raw), TimestampGap, 0, 0, 0, Error));
    } else {
      OneBreak(GapEvent(TimeOf(f.raw), FileTruncated, 0, 0, 0, Error));
    }
  }

  lemma NoBreaks()
    ensures Breaks([]) == []
  {}

  lemma {:induction false} ScanEventsBreak(fs: seq<Fed>, c: Config)
    ensures Breaks(ScanEventsOf(fs, c)) == ScanBreaks(fs)
  {
    hide TimeOf, ScanEvents;
    if fs == [] {
    } else {
      var n := |fs| - 1;
      ScanEventsBreak(fs[..n], c);
      BreaksConcat(ScanEventsOf(fs[..n], c), ScanEvents(fs[..n], fs[n], c));
      ScanEventsBreakOnce(fs[..n], fs[n], c);
    }
  }

  lemma {:induction false} SeqEventsBreak(v: seq<RawPacket>)
    ensures Breaks(SeqEventsOf(v)) == GapBreaks(v)
  {
    hide TimeOf, SeqEvent, NewMissing, Breaks, GapBreaks, SeqEventsOf;
    if v == [] {
      NoGapBreaks();
    } else {
      var n := |v| - 1;
      SeqEventsBreak(v[..n]);
      SeqEventsStep(v, n);
      BreaksConcat(SeqEventsOf(v[..n]), SeqEvent(v[..n], v[n]));
      OneSeqBreak(v[..n], v[n]);
      GapBreaksStep(v[..n], v[n]);
      assert v[..n + 1] == v && v == v[..n] + [v[n]];
    }
  }

  lemma NoGapBreaks()
    ensures SeqEventsOf([]) == [] && Breaks([]) == [] && GapBreaks([]) == []
  {}

  lemma {:induction false} NoScanBreaks(ps: seq<RawPacket>)
    ensures ScanBreaks(Checked(ps)) == [] <==> forall p :: p in ps ==> Parse(p) == ParseOk && TimeOf(p) != 0
  {
    hide TimeOf, Parse;
    if ps == [] {
    } else {
      var n := |ps| - 1;
      NoScanBreaks(ps[..n]);
      assert Checked(ps)[..n] == Checked(ps[..n]);
      assert ps == ps[..n] + [ps[n]];
    }
  }

  /** More breaks at the end change the multiset unless there are none. */
  lemma SameMultiset(a: seq<int>, b: seq<int>)
    ensures multiset(b) == multiset(a + b) <==> a == []
  {
    if a != [] {
      assert |multiset(a + b)| == |a| + |b| && |multiset(b)| == |b|;
    } else {
      assert a + b == b;
    }
  }

  /** Feeding a legacy log to the accumulator, packet by packet as it is checked. */
  method OnePass(ps: seq<RawPacket>, cfg: Config) returns (r: Option<StreamValidation>)
    ensures r == None <==> ZeroRateIn(ps)
    ensures r.Some? ==>
              var sv := r.value;
              && Describes(sv, |ps|, Valids(Checked(ps)), cfg) && sv.crcFailed == Failures(ps) && sv.fileOk
              && sv.events == EventsOf(Valids(Checked(ps)), cfg)
  {
    hide TimeOf, HasRate, Parse, Describes, EventsOf, ZeroRateIn;
    var acc := new ScanAccumulator(cfg, true);
    NothingChecked();
    NoZeroRate();
    for i := 0 to |ps|
      invariant fresh(acc) && acc.Valid() && acc.total == i && acc.valids == Valids(Checked(ps[..i]))
                && acc.sv.fileOk && acc.cfg == cfg
      invariant !ZeroRateIn(ps[..i])
    {
      ValidsStep(ps, i);
      ZeroRateStep(ps, i);
      var finished := acc.Feed(ps[i], Parse(ps[i]) == ParseOk);
      if !finished {
        return None;
      }
    }
    assert ps[..|ps|] == ps;
    FailuresAre(ps);
    r := Some(acc.sv);
  }

  /** The nine counts and times, and where the usable ranges are cut. */
  ghost predicate Agree(one: StreamValidation, two: StreamValidation, ps: seq<RawPacket>)
  {
    && one.total == two.total && one.valid == two.valid && one.lost == two.lost
    && one.timestampViolations == two.timestampViolations && one.monotonicViolations == two.monotonicViolations
    && one.audioGaps == two.audioGaps && one.telemetryGaps == two.telemetryGaps
    && one.tFirst == two.tFirst && one.tLast == two.tLast
    && one.lost == Failures(ps) + MissingIn(Valids(Checked(ps)))
    && Breaks(two.events) == ScanBreaks(Checked(ps)) + Breaks(one.events)
  }

  /** On every legacy stream both passes divide by zero, or the fused pass and the two-pass validator
      give the same counts and the same first and last time. They differ in two things. The
      accumulator counts every failed packet as a CRC failure, so those counters agree exactly when
      no packet failed for another reason. And only the validator cuts the usable ranges at failed
      packets and zero times, so the cuts agree exactly when there are none. */
  method OnePassEqualsTwoPass(chunks: seq<OfflineChunk>, ps: seq<RawPacket>, cfg: Config)
    returns (one: Option<StreamValidation>, two: Option<StreamValidation>)
    ensures one == None <==> ZeroRateIn(ps)
    ensures two == None <==> ZeroRateIn(ps)
    ensures !ZeroRateIn(ps) ==>
              && Agree(one.value, two.value, ps)
              && (one.value.crcFailed == two.value.crcFailed <==>
                    forall p :: p in ps ==> Parse(p) == ParseOk || Parse(p) == CrcFail)
              && (multiset(Breaks(one.value.events)) == multiset(Breaks(two.value.events)) <==>
                    forall p :: p in ps ==> Parse(p) == ParseOk && TimeOf(p) != 0)
  {
    hide MissingIn, ZeroTimes, StepsBack, Jumps, AudioIn, ImuIn, AudioGapsIn, ImuGapsIn, Earliest, Latest, HasRate,
         Parse, Valids, TimeOf, Breaks, ScanBreaks, ScanEventsOf, SeqEventsOf, EventsOf, Checked, ZeroRateIn;
    one := OnePass(ps, cfg);
    two := ValidateEgo(chunks, set c | c in chunks :: c.name, ps, 0, cfg);
    if one == None {
      return;
    }
    FailuresAre(ps);
    var v := Valids(Checked(ps));
    EventsBreakAtGaps(v, cfg);
    BreaksConcat(ScanEventsOf(Checked(ps), cfg), SeqEventsOf(v));
    ScanEventsBreak(Checked(ps), cfg);
    SeqEventsBreak(v);
    NoScanBreaks(ps);
    SameMultiset(ScanBreaks(Checked(ps)), Breaks(one.value.events));
  }
}
