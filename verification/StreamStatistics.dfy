/** What the stream statistics mean: each counter as the number of places in the stream where the
    named anomaly occurs, in terms of the header fields and payload bytes of the packets. */
module StreamStatistics {
  import opened Bytes
  import opened LogIndex
  import opened LogReader
  import opened Validator

  // ---- Counting places ----

  /** The places i > 0 of a stream of n packets at which bad holds. */
  function Places(n: nat, bad: int -> bool): set<int>
  {
    set i | 0 < i < n && bad(i)
  }

  lemma PlacesStep(n: nat, bad: int -> bool, bad': int -> bool)
    requires n > 0 && forall i :: 0 < i < n ==> bad(i) == bad'(i)
    ensures |Places(n + 1, bad')| == |Places(n, bad)| + (if bad'(n) then 1 else 0)
  {
    if bad'(n) {
      assert Places(n + 1, bad') == Places(n, bad) + {n};
    } else {
      assert Places(n + 1, bad') == Places(n, bad);
    }
  }

  lemma NoPlaces(n: nat, bad: int -> bool)
    requires n < 2
    ensures |Places(n, bad)| == 0
  {
    assert Places(n, bad) == {};
  }

  // ---- Times ----

  /** Packets earlier than the one before them. */
  lemma {:induction false} StepsBackAreCounted(v: seq<RawPacket>)
    ensures StepsBack(v) == |Places(|v|, i => 0 < i < |v| && TimeOf(v[i]) < TimeOf(v[i - 1]))|
  {
    hide TimeOf, Places;
    var bad := i => 0 < i < |v| && TimeOf(v[i]) < TimeOf(v[i - 1]);
    if |v| < 2 {
      NoPlaces(|v|, bad);
    } else {
      var n := |v| - 1;
      var init := v[..n];
      StepsBackAreCounted(init);
      PlacesStep(n, i => 0 < i < |init| && TimeOf(init[i]) < TimeOf(init[i - 1]), bad);
    }
  }

  /** Packets later than the one before them by more than the limit. */
  lemma {:induction false} JumpsAreCounted(v: seq<RawPacket>, limit: int)
    ensures Jumps(v, limit) == |Places(|v|, i => 0 < i < |v| && TimeOf(v[i]) - TimeOf(v[i - 1]) > limit)|
  {
    hide TimeOf, Places;
    var bad := i => 0 < i < |v| && TimeOf(v[i]) - TimeOf(v[i - 1]) > limit;
    if |v| < 2 {
      NoPlaces(|v|, bad);
    } else {
      var n := |v| - 1;
      var init := v[..n];
      JumpsAreCounted(init, limit);
      PlacesStep(n, i => 0 < i < |init| && TimeOf(init[i]) - TimeOf(init[i - 1]) > limit, bad);
    }
  }

  /** Packets with time zero; the place before the first packet stands for place 0. */
  lemma {:induction false} ZeroTimesAreCounted(v: seq<RawPacket>)
    ensures ZeroTimes(v) == |Places(|v| + 1, i => 0 < i <= |v| && v[i - 1].header.tsNs == 0)|
  {
    hide Places;
    var bad := i => 0 < i <= |v| && v[i - 1].header.tsNs == 0;
    if v == [] {
      NoPlaces(1, bad);
    } else {
      var n := |v| - 1;
      var init := v[..n];
      ZeroTimesAreCounted(init);
      PlacesStep(n + 1, i => 0 < i <= |init| && init[i - 1].header.tsNs == 0, bad);
    }
  }

  /** The first time is the least one. */
  lemma {:induction false} EarliestIsLeast(v: seq<RawPacket>)
    requires v != []
    ensures exists i :: 0 <= i < |v| && Earliest(v) == TimeOf(v[i])
    ensures forall i :: 0 <= i < |v| ==> Earliest(v) <= TimeOf(v[i])
  {
    hide TimeOf;
    var n := |v| - 1;
    if n == 0 {
      assert Earliest(v) == TimeOf(v[0]);
    } else {
      EarliestIsLeast(v[..n]);
      var i :| 0 <= i < n && Earliest(v[..n]) == TimeOf(v[..n][i]);
      assert v[..n][i] == v[i];
      assert forall j :: 0 <= j < n ==> v[..n][j] == v[j];
      assert Earliest(v) == TimeOf(v[i]) || Earliest(v) == TimeOf(v[n]);
    }
  }

  /** The last time is the greatest one, and at least 0. */
  lemma {:induction false} LatestIsGreatest(v: seq<RawPacket>)
    ensures Latest(v) == 0 || exists i :: 0 <= i < |v| && Latest(v) == TimeOf(v[i])
    ensures Latest(v) >= 0 && forall i :: 0 <= i < |v| ==> Latest(v) >= TimeOf(v[i])
  {
    hide TimeOf;
    if v == [] {
    } else {
      var n := |v| - 1;
      LatestIsGreatest(v[..n]);
      assert forall j :: 0 <= j < n ==> v[..n][j] == v[j];
      if TimeOf(v[n]) <= Latest(v[..n]) && Latest(v[..n]) != 0 {
        var i :| 0 <= i < n && Latest(v[..n]) == TimeOf(v[..n][i]);
        assert Latest(v) == TimeOf(v[i]);
      }
    }
  }

  // ---- Sequence numbers ----

  /** Packets whose number is above the 32-bit successor of the number before. */
  lemma {:induction false} SeqGapsAreCounted(v: seq<RawPacket>)
    ensures SeqGapsIn(v) == |Places(|v|, i =>
              0 < i < |v| && v[i].header.seqNo > (v[i - 1].header.seqNo + 1) % TWO_32)|
  {
    hide Places;
    var bad := i => 0 < i < |v| && v[i].header.seqNo > (v[i - 1].header.seqNo + 1) % TWO_32;
    if |v| < 2 {
      NoPlaces(|v|, bad);
    } else {
      var n := |v| - 1;
      var init := v[..n];
      SeqGapsAreCounted(init);
      PlacesStep(n, i => 0 < i < |init| && init[i].header.seqNo > (init[i - 1].header.seqNo + 1) % TWO_32, bad);
    }
  }

  /** In a stream of increasing numbers the missing ones are those between the first and the last that
      did not come. */
  lemma {:induction false} MissingIsTheRest(v: seq<RawPacket>)
    requires v != [] && forall i :: 0 < i < |v| ==> v[i - 1].header.seqNo < v[i].header.seqNo
    ensures MissingIn(v) == v[|v| - 1].header.seqNo - v[0].header.seqNo + 1 - |v|
  {
    if |v| == 1 {
    } else {
      var n := |v| - 1;
      MissingIsTheRest(v[..n]);
      assert v[n - 1].header.seqNo < v[n].header.seqNo;
    }
  }

  /** Nothing is missing exactly when no number is above the successor of the one before; the
      successor of 2^32 - 1 is 0. */
  lemma {:induction false} NothingMissing(v: seq<RawPacket>)
    ensures MissingIn(v) == 0 <==>
            forall i :: 0 < i < |v| ==> v[i].header.seqNo <= (v[i - 1].header.seqNo + 1) % TWO_32
  {
    if |v| < 2 {
    } else {
      var n := |v| - 1;
      NothingMissing(v[..n]);
      assert forall i :: 0 <= i < n ==> v[..n][i] == v[i];
    }
  }

  // ---- Which packets count as audio and as telemetry ----

  lemma {:induction false} ImuIsType3(v: seq<RawPacket>)
    requires forall p :: p in v ==> p.header.packetType == 3
    ensures ImuIn(v) == v
  {
    hide ImuIn;
    if v == [] {
      NoImu();
    } else {
      var n := |v| - 1;
      assert v[n] in v && forall p :: p in v[..n] ==> p in v;
      ImuIsType3(v[..n]);
      ImuInStep(v[..n], v[n]);
      assert v == v[..n] + [v[n]];
    }
  }

  lemma NoImu()
    ensures ImuIn([]) == []
  {}

  lemma {:induction false} ImuOfConcat(a: seq<RawPacket>, b: seq<RawPacket>)
    ensures ImuIn(a + b) == ImuIn(a) + ImuIn(b)
  {
    hide IsImu, ImuIn;
    if b == [] {
      assert a + b == a;
      NoImu();
    } else {
      var n := |b| - 1;
      ImuOfConcat(a, b[..n]);
      ImuInStep(a + b[..n], b[n]);
      ImuInStep(b[..n], b[n]);
      assert a + b == a + b[..n] + [b[n]] && b == b[..n] + [b[n]];
    }
  }

  /** A packet of another type does not affect the telemetry stream. */
  lemma OthersAreNotImu(a: seq<RawPacket>, p: RawPacket, b: seq<RawPacket>)
    ensures p.header.packetType != 3 ==> ImuIn(a + [p] + b) == ImuIn(a + b)
    ensures p.header.packetType == 3 ==> ImuIn(a + [p] + b) == ImuIn(a) + [p] + ImuIn(b)
  {
    ImuInStep(a, p);
    ImuOfConcat(a + [p], b);
    ImuOfConcat(a, b);
  }

  lemma {:induction false} AudioIsType1(v: seq<RawPacket>)
    requires forall p :: p in v ==> p.header.packetType == 1 && |p.payload| >= 10
    ensures AudioIn(v) == v
  {
    hide AudioIn;
    if v == [] {
      NoAudio();
    } else {
      var n := |v| - 1;
      assert v[n] in v && forall p :: p in v[..n] ==> p in v;
      AudioIsType1(v[..n]);
      AudioInStep(v[..n], v[n]);
      assert v == v[..n] + [v[n]];
    }
  }

  lemma NoAudio()
    ensures AudioIn([]) == []
  {}

  lemma {:induction false} AudioOfConcat(a: seq<RawPacket>, b: seq<RawPacket>)
    ensures AudioIn(a + b) == AudioIn(a) + AudioIn(b)
  {
    hide IsAudio, AudioIn;
    if b == [] {
      assert a + b == a;
      NoAudio();
    } else {
      var n := |b| - 1;
      AudioOfConcat(a, b[..n]);
      AudioInStep(a + b[..n], b[n]);
      AudioInStep(b[..n], b[n]);
      assert a + b == a + b[..n] + [b[n]] && b == b[..n] + [b[n]];
    }
  }

  /** A packet of another type, or too short for the block header, does not affect the audio stream. */
  lemma OthersAreNotAudio(a: seq<RawPacket>, p: RawPacket, b: seq<RawPacket>)
    ensures p.header.packetType != 1 || |p.payload| < 10 ==> AudioIn(a + [p] + b) == AudioIn(a + b)
    ensures p.header.packetType == 1 && |p.payload| >= 10 ==> AudioIn(a + [p] + b) == AudioIn(a) + [p] + AudioIn(b)
  {
    AudioInStep(a, p);
    AudioOfConcat(a + [p], b);
    AudioOfConcat(a, b);
  }

  /** Packet i comes later after the one before than the limit, and that one has a time. */
  predicate Late(v: seq<RawPacket>, i: int, limit: int)
    requires 0 < i < |v|
  {
    TimeOf(v[i - 1]) != 0 && TimeOf(v[i]) - TimeOf(v[i - 1]) > limit
  }

  function LatePlaces(v: seq<RawPacket>, limit: int): set<int>
  {
    set i | 0 < i < |v| && Late(v, i, limit)
  }

  lemma LatePlacesStep(v: seq<RawPacket>, limit: int)
    requires |v| >= 2
    ensures var n := |v| - 1;
            |LatePlaces(v, limit)| == |LatePlaces(v[..n], limit)|
              + (if TimeOf(v[n - 1]) != 0 && TimeOf(v[n]) - TimeOf(v[n - 1]) > limit then 1 else 0)
  {
    hide TimeOf;
    var n := |v| - 1;
    if TimeOf(v[n - 1]) != 0 && TimeOf(v[n]) - TimeOf(v[n - 1]) > limit {
      assert Late(v, n, limit) && forall i :: 0 < i < n ==> Late(v, i, limit) == Late(v[..n], i, limit);
      assert LatePlaces(v, limit) == LatePlaces(v[..n], limit) + {n};
    } else {
      assert forall i :: 0 < i < n ==> Late(v, i, limit) == Late(v[..n], i, limit);
      assert LatePlaces(v, limit) == LatePlaces(v[..n], limit);
    }
  }

  lemma NoLatePlaces(v: seq<RawPacket>, limit: int)
    ensures |LatePlaces(v, limit)| == 0 <==>
            forall i :: 0 < i < |v| && TimeOf(v[i - 1]) != 0 ==> TimeOf(v[i]) - TimeOf(v[i - 1]) <= limit
  {
    hide TimeOf;
    if i :| 0 < i < |v| && Late(v, i, limit) {
      assert i in LatePlaces(v, limit);
    } else {
      assert LatePlaces(v, limit) == {};
      forall i | 0 < i < |v| && TimeOf(v[i - 1]) != 0
        ensures TimeOf(v[i]) - TimeOf(v[i - 1]) <= limit
      {
        assert !Late(v, i, limit);
      }
    }
  }

  /** Telemetry packets that come later than the limit after the one before, unless that one has time 0. */
  lemma {:induction false} ImuGapsAreCounted(m: seq<RawPacket>, limit: int)
    ensures ImuGapsIn(m, limit) == |LatePlaces(m, limit)|
  {
    hide TimeOf, LatePlaces;
    if |m| < 2 {
      NothingIsLate(m, limit);
    } else {
      ImuGapsAreCounted(m[..|m| - 1], limit);
      LatePlacesStep(m, limit);
    }
  }

  lemma NothingIsLate(v: seq<RawPacket>, limit: int)
    requires |v| < 2
    ensures |LatePlaces(v, limit)| == 0
  {
    assert LatePlaces(v, limit) == {};
  }

  // ---- Audio blocks ----

  /** Every block has this sample rate and number of samples. */
  predicate AllBlocks(a: seq<RawPacket>, rate: nat, samples: nat)
  {
    forall p :: p in a ==>
      && p.header.packetType == 1 && |p.payload| >= 10
      && FromLe(p.payload[2..6]) == rate && FromLe(p.payload[6..10]) == samples
  }

  /** The duration of a block of so many samples in nanoseconds, in 32 bits. */
  function BlockTime(rate: nat, samples: nat): nat
    requires rate > 0
  {
    samples * 1_000_000_000 / rate % TWO_32
  }

  lemma BlockPeriod(p: RawPacket, rate: nat, samples: nat)
    requires AllBlocks([p], rate, samples) && rate > 0
    ensures IsAudio(p) && HasRate(p) && Period(p) % TWO_32 == BlockTime(rate, samples)
  {
    hide FromLe;
    assert p in [p];
  }

  lemma {:induction false} NominalIsConstant(a: seq<RawPacket>, rate: nat, samples: nat)
    requires AllBlocks(a, rate, samples) && rate > 0 && a != []
    ensures Nominal(a) == BlockTime(rate, samples)
  {
    hide FromLe, Period, HasRate, IsAudio, BlockTime;
    var n := |a| - 1;
    assert a[n] in a && forall p :: p in a[..n] ==> p in a;
    assert forall p :: p in [a[n]] ==> p == a[n];
    BlockPeriod(a[n], rate, samples);
    if n > 0 {
      NominalIsConstant(a[..n], rate, samples);
    }
  }

  /** In a stream of equal audio blocks the gaps are the places where a block comes later after the one
      before than the threshold for the duration of a block, samples / rate seconds in nanoseconds. */
  lemma {:induction false} AudioGapsAreCounted(a: seq<RawPacket>, rate: nat, samples: nat, c: Config)
    requires AllBlocks(a, rate, samples) && rate > 0
    requires BlockTime(rate, samples) > 0
    ensures AudioGapsIn(a, c) == |LatePlaces(a, c.audioThreshold(BlockTime(rate, samples)))|
  {
    hide TimeOf, LatePlaces, Nominal, FromLe, BlockTime;
    var limit := c.audioThreshold(BlockTime(rate, samples));
    if |a| < 2 {
      NothingIsLate(a, limit);
    } else {
      var n := |a| - 1;
      assert forall p :: p in a[..n] ==> p in a;
      AudioGapsAreCounted(a[..n], rate, samples, c);
      NominalIsConstant(a, rate, samples);
      LatePlacesStep(a, limit);
    }
  }

  /** No audio gap is counted exactly when every block comes in time. */
  lemma NoAudioGaps(a: seq<RawPacket>, rate: nat, samples: nat, c: Config)
    requires AllBlocks(a, rate, samples) && rate > 0
    requires BlockTime(rate, samples) > 0
    ensures AudioGapsIn(AudioIn(a), c) == 0 <==>
            forall i :: 0 < i < |a| && TimeOf(a[i - 1]) != 0 ==>
              TimeOf(a[i]) - TimeOf(a[i - 1]) <= c.audioThreshold(BlockTime(rate, samples))
  {
    hide TimeOf, AudioGapsIn, AudioIn, FromLe, BlockTime, LatePlaces;
    AudioIsType1(a);
    AudioGapsAreCounted(a, rate, samples, c);
    NoLatePlaces(a, c.audioThreshold(BlockTime(rate, samples)));
  }

  /** Blocks whose period is 0 in 32 bits never give an audio gap. */
  lemma {:induction false} NoPeriodNoGaps(a: seq<RawPacket>, rate: nat, samples: nat, c: Config)
    requires AllBlocks(a, rate, samples) && rate > 0
    requires BlockTime(rate, samples) == 0
    ensures AudioGapsIn(a, c) == 0
  {
    hide TimeOf, Nominal, FromLe, BlockTime;
    if |a| < 2 {
    } else {
      var n := |a| - 1;
      assert forall p :: p in a[..n] ==> p in a;
      NoPeriodNoGaps(a[..n], rate, samples, c);
      NominalIsConstant(a, rate, samples);
    }
  }

  // ---- Events ----

  /** The event names the packet p, the last one before it that matters, and what is wrong between them. */
  predicate Explained(e: GapEvent, v: seq<RawPacket>, i: int, c: Config)
    requires 0 < i < |v|
  {
    var p, q := v[i], v[i - 1];
    && e.t == TimeOf(p)
    && (e.severity == Error <==> e.gapType == SeqGap && e.actualSeq - e.expectedSeq > 10)
    && (e.gapType != SeqGap ==> e.expectedSeq == e.actualSeq == 0)
    && match e.gapType
       case SeqGap =>
         && e.actualSeq == p.header.seqNo && e.expectedSeq == (q.header.seqNo + 1) % TWO_32
         && e.actualSeq > e.expectedSeq && e.duration == TimeOf(p) - TimeOf(q)
       case TimestampGap =>
         || (TimeOf(p) < TimeOf(q) && e.duration == TimeOf(q) - TimeOf(p))
         || (TimeOf(p) - TimeOf(q) > c.maxJump && e.duration == TimeOf(p) - TimeOf(q))
       case AudioGap =>
         && p.header.packetType == 1
         && var before := AudioIn(v[..i]);
            before != [] && e.duration == TimeOf(p) - TimeOf(before[|before| - 1])
       case TelemetryGap =>
         && p.header.packetType == 3
         && var before := ImuIn(v[..i]);
            && before != [] && TimeOf(before[|before| - 1]) != 0
            && e.duration == TimeOf(p) - TimeOf(before[|before| - 1]) > c.telemetryGap
       case FileTruncated => false
  }

  lemma NewEventIsExplained(v: seq<RawPacket>, p: RawPacket, c: Config, e: GapEvent)
    requires e in SeqEvent(v, p) + TimeEvents(v, p, c)
    ensures v != [] && Explained(e, v + [p], |v|, c)
  {
    hide TimeOf, AudioIn, ImuIn, AudioGapAt, Nominal, Period, HasRate;
    assert (v + [p])[..|v|] == v;
    NoAudio();
    NoImu();
    if e in SeqEvent(v, p) {
    } else if e in BackEvent(v, p) {
    } else if e in JumpEvent(v, p, c) {
    } else if e in AudioEvent(v, p, c) {
      GapNeedsTime(v, p, c);
    } else {
      assert e in ImuEvent(v, p, c);
    }
  }

  lemma GapNeedsTime(v: seq<RawPacket>, p: RawPacket, c: Config)
    requires NewAudioGap(v, p, c)
    ensures LastTime(AudioIn(v)) != 0
  {
    hide AudioIn, Nominal, Period;
  }

  /** Every event of a stream is one of these. */
  lemma {:induction false} EventsAreExplained(v: seq<RawPacket>, c: Config, e: GapEvent)
    requires e in EventsOf(v, c)
    ensures exists i :: 0 < i < |v| && Explained(e, v, i, c)
  {
    hide SeqEvent, TimeEvents, Explained;
    var n := |v| - 1;
    if e in EventsOf(v[..n], c) {
      EventsAreExplained(v[..n], c, e);
      var i :| 0 < i < n && Explained(e, v[..n], i, c);
      ExplainedLater(v, n, i, c, e);
    } else {
      NewEventIsExplained(v[..n], v[n], c, e);
      assert v == v[..n] + [v[n]];
    }
  }

  lemma ExplainedLater(v: seq<RawPacket>, n: nat, i: int, c: Config, e: GapEvent)
    requires 0 < i < n <= |v| && Explained(e, v[..n], i, c)
    ensures Explained(e, v, i, c)
  {
    hide TimeOf, AudioIn, ImuIn;
    assert v[..n][..i] == v[..i];
  }
}
