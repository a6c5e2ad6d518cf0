/** What the search for the clock offset tries, and what each trial measures. */
module SyncTrials {
  import opened Wrappers
  import opened TimeSync

  // ---- The trials ----

  /** From a window of half a second on, the trials are all multiples of 100 ms within it; a smaller
      window has the single trial 0. */
  lemma TriedExactly(s: int, window: real)
    ensures Tried(s, window) <==>
            if window >= 0.5 then -10.0 * window <= s as real <= 10.0 * window else s == 0 && window > -0.000000001
    ensures s * TRIAL_STEP == s * 100_000_000
  {
    hide Steps, MaxOffset;
    StepsOf(window);
    MaxOffsetOf(window);
    if window >= 1.0 {
      assert Steps(window) as real >= 10.0 * window;
    } else if window >= 0.5 {
      assert Steps(window) == 10;
    }
    WithinOffset(s, window);
  }

  lemma StepsOf(window: real)
    ensures window >= 0.5 ==> Steps(window) >= 10 && Steps(window) as real > 20.0 * window - 10.0
    ensures -0.5 < window < 0.5 ==> Steps(window) == 0
    ensures window <= -0.5 ==> Steps(window) < 0
    ensures 0.5 <= window < 1.0 ==> Steps(window) == 10
  {}

  lemma MaxOffsetOf(window: real)
    ensures window >= 0.0 ==>
              0.0 <= MaxOffset(window) as real <= window * 1_000_000_000.0 < MaxOffset(window) as real + 1.0
    ensures window <= 0.0 ==>
              0.0 <= -MaxOffset(window) as real <= -window * 1_000_000_000.0 < -MaxOffset(window) as real + 1.0
  {}

  lemma WithinOffset(s: int, window: real)
    ensures window >= 0.0 ==>
              (-MaxOffset(window) <= s * TRIAL_STEP <= MaxOffset(window) <==>
               -10.0 * window <= s as real <= 10.0 * window)
    ensures window < 0.0 ==>
              (-MaxOffset(window) <= s * TRIAL_STEP <= MaxOffset(window) <==> s == 0 && window > -0.000000001)
  {
    hide MaxOffset;
    MaxOffsetOf(window);
    var p := (s * TRIAL_STEP) as real;
    assert p == s as real * 100_000_000.0;
  }

  // ---- The series ----

  /** The tracks are searched exactly when both have a good fix and the good ego fixes span four seconds. */
  lemma SearchableExactly(ego: seq<GnssPoint>, src: seq<GnssPoint>)
    ensures Searchable(ego, src) <==>
            && GoodPoints(ego) != [] && GoodPoints(src) != []
            && GoodPoints(ego)[|GoodPoints(ego)| - 1].ts - GoodPoints(ego)[0].ts >= 4_000_000_000
  {
    hide GoodPoints;
  }

  /** The grid has a point for every whole second from the first fix to the last. */
  lemma GridCovers(ego: seq<GnssPoint>)
    requires ego != [] && ego[0].ts <= ego[|ego| - 1].ts
    ensures var last := ego[0].ts + (GridSize(ego) - 1) * 1_000_000_000;
            last <= ego[|ego| - 1].ts < last + 1_000_000_000
  {}

  /** A fix is used exactly when it has a quality above 0 and a dilution below 5. */
  lemma GoodAreKept(pts: seq<GnssPoint>, g: GnssPoint)
    ensures GoodPoints(pts + [g]) == GoodPoints(pts) + if g.fixQuality > 0 && g.hdop < 5.0 then [g] else []
  {
    assert (pts + [g])[..|pts|] == pts;
  }

  /** The speed at a grid point is that of the last fix not after it, or of the first fix. */
  lemma SpeedIsHeld(pts: seq<GnssPoint>, t0: int, n: nat, i: nat, k: nat)
    requires InOrder(pts) && i < n && k < |pts|
    requires k == 0 || pts[k].ts <= t0 + i * 1_000_000_000
    requires forall m :: k < m < |pts| ==> pts[m].ts > t0 + i * 1_000_000_000
    ensures Resampled(pts, t0, n)[i] == pts[k].speed
  {
    hide Cursor;
    CursorIsLast(pts, t0, i);
  }

  // ---- The coefficient ----

  lemma {:induction false} CentredProducts(x: seq<real>, y: seq<real>, u: real, v: real)
    requires |x| == |y|
    ensures Dot(Centred(x, u), Centred(y, v))
            == Dot(x, y) - Times(u, Sum(y)) - Times(v, Sum(x)) + Times(|x| as real, Times(u, v))
  {
    hide Times;
    if x == [] {
      TimesZero(u);
      TimesZero(v);
      TimesZero(Times(u, v));
    } else {
      var n := |x| - 1;
      CentredProducts(x[..n], y[..n], u, v);
      assert Centred(x, u)[..n] == Centred(x[..n], u) && Centred(y, v)[..n] == Centred(y[..n], v);
      ProductOfSums(x[n], -u, y[n], -v);
      TimesOfNegatives(u, v);
      TimesNegated(u, y[n]);
      TimesNegated(v, x[n]);
      TimesCommutes(x[n], -v);
      TimesOfSum(u, Sum(y[..n]), y[n]);
      TimesOfSum(v, Sum(x[..n]), x[n]);
      CountStep(n + 1, Times(u, v));
    }
  }

  lemma TimesNegated(a: real, b: real)
    ensures Times(-a, b) == -Times(a, b)
  {}

  lemma MeanTimesCount(n: real, s: real)
    requires n > 0.0
    ensures Times(n, s / n) == s
  {}

  lemma MeanProduct(n: real, s: real, t: real)
    requires n > 0.0
    ensures Times(s / n, t) == Times(s, t) / n
    ensures Times(t / n, s) == Times(s, t) / n
    ensures Times(n, Times(s / n, t / n)) == Times(s, t) / n
  {
    hide Times;
    TimesCommutes(s, t);
    QuotientTimes(n, s, t);
    QuotientTimes(n, t, s);
    TimesSwap(n, s / n, t / n);
    MeanTimesCount(n, t);
  }

  lemma QuotientTimes(n: real, s: real, t: real)
    requires n > 0.0
    ensures Times(s / n, t) == Times(s, t) / n
  {}

  /** The sum of products of deviations, from the sums alone. */
  lemma SpreadOfSums(x: seq<real>, y: seq<real>)
    requires |x| == |y| > 0
    ensures Dot(Dev(x), Dev(y)) == Dot(x, y) - Times(Sum(x), Sum(y)) / |x| as real
  {
    hide Times, Dot, Sum, Centred;
    CentredProducts(x, y, Mean(x), Mean(y));
    MeanProduct(|x| as real, Sum(x), Sum(y));
  }

  /** The coefficient is Pearson's, computed from the five sums, unless the denominator is below 1e-9. */
  lemma CorrelationIsPearson(x: seq<real>, y: seq<real>, sqrt: real -> real)
    requires |x| == |y| > 0
    ensures var n := |x| as real;
            var p, q := Dot(x, x) - Times(Sum(x), Sum(x)) / n, Dot(y, y) - Times(Sum(y), Sum(y)) / n;
            var d := sqrt(Times(p, q));
            Corr(x, y, sqrt) ==
              if d < 0.000000001 then None else Some((Dot(x, y) - Times(Sum(x), Sum(y)) / n) / d)
  {
    hide Dot, Sum, Dev, Times;
    SpreadOfSums(x, y);
    SpreadOfSums(x, x);
    SpreadOfSums(y, y);
  }

  lemma {:induction false} DotOfScaled(x: seq<real>, y: seq<real>, b: real)
    requires |x| == |y| && forall i :: 0 <= i < |x| ==> y[i] == Times(b, x[i])
    ensures Dot(x, y) == Times(b, Dot(x, x)) && Dot(y, y) == Times(b, Times(b, Dot(x, x)))
  {
    hide Times;
    if x == [] {
      TimesZero(b);
    } else {
      var n := |x| - 1;
      DotOfScaled(x[..n], y[..n], b);
      TimesSwap(x[n], b, x[n]);
      TimesOfSum(b, Dot(x[..n], x[..n]), Times(x[n], x[n]));
      TimesOfSum(b, Times(b, Dot(x[..n], x[..n])), Times(b, Times(x[n], x[n])));
      TimesShuffle(b, x[n], b, x[n]);
      TimesSwap(b, b, Times(x[n], x[n]));
    }
  }

  lemma {:induction false} SumOfLine(x: seq<real>, y: seq<real>, a: real, b: real)
    requires |x| == |y| && forall i :: 0 <= i < |x| ==> y[i] == a + Times(b, x[i])
    ensures Sum(y) == Times(|x| as real, a) + Times(b, Sum(x))
  {
    hide Times;
    if x == [] {
      TimesZero(a);
      TimesZero(b);
    } else {
      var n := |x| - 1;
      SumOfLine(x[..n], y[..n], a, b);
      CountStep(n + 1, a);
      TimesOfSum(b, Sum(x[..n]), x[n]);
    }
  }

  lemma MeanOfLine(n: real, a: real, b: real, s: real)
    requires n > 0.0
    ensures (Times(n, a) + Times(b, s)) / n == a + Times(b, s / n)
  {}

  lemma DevOfLine(x: seq<real>, y: seq<real>, a: real, b: real)
    requires |x| == |y| > 0 && forall i :: 0 <= i < |x| ==> y[i] == a + Times(b, x[i])
    ensures forall i :: 0 <= i < |x| ==> Dev(y)[i] == Times(b, Dev(x)[i])
  {
    hide Times, Sum;
    SumOfLine(x, y, a, b);
    MeanOfLine(|x| as real, a, b, Sum(x));
    forall i | 0 <= i < |x|
      ensures Dev(y)[i] == Times(b, Dev(x)[i])
    {
      TimesOfSum(b, x[i], Mean(x));
    }
  }

  lemma OppositeQuotient(p: real)
    requires p > 0.0
    ensures p / p == 1.0 && -p / p == -1.0
  {}

  /** A speed that is a linear function of the other correlates by 1 if it grows with it and by -1 if it
      falls, exactly when the size of its slope times the variation reaches 1e-9. */
  lemma LinearCorrelation(x: seq<real>, y: seq<real>, a: real, b: real, sqrt: real -> real)
    requires |x| == |y| > 0 && IsRoot(sqrt) && forall i :: 0 <= i < |x| ==> y[i] == a + b * x[i]
    ensures var m := Times(if b < 0.0 then -b else b, Dot(Dev(x), Dev(x)));
            Corr(x, y, sqrt) == if m < 0.000000001 then None else if b < 0.0 then Some(-1.0) else Some(1.0)
  {
    assert forall i :: 0 <= i < |x| ==> y[i] == a + Times(b, x[i]);
    DevOfLine(x, y, a, b);
    hide Dev;
    DotOfScaled(Dev(x), Dev(y), b);
    DotSelf(Dev(x));
    var p, c := Dot(Dev(x), Dev(x)), if b < 0.0 then -b else b;
    var m := Times(c, p);
    hide Times, Dot;
    TimesNonNegative(c, p);
    TimesOfNegatives(b, b);
    TimesNegated(b, p);
    TimesShuffle(c, p, c, p);
    TimesSwap(b, b, p);
    TimesSwap(p, Times(b, b), p);
    TimesSwap(Times(b, b), p, p);
    RootOfSquare(m, sqrt);
    if m >= 0.000000001 {
      OppositeQuotient(m);
    }
  }

  // ---- The pairs ----

  function Gap(a: int, b: int): int
  {
    if a < b then b - a else a - b
  }

  /** An ego fix is paired with the source fix closest to its shifted time, the first of equally close
      ones, unless that is more than five seconds away. */
  lemma PairsAreClose(ego: seq<GnssPoint>, e: GnssPoint, src: seq<GnssPoint>, off: int, k: nat)
    requires k < |src|
    requires forall j :: 0 <= j < |src| ==> Gap(src[k].ts, e.ts + off) <= Gap(src[j].ts, e.ts + off)
    requires forall j :: 0 <= j < k ==> Gap(src[k].ts, e.ts + off) < Gap(src[j].ts, e.ts + off)
    ensures var p := Paired(ego, src, off);
            Paired(ego + [e], src, off) ==
              if Gap(src[k].ts, e.ts + off) <= 5_000_000_000
              then Pairing(p.x + [e.ts as real], p.y + [src[k].ts as real]) else p
  {
    hide Closest, Gap, Distance;
    FirstOfClosest(src, e.ts + off, k);
    GapIsDistance(src[k], e.ts + off);
    assert (ego + [e])[..|ego|] == ego;
  }

  lemma {:induction false} FirstOfClosest(src: seq<GnssPoint>, target: int, k: nat)
    requires k < |src|
    requires forall j :: 0 <= j < |src| ==> Gap(src[k].ts, target) <= Gap(src[j].ts, target)
    requires forall j :: 0 <= j < k ==> Gap(src[k].ts, target) < Gap(src[j].ts, target)
    ensures Closest(src, target) == src[k]
  {
    hide Gap, Distance;
    var n := |src| - 1;
    GapIsDistance(src[n], target);
    if n == 0 {
    } else if k < n {
      FirstOfClosest(src[..n], target, k);
      GapIsDistance(src[k], target);
    } else {
      var c := Closest(src[..n], target);
      assert c in src[..n];
      GapIsDistance(c, target);
    }
  }

  lemma GapIsDistance(p: GnssPoint, target: int)
    ensures Gap(p.ts, target) == Distance(p, target)
  {}

  // ---- The estimate ----

  /** The confidence says how large the largest correlation of all trials is, and the offset is a trial
      that has it; without any correlation both are 0. */
  method EstimateIsBest(egoGps: seq<GnssPoint>, srcGps: seq<GnssPoint>, window: real, sqrt: real -> real)
    returns (est: Estimate)
    requires IsRoot(sqrt)
    ensures !Searchable(egoGps, srcGps) ==> est == Estimate(0, 0.0, TooFew)
    ensures Searchable(egoGps, srcGps) ==>
              var ego, src := GoodPoints(egoGps), GoodPoints(srcGps);
              forall s :: Tried(s, window) ==>
                var c := CorrAt(ego, src, ego[0].ts, GridSize(ego), s * 100_000_000, sqrt);
                c.Some? ==> c.value <= 2.0 * est.confidence - 1.0
    ensures Searchable(egoGps, srcGps) ==>
              var ego, src := GoodPoints(egoGps), GoodPoints(srcGps);
              || (exists s :: Tried(s, window) && est.offset == s * 100_000_000 &&
                    CorrAt(ego, src, ego[0].ts, GridSize(ego), s * 100_000_000, sqrt)
                      == Some(2.0 * est.confidence - 1.0))
              || (est.offset == 0 && est.confidence == 0.0 &&
                  forall s :: Tried(s, window) ==>
                    CorrAt(ego, src, ego[0].ts, GridSize(ego), s * 100_000_000, sqrt) == None)
  {
    hide GoodPoints, CorrAt, Tried, Steps, LineOf, Paired, GridSize;
    ghost var best;
    est, best := SyncGnssXcorr(egoGps, srcGps, window, sqrt);
    if Searchable(egoGps, srcGps) {
      ghost var ego, src := GoodPoints(egoGps), GoodPoints(srcGps);
      forall s
        ensures Tried(s, window) ==> s < Steps(window) + 1
      {
        if Tried(s, window) {
          TriedIsBelow(s, window);
        }
      }
      if best.Some? {
        AtTrial(ego, src, window, sqrt, best.value, est.offset);
      }
    }
  }

  lemma AtTrial(ego: seq<GnssPoint>, src: seq<GnssPoint>, window: real, sqrt: real -> real, c: real, off: int)
    requires ego != [] && src != [] && GridSize(ego) > 0 && IsRoot(sqrt)
    requires BestSoFar(ego, src, ego[0].ts, GridSize(ego), window, sqrt, Steps(window) + 1, Some(c), off)
    ensures exists s :: Tried(s, window) && off == s * 100_000_000 &&
                        CorrAt(ego, src, ego[0].ts, GridSize(ego), s * 100_000_000, sqrt) == Some(c)
    ensures -1.0 <= c <= 1.0
  {
    hide CorrAt, Tried, Steps, GridSize;
    var t0, n := ego[0].ts, GridSize(ego);
    var s :| off == s * TRIAL_STEP && FirstWith(ego, src, t0, n, window, sqrt, s, c);
    TrialIsBounded(ego, src, t0, n, off, sqrt);
  }

  lemma TrialIsBounded(ego: seq<GnssPoint>, src: seq<GnssPoint>, t0: int, n: nat, off: int, sqrt: real -> real)
    requires ego != [] && src != [] && n > 0 && IsRoot(sqrt)
    ensures CorrAt(ego, src, t0, n, off, sqrt).Some? ==> -1.0 <= CorrAt(ego, src, t0, n, off, sqrt).value <= 1.0
  {
    hide Resampled, Corr;
    CorrIsBounded(Resampled(ego, t0, n), Resampled(Shifted(src, off), t0, n), sqrt);
  }
}
