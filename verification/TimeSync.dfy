/** The clock offset between the ego track and the source track: both speeds on a one-second grid,
    the correlation for every trial offset, and the line fitted afterwards. Doubles are reals. */
module TimeSync {
  import opened Wrappers

  datatype GnssPoint = GnssPoint(ts: int, speed: real, fixQuality: int, hdop: real)

  const SECOND: int := 1_000_000_000
  const TRIAL_STEP: int := 100_000_000
  const TINY: real := 0.000000001

  predicate Good(g: GnssPoint)
  {
    g.fixQuality > 0 && g.hdop < 5.0
  }

  function GoodPoints(pts: seq<GnssPoint>): (r: seq<GnssPoint>)
  {
    if pts == [] then []
    else
      var n := |pts| - 1;
      GoodPoints(pts[..n]) + if Good(pts[n]) then [pts[n]] else []
  }

  method Filter(pts: seq<GnssPoint>) returns (r: seq<GnssPoint>)
    ensures r == GoodPoints(pts)
  {
    r := [];
    for i := 0 to |pts|
      invariant r == GoodPoints(pts[..i])
    {
      assert pts[..i + 1][..i] == pts[..i];
      if Good(pts[i]) {
        r := r + [pts[i]];
      }
    }
    assert pts[..|pts|] == pts;
  }

  // ---- Resampling ----

  /** The cursor moved on while the next point is not after t. */
  function Advance(pts: seq<GnssPoint>, j: nat, t: int): (r: nat)
    requires j < |pts|
    ensures j <= r < |pts|
    decreases |pts| - j
  {
    if j + 1 < |pts| && pts[j + 1].ts <= t then Advance(pts, j + 1, t) else j
  }

  function Cursor(pts: seq<GnssPoint>, t0: int, i: nat): (r: nat)
    requires pts != []
    ensures r < |pts|
  {
    Advance(pts, if i == 0 then 0 else Cursor(pts, t0, i - 1), t0 + i * SECOND)
  }

  /** The speeds at n grid points, each held from the last point reached. */
  function Resampled(pts: seq<GnssPoint>, t0: int, n: nat): (r: seq<real>)
    requires pts != []
    ensures |r| == n
  {
    seq(n, i requires 0 <= i < n => pts[Cursor(pts, t0, i)].speed)
  }

  method Resample(pts: seq<GnssPoint>, t0: int, n: nat) returns (out: seq<real>)
    requires pts != []
    ensures out == Resampled(pts, t0, n)
  {
    hide Advance, Cursor;
    out := [];
    var j := 0;
    for i := 0 to n
      invariant 0 <= j < |pts| && (if i == 0 then j == 0 else j == Cursor(pts, t0, i - 1))
      invariant out == Resampled(pts, t0, i)
    {
      NextCursor(pts, t0, i);
      j := MoveCursor(pts, j, t0 + i * SECOND);
      out := out + [pts[j].speed];
    }
  }

  lemma NextCursor(pts: seq<GnssPoint>, t0: int, i: nat)
    requires pts != []
    ensures Cursor(pts, t0, i) == Advance(pts, if i == 0 then 0 else Cursor(pts, t0, i - 1), t0 + i * SECOND)
  {}

  predicate InOrder(pts: seq<GnssPoint>)
  {
    forall i, j :: 0 <= i < j < |pts| ==> pts[i].ts <= pts[j].ts
  }

  /** j is the last point not after t, or the first point if all are. */
  predicate LastReached(pts: seq<GnssPoint>, j: nat, t: int)
    requires j < |pts|
  {
    (j == 0 || pts[j].ts <= t) && forall k :: j < k < |pts| ==> pts[k].ts > t
  }

  lemma {:induction false} AdvanceReaches(pts: seq<GnssPoint>, j: nat, t: int)
    requires InOrder(pts) && j < |pts| && (j == 0 || pts[j].ts <= t)
    ensures LastReached(pts, Advance(pts, j, t), t)
    decreases |pts| - j
  {
    if j + 1 == |pts| || pts[j + 1].ts > t {
    } else {
      AdvanceReaches(pts, j + 1, t);
    }
  }

  /** On a track in time order the speed at a grid point is that of the last fix not after it. */
  lemma {:induction false} CursorIsLast(pts: seq<GnssPoint>, t0: int, i: nat)
    requires InOrder(pts) && pts != []
    ensures LastReached(pts, Cursor(pts, t0, i), t0 + i * SECOND)
  {
    hide Advance, Cursor;
    NextCursor(pts, t0, i);
    if i == 0 {
      AdvanceReaches(pts, 0, t0);
    } else {
      CursorIsLast(pts, t0, i - 1);
      AdvanceReaches(pts, Cursor(pts, t0, i - 1), t0 + i * SECOND);
    }
  }

  method MoveCursor(pts: seq<GnssPoint>, start: nat, t: int) returns (j: nat)
    requires start < |pts|
    ensures j == Advance(pts, start, t)
  {
    j := start;
    while j + 1 < |pts| && pts[j + 1].ts <= t
      invariant j < |pts| && Advance(pts, j, t) == Advance(pts, start, t)
    {
      j := j + 1;
    }
  }

  function Shifted(pts: seq<GnssPoint>, offset: int): (r: seq<GnssPoint>)
    ensures |r| == |pts|
  {
    seq(|pts|, i requires 0 <= i < |pts| => pts[i].(ts := pts[i].ts - offset))
  }

  method Shift(pts: seq<GnssPoint>, offset: int) returns (r: seq<GnssPoint>)
    ensures r == Shifted(pts, offset)
  {
    r := pts;
    for i := 0 to |pts|
      invariant |r| == |pts|
      invariant forall k :: 0 <= k < |pts| ==> r[k] == if k < i then Shifted(pts, offset)[k] else pts[k]
    {
      r := r[i := r[i].(ts := r[i].ts - offset)];
    }
  }

  // ---- Correlation ----

  function Sum(v: seq<real>): real
  {
    if v == [] then 0.0 else Sum(v[..|v| - 1]) + v[|v| - 1]
  }

  /** The product, named so that proofs can work with its laws alone. */
  function Times(a: real, b: real): real
  {
    a * b
  }

  function Dot(x: seq<real>, y: seq<real>): real
    requires |x| == |y|
  {
    if x == [] then 0.0 else Dot(x[..|x| - 1], y[..|x| - 1]) + Times(x[|x| - 1], y[|x| - 1])
  }

  function Centred(v: seq<real>, mean: real): (r: seq<real>)
    ensures |r| == |v|
  {
    seq(|v|, i requires 0 <= i < |v| => v[i] - mean)
  }

  function Mean(v: seq<real>): real
    requires v != []
  {
    Sum(v) / |v| as real
  }

  /** The deviations of a series from its mean. */
  function Dev(v: seq<real>): (r: seq<real>)
    requires v != []
    ensures |r| == |v|
  {
    Centred(v, Mean(v))
  }

  /** The law of the square root on non-negative numbers. */
  ghost predicate IsRoot(sqrt: real -> real)
  {
    forall x: real :: x >= 0.0 ==> sqrt(x) >= 0.0 && Times(sqrt(x), sqrt(x)) == x
  }

  function Denominator(x: seq<real>, y: seq<real>, sqrt: real -> real): real
    requires |x| == |y| > 0
  {
    sqrt(Times(Dot(Dev(x), Dev(x)), Dot(Dev(y), Dev(y))))
  }

  /** The correlation coefficient; none when the denominator is too small. */
  function Corr(x: seq<real>, y: seq<real>, sqrt: real -> real): Option<real>
    requires |x| == |y| > 0
  {
    var denom := Denominator(x, y, sqrt);
    if denom < TINY then None else Some(Dot(Dev(x), Dev(y)) / denom)
  }

  // ---- Laws of the product ----

  lemma TimesCommutes(a: real, b: real)
    ensures Times(a, b) == Times(b, a)
  {}

  lemma TimesOfSum(a: real, b: real, c: real)
    ensures Times(a, b + c) == Times(a, b) + Times(a, c) && Times(a, b - c) == Times(a, b) - Times(a, c)
  {}

  lemma TimesShuffle(a: real, b: real, c: real, d: real)
    ensures Times(Times(a, b), Times(c, d)) == Times(Times(a, c), Times(b, d))
    ensures Times(Times(a, b), Times(c, d)) == Times(a, Times(c, Times(d, b)))
  {
    assert (a * b) * (c * d) == (a * c) * (b * d);
    assert (a * b) * (c * d) == a * (c * (d * b));
  }

  lemma TimesSwap(a: real, b: real, c: real)
    ensures Times(a, Times(b, c)) == Times(b, Times(a, c)) == Times(Times(a, b), c)
  {
    assert a * (b * c) == b * (a * c) == (a * b) * c;
  }

  lemma TimesZero(a: real)
    ensures Times(0.0, a) == 0.0 && Times(a, 0.0) == 0.0
  {}

  lemma TimesOfNegatives(a: real, b: real)
    ensures Times(-a, -b) == Times(a, b)
  {}

  lemma TimesOfPositives(a: real, b: real)
    requires a > 0.0 && b > 0.0
    ensures Times(a, b) > 0.0
  {}

  lemma TimesSign(a: real, b: real)
    requires a > 0.0 && b < 0.0
    ensures Times(a, b) < 0.0
  {}

  lemma TimesGrows(a: real, b: real, c: real)
    requires a > 0.0 && b < c
    ensures Times(a, b) < Times(a, c)
  {
    hide Times;
    TimesOfPositives(a, c - b);
    TimesOfSum(a, c, b);
  }

  lemma TimesNonNegative(a: real, b: real)
    requires a >= 0.0 && b >= 0.0
    ensures Times(a, b) >= 0.0
  {
    hide Times;
    if a > 0.0 && b > 0.0 {
      TimesOfPositives(a, b);
    } else {
      TimesZero(a);
      TimesZero(b);
    }
  }

  lemma SquareIsPositive(x: real)
    ensures Times(x, x) >= 0.0 && (x != 0.0 ==> Times(x, x) > 0.0)
  {
    hide Times;
    if x > 0.0 {
      TimesOfPositives(x, x);
    } else if x < 0.0 {
      TimesOfPositives(-x, -x);
      TimesOfNegatives(x, x);
    } else {
      TimesZero(x);
    }
  }

  lemma SquareGrows(a: real, b: real)
    requires 0.0 <= a < b
    ensures Times(a, a) < Times(b, b)
  {
    hide Times;
    TimesGrows(b, a, b);
    TimesCommutes(a, b);
    if a > 0.0 {
      TimesGrows(a, a, b);
    } else {
      TimesZero(a);
      TimesOfPositives(b, b);
    }
  }

  lemma SquareOfSum(u: real, v: real)
    ensures Times(u + v, u + v) == Times(u, u) + 2.0 * Times(u, v) + Times(v, v)
    ensures Times(u - v, u - v) == Times(u, u) - 2.0 * Times(u, v) + Times(v, v)
  {
    hide Times;
    TimesOfSum(u + v, u, v);
    TimesOfSum(u - v, u, v);
    TimesCommutes(u + v, u);
    TimesCommutes(u + v, v);
    TimesCommutes(u - v, u);
    TimesCommutes(u - v, v);
    TimesOfSum(u, u, v);
    TimesOfSum(v, u, v);
    TimesCommutes(u, v);
  }

  lemma ProductOfSums(p: real, x: real, q: real, y: real)
    ensures Times(p + x, q + y) == Times(p, q) + Times(p, y) + Times(x, q) + Times(x, y)
  {
    hide Times;
    TimesOfSum(p + x, q, y);
    TimesCommutes(p + x, q);
    TimesCommutes(p + x, y);
    TimesOfSum(q, p, x);
    TimesOfSum(y, p, x);
    TimesCommutes(q, p);
    TimesCommutes(q, x);
    TimesCommutes(y, p);
    TimesCommutes(y, x);
  }

  // ---- The Cauchy-Schwarz inequality ----

  lemma {:induction false} DotSelf(x: seq<real>)
    ensures Dot(x, x) >= 0.0
  {
    hide Times;
    if x == [] {
    } else {
      DotSelf(x[..|x| - 1]);
      SquareIsPositive(x[|x| - 1]);
    }
  }

  lemma MixedIdentity(s: real, p: real, q: real, a: real, b: real)
    ensures var aa, bb := Times(a, a), Times(b, b); var w := Times(p, b) - Times(s, a);
            Times(p, Times(p, bb) + Times(aa, q) - 2.0 * Times(s, Times(a, b)))
              == Times(w, w) + Times(aa, Times(p, q) - Times(s, s))
  {
    hide Times;
    var aa, bb, ab := Times(a, a), Times(b, b), Times(a, b);
    SquareOfSum(Times(p, b), Times(s, a));
    TimesShuffle(p, b, p, b);
    TimesSwap(p, p, bb);
    TimesShuffle(p, b, s, a);
    TimesShuffle(s, a, s, a);
    TimesCommutes(Times(s, s), aa);
    TimesSwap(p, aa, q);
    TimesOfSum(aa, Times(p, q), Times(s, s));
    TimesOfSum(p, Times(p, bb) + Times(aa, q), 2.0 * Times(s, ab));
    TimesOfSum(p, Times(p, bb), Times(aa, q));
    TimesOfSum(p, Times(s, ab), Times(s, ab));
  }

  lemma MixedTerm(s: real, p: real, q: real, a: real, b: real)
    requires p >= 0.0 && q >= 0.0 && Times(s, s) <= Times(p, q)
    ensures 2.0 * Times(s, Times(a, b)) <= Times(p, Times(b, b)) + Times(Times(a, a), q)
  {
    hide Times;
    var aa, bb, ab := Times(a, a), Times(b, b), Times(a, b);
    SquareIsPositive(a);
    if p == 0.0 {
      TimesZero(q);
      SquareIsPositive(s);
      TimesZero(ab);
      TimesZero(bb);
      TimesNonNegative(aa, q);
    } else {
      var m := Times(p, bb) + Times(aa, q) - 2.0 * Times(s, ab);
      MixedIdentity(s, p, q, a, b);
      SquareIsPositive(Times(p, b) - Times(s, a));
      TimesNonNegative(aa, Times(p, q) - Times(s, s));
      if m < 0.0 {
        TimesSign(p, m);
      }
    }
  }

  /** One more pair of terms keeps the inequality. */
  lemma CauchyStep(s: real, p: real, q: real, a: real, b: real)
    requires p >= 0.0 && q >= 0.0 && Times(s, s) <= Times(p, q)
    ensures Times(s + Times(a, b), s + Times(a, b)) <= Times(p + Times(a, a), q + Times(b, b))
  {
    hide Times;
    MixedTerm(s, p, q, a, b);
    SquareOfSum(s, Times(a, b));
    ProductOfSums(p, Times(a, a), q, Times(b, b));
    TimesShuffle(a, b, a, b);
  }

  /** The Cauchy-Schwarz inequality for series of any length: s_xy^2 <= s_x2 * s_y2. */
  lemma {:induction false} CauchySchwarz(x: seq<real>, y: seq<real>)
    requires |x| == |y|
    ensures Times(Dot(x, y), Dot(x, y)) <= Times(Dot(x, x), Dot(y, y))
  {
    hide Times;
    if x == [] {
      TimesZero(0.0);
    } else {
      var n := |x| - 1;
      var x', y' := x[..n], y[..n];
      CauchySchwarz(x', y');
      DotSelf(x');
      DotSelf(y');
      CauchyStep(Dot(x', y'), Dot(x', x'), Dot(y', y'), x[n], y[n]);
    }
  }

  lemma QuotientBound(s: real, d: real)
    requires d > 0.0 && -d <= s <= d
    ensures -1.0 <= s / d <= 1.0
  {}

  lemma RootBound(s: real, d: real)
    requires d > 0.0 && Times(s, s) <= Times(d, d)
    ensures -1.0 <= s / d <= 1.0
  {
    hide Times;
    TimesOfNegatives(s, s);
    if s > d {
      SquareGrows(d, s);
    } else if s < -d {
      SquareGrows(d, -s);
    }
    QuotientBound(s, d);
  }

  /** Every correlation lies between -1 and 1, whatever the two series are. */
  lemma CorrIsBounded(x: seq<real>, y: seq<real>, sqrt: real -> real)
    requires |x| == |y| > 0 && IsRoot(sqrt)
    ensures Corr(x, y, sqrt).Some? ==> -1.0 <= Corr(x, y, sqrt).value <= 1.0
  {
    hide Dot, Dev, Times;
    var p, q := Dot(Dev(x), Dev(x)), Dot(Dev(y), Dev(y));
    DotSelf(Dev(x));
    DotSelf(Dev(y));
    TimesNonNegative(p, q);
    CauchySchwarz(Dev(x), Dev(y));
    var d := sqrt(Times(p, q));
    assert d >= 0.0 && Times(d, d) == Times(p, q);
    if d > 0.0 {
      RootBound(Dot(Dev(x), Dev(y)), d);
    }
  }

  lemma RootOfSquare(p: real, sqrt: real -> real)
    requires p >= 0.0 && IsRoot(sqrt)
    ensures sqrt(Times(p, p)) == p
  {
    hide Times;
    SquareIsPositive(p);
    var d := sqrt(Times(p, p));
    assert d >= 0.0 && Times(d, d) == Times(p, p);
    if d < p {
      SquareGrows(d, p);
    } else if p < d {
      SquareGrows(p, d);
    }
  }

  /** A series correlates perfectly with itself, exactly if it varies enough for the denominator. */
  lemma SelfCorrelation(x: seq<real>, sqrt: real -> real)
    requires |x| > 0 && IsRoot(sqrt)
    ensures Corr(x, x, sqrt) == if Dot(Dev(x), Dev(x)) >= TINY then Some(1.0) else None
  {
    hide Dot, Dev, Times;
    DotSelf(Dev(x));
    RootOfSquare(Dot(Dev(x), Dev(x)), sqrt);
    if Dot(Dev(x), Dev(x)) >= TINY {
      SelfQuotient(Dot(Dev(x), Dev(x)));
    }
  }

  lemma SelfQuotient(p: real)
    requires p > 0.0
    ensures p / p == 1.0
  {}

  // ---- Computing the correlation ----

  method Correlate(x: seq<real>, y: seq<real>, sqrt: real -> real) returns (corr: Option<real>)
    requires |x| == |y| > 0
    ensures corr == Corr(x, y, sqrt)
  {
    hide Dot, Sum, Centred, Times;
    var mx, my := Means(x, y);
    var sxy, sx2, sy2 := Products(x, y, mx, my);
    var denom := sqrt(Times(sx2, sy2));
    corr := if denom < TINY then None else Some(sxy / denom);
  }

  /** The first loop: the means of both series. */
  method Means(x: seq<real>, y: seq<real>) returns (mx: real, my: real)
    requires |x| == |y| > 0
    ensures mx == Mean(x) && my == Mean(y)
  {
    var cnt := 0;
    mx, my := 0.0, 0.0;
    for i := 0 to |x|
      invariant mx == Sum(x[..i]) && my == Sum(y[..i]) && cnt == i
    {
      assert x[..i + 1][..i] == x[..i] && y[..i + 1][..i] == y[..i];
      mx, my, cnt := mx + x[i], my + y[i], cnt + 1;
    }
    assert x[..|x|] == x && y[..|y|] == y;
    mx, my := mx / cnt as real, my / cnt as real;
  }

  /** The second loop: the sums of products of the deviations. */
  method Products(x: seq<real>, y: seq<real>, mx: real, my: real) returns (sxy: real, sx2: real, sy2: real)
    requires |x| == |y|
    ensures sxy == Dot(Centred(x, mx), Centred(y, my))
    ensures sx2 == Dot(Centred(x, mx), Centred(x, mx)) && sy2 == Dot(Centred(y, my), Centred(y, my))
  {
    hide Dot, Times;
    ghost var u, v := Centred(x, mx), Centred(y, my);
    NoProducts();
    assert u[..0] == [] && v[..0] == [];
    sxy, sx2, sy2 := 0.0, 0.0, 0.0;
    for i := 0 to |x|
      invariant sxy == Dot(u[..i], v[..i]) && sx2 == Dot(u[..i], u[..i]) && sy2 == Dot(v[..i], v[..i])
    {
      var dx, dy := x[i] - mx, y[i] - my;
      DotStep(u, v, i);
      DotStep(u, u, i);
      DotStep(v, v, i);
      sxy, sx2, sy2 := sxy + Times(dx, dy), sx2 + Times(dx, dx), sy2 + Times(dy, dy);
    }
    assert u[..|x|] == u && v[..|x|] == v;
  }

  lemma NoProducts()
    ensures Dot([], []) == 0.0
  {}

  lemma DotStep(u: seq<real>, v: seq<real>, i: nat)
    requires |u| == |v| && i < |u|
    ensures Dot(u[..i + 1], v[..i + 1]) == Dot(u[..i], v[..i]) + Times(u[i], v[i])
  {
    assert u[..i + 1][..i] == u[..i] && v[..i + 1][..i] == v[..i];
  }

  // ---- The search over offsets ----

  /** The correlation of the ego speed with the source shifted back by an offset. */
  function CorrAt(ego: seq<GnssPoint>, src: seq<GnssPoint>, t0: int, n: nat, offset: int,
      sqrt: real -> real): Option<real>
    requires ego != [] && src != [] && n > 0
  {
    Corr(Resampled(ego, t0, n), Resampled(Shifted(src, offset), t0, n), sqrt)
  }

  /** Conversion of a double to an integer. */
  function Trunc(x: real): int
  {
    if x >= 0.0 then x.Floor else -(-x).Floor
  }

  function Steps(window: real): int
  {
    Trunc(window * 2.0) * 10
  }

  /** A trial offset: a multiple of 100 ms within the step count and the window. */
  predicate Tried(s: int, window: real)
  {
    -Steps(window) <= s <= Steps(window) && -MaxOffset(window) <= s * TRIAL_STEP <= MaxOffset(window)
  }

  function MaxOffset(window: real): int
  {
    Trunc(window * SECOND as real)
  }

  /** The trial s has the correlation c, and every smaller trial has a smaller one or none. */
  ghost predicate FirstWith(ego: seq<GnssPoint>, src: seq<GnssPoint>, t0: int, n: nat, window: real, sqrt: real -> real,
                            s: int, c: real)
    requires ego != [] && src != [] && n > 0
  {
    && Tried(s, window) && CorrAt(ego, src, t0, n, s * TRIAL_STEP, sqrt) == Some(c)
    && forall r :: r < s && Tried(r, window) ==>
         var e := CorrAt(ego, src, t0, n, r * TRIAL_STEP, sqrt); e.Some? ==> e.value < c
  }

  /** best is the largest correlation of the trials before limit, first reached at offset off. */
  ghost predicate BestSoFar(ego: seq<GnssPoint>, src: seq<GnssPoint>, t0: int, n: nat, window: real, sqrt: real -> real,
                            limit: int, best: Option<real>, off: int)
    requires ego != [] && src != [] && n > 0
  {
    && (forall s :: s < limit && Tried(s, window) ==>
          var c := CorrAt(ego, src, t0, n, s * TRIAL_STEP, sqrt); c.Some? ==> best.Some? && c.value <= best.value)
    && (best.None? ==> off == 0)
    && (best.Some? ==> exists s :: s < limit && off == s * TRIAL_STEP
                                    && FirstWith(ego, src, t0, n, window, sqrt, s, best.value))
  }

  lemma NextTrial(ego: seq<GnssPoint>, src: seq<GnssPoint>, t0: int, n: nat, window: real, sqrt: real -> real,
                  s: int, best: Option<real>, off: int)
    requires ego != [] && src != [] && n > 0
    requires BestSoFar(ego, src, t0, n, window, sqrt, s, best, off)
    ensures var c := if Tried(s, window) then CorrAt(ego, src, t0, n, s * TRIAL_STEP, sqrt) else None;
            if c.Some? && (best == None || c.value > best.value)
            then BestSoFar(ego, src, t0, n, window, sqrt, s + 1, c, s * TRIAL_STEP)
            else BestSoFar(ego, src, t0, n, window, sqrt, s + 1, best, off)
  {
    hide CorrAt, Tried;
    var c := if Tried(s, window) then CorrAt(ego, src, t0, n, s * TRIAL_STEP, sqrt) else None;
    if c.Some? && (best == None || c.value > best.value) {
      assert FirstWith(ego, src, t0, n, window, sqrt, s, c.value);
    } else if best.Some? {
      var r :| r < s && off == r * TRIAL_STEP && FirstWith(ego, src, t0, n, window, sqrt, r, best.value);
      assert r < s + 1;
    }
  }

  /** best_xcorr starts below every possible correlation; None stands for that start value. */
  method Search(ego: seq<GnssPoint>, src: seq<GnssPoint>, t0: int, n: nat, window: real, sqrt: real -> real)
    returns (off: int, best: Option<real>)
    requires ego != [] && src != [] && n > 0
    ensures BestSoFar(ego, src, t0, n, window, sqrt, Steps(window) + 1, best, off)
  {
    hide Resampled, Shifted, Corr, Tried, BestSoFar;
    off, best := 0, None;
    var speed := Resample(ego, t0, n);
    var maxOff := MaxOffset(window);
    var steps := Steps(window);
    NothingTried(ego, src, t0, n, window, sqrt);
    if steps < 0 {
      return;
    }
    for s := -steps to steps + 1
      invariant BestSoFar(ego, src, t0, n, window, sqrt, s, best, off)
    {
      var trial := s * TRIAL_STEP;
      IsTried(s, window);
      NextTrial(ego, src, t0, n, window, sqrt, s, best, off);
      if -maxOff <= trial <= maxOff {
        var shifted := Shift(src, trial);
        var other := Resample(shifted, t0, n);
        var corr := Correlate(speed, other, sqrt);
        if corr.Some? && (best == None || corr.value > best.value) {
          best, off := corr, trial;
        }
      }
    }
  }

  lemma NothingTried(ego: seq<GnssPoint>, src: seq<GnssPoint>, t0: int, n: nat, window: real, sqrt: real -> real)
    requires ego != [] && src != [] && n > 0
    ensures BestSoFar(ego, src, t0, n, window, sqrt, -Steps(window), None, 0)
    ensures Steps(window) < 0 ==> BestSoFar(ego, src, t0, n, window, sqrt, Steps(window) + 1, None, 0)
  {
    hide CorrAt, MaxOffset, Steps;
  }

  lemma IsTried(s: int, window: real)
    requires -Steps(window) <= s <= Steps(window)
    ensures Tried(s, window) <==> -MaxOffset(window) <= s * TRIAL_STEP <= MaxOffset(window)
  {}

  function Clamp(x: real): real
  {
    if x < 0.0 then 0.0 else if x > 1.0 then 1.0 else x
  }

  // ---- The fitted line ----

  /** The least-squares line, the drift and the mean square residual; Undefined where the
      denominator is zero and the doubles are not numbers. */
  datatype Fit = TooFew | Undefined | Line(driftPpm: real, meanSquare: real)

  /** The residuals of a line. */
  function Residuals(x: seq<real>, y: seq<real>, a: real, b: real): (r: seq<real>)
    requires |x| == |y|
    ensures |r| == |x|
  {
    seq(|x|, i requires 0 <= i < |x| => y[i] - (a + Times(b, x[i])))
  }

  method FitLine(x: seq<real>, y: seq<real>) returns (fit: Fit)
    requires |x| == |y|
    ensures fit == LineOf(x, y)
  {
    hide Dot, Times, Sum, Residuals;
    if |x| < 3 {
      return TooFew;
    }
    var n := |x| as real;
    var sx, sy, sxx, sxy := Sums(x, y);
    var denom := Times(n, sxx) - Times(sx, sx);
    if denom == 0.0 {
      return Undefined;
    }
    var b := (Times(n, sxy) - Times(sx, sy)) / denom;
    var a := (sy - Times(b, sx)) / n;
    var sse := SquaredError(x, y, a, b);
    fit := Line((b - 1.0) * 1_000_000.0, sse / n);
  }

  function Slope(x: seq<real>, y: seq<real>): real
    requires |x| == |y| && FitDenominator(x) != 0.0
  {
    (Times(|x| as real, Dot(x, y)) - Times(Sum(x), Sum(y))) / FitDenominator(x)
  }

  function FitDenominator(x: seq<real>): real
  {
    Times(|x| as real, Dot(x, x)) - Times(Sum(x), Sum(x))
  }

  function LineOf(x: seq<real>, y: seq<real>): Fit
    requires |x| == |y|
  {
    if |x| < 3 then TooFew
    else if FitDenominator(x) == 0.0 then Undefined
    else
      var b := Slope(x, y);
      var r := Residuals(x, y, Intercept(x, y), b);
      Line((b - 1.0) * 1_000_000.0, Dot(r, r) / |x| as real)
  }

  method Sums(x: seq<real>, y: seq<real>) returns (sx: real, sy: real, sxx: real, sxy: real)
    requires |x| == |y|
    ensures sx == Sum(x) && sy == Sum(y) && sxx == Dot(x, x) && sxy == Dot(x, y)
  {
    hide Dot, Times;
    NoProducts();
    assert x[..0] == [] && y[..0] == [];
    sx, sy, sxx, sxy := 0.0, 0.0, 0.0, 0.0;
    for i := 0 to |x|
      invariant sx == Sum(x[..i]) && sy == Sum(y[..i]) && sxx == Dot(x[..i], x[..i]) && sxy == Dot(x[..i], y[..i])
    {
      assert x[..i + 1][..i] == x[..i] && y[..i + 1][..i] == y[..i];
      DotStep(x, x, i);
      DotStep(x, y, i);
      sx, sy, sxx, sxy := sx + x[i], sy + y[i], sxx + Times(x[i], x[i]), sxy + Times(x[i], y[i]);
    }
    assert x[..|x|] == x && y[..|y|] == y;
  }

  method SquaredError(x: seq<real>, y: seq<real>, a: real, b: real) returns (sse: real)
    requires |x| == |y|
    ensures sse == Dot(Residuals(x, y, a, b), Residuals(x, y, a, b))
  {
    hide Dot, Times;
    ghost var r := Residuals(x, y, a, b);
    NoProducts();
    assert r[..0] == [];
    sse := 0.0;
    for i := 0 to |x|
      invariant sse == Dot(r[..i], r[..i])
    {
      DotStep(r, r, i);
      var res := y[i] - (a + Times(b, x[i]));
      sse := sse + Times(res, res);
    }
    assert r[..|x|] == r;
  }

  // ---- The line minimises the squared error ----

  lemma {:induction false} ResidualSum(x: seq<real>, y: seq<real>, a: real, b: real)
    requires |x| == |y|
    ensures Sum(Residuals(x, y, a, b)) == Sum(y) - Times(|x| as real, a) - Times(b, Sum(x))
  {
    hide Times;
    if x == [] {
      TimesZero(a);
      TimesZero(b);
    } else {
      var n := |x| - 1;
      ResidualSum(x[..n], y[..n], a, b);
      assert Residuals(x, y, a, b)[..n] == Residuals(x[..n], y[..n], a, b);
      CountStep(n + 1, a);
      TimesOfSum(b, Sum(x[..n]), x[n]);
    }
  }

  lemma {:induction false} ResidualDot(x: seq<real>, y: seq<real>, a: real, b: real)
    requires |x| == |y|
    ensures Dot(x, Residuals(x, y, a, b)) == Dot(x, y) - Times(a, Sum(x)) - Times(b, Dot(x, x))
  {
    hide Times;
    if x == [] {
      TimesZero(a);
      TimesZero(b);
    } else {
      var n := |x| - 1;
      var bx := Times(b, x[n]);
      ResidualDot(x[..n], y[..n], a, b);
      assert Residuals(x, y, a, b)[..n] == Residuals(x[..n], y[..n], a, b);
      TimesOfSum(x[n], y[n], a + bx);
      TimesOfSum(x[n], a, bx);
      TimesCommutes(x[n], a);
      TimesSwap(x[n], b, x[n]);
      TimesOfSum(a, Sum(x[..n]), x[n]);
      TimesOfSum(b, Dot(x[..n], x[..n]), Times(x[n], x[n]));
    }
  }

  /** One squared residual against that of another line. */
  lemma OtherResidual(x: real, y: real, a: real, b: real, a': real, b': real)
    ensures var r, r' := y - (a + Times(b, x)), y - (a' + Times(b', x));
            Times(r', r') >= Times(r, r) + 2.0 * (Times(a - a', r) + Times(b - b', Times(x, r)))
  {
    hide Times;
    var r, r', q := y - (a + Times(b, x)), y - (a' + Times(b', x)), Times(b - b', x);
    TimesCommutes(b - b', x);
    TimesOfSum(x, b, b');
    TimesCommutes(b, x);
    TimesCommutes(b', x);
    assert r' == r + ((a - a') + q);
    SquareOfSum(r, (a - a') + q);
    SquareIsPositive((a - a') + q);
    TimesOfSum(r, a - a', q);
    TimesCommutes(r, a - a');
    TimesCommutes(r, q);
    TimesSwap(b - b', x, r);
  }

  lemma {:induction false} OtherError(x: seq<real>, y: seq<real>, a: real, b: real, a': real, b': real)
    requires |x| == |y|
    ensures var r, r' := Residuals(x, y, a, b), Residuals(x, y, a', b');
            Dot(r', r') >= Dot(r, r) + 2.0 * (Times(a - a', Sum(r)) + Times(b - b', Dot(x, r)))
  {
    hide Times;
    if x == [] {
      TimesZero(a - a');
      TimesZero(b - b');
    } else {
      var n := |x| - 1;
      var r, r' := Residuals(x, y, a, b), Residuals(x, y, a', b');
      OtherError(x[..n], y[..n], a, b, a', b');
      assert r[..n] == Residuals(x[..n], y[..n], a, b) && r'[..n] == Residuals(x[..n], y[..n], a', b');
      OtherResidual(x[n], y[n], a, b, a', b');
      TimesOfSum(a - a', Sum(r[..n]), r[n]);
      TimesOfSum(b - b', Dot(x[..n], r[..n]), Times(x[n], r[n]));
    }
  }

  lemma QuotientTimes(p: real, d: real)
    requires d != 0.0
    ensures Times(p / d, d) == p && Times(d, p / d) == p
  {}

  lemma ZeroFactor(n: real, v: real)
    requires n > 0.0 && Times(n, v) == 0.0
    ensures v == 0.0
  {}

  function Intercept(x: seq<real>, y: seq<real>): real
    requires |x| == |y| > 0 && FitDenominator(x) != 0.0
  {
    (Sum(y) - Times(Slope(x, y), Sum(x))) / |x| as real
  }

  /** The two sums in the normal equations vanish. */
  lemma NormalEquations(x: seq<real>, y: seq<real>)
    requires |x| == |y| > 0 && FitDenominator(x) != 0.0
    ensures var r := Residuals(x, y, Intercept(x, y), Slope(x, y)); Sum(r) == 0.0 && Dot(x, r) == 0.0
  {
    hide Times, Sum, Dot;
    var n, sx, sy, sxx, sxy := |x| as real, Sum(x), Sum(y), Dot(x, x), Dot(x, y);
    var a, b := Intercept(x, y), Slope(x, y);
    ResidualSum(x, y, a, b);
    ResidualDot(x, y, a, b);
    QuotientTimes(sy - Times(b, sx), n);
    QuotientTimes(Times(n, sxy) - Times(sx, sy), FitDenominator(x));
    TimesOfSum(b, Times(n, sxx), Times(sx, sx));
    TimesOfSum(n, sxy - Times(a, sx), Times(b, sxx));
    TimesOfSum(n, sxy, Times(a, sx));
    TimesSwap(n, a, sx);
    TimesCommutes(Times(n, a), sx);
    TimesOfSum(sx, sy, Times(b, sx));
    TimesSwap(sx, b, sx);
    TimesSwap(n, b, sxx);
    ZeroFactor(n, Dot(x, Residuals(x, y, a, b)));
  }

  /** The fitted line is the least-squares line: no other line has a smaller squared error. */
  lemma LineIsLeastSquares(x: seq<real>, y: seq<real>, a': real, b': real)
    requires |x| == |y| > 0 && FitDenominator(x) != 0.0
    ensures var r, r' := Residuals(x, y, Intercept(x, y), Slope(x, y)), Residuals(x, y, a', b');
            Dot(r, r) <= Dot(r', r')
  {
    hide Times, Sum, Dot, Residuals, Slope;
    var a, b := Intercept(x, y), Slope(x, y);
    NormalEquations(x, y);
    OtherError(x, y, a, b, a', b');
    TimesZero(a - a');
    TimesZero(b - b');
  }

  // ---- Points on a line of slope one ----

  /** y is x moved by d. */
  predicate MovedBy(x: seq<real>, y: seq<real>, d: real)
  {
    |x| == |y| && forall i :: 0 <= i < |x| ==> y[i] == x[i] + d
  }

  lemma CountStep(n: nat, d: real)
    requires n > 0
    ensures Times(n as real, d) == Times((n - 1) as real, d) + d
  {
    hide Times;
    TimesOfSum(d, (n - 1) as real, 1.0);
    TimesCommutes(d, (n - 1) as real);
    TimesCommutes(d, n as real);
    TimesOne(d);
  }

  lemma TimesOne(d: real)
    ensures Times(d, 1.0) == d && Times(1.0, d) == d
  {}

  lemma {:induction false} MovedSums(x: seq<real>, y: seq<real>, d: real)
    requires MovedBy(x, y, d)
    ensures Sum(y) == Sum(x) + Times(|x| as real, d)
    ensures Dot(x, y) == Dot(x, x) + Times(Sum(x), d)
  {
    hide Times;
    if x == [] {
      TimesZero(d);
    } else {
      var n := |x| - 1;
      MovedSums(x[..n], y[..n], d);
      CountStep(n + 1, d);
      TimesOfSum(x[n], x[n], d);
      TimesCommutes(d, Sum(x[..n]));
      TimesCommutes(d, x[n]);
      TimesCommutes(d, Sum(x));
      TimesOfSum(d, Sum(x[..n]), x[n]);
    }
  }

  lemma MovedSlope(x: seq<real>, y: seq<real>, d: real)
    requires MovedBy(x, y, d) && FitDenominator(x) != 0.0
    ensures Slope(x, y) == 1.0
  {
    hide Times, Dot, Sum;
    MovedSums(x, y, d);
    var n, s := |x| as real, Sum(x);
    TimesOfSum(n, Dot(x, x), Times(s, d));
    TimesOfSum(s, s, Times(n, d));
    TimesSwap(n, s, d);
    NonZeroQuotient(FitDenominator(x));
  }

  lemma NonZeroQuotient(p: real)
    requires p != 0.0
    ensures p / p == 1.0
  {}

  lemma MeanOfConstant(n: real, d: real)
    requires n > 0.0
    ensures Times(n, d) / n == d
  {}

  lemma {:induction false} ZeroDot(r: seq<real>)
    requires forall i :: 0 <= i < |r| ==> r[i] == 0.0
    ensures Dot(r, r) == 0.0
  {
    hide Times;
    if r == [] {
    } else {
      ZeroDot(r[..|r| - 1]);
      TimesZero(0.0);
    }
  }

  /** Points moved by a constant have no drift and no residual, if their times differ at all. */
  lemma MovedLine(x: seq<real>, y: seq<real>, d: real)
    requires MovedBy(x, y, d) && |x| >= 3 && FitDenominator(x) != 0.0
    ensures LineOf(x, y) == Line(0.0, 0.0)
  {
    hide Times, Dot, Sum, FitDenominator;
    var n := |x| as real;
    MovedSlope(x, y, d);
    MovedSums(x, y, d);
    TimesOne(Sum(x));
    MeanOfConstant(n, d);
    var r := Residuals(x, y, d, 1.0);
    forall i | 0 <= i < |r|
      ensures r[i] == 0.0
    {
      TimesOne(x[i]);
    }
    ZeroDot(r);
    assert Slope(x, y) == 1.0 && (Sum(y) - Times(1.0, Sum(x))) / n == d;
  }

  // ---- When the line is defined ----

  lemma {:induction false} CentredDot(x: seq<real>, v: real)
    ensures Dot(Centred(x, v), Centred(x, v)) == Dot(x, x) - 2.0 * Times(v, Sum(x)) + Times(|x| as real, Times(v, v))
  {
    hide Times;
    if x == [] {
      TimesZero(v);
      TimesZero(Times(v, v));
    } else {
      var n := |x| - 1;
      CentredDot(x[..n], v);
      assert Centred(x, v)[..n] == Centred(x[..n], v);
      SquareOfSum(x[n], v);
      TimesCommutes(v, x[n]);
      TimesOfSum(v, Sum(x[..n]), x[n]);
      CountStep(n + 1, Times(v, v));
    }
  }

  lemma DenominatorStep(x: seq<real>, v: real)
    ensures FitDenominator(x + [v]) == FitDenominator(x) + Dot(Centred(x, v), Centred(x, v))
  {
    hide Times, Dot, Centred;
    var n, s, q := |x| as real, Sum(x), Dot(x, x);
    var vv := Times(v, v);
    CentredDot(x, v);
    assert (x + [v])[..|x|] == x;
    SumAndDotOfSnoc(x, v);
    SquareOfSum(s, v);
    TimesCommutes(v, s);
    CountStep(|x| + 1, q + vv);
    TimesOfSum(n, q, vv);
  }

  lemma SumAndDotOfSnoc(x: seq<real>, v: real)
    ensures Sum(x + [v]) == Sum(x) + v && Dot(x + [v], x + [v]) == Dot(x, x) + Times(v, v)
  {
    assert (x + [v])[..|x|] == x;
  }

  lemma {:induction false} DeviatingDot(x: seq<real>, v: real, i: nat)
    requires i < |x| && x[i] != v
    ensures Dot(Centred(x, v), Centred(x, v)) > 0.0
  {
    hide Times;
    var n := |x| - 1;
    assert Centred(x, v)[..n] == Centred(x[..n], v);
    DotSelf(Centred(x[..n], v));
    SquareIsPositive(x[n] - v);
    if i == n {
    } else {
      DeviatingDot(x[..n], v, i);
    }
  }

  /** The line is defined exactly when the times are not all the same. */
  lemma {:induction false} DenominatorIsPositive(x: seq<real>)
    ensures FitDenominator(x) >= 0.0
    ensures FitDenominator(x) > 0.0 <==> exists i, j :: 0 <= i < j < |x| && x[i] != x[j]
  {
    hide FitDenominator, Dot, Centred;
    if x == [] {
      EmptyDenominator();
    } else {
      var n := |x| - 1;
      var init, v := x[..n], x[n];
      assert x == init + [v];
      DenominatorIsPositive(init);
      DenominatorStep(init, v);
      DotSelf(Centred(init, v));
      if i, j :| 0 <= i < j < |x| && x[i] != x[j] {
        if j == n {
          DeviatingDot(init, v, i);
        } else {
          assert init[i] != init[j];
        }
      } else {
        assert forall i :: 0 <= i < n ==> x[i] == x[n];
        CentredOfConstant(init, v);
      }
    }
  }

  lemma CentredOfConstant(x: seq<real>, v: real)
    requires forall i :: 0 <= i < |x| ==> x[i] == v
    ensures Dot(Centred(x, v), Centred(x, v)) == 0.0
  {
    hide Dot;
    ZeroDot(Centred(x, v));
  }

  lemma EmptyDenominator()
    ensures FitDenominator([]) == 0.0
  {}

  // ---- Pairing the fixes ----

  function Distance(a: GnssPoint, target: int): int
  {
    if a.ts < target then target - a.ts else a.ts - target
  }

  /** The first of the closest points. */
  function Closest(pts: seq<GnssPoint>, target: int): (r: GnssPoint)
    requires pts != []
    ensures r in pts && forall p :: p in pts ==> Distance(r, target) <= Distance(p, target)
  {
    var n := |pts| - 1;
    if n == 0 then pts[0]
    else
      var c := Closest(pts[..n], target);
      assert pts == pts[..n] + [pts[n]];
      if Distance(pts[n], target) < Distance(c, target) then pts[n] else c
  }

  method FindClosest(pts: seq<GnssPoint>, target: int) returns (r: GnssPoint)
    requires pts != []
    ensures r == Closest(pts, target)
  {
    r := pts[0];
    for i := 1 to |pts|
      invariant r == Closest(pts[..i], target)
    {
      assert pts[..i + 1][..i] == pts[..i];
      if Distance(pts[i], target) < Distance(r, target) {
        r := pts[i];
      }
    }
    assert pts[..|pts|] == pts;
  }

  datatype Pairing = Pairing(x: seq<real>, y: seq<real>)

  /** The times of each ego fix and of the source fix closest to it, unless more than 5 s off. */
  function Paired(ego: seq<GnssPoint>, src: seq<GnssPoint>, off: int): (r: Pairing)
    requires src != []
    ensures |r.x| == |r.y|
  {
    if ego == [] then Pairing([], [])
    else
      var n := |ego| - 1;
      var p := Paired(ego[..n], src, off);
      var c := Closest(src, ego[n].ts + off);
      if Distance(c, ego[n].ts + off) > 5 * SECOND then p else Pairing(p.x + [ego[n].ts as real], p.y + [c.ts as real])
  }

  method PairUp(ego: seq<GnssPoint>, src: seq<GnssPoint>, off: int) returns (x: seq<real>, y: seq<real>)
    requires src != []
    ensures Pairing(x, y) == Paired(ego, src, off)
  {
    hide Closest;
    x, y := [], [];
    for i := 0 to |ego|
      invariant Pairing(x, y) == Paired(ego[..i], src, off)
    {
      assert ego[..i + 1][..i] == ego[..i];
      var target := ego[i].ts + off;
      var c := FindClosest(src, target);
      if Distance(c, target) <= 5 * SECOND {
        x, y := x + [ego[i].ts as real], y + [c.ts as real];
      }
    }
    assert ego[..|ego|] == ego;
  }

  // ---- The estimate ----

  datatype Estimate = Estimate(offset: int, confidence: real, fit: Fit)

  const NO_ESTIMATE: Estimate := Estimate(0, 0.0, TooFew)

  /** Grid points from the first to the last good ego fix; division truncates. */
  function GridSize(ego: seq<GnssPoint>): int
    requires ego != []
  {
    var span := ego[|ego| - 1].ts - ego[0].ts;
    (if span >= 0 then span / SECOND else -(-span / SECOND)) + 1
  }

  /** The search ran: there are good fixes in both tracks and at least five grid points. */
  predicate Searchable(ego: seq<GnssPoint>, src: seq<GnssPoint>)
  {
    GoodPoints(ego) != [] && GoodPoints(src) != [] && GridSize(GoodPoints(ego)) >= 5
  }

  method SyncGnssXcorr(egoGps: seq<GnssPoint>, srcGps: seq<GnssPoint>, window: real, sqrt: real -> real)
    returns (est: Estimate, ghost best: Option<real>)
    ensures !Searchable(egoGps, srcGps) ==> est == NO_ESTIMATE
    ensures Searchable(egoGps, srcGps) ==>
              var ego, src := GoodPoints(egoGps), GoodPoints(srcGps);
              && BestSoFar(ego, src, ego[0].ts, GridSize(ego), window, sqrt, Steps(window) + 1, best, est.offset)
              && est.confidence == (if best.Some? then Clamp((best.value + 1.0) / 2.0) else 0.0)
              && est.fit == LineOf(Paired(ego, src, est.offset).x, Paired(ego, src, est.offset).y)
  {
    hide GoodPoints, BestSoFar, Paired, LineOf;
    best := None;
    if egoGps == [] || srcGps == [] {
      NoGoodPoints();
      return NO_ESTIMATE, None;
    }
    var ego := Filter(egoGps);
    var src := Filter(srcGps);
    if ego == [] || src == [] {
      return NO_ESTIMATE, None;
    }
    var n := GridSize(ego);
    if n < 5 {
      return NO_ESTIMATE, None;
    }
    var off, corr := Search(ego, src, ego[0].ts, n, window, sqrt);
    var confidence := if corr.Some? then Clamp((corr.value + 1.0) / 2.0) else 0.0;
    var x, y := PairUp(ego, src, off);
    var fit := FitLine(x, y);
    est, best := Estimate(off, confidence, fit), corr;
  }

  lemma NoGoodPoints()
    ensures GoodPoints([]) == []
  {}

  // ---- A delayed source ----

  /** The source is the ego track d nanoseconds later. */
  predicate Delayed(ego: seq<GnssPoint>, src: seq<GnssPoint>, d: int)
  {
    src == Shifted(ego, -d)
  }

  lemma {:induction false} GoodOfShifted(pts: seq<GnssPoint>, d: int)
    ensures GoodPoints(Shifted(pts, d)) == Shifted(GoodPoints(pts), d)
  {
    if pts == [] {
    } else {
      var n := |pts| - 1;
      GoodOfShifted(pts[..n], d);
      assert Shifted(pts, d)[..n] == Shifted(pts[..n], d);
      var q := GoodPoints(pts[..n]);
      assert Shifted(q + [pts[n]], d) == Shifted(q, d) + [pts[n].(ts := pts[n].ts - d)];
    }
  }

  lemma ShiftedBack(pts: seq<GnssPoint>, d: int)
    ensures Shifted(Shifted(pts, -d), d) == pts
  {}

  /** The sum of squared deviations of the resampled ego speed. */
  function Variation(ego: seq<GnssPoint>): real
    requires ego != [] && GridSize(ego) >= 5
  {
    var speed := Resampled(ego, ego[0].ts, GridSize(ego));
    Dot(Dev(speed), Dev(speed))
  }

  lemma DelayedCorrelation(ego: seq<GnssPoint>, d: int, sqrt: real -> real)
    requires ego != [] && GridSize(ego) >= 5 && IsRoot(sqrt)
    ensures CorrAt(ego, Shifted(ego, -d), ego[0].ts, GridSize(ego), d, sqrt)
            == if Variation(ego) >= TINY then Some(1.0) else None
  {
    hide Dot, Dev, Corr;
    ShiftedBack(ego, d);
    SelfCorrelation(Resampled(ego, ego[0].ts, GridSize(ego)), sqrt);
  }

  lemma {:induction false} PairsOfDelayed(ego: seq<GnssPoint>, all: seq<GnssPoint>, d: int)
    requires forall p :: p in ego ==> p in all
    requires all != []
    ensures var r := Paired(ego, Shifted(all, -d), d);
            && |r.x| == |ego| && MovedBy(r.x, r.y, d as real)
            && forall i :: 0 <= i < |ego| ==> r.x[i] == ego[i].ts as real
    decreases |ego|
  {
    hide Closest, Shifted;
    if ego == [] {
    } else {
      var n := |ego| - 1;
      PairsOfDelayed(ego[..n], all, d);
      assert ego[n] in ego;
      ExactMatch(all, ego[n], d);
    }
  }

  lemma ExactMatch(all: seq<GnssPoint>, p: GnssPoint, d: int)
    requires p in all
    ensures Closest(Shifted(all, -d), p.ts + d).ts == p.ts + d
  {
    var k :| 0 <= k < |all| && all[k] == p;
    var s := Shifted(all, -d);
    assert s[k] in s && Distance(s[k], p.ts + d) == 0;
    assert Distance(Closest(s, p.ts + d), p.ts + d) <= 0;
  }

  lemma CorrBelowOne(ego: seq<GnssPoint>, src: seq<GnssPoint>, t0: int, n: nat, off: int, sqrt: real -> real)
    requires ego != [] && src != [] && n > 0 && IsRoot(sqrt)
    ensures CorrAt(ego, src, t0, n, off, sqrt).Some? ==> CorrAt(ego, src, t0, n, off, sqrt).value <= 1.0
  {
    hide Resampled, Corr;
    CorrIsBounded(Resampled(ego, t0, n), Resampled(Shifted(src, off), t0, n), sqrt);
  }

  /** When some trial correlates perfectly, the search returns the smallest such trial. */
  lemma PerfectIsFirst(ego: seq<GnssPoint>, src: seq<GnssPoint>, t0: int, n: nat, window: real, sqrt: real -> real,
                       best: Option<real>, off: int, s: int)
    requires ego != [] && src != [] && n > 0 && IsRoot(sqrt) && Tried(s, window) && s < Steps(window) + 1
    requires BestSoFar(ego, src, t0, n, window, sqrt, Steps(window) + 1, best, off)
    requires CorrAt(ego, src, t0, n, s * TRIAL_STEP, sqrt) == Some(1.0)
    ensures best == Some(1.0) && CorrAt(ego, src, t0, n, off, sqrt) == Some(1.0) && off <= s * TRIAL_STEP
    ensures off == s * TRIAL_STEP <==>
            forall r :: r < s && Tried(r, window) ==> CorrAt(ego, src, t0, n, r * TRIAL_STEP, sqrt) != Some(1.0)
  {
    hide CorrAt, Tried, Steps;
    var f :| off == f * TRIAL_STEP && FirstWith(ego, src, t0, n, window, sqrt, f, best.value);
    CorrBelowOne(ego, src, t0, n, off, sqrt);
    if f < s {
      assert Tried(f, window) && CorrAt(ego, src, t0, n, f * TRIAL_STEP, sqrt) == Some(1.0);
    }
  }

  /** When the source is the ego track delayed by a tried offset and the speed varies by more than
      the rounding guard, the search returns the smallest tried offset with correlation 1, with
      confidence 1. That is the delay exactly when no smaller tried offset correlates perfectly, and
      then the fitted line has no drift and no residual. */
  method DelayedSourceIsFound(egoGps: seq<GnssPoint>, srcGps: seq<GnssPoint>, s: int, window: real, sqrt: real -> real)
    returns (est: Estimate)
    requires IsRoot(sqrt) && Delayed(egoGps, srcGps, s * TRIAL_STEP) && Tried(s, window)
    requires Searchable(egoGps, srcGps) && Variation(GoodPoints(egoGps)) >= TINY
    ensures est.confidence == 1.0
    ensures var ego, src := GoodPoints(egoGps), GoodPoints(srcGps);
            CorrAt(ego, src, ego[0].ts, GridSize(ego), est.offset, sqrt) == Some(1.0)
    ensures est.offset <= s * TRIAL_STEP
    ensures var ego, src := GoodPoints(egoGps), GoodPoints(srcGps);
            est.offset == s * TRIAL_STEP <==>
            forall r :: r < s && Tried(r, window) ==>
              CorrAt(ego, src, ego[0].ts, GridSize(ego), r * TRIAL_STEP, sqrt) != Some(1.0)
    ensures est.offset == s * TRIAL_STEP && |GoodPoints(egoGps)| >= 3 ==> est.fit == Line(0.0, 0.0)
  {
    hide GoodPoints, Corr, CorrAt, LineOf, Paired, Shifted, Variation, Tried, BestSoFar;
    var d := s * TRIAL_STEP;
    ghost var ego, src := GoodPoints(egoGps), GoodPoints(srcGps);
    GoodOfShifted(egoGps, -d);
    DelayedCorrelation(ego, d, sqrt);
    ghost var best;
    est, best := SyncGnssXcorr(egoGps, srcGps, window, sqrt);
    TriedIsBelow(s, window);
    PerfectIsFirst(ego, src, ego[0].ts, GridSize(ego), window, sqrt, best, est.offset, s);
    if est.offset == d && |ego| >= 3 {
      DelayedFit(ego, d);
    }
  }

  lemma TriedIsBelow(s: int, window: real)
    requires Tried(s, window)
    ensures s < Steps(window) + 1
  {}

  lemma DelayedFit(ego: seq<GnssPoint>, d: int)
    requires |ego| >= 3 && GridSize(ego) >= 5
    ensures LineOf(Paired(ego, Shifted(ego, -d), d).x, Paired(ego, Shifted(ego, -d), d).y) == Line(0.0, 0.0)
  {
    hide Paired, LineOf, FitDenominator;
    var r := Paired(ego, Shifted(ego, -d), d);
    PairsOfDelayed(ego, ego, d);
    assert r.x[0] != r.x[|ego| - 1];
    DenominatorIsPositive(r.x);
    MovedLine(r.x, r.y, d as real);
  }

  lemma RootOfZero(sqrt: real -> real)
    requires IsRoot(sqrt)
    ensures sqrt(0.0) == 0.0
  {
    hide Times;
    TimesZero(0.0);
    RootOfSquare(0.0, sqrt);
  }

  /** With a constant ego speed no offset has a correlation, and the confidence is 0. */
  lemma ConstantSpeedHasNoCorrelation(ego: seq<GnssPoint>, src: seq<GnssPoint>, offset: int, sqrt: real -> real)
    requires ego != [] && src != [] && GridSize(ego) >= 5 && IsRoot(sqrt) && Variation(ego) == 0.0
    ensures CorrAt(ego, src, ego[0].ts, GridSize(ego), offset, sqrt) == None
  {
    hide Times, Dot, Dev, Resampled;
    var y := Resampled(Shifted(src, offset), ego[0].ts, GridSize(ego));
    TimesZero(Dot(Dev(y), Dev(y)));
    RootOfZero(sqrt);
  }
}
