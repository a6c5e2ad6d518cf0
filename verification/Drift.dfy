/** The fit of the clock model: what is reported is the slope and the error of the one line that
    fits the pairs best. */
module Drift {
  import opened TimeSync

  /** The values of a line at the points x. */
  function LineAt(x: seq<real>, a: real, b: real): (r: seq<real>)
    ensures |r| == |x|
  {
    seq(|x|, i requires 0 <= i < |x| => a + Times(b, x[i]))
  }

  lemma SplitResidual(x: real, y: real, a: real, b: real, a': real, b': real)
    ensures var r, r', d := y - (a + Times(b, x)), y - (a' + Times(b', x)), (a - a') + Times(b - b', x);
            Times(r', r') == Times(r, r) + 2.0 * (Times(a - a', r) + Times(b - b', Times(x, r))) + Times(d, d)
  {
    hide Times;
    var r, r', q := y - (a + Times(b, x)), y - (a' + Times(b', x)), Times(b - b', x);
    TimesCommutes(b - b', x);
    TimesOfSum(x, b, b');
    TimesCommutes(b, x);
    TimesCommutes(b', x);
    assert r' == r + ((a - a') + q);
    SquareOfSum(r, (a - a') + q);
    TimesOfSum(r, a - a', q);
    TimesCommutes(r, a - a');
    TimesCommutes(r, q);
    TimesSwap(b - b', x, r);
  }

  /** The squared error of another line, in terms of the residuals of the first. */
  lemma {:induction false} SplitError(x: seq<real>, y: seq<real>, a: real, b: real, a': real, b': real)
    requires |x| == |y|
    ensures var r, r', d := Residuals(x, y, a, b), Residuals(x, y, a', b'), LineAt(x, a - a', b - b');
            Dot(r', r') == Dot(r, r) + 2.0 * (Times(a - a', Sum(r)) + Times(b - b', Dot(x, r))) + Dot(d, d)
  {
    hide Times;
    if x == [] {
      TimesZero(a - a');
      TimesZero(b - b');
    } else {
      var n := |x| - 1;
      var r, r', d := Residuals(x, y, a, b), Residuals(x, y, a', b'), LineAt(x, a - a', b - b');
      SplitError(x[..n], y[..n], a, b, a', b');
      assert r[..n] == Residuals(x[..n], y[..n], a, b) && r'[..n] == Residuals(x[..n], y[..n], a', b');
      assert d[..n] == LineAt(x[..n], a - a', b - b');
      SplitResidual(x[n], y[n], a, b, a', b');
      TimesOfSum(a - a', Sum(r[..n]), r[n]);
      TimesOfSum(b - b', Dot(x[..n], r[..n]), Times(x[n], r[n]));
    }
  }

  lemma {:induction false} ZeroDotIsZero(d: seq<real>, i: nat)
    requires Dot(d, d) == 0.0 && i < |d|
    ensures d[i] == 0.0
  {
    hide Times;
    var n := |d| - 1;
    DotSelf(d[..n]);
    SquareIsPositive(d[n]);
    if i < n {
      ZeroDotIsZero(d[..n], i);
    }
  }

  /** A line that is as good as the fitted one is the fitted one. */
  lemma BestLineIsUnique(x: seq<real>, y: seq<real>, a': real, b': real)
    requires |x| == |y| > 0 && FitDenominator(x) != 0.0
    requires var r, r' := Residuals(x, y, Intercept(x, y), Slope(x, y)), Residuals(x, y, a', b');
             Dot(r', r') <= Dot(r, r)
    ensures a' == Intercept(x, y) && b' == Slope(x, y)
  {
    hide Times, Sum, Dot, Residuals, Slope, Intercept, FitDenominator;
    var a, b := Intercept(x, y), Slope(x, y);
    var d := LineAt(x, a - a', b - b');
    NormalEquations(x, y);
    SplitError(x, y, a, b, a', b');
    TimesZero(a - a');
    TimesZero(b - b');
    DotSelf(d);
    DenominatorIsPositive(x);
    var i, j :| 0 <= i < j < |x| && x[i] != x[j];
    ZeroDotIsZero(d, i);
    ZeroDotIsZero(d, j);
    TwoZeros(a - a', b - b', x[i], x[j]);
  }

  lemma TwoZeros(a: real, b: real, u: real, v: real)
    requires u != v && a + Times(b, u) == 0.0 && a + Times(b, v) == 0.0
    ensures a == 0.0 && b == 0.0
  {
    hide Times;
    TimesOfSum(b, u, v);
    NoFactor(b, u - v);
    TimesZero(u);
    TimesCommutes(b, u);
  }

  lemma NoFactor(b: real, u: real)
    requires u != 0.0 && Times(b, u) == 0.0
    ensures b == 0.0
  {}

  /** No line has a smaller squared error than the line a + b * x. */
  ghost predicate Best(x: seq<real>, y: seq<real>, a: real, b: real)
    requires |x| == |y|
  {
    forall a', b' :: Dot(Residuals(x, y, a, b), Residuals(x, y, a, b))
                     <= Dot(Residuals(x, y, a', b'), Residuals(x, y, a', b'))
  }

  /** Drift and residual are those of the best line: the parts per million by which its slope is above
      one, and its mean squared error. */
  lemma BestLineIsReported(x: seq<real>, y: seq<real>, a: real, b: real)
    requires |x| == |y| >= 3 && FitDenominator(x) != 0.0 && Best(x, y, a, b)
    ensures var r := Residuals(x, y, a, b);
            LineOf(x, y) == Line((b - 1.0) * 1_000_000.0, Dot(r, r) / |x| as real)
  {
    hide Dot, Residuals, FitDenominator;
    BestLineIsUnique(x, y, a, b);
    hide Slope, Intercept;
  }

  /** Pairs on a line: the drift is that of its slope, and there is no residual. */
  lemma PairsOnALine(x: seq<real>, y: seq<real>, a: real, b: real)
    requires |x| == |y| >= 3 && FitDenominator(x) != 0.0
    requires forall i :: 0 <= i < |x| ==> y[i] == a + b * x[i]
    ensures LineOf(x, y) == Line((b - 1.0) * 1_000_000.0, 0.0)
  {
    var r := Residuals(x, y, a, b);
    ZeroDot(r);
    hide Dot, Residuals, FitDenominator;
    forall a', b'
      ensures Dot(r, r) <= Dot(Residuals(x, y, a', b'), Residuals(x, y, a', b'))
    {
      DotSelf(Residuals(x, y, a', b'));
    }
    BestLineIsReported(x, y, a, b);
    NothingOf(|x| as real);
  }

  lemma NothingOf(n: real)
    requires n > 0.0
    ensures 0.0 / n == 0.0
  {}
}
