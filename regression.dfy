/** The least-squares line through the points `(i, values[i])`, as both the trend
    model of script.js and `_linear_forecast` of forecast.py fit it: the index mean is
    `(n - 1) / 2`, the slope is the centred cross sum over the centred square sum (0
    when that is 0), and the intercept puts the line through the two means. */
module Regression {
  import opened Stats

  /** `sum((i - xm) * (v - ym) for i, v in enumerate(values))`. */
  function Cross(values: seq<real>, xm: real, ym: real): real {
    if values == [] then 0.0
    else
      var n := |values| - 1;
      Cross(values[..n], xm, ym) + (n as real - xm) * (values[n] - ym)
  }

  /** `sum((i - xm) ** 2 for i in range(n))`. */
  function SqDev(n: nat, xm: real): real {
    if n == 0 then 0.0 else SqDev(n - 1, xm) + ((n - 1) as real - xm) * ((n - 1) as real - xm)
  }

  /** `(n - 1) / 2`. */
  function XMean(n: nat): real {
    (n - 1) as real / 2.0
  }

  datatype Line = Line(slope: real, intercept: real)

  /** The value of the line at `t`. */
  function At(l: Line, t: real): real {
    l.slope * t + l.intercept
  }

  /** The fitted line. */
  function Fit(values: seq<real>): Line
    requires |values| > 0
  {
    var n := |values|;
    var xm := XMean(n);
    var ym := Sum(values) / n as real;
    var num := Cross(values, xm, ym);
    var den := SqDev(n, xm);
    var slope := if den == 0.0 then 0.0 else num / den;
    Line(slope, ym - slope * xm)
  }

  /** The centred square sum has the square of the first centred index in it. */
  lemma {:induction false} SqDevAtLeastFirst(n: nat, xm: real)
    requires n >= 1
    ensures SqDev(n, xm) >= xm * xm
  {
    if n > 1 {
      SqDevAtLeastFirst(n - 1, xm);
      var d := (n - 1) as real - xm;
      assert d * d >= 0.0;
    }
  }

  /** With two or more points the denominator is positive, so the slope is a true
      quotient. */
  lemma DenPositive(n: nat)
    requires n >= 2
    ensures SqDev(n, XMean(n)) > 0.0
  {
    var xm := XMean(n);
    SqDevAtLeastFirst(n, xm);
    assert xm >= 0.5;
    assert xm * xm >= 0.5 * xm;
  }

  /** The fitted line passes through the point of means. */
  lemma FitThroughMeans(values: seq<real>)
    requires |values| > 0
    ensures At(Fit(values), XMean(|values|)) == Mean(values)
  {
  }

  /** A single point gives a flat line at its value. */
  lemma FitOfSingle(v: real)
    ensures Fit([v]) == Line(0.0, v)
  {
    assert [v][..0] == [];
    assert Sum([v]) == v;
    assert XMean(1) == 0.0;
    assert SqDev(1, 0.0) == 0.0;
  }

  /** The terms of an exactly linear series. */
  predicate OnLine(values: seq<real>, c: real, k: real) {
    forall i :: 0 <= i < |values| ==> values[i] == c + k * i as real
  }

  lemma SumStep(n: real, c: real, k: real, s: real, v: real)
    requires s == n * c + k * (n * (n - 1.0) / 2.0) && v == c + k * n
    ensures s + v == (n + 1.0) * c + k * ((n + 1.0) * n / 2.0)
  {
    assert (n + 1.0) * n / 2.0 == n * (n - 1.0) / 2.0 + n;
  }

  /** The line `c + k * t` at `t = from .. from + horizon - 1`. */
  function LinePath(c: real, k: real, from: nat, horizon: nat): (r: seq<real>)
    ensures |r| == horizon
  {
    seq(horizon, h requires 0 <= h < horizon => c + k * (from + h) as real)
  }

  /** The sum of `c + k * i` over `i < n` is `n * c + k * n * (n - 1) / 2`. */
  lemma {:induction false} SumOfLine(values: seq<real>, c: real, k: real)
    requires OnLine(values, c, k)
    ensures var n := |values| as real; Sum(values) == n * c + k * (n * (n - 1.0) / 2.0)
  {
    if values != [] {
      var m := |values| - 1;
      assert OnLine(values[..m], c, k) by {
        forall i | 0 <= i < m ensures values[..m][i] == c + k * i as real {
          assert values[..m][i] == values[i];
        }
      }
      SumOfLine(values[..m], c, k);
      SumStep(m as real, c, k, Sum(values[..m]), values[m]);
    }
  }

  lemma CrossTerm(t: real, xm: real, c: real, k: real)
    ensures (t - xm) * ((c + k * t) - (c + k * xm)) == k * ((t - xm) * (t - xm))
  {
  }

  /** For an exactly linear series the cross sum is the slope times the square sum. */
  lemma {:induction false} CrossOfLine(values: seq<real>, c: real, k: real, xm: real)
    requires OnLine(values, c, k)
    ensures Cross(values, xm, c + k * xm) == k * SqDev(|values|, xm)
  {
    if values != [] {
      var m := |values| - 1;
      assert OnLine(values[..m], c, k) by {
        forall i | 0 <= i < m ensures values[..m][i] == c + k * i as real {
          assert values[..m][i] == values[i];
        }
      }
      CrossOfLine(values[..m], c, k, xm);
      CrossTerm(m as real, xm, c, k);
    }
  }

  /** An exactly linear series of two or more points is fitted by its own line. */
  lemma FitOfLine(values: seq<real>, c: real, k: real)
    requires |values| >= 2 && OnLine(values, c, k)
    ensures Fit(values) == Line(k, c)
  {
    var n := |values|;
    var xm := XMean(n);
    SumOfLine(values, c, k);
    var ym := Sum(values) / n as real;
    assert (c + k * xm) * n as real == Sum(values);
    assert ym == c + k * xm;
    CrossOfLine(values, c, k, xm);
    DenPositive(n);
    var den := SqDev(n, xm);
    assert (k * den) / den == k;
  }

  /** The accumulating loop of the trend model: one pass over the series adds each
      centred cross term and centred square to running totals, then the slope and
      intercept are formed from them. */
  method TrendLine(train: seq<real>) returns (slope: real, intercept: real)
    requires |train| > 0
    ensures Line(slope, intercept) == Fit(train)
  {
    var n := |train|;
    var xMean := (n - 1) as real / 2.0;
    var yMean := Sum(train) / n as real;
    var num := 0.0;
    var den := 0.0;
    var i := 0;
    while i < n
      invariant 0 <= i <= n
      invariant num == Cross(train[..i], xMean, yMean)
      invariant den == SqDev(i, xMean)
    {
      assert train[..i + 1][..i] == train[..i];
      num := num + (i as real - xMean) * (train[i] - yMean);
      den := den + (i as real - xMean) * (i as real - xMean);
      i := i + 1;
    }
    assert train[..n] == train;
    slope := if den == 0.0 then 0.0 else num / den;
    intercept := yMean - slope * xMean;
  }
}
