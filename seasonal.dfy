/** The two seasonal models of script.js: `forecastSeasonalNaive`, which repeats the
    last season, and `forecastTrendSeasonal`, which adds centred per-phase residual
    averages to the least-squares trend. Both clip their output. */
module Seasonal {
  import opened Stats
  import opened Regression
  import opened HoltLinear
  import opened Impute

  /** `Math.max(1, Math.min(seasonLength, n))`: the season length, no longer than the
      series and at least 1. */
  function SeasonLag(n: nat, seasonLength: int): (s: nat)
    ensures 1 <= s
    ensures n >= 1 ==> s <= n
    ensures 1 <= seasonLength <= n ==> s == seasonLength
    ensures 1 <= n <= seasonLength ==> s == n
    ensures seasonLength <= 1 ==> s == 1
  {
    var m := if seasonLength < n then seasonLength else n;
    if m > 1 then m else 1
  }

  // ---------------------------------------------------------------------------
  // Seasonal naive.

  /** The values of the last season, in order, over and over, clipped. */
  function NaiveForecast(train: seq<real>, horizon: nat, seasonLength: int): (r: seq<real>)
    requires |train| >= 1
    ensures |r| == horizon
  {
    var n := |train|;
    var s := SeasonLag(n, seasonLength);
    ClipAll(seq(horizon, i requires 0 <= i < horizon => train[n - s + i % s]))
  }

  /** Going back one season keeps the phase. */
  lemma ModShift(i: int, s: int)
    requires s >= 1 && i >= s
    ensures (i - s) % s == i % s
  {
    var q, r := i / s, i % s;
    var q2, r2 := (i - s) / s, (i - s) % s;
    var d := q - 1 - q2;
    assert d * s == r2 - r by {
      assert i == q * s + r && i - s == q2 * s + r2;
      assert (q - 1) * s == q * s - s;
      assert d * s == (q - 1) * s - q2 * s;
    }
    ScaleCancel(d, 1, s);
    ScaleCancel(-1, d, s);
  }

  /** The forecast before clipping: the last season, over and over. */
  function Repeated(train: seq<real>, s: nat, horizon: nat): (r: seq<real>)
    requires 1 <= s <= |train|
    ensures |r| == horizon
  {
    seq(horizon, i requires 0 <= i < horizon => train[|train| - s + i % s])
  }

  lemma NaiveIsRepeated(train: seq<real>, horizon: nat, seasonLength: int)
    requires |train| >= 1
    ensures NaiveForecast(train, horizon, seasonLength) == ClipAll(Repeated(train, SeasonLag(|train|, seasonLength), horizon))
  {
  }

  /** The seasonal naive forecast starts with the last season of the training series,
      clipped. */
  lemma NaiveFirstSeason(train: seq<real>, horizon: nat, seasonLength: int)
    requires |train| >= 1
    ensures var n, s, r := |train|, SeasonLag(|train|, seasonLength), NaiveForecast(train, horizon, seasonLength);
      forall i :: 0 <= i < s && i < horizon ==> r[i] == Clip(train[n - s + i])
  {
    var n, s := |train|, SeasonLag(|train|, seasonLength);
    var raw := Repeated(train, s, horizon);
    NaiveIsRepeated(train, horizon, seasonLength);
    forall i | 0 <= i < s && i < horizon ensures raw[i] == train[n - s + i] {
      assert i % s == i;
    }
  }

  /** It repeats with the season's period. */
  lemma NaivePeriodic(train: seq<real>, horizon: nat, seasonLength: int)
    requires |train| >= 1
    ensures var s, r := SeasonLag(|train|, seasonLength), NaiveForecast(train, horizon, seasonLength);
      forall i :: s <= i < horizon ==> r[i] == r[i - s]
  {
    var s := SeasonLag(|train|, seasonLength);
    var raw := Repeated(train, s, horizon);
    NaiveIsRepeated(train, horizon, seasonLength);
    forall i | s <= i < horizon ensures raw[i] == raw[i - s] {
      ModShift(i, s);
    }
  }

  /** It is never negative. */
  lemma NaiveNonNegative(train: seq<real>, horizon: nat, seasonLength: int)
    requires |train| >= 1
    ensures forall i :: 0 <= i < horizon ==> NaiveForecast(train, horizon, seasonLength)[i] >= 0.0
  {
    NaiveIsRepeated(train, horizon, seasonLength);
    ClipAllNonNegative(Repeated(train, SeasonLag(|train|, seasonLength), horizon));
  }

  /** `forecastSeasonalNaive`. */
  method ForecastSeasonalNaive(train: seq<real>, horizon: nat, seasonLength: int) returns (out: seq<real>)
    requires |train| >= 1
    ensures out == NaiveForecast(train, horizon, seasonLength)
  {
    var n := |train|;
    var s := if seasonLength < n then seasonLength else n;
    if s < 1 {
      s := 1;
    }
    var raw: seq<real> := [];
    var i := 0;
    while i < horizon
      invariant 0 <= i <= horizon
      invariant |raw| == i
      invariant forall j :: 0 <= j < i ==> raw[j] == train[n - s + j % s]
    {
      raw := raw + [train[n - s + i % s]];
      i := i + 1;
    }
    assert raw == seq(horizon, j requires 0 <= j < horizon => train[n - s + j % s]);
    out := ClipAll(raw);
  }

  // ---------------------------------------------------------------------------
  // Trend plus seasonal index.

  /** What is left of each value once the fitted trend is taken off. */
  function Residuals(train: seq<real>, l: Line): (r: seq<real>)
    ensures |r| == |train|
  {
    seq(|train|, i requires 0 <= i < |train| => train[i] - (l.intercept + l.slope * i as real))
  }

  /** The season phase `i % s` of each position. */
  function Phases(n: nat, s: nat): (ks: seq<nat>)
    requires s >= 1
    ensures |ks| == n && KeysBelow(ks, s)
  {
    seq(n, i requires 0 <= i < n => i % s)
  }

  /** Each phase's sum over its count, or 0 for a phase with no values. */
  function Averages(sums: seq<real>, counts: seq<nat>): (r: seq<real>)
    requires |sums| == |counts|
    ensures |r| == |sums|
  {
    seq(|sums|, i requires 0 <= i < |sums| => if counts[i] > 0 then sums[i] / counts[i] as real else 0.0)
  }

  /** Every value less their mean. */
  function Centre(raw: seq<real>): (r: seq<real>)
    requires |raw| > 0
    ensures |r| == |raw|
  {
    var m := Mean(raw);
    seq(|raw|, i requires 0 <= i < |raw| => raw[i] - m)
  }

  /** The seasonal index of each phase: the average residual of the phase, centred. */
  function SeasonalIndices(train: seq<real>, l: Line, s: nat): (idx: seq<real>)
    requires s >= 1
    ensures |idx| == s
  {
    var ks := Phases(|train|, s);
    Centre(Averages(SumsByKey(Residuals(train, l), ks, s), CountsByKey(ks, s)))
  }

  /** The trend at `t = n + h` plus the index of that phase. */
  function Project(l: Line, idx: seq<real>, n: nat, horizon: nat): (r: seq<real>)
    requires |idx| >= 1
    ensures |r| == horizon
  {
    seq(horizon, h requires 0 <= h < horizon => l.intercept + l.slope * (n + h) as real + idx[(n + h) % |idx|])
  }

  /** The trend-seasonal forecast; fewer than 3 values fall back to Holt. */
  function TrendSeasonalForecast(train: seq<real>, horizon: nat, seasonLength: int): (r: seq<real>)
    requires |train| >= 1
    ensures |r| == horizon
  {
    var n := |train|;
    if n < 3 then HoltForecast(train, horizon)
    else
      var l := Fit(train);
      var s := SeasonLag(n, seasonLength);
      ClipAll(Project(l, SeasonalIndices(train, l, s), n, horizon))
  }

  lemma SumStepDown(x: seq<real>, m: real)
    requires |x| > 0
    ensures var y := seq(|x|, i requires 0 <= i < |x| => x[i] - m);
      y[..|x| - 1] == seq(|x| - 1, i requires 0 <= i < |x| - 1 => x[..|x| - 1][i] - m)
  {
  }

  /** Taking `m` off every term takes `n * m` off the sum. */
  lemma {:induction false} SumShifted(x: seq<real>, m: real)
    ensures Sum(seq(|x|, i requires 0 <= i < |x| => x[i] - m)) == Sum(x) - |x| as real * m
  {
    if x != [] {
      var n := |x| - 1;
      SumStepDown(x, m);
      SumShifted(x[..n], m);
    }
  }

  /** The centred values sum to 0. */
  lemma CentreSumsToZero(raw: seq<real>)
    requires |raw| > 0
    ensures Sum(Centre(raw)) == 0.0
  {
    SumShifted(raw, Mean(raw));
    var n := |raw| as real;
    assert Mean(raw) * n == Sum(raw);
  }

  /** The seasonal indices sum to 0, so over a whole season they add nothing to the
      trend. */
  lemma IndicesCentred(train: seq<real>, l: Line, s: nat)
    requires s >= 1
    ensures Sum(SeasonalIndices(train, l, s)) == 0.0
  {
    var ks := Phases(|train|, s);
    CentreSumsToZero(Averages(SumsByKey(Residuals(train, l), ks, s), CountsByKey(ks, s)));
  }

  /** Sums of zeros are zero, whatever the keys. */
  lemma {:induction false} SumsByKeyOfZeros(values: seq<real>, keys: seq<nat>, k: nat)
    requires |keys| == |values| && KeysBelow(keys, k)
    requires forall i :: 0 <= i < |values| ==> values[i] == 0.0
    ensures forall b :: 0 <= b < k ==> SumsByKey(values, keys, k)[b] == 0.0
  {
    if values != [] {
      var n := |values| - 1;
      assert KeysBelow(keys[..n], k);
      SumsByKeyOfZeros(values[..n], keys[..n], k);
    }
  }

  /** The residuals of an exactly linear series about its own line are all 0, so every
      index is 0. */
  lemma IndicesOfLine(train: seq<real>, c: real, k: real, s: nat)
    requires OnLine(train, c, k) && s >= 1
    ensures forall b :: 0 <= b < s ==> SeasonalIndices(train, Line(k, c), s)[b] == 0.0
  {
    var ks := Phases(|train|, s);
    var res := Residuals(train, Line(k, c));
    assert forall i :: 0 <= i < |res| ==> res[i] == 0.0;
    SumsByKeyOfZeros(res, ks, s);
    var raw := Averages(SumsByKey(res, ks, s), CountsByKey(ks, s));
    assert forall b :: 0 <= b < s ==> raw[b] == 0.0;
    MeanConstant(raw, 0.0);
  }

  /** The trend-seasonal forecast of an exactly linear series continues the line,
      clipped. */
  lemma TrendSeasonalOfLine(train: seq<real>, c: real, k: real, horizon: nat, seasonLength: int)
    requires |train| >= 3 && OnLine(train, c, k)
    ensures TrendSeasonalForecast(train, horizon, seasonLength) == ClipAll(LinePath(c, k, |train|, horizon))
  {
    var n := |train|;
    FitOfLine(train, c, k);
    var s := SeasonLag(n, seasonLength);
    var idx := SeasonalIndices(train, Line(k, c), s);
    IndicesOfLine(train, c, k, s);
    var p := Project(Line(k, c), idx, n, horizon);
    forall h | 0 <= h < horizon ensures p[h] == LinePath(c, k, n, horizon)[h] {
      assert idx[(n + h) % s] == 0.0;
    }
    assert p == LinePath(c, k, n, horizon);
  }

  /** With 3 or more values the forecast is never negative; with fewer it is Holt's. */
  lemma TrendSeasonalShape(train: seq<real>, horizon: nat, seasonLength: int)
    requires |train| >= 1
    ensures |train| < 3 ==> TrendSeasonalForecast(train, horizon, seasonLength) == HoltForecast(train, horizon)
    ensures |train| >= 3 ==> forall h :: 0 <= h < horizon ==> TrendSeasonalForecast(train, horizon, seasonLength)[h] >= 0.0
  {
    if |train| >= 3 {
      var l := Fit(train);
      var s := SeasonLag(|train|, seasonLength);
      ClipAllNonNegative(Project(l, SeasonalIndices(train, l, s), |train|, horizon));
    }
  }

  /** The per-phase averaging loop and the centring loop of `forecastTrendSeasonal`. */
  method CentredAverages(sums: seq<real>, counts: seq<nat>) returns (seasonal: seq<real>)
    requires |sums| == |counts| && |sums| >= 1
    ensures seasonal == Centre(Averages(sums, counts))
  {
    var a := new real[|sums|];
    var i := 0;
    while i < a.Length
      invariant 0 <= i <= a.Length
      invariant forall j :: 0 <= j < i ==> a[j] == Averages(sums, counts)[j]
    {
      a[i] := if counts[i] > 0 then sums[i] / counts[i] as real else 0.0;
      i := i + 1;
    }
    ghost var raw := a[..];
    assert raw == Averages(sums, counts);
    var seasonalMean := Mean(a[..]);
    i := 0;
    while i < a.Length
      invariant 0 <= i <= a.Length
      invariant forall j :: 0 <= j < i ==> a[j] == raw[j] - seasonalMean
      invariant forall j :: i <= j < a.Length ==> a[j] == raw[j]
    {
      a[i] := a[i] - seasonalMean;
      i := i + 1;
    }
    seasonal := a[..];
  }

  /** The output loop of `forecastTrendSeasonal`. */
  method ProjectLoop(intercept: real, slope: real, seasonal: seq<real>, n: nat, horizon: nat) returns (out: seq<real>)
    requires |seasonal| >= 1
    ensures out == Project(Line(slope, intercept), seasonal, n, horizon)
  {
    var s := |seasonal|;
    out := [];
    var h := 0;
    while h < horizon
      invariant 0 <= h <= horizon
      invariant |out| == h
      invariant forall j :: 0 <= j < h ==> out[j] == intercept + slope * (n + j) as real + seasonal[(n + j) % s]
    {
      var t := n + h;
      out := out + [intercept + slope * t as real + seasonal[t % s]];
      h := h + 1;
    }
    forall j | 0 <= j < horizon ensures out[j] == Project(Line(slope, intercept), seasonal, n, horizon)[j] {
    }
  }

  /** `forecastTrendSeasonal`. */
  method ForecastTrendSeasonal(train: seq<real>, horizon: nat, seasonLength: int) returns (out: seq<real>)
    requires |train| >= 1
    ensures out == TrendSeasonalForecast(train, horizon, seasonLength)
  {
    var n := |train|;
    if n < 3 {
      out := ForecastHolt(train, horizon);
      return;
    }
    var slope, intercept := TrendLine(train);
    var s := if seasonLength < n then seasonLength else n;
    if s < 1 {
      s := 1;
    }
    var residuals := seq(n, i requires 0 <= i < n => train[i] - (intercept + slope * i as real));
    var sums, counts := TallyByKey(residuals, Phases(n, s), s);
    var seasonal := CentredAverages(sums, counts);
    var raw := ProjectLoop(intercept, slope, seasonal, n, horizon);
    out := ClipAll(raw);
  }
}
