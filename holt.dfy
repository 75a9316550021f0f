/** `forecastHolt` of script.js: Holt's linear-trend exponential smoothing. The
    smoothing weights are chosen from the grid `alpha, beta` in `0.1, 0.2, .., 0.9`
    by the smallest mean absolute error of the one-step-ahead forecasts over the
    training series, the earliest grid point winning a tie; the chosen smoothing is
    then run once more and its final level and trend are extended over the horizon.
    Grid points are the exact tenths `i / 10`. */
module HoltLinear {
  import opened Wrappers
  import opened Stats
  import opened Regression

  datatype Smoothed = Smoothed(level: real, trend: real)

  /** One smoothing step on the observation `x`: the new level blends `x` with the
      previous level plus trend, the new trend blends the level change with the
      previous trend. */
  function Update(s: Smoothed, x: real, a: real, b: real): Smoothed {
    var level := Blend(a, x, s.level + s.trend);
    Smoothed(level, Blend(b, level - s.level, s.trend))
  }

  /** `w * x + (1 - w) * y`. */
  function Blend(w: real, x: real, y: real): real {
    w * x + (1.0 - w) * y
  }

  /** The state once the observations `1 .. t - 1` are smoothed, starting from the
      first value and the first difference. */
  function Run(train: seq<real>, a: real, b: real, t: nat): Smoothed
    requires 2 <= |train| && 1 <= t <= |train|
  {
    if t == 1 then Smoothed(train[0], train[1] - train[0])
    else Update(Run(train, a, b, t - 1), train[t - 1], a, b)
  }

  /** The one-step forecasts made for the observations `1 .. t - 1`: the level before
      the step plus the trend after it. */
  function OneStep(train: seq<real>, a: real, b: real, t: nat): (p: seq<real>)
    requires 2 <= |train| && 1 <= t <= |train|
    ensures |p| == t - 1
  {
    if t == 1 then []
    else OneStep(train, a, b, t - 1) + [Run(train, a, b, t - 1).level + Run(train, a, b, t).trend]
  }

  /** The absolute errors of the one-step forecasts for the observations
      `1 .. t - 1`, summed. */
  function ErrorSum(train: seq<real>, a: real, b: real, t: nat): real
    requires 2 <= |train| && 1 <= t <= |train|
  {
    if t == 1 then 0.0
    else ErrorSum(train, a, b, t - 1) + Abs(train[t - 1] - (Run(train, a, b, t - 1).level + Run(train, a, b, t).trend))
  }

  /** One more observation smoothed, and its one-step forecast. */
  lemma RunStep(train: seq<real>, a: real, b: real, t: nat)
    requires 2 <= |train| && 1 <= t < |train|
    ensures Run(train, a, b, t + 1) == Update(Run(train, a, b, t), train[t], a, b)
    ensures OneStep(train, a, b, t + 1)
         == OneStep(train, a, b, t) + [Run(train, a, b, t).level + Run(train, a, b, t + 1).trend]
  {
  }

  /** The in-sample score of one weight pair: the mean absolute error of the one-step
      forecasts against the observations they forecast (`ScoreIsMae`). */
  function Score(train: seq<real>, a: real, b: real): real
    requires |train| >= 2
  {
    ErrorSum(train, a, b, |train|) / (|train| - 1) as real
  }

  lemma {:induction false} ErrorSumIsSum(train: seq<real>, a: real, b: real, t: nat)
    requires 2 <= |train| && 1 <= t <= |train|
    ensures ErrorSum(train, a, b, t) == Sum(AbsErrors(train[1..t], OneStep(train, a, b, t)))
  {
    if t > 1 {
      ErrorSumIsSum(train, a, b, t - 1);
      var p := Run(train, a, b, t - 1).level + Run(train, a, b, t).trend;
      assert train[1..t] == train[1..t - 1] + [train[t - 1]];
      AbsErrorsSnoc(train[1..t - 1], OneStep(train, a, b, t - 1), train[t - 1], p);
      SumSnoc(AbsErrors(train[1..t - 1], OneStep(train, a, b, t - 1)), Abs(train[t - 1] - p));
    }
  }

  /** The score is `mae(train.slice(1), oneStep)`. */
  lemma ScoreIsMae(train: seq<real>, a: real, b: real)
    requires |train| >= 2
    ensures Score(train, a, b) == Mae(train[1..], OneStep(train, a, b, |train|))
  {
    ErrorSumIsSum(train, a, b, |train|);
    assert train[1..|train|] == train[1..];
  }

  /** The score of the grid point with `alpha = i / 10` and `beta = j / 10`. */
  function GridScore(train: seq<real>, i: nat, j: nat): real
    requires |train| >= 2
  {
    Score(train, i as real / 10.0, j as real / 10.0)
  }

  /** The best pair so far, by grid step; `None` stands for the initial infinite
      score. */
  datatype Fitted = Fitted(mae: real, alphaStep: nat, betaStep: nat)

  /** Trying one grid point: it replaces the best so far only when strictly better. */
  function Consider(train: seq<real>, i: nat, j: nat, best: Option<Fitted>): Option<Fitted>
    requires |train| >= 2
  {
    var score := GridScore(train, i, j);
    if best.None? || score < best.value.mae then Some(Fitted(score, i, j)) else best
  }

  /** The inner loop: the betas `1 / 10 .. j / 10` tried in turn with `alpha = i / 10`. */
  function SearchBetas(train: seq<real>, i: nat, j: nat, best: Option<Fitted>): Option<Fitted>
    requires |train| >= 2
  {
    if j == 0 then best else Consider(train, i, j, SearchBetas(train, i, j - 1, best))
  }

  /** The outer loop: the alphas `1 / 10 .. i / 10` in turn, each with every beta. */
  function SearchAlphas(train: seq<real>, i: nat): Option<Fitted>
    requires |train| >= 2
  {
    if i == 0 then None else SearchBetas(train, i, 9, SearchAlphas(train, i - 1))
  }

  /** The chosen weights; `0.3` and `0.1` are the initial values, kept only if no grid
      point were ever better than infinity. */
  function Parameters(train: seq<real>): (real, real)
    requires |train| >= 2
  {
    match SearchAlphas(train, 9)
    case Some(f) => (f.alphaStep as real / 10.0, f.betaStep as real / 10.0)
    case None => (0.3, 0.1)
  }

  /** The weights of the pair the search ends on. */
  lemma ParametersOf(train: seq<real>, f: Fitted)
    requires |train| >= 2 && SearchAlphas(train, 9) == Some(f)
    ensures Parameters(train) == (f.alphaStep as real / 10.0, f.betaStep as real / 10.0)
  {
  }

  /** The final level plus `h` trends, for `h = 1 .. horizon`. */
  function Extend(s: Smoothed, horizon: nat): (r: seq<real>)
    ensures |r| == horizon
  {
    seq(horizon, h requires 0 <= h < horizon => s.level + (h + 1) as real * s.trend)
  }

  /** The Holt forecast: a single observation is repeated as it is; otherwise the
      smoothing with the chosen weights is extended over the horizon and clipped. */
  function HoltForecast(train: seq<real>, horizon: nat): (r: seq<real>)
    requires |train| >= 1
    ensures |r| == horizon
  {
    if |train| == 1 then seq(horizon, _ => train[0])
    else
      var (a, b) := Parameters(train);
      ClipAll(Extend(Run(train, a, b, |train|), horizon))
  }

  // ---------------------------------------------------------------------------
  // The grid search finds the first minimum.

  /** Grid point `(k, m)` comes before `(i, j)` in the search order. */
  predicate Before(k: int, m: int, i: int, j: int) {
    k < i || (k == i && m < j)
  }

  /** Grid point `(k, m)` has been tried once the search reached `(i, j)`. */
  predicate Tried(k: int, m: int, i: int, j: int) {
    1 <= k && 1 <= m <= 9 && (k < i || (k == i && m <= j))
  }

  /** `best` is the first grid point of smallest score among those tried up to `(i, j)`,
      and `None` only when none was tried. */
  ghost predicate FirstMin(train: seq<real>, best: Option<Fitted>, i: int, j: int)
    requires |train| >= 2
  {
    match best
    case None => forall k, m :: !Tried(k, m, i, j)
    case Some(f) =>
      Tried(f.alphaStep, f.betaStep, i, j) && f.mae == GridScore(train, f.alphaStep, f.betaStep) &&
      (forall k, m :: Tried(k, m, i, j) ==> f.mae <= GridScore(train, k, m)) &&
      (forall k, m :: Tried(k, m, i, j) && Before(k, m, f.alphaStep, f.betaStep) ==> f.mae < GridScore(train, k, m))
  }

  lemma ConsiderStep(train: seq<real>, i: nat, j: nat, best: Option<Fitted>)
    requires |train| >= 2 && 1 <= i <= 9 && 1 <= j <= 9
    requires FirstMin(train, best, i, j - 1)
    ensures FirstMin(train, Consider(train, i, j, best), i, j)
  {
    assert forall k, m :: Tried(k, m, i, j) <==> Tried(k, m, i, j - 1) || (k == i && m == j);
  }

  lemma {:induction false} SearchBetasStep(train: seq<real>, i: nat, j: nat, best: Option<Fitted>)
    requires |train| >= 2 && 1 <= i <= 9 && j <= 9
    requires FirstMin(train, best, i, 0)
    ensures FirstMin(train, SearchBetas(train, i, j, best), i, j)
  {
    if j > 0 {
      SearchBetasStep(train, i, j - 1, best);
      ConsiderStep(train, i, j, SearchBetas(train, i, j - 1, best));
    }
  }

  lemma NextRow(train: seq<real>, best: Option<Fitted>, i: nat)
    requires |train| >= 2 && 1 <= i
    requires FirstMin(train, best, i - 1, 9)
    ensures FirstMin(train, best, i, 0)
  {
    assert forall k, m :: Tried(k, m, i, 0) <==> Tried(k, m, i - 1, 9);
  }

  lemma {:induction false} SearchAlphasStep(train: seq<real>, i: nat)
    requires |train| >= 2 && i <= 9
    ensures FirstMin(train, SearchAlphas(train, i), i, 9)
  {
    if i > 0 {
      SearchAlphasStep(train, i - 1);
      NextRow(train, SearchAlphas(train, i - 1), i);
      SearchBetasStep(train, i, 9, SearchAlphas(train, i - 1));
    }
  }

  /** The search ends on a grid point whose score is the smallest on the grid and
      strictly smaller than that of every earlier grid point, so the initial weights
      are never used. */
  lemma SearchFindsFirstMin(train: seq<real>)
    requires |train| >= 2
    ensures SearchAlphas(train, 9).Some?
    ensures var f := SearchAlphas(train, 9).value;
      1 <= f.alphaStep <= 9 && 1 <= f.betaStep <= 9 &&
      f.mae == GridScore(train, f.alphaStep, f.betaStep) &&
      (forall k, m :: 1 <= k <= 9 && 1 <= m <= 9 ==> f.mae <= GridScore(train, k, m)) &&
      (forall k, m :: 1 <= k <= 9 && 1 <= m <= 9 && Before(k, m, f.alphaStep, f.betaStep) ==>
        f.mae < GridScore(train, k, m))
  {
    SearchAlphasStep(train, 9);
    assert Tried(1, 1, 9, 9);
    var f := SearchAlphas(train, 9).value;
    forall k, m | 1 <= k <= 9 && 1 <= m <= 9 ensures Tried(k, m, 9, 9) {
    }
  }

  // ---------------------------------------------------------------------------
  // An exactly linear series.

  lemma BlendSame(w: real, x: real)
    ensures Blend(w, x, x) == x
  {
  }

  /** On `c + k * t` the smoothing stays on the line, whatever the weights. */
  lemma {:induction false} RunOfLine(train: seq<real>, c: real, k: real, a: real, b: real, t: nat)
    requires 2 <= |train| && 1 <= t <= |train| && OnLine(train, c, k)
    ensures Run(train, a, b, t) == Smoothed(c + k * (t - 1) as real, k)
  {
    if t > 1 {
      RunOfLine(train, c, k, a, b, t - 1);
      var level := c + k * (t - 2) as real;
      assert train[t - 1] == level + k;
      BlendSame(a, level + k);
      BlendSame(b, k);
    }
  }

  /** On a line every one-step forecast hits the observation it forecasts. */
  lemma {:induction false} OneStepOfLine(train: seq<real>, c: real, k: real, a: real, b: real, t: nat)
    requires 2 <= |train| && 1 <= t <= |train| && OnLine(train, c, k)
    ensures OneStep(train, a, b, t) == train[1..t]
  {
    if t > 1 {
      OneStepOfLine(train, c, k, a, b, t - 1);
      OneStepHits(train, c, k, a, b, t);
      assert train[1..t] == train[1..t - 1] + [train[t - 1]];
    }
  }

  /** On a line the forecast for observation `t - 1` is that observation. */
  lemma OneStepHits(train: seq<real>, c: real, k: real, a: real, b: real, t: nat)
    requires 2 <= |train| && 2 <= t <= |train| && OnLine(train, c, k)
    ensures Run(train, a, b, t - 1).level + Run(train, a, b, t).trend == train[t - 1]
  {
    RunOfLine(train, c, k, a, b, t - 1);
    RunOfLine(train, c, k, a, b, t);
    assert c + k * (t - 2) as real + k == c + k * (t - 1) as real;
  }

  /** Every grid point scores 0 on a line. */
  lemma ScoreOfLine(train: seq<real>, c: real, k: real, a: real, b: real)
    requires 2 <= |train| && OnLine(train, c, k)
    ensures Score(train, a, b) == 0.0
  {
    OneStepOfLine(train, c, k, a, b, |train|);
    MaeZero(train[1..], OneStep(train, a, b, |train|));
    ScoreIsMae(train, a, b);
  }

  /** Extending a state on the line `c + k * t` at `t = n - 1` continues the line. */
  lemma ExtendOfLine(s: Smoothed, c: real, k: real, n: nat, horizon: nat)
    requires n >= 1 && s == Smoothed(c + k * (n - 1) as real, k)
    ensures Extend(s, horizon) == LinePath(c, k, n, horizon)
  {
    forall h | 0 <= h < horizon
      ensures Extend(s, horizon)[h] == LinePath(c, k, n, horizon)[h]
    {
      assert (c + k * (n - 1) as real) + (h + 1) as real * k == c + k * (n + h) as real;
    }
  }

  /** The Holt forecast of an exactly linear series continues the line, clipped. */
  lemma HoltOfLine(train: seq<real>, c: real, k: real, horizon: nat)
    requires 2 <= |train| && OnLine(train, c, k)
    ensures HoltForecast(train, horizon) == ClipAll(LinePath(c, k, |train|, horizon))
  {
    var n := |train|;
    var (a, b) := Parameters(train);
    RunOfLine(train, c, k, a, b, n);
    ExtendOfLine(Run(train, a, b, n), c, k, n, horizon);
  }

  /** Two observations always lie on a line: `10, 12` forecasts `14` one step on. */
  lemma HoltOfTwoPoints()
    ensures HoltForecast([10.0, 12.0], 1) == [14.0]
  {
    HoltOfLine([10.0, 12.0], 10.0, 2.0, 1);
    Round2Cents(1400);
    assert LinePath(10.0, 2.0, 2, 1) == [14.0];
  }

  /** A single observation is repeated unclipped; otherwise every value is clipped and
      so non-negative. */
  lemma HoltShape(train: seq<real>, horizon: nat)
    requires |train| >= 1
    ensures |train| == 1 ==> forall h :: 0 <= h < horizon ==> HoltForecast(train, horizon)[h] == train[0]
    ensures |train| >= 2 ==> forall h :: 0 <= h < horizon ==> HoltForecast(train, horizon)[h] >= 0.0
  {
    if |train| >= 2 {
      var (a, b) := Parameters(train);
      ClipAllNonNegative(Extend(Run(train, a, b, |train|), horizon));
    }
  }

  // ---------------------------------------------------------------------------
  // The loops of `forecastHolt`.

  /** One pass of the smoothing with weights `a` and `b`, recording the one-step
      forecasts, and their score. */
  method ScorePair(train: seq<real>, a: real, b: real) returns (score: real)
    requires |train| >= 2
    ensures score == Score(train, a, b)
  {
    var level := train[0];
    var trend := train[1] - train[0];
    var oneStep: seq<real> := [];
    var t := 1;
    while t < |train|
      invariant 1 <= t <= |train|
      invariant Smoothed(level, trend) == Run(train, a, b, t)
      invariant oneStep == OneStep(train, a, b, t)
    {
      RunStep(train, a, b, t);
      var prevLevel := level;
      level := Blend(a, train[t], level + trend);
      trend := Blend(b, level - prevLevel, trend);
      oneStep := oneStep + [prevLevel + trend];
      t := t + 1;
    }
    score := Mae(train[1..], oneStep);
    ScoreIsMae(train, a, b);
  }

  /** The grid search over the weights. */
  method SelectWeights(train: seq<real>) returns (alpha: real, beta: real)
    requires |train| >= 2
    ensures (alpha, beta) == Parameters(train)
  {
    var best: Option<Fitted> := None;
    var i := 1;
    while i <= 9
      invariant 1 <= i <= 10
      invariant best == SearchAlphas(train, i - 1)
    {
      var j := 1;
      while j <= 9
        invariant 1 <= j <= 10
        invariant best == SearchBetas(train, i, j - 1, SearchAlphas(train, i - 1))
      {
        var score := ScorePair(train, i as real / 10.0, j as real / 10.0);
        if best.None? || score < best.value.mae {
          best := Some(Fitted(score, i, j));
        }
        j := j + 1;
      }
      i := i + 1;
    }
    match best
    case Some(f) =>
      alpha, beta := f.alphaStep as real / 10.0, f.betaStep as real / 10.0;
      ParametersOf(train, f);
    case None =>
      alpha, beta := 0.3, 0.1;
  }

  /** The final smoothing pass with the chosen weights. */
  method Smooth(train: seq<real>, alpha: real, beta: real) returns (level: real, trend: real)
    requires |train| >= 2
    ensures Smoothed(level, trend) == Run(train, alpha, beta, |train|)
  {
    level := train[0];
    trend := train[1] - train[0];
    var t := 1;
    while t < |train|
      invariant 1 <= t <= |train|
      invariant Smoothed(level, trend) == Run(train, alpha, beta, t)
    {
      var prevLevel := level;
      level := Blend(alpha, train[t], level + trend);
      trend := Blend(beta, level - prevLevel, trend);
      t := t + 1;
    }
  }

  /** The output loop: `level + h * trend` for `h = 1 .. horizon`. */
  method Extrapolate(level: real, trend: real, horizon: nat) returns (out: seq<real>)
    ensures out == Extend(Smoothed(level, trend), horizon)
  {
    out := [];
    var h := 1;
    while h <= horizon
      invariant 1 <= h <= horizon + 1
      invariant |out| == h - 1
      invariant forall i :: 0 <= i < h - 1 ==> out[i] == level + (i + 1) as real * trend
    {
      out := out + [level + h as real * trend];
      h := h + 1;
    }
    forall i | 0 <= i < horizon ensures out[i] == Extend(Smoothed(level, trend), horizon)[i] {
    }
  }

  /** `forecastHolt`. */
  method ForecastHolt(train: seq<real>, horizon: nat) returns (out: seq<real>)
    requires |train| >= 1
    ensures out == HoltForecast(train, horizon)
  {
    if |train| == 1 {
      return seq(horizon, _ => train[0]);
    }
    var alpha, beta := SelectWeights(train);
    var level, trend := Smooth(train, alpha, beta);
    var raw := Extrapolate(level, trend, horizon);
    out := ClipAll(raw);
  }
}
