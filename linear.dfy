/** forecast.py: the least-squares line through the history, extended `periods` days
    past the last day, each value raised to 0 if negative and rounded to cents the way
    Python's `round(x, 2)` does; and the result record with consecutive day labels. */
module LinearForecast {
  import opened Wrappers
  import opened Regression

  // ---------------------------------------------------------------------------
  // Python's `round(x, 2)`: to the nearest cent, a tie to the even cent.

  function PyCents(x: real): int {
    var c := x * 100.0;
    var f := c.Floor;
    var frac := c - f as real;
    if frac > 0.5 then f + 1
    else if frac < 0.5 then f
    else if f % 2 == 0 then f
    else f + 1
  }

  function PyRound2(x: real): real {
    PyCents(x) as real / 100.0
  }

  /** The rounded value is within half a cent of the value, and never negative when
      the value is not. */
  lemma PyRound2Close(x: real)
    ensures -0.005 <= PyRound2(x) - x <= 0.005
    ensures x >= 0.0 ==> PyRound2(x) >= 0.0
  {
    var c := x * 100.0;
    var f := c.Floor;
    assert f as real <= c < f as real + 1.0;
    if x >= 0.0 {
      assert f >= 0;
    }
  }

  /** A whole number of cents is its own rounding. */
  lemma PyRound2Cents(k: int)
    ensures PyRound2(k as real / 100.0) == k as real / 100.0
  {
    var x := k as real / 100.0;
    assert x * 100.0 == k as real;
    assert (x * 100.0).Floor == k;
  }

  /** Ties go to the even cent, up or down. */
  lemma PyRound2Ties()
    ensures PyRound2(0.125) == 0.12
    ensures PyRound2(0.375) == 0.38
  {
    assert (0.125 * 100.0).Floor == 12;
    assert (0.375 * 100.0).Floor == 37;
  }

  /** `max(x, 0.0)`. */
  function Max0(x: real): real {
    if x > 0.0 then x else 0.0
  }

  /** `round(max(x, 0.0), 2)` applied to every value. */
  function Settle(vs: seq<real>): (r: seq<real>)
    ensures |r| == |vs|
  {
    seq(|vs|, i requires 0 <= i < |vs| => PyRound2(Max0(vs[i])))
  }

  lemma SettleNonNegative(vs: seq<real>)
    ensures forall i :: 0 <= i < |vs| ==> Settle(vs)[i] >= 0.0
  {
    forall i | 0 <= i < |vs| ensures Settle(vs)[i] >= 0.0 {
      PyRound2Close(Max0(vs[i]));
    }
  }

  // ---------------------------------------------------------------------------
  // `_linear_forecast`.

  /** The mean of an empty history is a division by zero; `periods` of 0 or less give
      no forecasts. */
  datatype ForecastError = ZeroDivision | NonPositivePeriods

  /** `[x] * periods` and `range(n, n + periods)` are empty for `periods <= 0`. */
  function Count(periods: int): nat {
    if periods > 0 then periods else 0
  }

  /** `_linear_forecast`: one point is repeated; otherwise the fitted line is evaluated
      at the indices following the history. */
  function Linear(values: seq<real>, periods: int): (r: Result<seq<real>, ForecastError>)
    ensures r.Err? <==> values == []
    ensures r.Err? ==> r.error == ZeroDivision
    ensures r.Ok? ==> |r.value| == Count(periods)
  {
    var n := |values|;
    if n == 0 then Err(ZeroDivision)
    else if n == 1 then Ok(seq(Count(periods), _ => PyRound2(Max0(values[0]))))
    else
      var l := Fit(values);
      Ok(Settle(LinePath(l.intercept, l.slope, n, Count(periods))))
  }

  /** Every forecast is at least 0. */
  lemma LinearNonNegative(values: seq<real>, periods: int)
    requires values != []
    ensures forall i :: 0 <= i < Count(periods) ==> Linear(values, periods).value[i] >= 0.0
  {
    if |values| == 1 {
      PyRound2Close(Max0(values[0]));
    } else {
      var l := Fit(values);
      SettleNonNegative(LinePath(l.intercept, l.slope, |values|, Count(periods)));
    }
  }

  /** One point is repeated, raised to 0 and rounded, for every period. */
  lemma LinearOfSingle(v: real, periods: int)
    ensures Linear([v], periods) == Ok(seq(Count(periods), _ => PyRound2(Max0(v))))
  {
  }

  /** `[42]` over three periods gives `[42.0, 42.0, 42.0]`. */
  lemma LinearExample()
    ensures Linear([42.0], 3) == Ok([42.0, 42.0, 42.0])
  {
    PyRound2Cents(4200);
    assert 4200 as real / 100.0 == 42.0;
    assert Max0(42.0) == 42.0;
    assert seq(3, _ => PyRound2(Max0(42.0))) == [42.0, 42.0, 42.0];
  }

  /** An exactly linear history of two or more points is extended along its own line
      before it is raised and rounded. */
  lemma LinearOfLine(values: seq<real>, c: real, k: real, periods: int)
    requires |values| >= 2 && OnLine(values, c, k)
    ensures Linear(values, periods) == Ok(Settle(LinePath(c, k, |values|, Count(periods))))
  {
    FitOfLine(values, c, k);
  }

  /** The loop of `_linear_forecast`: `slope * i + intercept` for each index past the
      history, raised to 0 and rounded, appended in turn. */
  method LinearLoop(values: seq<real>, periods: int) returns (r: Result<seq<real>, ForecastError>)
    ensures r == Linear(values, periods)
  {
    var n := |values|;
    if n == 0 {
      return Err(ZeroDivision);
    }
    if n == 1 {
      return Ok(seq(Count(periods), _ => PyRound2(Max0(values[0]))));
    }
    var slope, intercept := TrendLine(values);
    ghost var path := LinePath(intercept, slope, n, Count(periods));
    var forecasts: seq<real> := [];
    var i := n;
    while i < n + periods
      invariant n <= i <= n + Count(periods)
      invariant |forecasts| == i - n
      invariant forall h :: 0 <= h < i - n ==> forecasts[h] == PyRound2(Max0(path[h]))
    {
      var yhat := slope * i as real + intercept;
      assert yhat == path[i - n];
      forecasts := forecasts + [PyRound2(Max0(yhat))];
      i := i + 1;
    }
    assert forecasts == Settle(path);
    r := Ok(forecasts);
  }

  // ---------------------------------------------------------------------------
  // `forecast_demand`.

  /** One history row: its day (the date of a `datetime`, as a day number) and its
      demand. */
  datatype Observation = Observation(day: int, demand: real)

  /** `ForecastResult`, with day numbers in place of the `%Y-%m-%d` labels. */
  datatype ForecastResult = ForecastResult(historyLabels: seq<int>, historyValues: seq<real>,
                                           forecastLabels: seq<int>, forecastValues: seq<real>)

  function Demands(rows: seq<Observation>): (vs: seq<real>)
    ensures |vs| == |rows|
  {
    seq(|rows|, i requires 0 <= i < |rows| => rows[i].demand)
  }

  /** The number of forecast days when none is asked for. */
  const DefaultPeriods: nat := 14

  /** `forecast_demand`: `periods` below 1 is refused first ('periods must be
      positive'); an empty history fails in the fit; otherwise the history is kept in
      order with its values rounded, and the forecast days follow the last day. */
  function ForecastDemand(rows: seq<Observation>, periods: int): (r: Result<ForecastResult, ForecastError>)
    ensures periods < 1 ==> r == Err(NonPositivePeriods)
    ensures periods >= 1 ==> (r.Err? <==> rows == [])
    ensures periods >= 1 && rows == [] ==> r == Err(ZeroDivision)
  {
    if periods < 1 then Err(NonPositivePeriods)
    else
      match Linear(Demands(rows), periods)
      case Err(e) => Err(e)
      case Ok(forecastValues) =>
        var last := rows[|rows| - 1].day;
        Ok(ForecastResult(
          seq(|rows|, i requires 0 <= i < |rows| => rows[i].day),
          seq(|rows|, i requires 0 <= i < |rows| => PyRound2(rows[i].demand)),
          seq(periods, i requires 0 <= i < periods => last + i + 1),
          forecastValues))
  }

  /** The history keeps the rows' order and length; there are `periods` forecast
      labels, on the consecutive days after the last row, so they ascend; the forecast
      values are the linear forecast of the demands, `periods` of them, none negative. */
  lemma ForecastDemandShape(rows: seq<Observation>, periods: int)
    requires periods >= 1 && rows != []
    ensures var res := ForecastDemand(rows, periods).value;
      && |res.historyLabels| == |res.historyValues| == |rows|
      && (forall i :: 0 <= i < |rows| ==> res.historyLabels[i] == rows[i].day)
      && (forall i :: 0 <= i < |rows| ==> res.historyValues[i] == PyRound2(rows[i].demand))
      && |res.forecastLabels| == periods
      && (forall i :: 0 <= i < periods ==> res.forecastLabels[i] == rows[|rows| - 1].day + i + 1)
      && (forall i, j :: 0 <= i < j < periods ==> res.forecastLabels[i] < res.forecastLabels[j])
      && res.forecastValues == Linear(Demands(rows), periods).value
      && |res.forecastValues| == periods
      && (forall i :: 0 <= i < periods ==> res.forecastValues[i] >= 0.0)
  {
    LinearNonNegative(Demands(rows), periods);
  }

  /** Six days of history over five periods give five labels and five values, none
      negative. */
  lemma SixDayExample()
    ensures var rows := [Observation(19723, 10.0), Observation(19724, 11.0), Observation(19725, 13.0),
                         Observation(19726, 12.0), Observation(19727, 15.0), Observation(19728, 16.0)];
      var res := ForecastDemand(rows, 5);
      && res.Ok?
      && |res.value.forecastLabels| == 5 && |res.value.forecastValues| == 5
      && forall i :: 0 <= i < 5 ==> res.value.forecastValues[i] >= 0.0
  {
    var rows := [Observation(19723, 10.0), Observation(19724, 11.0), Observation(19725, 13.0),
                 Observation(19726, 12.0), Observation(19727, 15.0), Observation(19728, 16.0)];
    ForecastDemandShape(rows, 5);
  }

  /** A single row over three periods forecasts its value three times. */
  lemma SingleRowExample()
    ensures ForecastDemand([Observation(19723, 42.0)], 3).value.forecastValues == [42.0, 42.0, 42.0]
  {
    LinearExample();
    assert Demands([Observation(19723, 42.0)]) == [42.0];
  }
}
