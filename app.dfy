/** The steps of the forecast button's click handler in script.js that are not page
    updates: the three settings are checked in order, the rows are aggregated and put
    on their grid, a series of fewer than twelve points is refused, the models are
    benchmarked, the chosen model (the best one under `auto`) forecasts the horizon,
    and the history and the forecast are laid out on one axis of days. */
module App {
  import opened Wrappers
  import opened Text
  import opened Numeric
  import opened Delimited
  import opened Aggregate
  import opened Impute
  import opened Benchmark

  const HorizonMessage: string := "Forecast horizon must be a positive integer."
  const SeasonMessage: string := "Season length must be a positive integer."
  const HoldoutMessage: string := "Validation holdout must be at least 3."

  /** `Number.isInteger(x) && x >= least` for `x = Number(text)`: the whole number the
      text denotes, when it is one and at least `least`. */
  function WholeAtLeast(text: string, least: nat): (r: Option<nat>)
    ensures r.Some? <==> NumberOf(text).Some? && NumberOf(text).value == NumberOf(text).value.Floor as real
                         && NumberOf(text).value >= least as real
    ensures r.Some? ==> r.value >= least && r.value as real == NumberOf(text).value
  {
    match NumberOf(text)
    case None => None
    case Some(x) => if x == x.Floor as real && x >= least as real then Some(x.Floor) else None
  }

  /** A blank field reads as 0, so it never passes a check for at least one. */
  lemma WholeOfBlank(text: string, least: nat)
    requires Trim(text) == [] && least >= 1
    ensures WholeAtLeast(text, least) == None
  {
  }

  /** A field of digits passes exactly when its value is large enough. */
  lemma WholeOfDigits(d: string, least: nat)
    requires |d| >= 1 && AllDigits(d)
    ensures DigitsValue(d) >= least ==> WholeAtLeast(d, least) == Some(DigitsValue(d))
    ensures DigitsValue(d) < least ==> WholeAtLeast(d, least) == None
  {
    SignedInteger(false, d, DigitsValue(d) as real);
    assert SignText(false) + d == d;
  }

  /** A negative field never passes. */
  lemma WholeOfNegative(d: string, least: nat)
    requires |d| >= 1 && AllDigits(d) && DigitsValue(d) >= 1
    ensures WholeAtLeast("-" + d, least) == None
  {
    SignedInteger(true, d, DigitsValue(d) as real);
  }

  /** The digits after a point are worth less than one. */
  lemma {:induction false} FractionBelowOne(f: string)
    requires AllDigits(f)
    ensures 0.0 <= FractionValue(f) < 1.0
  {
    if f != [] {
      FractionBelowOne(f[1..]);
    }
  }

  /** A field with a non-zero fraction never passes. */
  lemma WholeOfFraction(d: string, f: string, least: nat)
    requires |d| >= 1 && AllDigits(d) && |f| >= 1 && AllDigits(f) && FractionValue(f) > 0.0
    ensures WholeAtLeast(d + ['.'] + f, least) == None
  {
    var v := DigitsValue(d) as real + FractionValue(f);
    SignedDecimal(false, d, f, v);
    assert SignText(false) + (d + ['.'] + f) == d + ['.'] + f;
    FractionBelowOne(f);
    assert v.Floor == DigitsValue(d);
  }

  /** The forecast horizon, the season length and the validation holdout. */
  datatype Settings = Settings(horizon: nat, seasonLength: nat, holdout: nat)

  /** The three checks, in the order the handler makes them; the first that fails
      gives the message. */
  function ReadSettings(horizonText: string, seasonText: string, holdoutText: string): (r: Result<Settings, string>)
    ensures r.Ok? <==> WholeAtLeast(horizonText, 1).Some? && WholeAtLeast(seasonText, 1).Some?
                       && WholeAtLeast(holdoutText, 3).Some?
    ensures r.Ok? ==> r.value.horizon >= 1 && r.value.seasonLength >= 1 && r.value.holdout >= 3
    ensures WholeAtLeast(horizonText, 1).None? ==> r == Err(HorizonMessage)
    ensures WholeAtLeast(horizonText, 1).Some? && WholeAtLeast(seasonText, 1).None? ==> r == Err(SeasonMessage)
    ensures r == Err(HoldoutMessage) <==>
              WholeAtLeast(horizonText, 1).Some? && WholeAtLeast(seasonText, 1).Some?
              && WholeAtLeast(holdoutText, 3).None?
  {
    match WholeAtLeast(horizonText, 1)
    case None => Err(HorizonMessage)
    case Some(horizon) =>
      match WholeAtLeast(seasonText, 1)
      case None => Err(SeasonMessage)
      case Some(seasonLength) =>
        match WholeAtLeast(holdoutText, 3)
        case None => Err(HoldoutMessage)
        case Some(holdout) => Ok(Settings(horizon, seasonLength, holdout))
  }

  /** Why the handler stops: a setting, the rows, a series too short to benchmark
      ('Need at least 12 time points for reliable benchmarking.'), or the model. */
  datatype AppError = Invalid(message: string) | Unreadable(rows: AggregateError) | TooShort | Failed(model: ModelError)

  /** What the page is drawn from. */
  datatype Report = Report(filling: Filling, scores: seq<Metrics>, chosen: string,
                           labels: seq<int>, history: seq<Option<real>>, forecast: seq<Option<real>>)

  /** Ascending days. */
  predicate Ascends(ds: seq<int>) {
    forall i, j :: 0 <= i < j < |ds| ==> ds[i] < ds[j]
  }

  /** `filled.map((p) => p.value)`. */
  function Values(ps: seq<Point>): (vs: seq<real>)
    ensures |vs| == |ps|
  {
    seq(|ps|, i requires 0 <= i < |ps| => ps[i].value)
  }

  /** The chart's axis: the series' days, then `last + step * (i + 1)` for each step of
      the horizon. */
  function Axis(ps: seq<Point>, step: int, horizon: nat): (ds: seq<int>)
    requires |ps| >= 1
  {
    seq(|ps|, i requires 0 <= i < |ps| => ps[i].date)
      + seq(horizon, i requires 0 <= i < horizon => ps[|ps| - 1].date + step * (i + 1))
  }

  /** The axis holds the series' days, then the forecast days one step apart after the
      last; with ascending days and a step of at least one day, it ascends. */
  lemma AxisDays(ps: seq<Point>, step: int, horizon: nat)
    requires |ps| >= 1
    ensures var ds, n := Axis(ps, step, horizon), |ps|;
      && |ds| == n + horizon
      && (forall i :: 0 <= i < n ==> ds[i] == ps[i].date)
      && (forall i :: n <= i < n + horizon ==> ds[i] == ps[n - 1].date + step * (i - n + 1))
      && (StrictlyIncreasing(ps) && step >= 1 ==> Ascends(ds))
  {
    var ds, n := Axis(ps, step, horizon), |ps|;
    if StrictlyIncreasing(ps) && step >= 1 {
      forall i, j | 0 <= i < j < |ds| ensures ds[i] < ds[j] {
        if j >= n {
          ScaleStrict(if i < n then 0 else i - n + 1, j - n + 1, step);
          if i < n - 1 {
            assert ps[i].date < ps[n - 1].date;
          }
        }
      }
    }
  }

  /** `values.concat(Array(horizon).fill(null))`. */
  function HistorySeries(values: seq<real>, horizon: nat): (r: seq<Option<real>>)
  {
    seq(|values|, i requires 0 <= i < |values| => Some(values[i])) + seq(horizon, i => None)
  }

  /** `Array(n).fill(null).concat(future)`. */
  function ForecastSeries(n: nat, future: seq<real>): (r: seq<Option<real>>)
  {
    seq(n, i => None) + seq(|future|, i requires 0 <= i < |future| => Some(future[i]))
  }

  /** The two series cover the same axis: the history is present exactly over the
      series and the forecast exactly over the horizon. */
  lemma SeriesCover(values: seq<real>, future: seq<real>)
    ensures var n, h := |values|, |future|;
      var hs, fs := HistorySeries(values, h), ForecastSeries(n, future);
      && |hs| == |fs| == n + h
      && (forall i :: 0 <= i < n ==> hs[i] == Some(values[i]) && fs[i] == None)
      && (forall i :: n <= i < n + h ==> hs[i] == None && fs[i] == Some(future[i - n]))
  {
  }

  /** The selected model, or under `auto` the first of the benchmark's rows. */
  function Choose(selection: string, scores: seq<Metrics>): string
    requires |scores| >= 1
  {
    if selection == "auto" then NameOf(scores[0].model) else selection
  }

  /** Everything after the series is filled. */
  function Outcome(f: Filling, s: Settings, selection: string): (r: Result<Report, AppError>)
    ensures |f.filled| < 12 ==> r == Err(TooShort)
    ensures r.Err? ==> r.error == TooShort || r.error.Failed?
    ensures r.Ok? ==> r.value.filling == f
  {
    var n := |f.filled|;
    if n < 12 then Err(TooShort)
    else
      var values := Values(f.filled);
      var scores := BenchmarkModels(values, s.holdout, s.seasonLength);
      var chosen := Choose(selection, scores);
      match RunModel(chosen, values, s.horizon, s.seasonLength)
      case Err(e) => Err(Failed(e))
      case Ok(future) =>
        Ok(Report(f, scores, chosen, Axis(f.filled, f.inferredStepDays, s.horizon),
                  HistorySeries(values, s.horizon), ForecastSeries(n, future)))
  }

  /** The handler stops on a series of fewer than twelve points, and on a selected name
      that is neither `auto` nor a model's; otherwise it produces a report. */
  lemma OutcomeErrors(f: Filling, s: Settings, selection: string)
    ensures var r := Outcome(f, s, selection);
      && (r.Err? <==> |f.filled| < 12 || (selection != "auto" && ModelOf(selection).None?))
      && (|f.filled| >= 12 && r.Err? ==> r.error == Failed(UnknownModel(selection)))
  {
    if |f.filled| >= 12 {
      var values := Values(f.filled);
      var scores := BenchmarkModels(values, s.holdout, s.seasonLength);
      if selection == "auto" {
        ModelNames(selection, scores[0].model);
      }
    }
  }

  /** A report lays the series and the chosen model's forecast of the horizon on one
      axis. */
  lemma OutcomeReport(f: Filling, s: Settings, selection: string)
    requires Outcome(f, s, selection).Ok?
    ensures var rep, values := Outcome(f, s, selection).value, Values(f.filled);
      && |f.filled| >= 12
      && ModelOf(rep.chosen).Some?
      && rep.labels == Axis(f.filled, f.inferredStepDays, s.horizon)
      && rep.history == HistorySeries(values, s.horizon)
      && rep.forecast == ForecastSeries(|values|, Forecast(ModelOf(rep.chosen).value, values, s.horizon, s.seasonLength))
  {
  }

  /** Under `auto` the report is always produced, its scores are the benchmark of the
      series ranked by error with ties in listing order, and the chosen model is the
      first of them, whose error is the smallest. */
  lemma AutoChoosesBest(f: Filling, s: Settings)
    requires |f.filled| >= 12
    ensures var r := Outcome(f, s, "auto");
      && r.Ok?
      && r.value.scores == BenchmarkModels(Values(f.filled), s.holdout, s.seasonLength)
      && Ranked(r.value.scores)
      && r.value.chosen == NameOf(r.value.scores[0].model)
      && forall i :: 0 <= i < 3 ==> r.value.scores[0].mae <= r.value.scores[i].mae
  {
    BenchmarkFirstLeast(Values(f.filled), s.holdout, s.seasonLength);
    OutcomeErrors(f, s, "auto");
  }

  /** Points on the days of a grid ascend. */
  lemma GridAscends(ps: seq<Point>, start: int, end: int, step: int)
    requires step >= 1
    requires var g := GridDates(start, end, step);
      |ps| == |g| && forall k :: 0 <= k < |ps| ==> ps[k].date == g[k]
    ensures StrictlyIncreasing(ps)
  {
    GridDatesSpec(start, end, step);
    forall i, j | 0 <= i < j < |ps| ensures ps[i].date < ps[j].date {
      ScaleStrict(i, j, step);
    }
  }

  /** The filled series the rows give: the filling of the series their readings add
      up to. By `AggregatedUnique` and `FillingUnique` there is at most one. */
  ghost predicate PreparedFrom(rds: seq<Reading>, strategy: string, f: Filling) {
    exists ps :: AggregatedFrom(rds, ps) && FillingOf(ps, strategy, f)
  }

  /** The rows determine the filled series. */
  lemma PreparedUnique(rds: seq<Reading>, strategy: string, f: Filling, f': Filling)
    requires PreparedFrom(rds, strategy, f) && PreparedFrom(rds, strategy, f')
    ensures f == f'
  {
    var ps :| AggregatedFrom(rds, ps) && FillingOf(ps, strategy, f);
    var qs :| AggregatedFrom(rds, qs) && FillingOf(qs, strategy, f');
    AggregatedUnique(rds, ps, qs);
    FillingUnique(ps, strategy, f, f');
  }

  /** `aggregateAndSort` then `fillMissing`: refused exactly when no row can be read,
      and otherwise the filling of the rows' daily totals, a series of ascending days
      whose step is at least a day. */
  method Prepare(rows: seq<Row>, dateCol: string, targetCol: string, native: string -> Option<int>, strategy: string)
    returns (p: Result<Filling, AggregateError>)
    ensures var rds := Readings(rows, dateCol, targetCol, native);
      && (p.Err? <==> ValidCount(rds) == 0)
      && (p.Err? ==> p.error == NoValidRows(BadDates(rds), BadValues(rds)))
      && (p.Ok? ==> StrictlyIncreasing(p.value.filled) && p.value.inferredStepDays >= 1)
      && (p.Ok? ==> PreparedFrom(rds, strategy, p.value))
  {
    var points := AggregateAndSort(rows, dateCol, targetCol, native);
    if points.Err? {
      return Err(points.error);
    }
    var ps := points.value;
    var filling := FillMissing(ps, strategy);
    if |ps| >= 2 {
      GridAscends(filling.filled, ps[0].date, ps[|ps| - 1].date, filling.inferredStepDays);
    }
    assert AggregatedFrom(Readings(rows, dateCol, targetCol, native), ps) && FillingOf(ps, strategy, filling);
    p := Ok(filling);
  }

  /** The handler: the settings are checked first, then the rows are read and filled
      (and refused when none can be read), and the rest is the outcome of the filled
      series the rows give. A report's axis ascends. */
  method Run(rows: seq<Row>, dateCol: string, targetCol: string, native: string -> Option<int>,
             strategy: string, horizonText: string, seasonText: string, holdoutText: string, selection: string)
    returns (r: Result<Report, AppError>)
    ensures var settings := ReadSettings(horizonText, seasonText, holdoutText);
      var rds := Readings(rows, dateCol, targetCol, native);
      && (settings.Err? ==> r == Err(Invalid(settings.error)))
      && (settings.Ok? ==> (r == Err(Unreadable(NoValidRows(BadDates(rds), BadValues(rds)))) <==> ValidCount(rds) == 0))
      && (r.Ok? ==> settings.Ok? && r == Outcome(r.value.filling, settings.value, selection))
      && (settings.Ok? && ValidCount(rds) > 0 ==>
            exists f :: PreparedFrom(rds, strategy, f) && r == Outcome(f, settings.value, selection))
      && (r.Ok? ==> Ascends(r.value.labels))
  {
    var settings := ReadSettings(horizonText, seasonText, holdoutText);
    if settings.Err? {
      return Err(Invalid(settings.error));
    }
    var prepared := Prepare(rows, dateCol, targetCol, native, strategy);
    if prepared.Err? {
      return Err(Unreadable(prepared.error));
    }
    var filling := prepared.value;
    r := Outcome(filling, settings.value, selection);
    if r.Ok? {
      LabelsAscend(filling, settings.value, selection);
    }
  }

  /** The axis of a report on an ascending series with a step of a day or more
      ascends. */
  lemma LabelsAscend(f: Filling, s: Settings, selection: string)
    requires Outcome(f, s, selection).Ok? && StrictlyIncreasing(f.filled) && f.inferredStepDays >= 1
    ensures Ascends(Outcome(f, s, selection).value.labels)
  {
    OutcomeReport(f, s, selection);
    AxisDays(f.filled, f.inferredStepDays, s.horizon);
  }
}
