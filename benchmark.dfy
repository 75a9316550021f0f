/** `runModel` and `benchmarkModels` of script.js: the three models by name, and their
    ranking by mean absolute error on a held-out tail of the series. */
module Benchmark {
  import opened Wrappers
  import opened Stats
  import opened HoltLinear
  import opened Seasonal

  datatype ModelName = Holt | SeasonalNaive | TrendSeasonal

  /** The name a model goes by in the model selector. */
  function NameOf(m: ModelName): string {
    match m
    case Holt => "holt"
    case SeasonalNaive => "seasonal_naive"
    case TrendSeasonal => "trend_seasonal"
  }

  function ModelOf(name: string): Option<ModelName> {
    if name == "holt" then Some(Holt)
    else if name == "seasonal_naive" then Some(SeasonalNaive)
    else if name == "trend_seasonal" then Some(TrendSeasonal)
    else None
  }

  /** Names and models correspond one to one: every model is found by its name, and a
      name finds a model only when it is that model's name. */
  lemma ModelNames(name: string, m: ModelName)
    ensures ModelOf(NameOf(m)) == Some(m)
    ensures ModelOf(name) == Some(m) <==> name == NameOf(m)
  {
  }

  /** The forecast of one model. */
  function Forecast(m: ModelName, train: seq<real>, horizon: nat, seasonLength: int): (r: seq<real>)
    requires |train| >= 1
    ensures |r| == horizon
  {
    match m
    case Holt => HoltForecast(train, horizon)
    case SeasonalNaive => NaiveForecast(train, horizon, seasonLength)
    case TrendSeasonal => TrendSeasonalForecast(train, horizon, seasonLength)
  }

  /** `Unknown model: <name>`. */
  datatype ModelError = UnknownModel(name: string)

  /** `runModel`: the forecast of the named model, or an error for an unknown name. */
  function RunModel(name: string, train: seq<real>, horizon: nat, seasonLength: int): (r: Result<seq<real>, ModelError>)
    requires |train| >= 1
    ensures r.Ok? <==> ModelOf(name).Some?
    ensures r.Ok? ==> r.value == Forecast(ModelOf(name).value, train, horizon, seasonLength)
    ensures r.Err? ==> r.error == UnknownModel(name)
  {
    match ModelOf(name)
    case Some(m) => Ok(Forecast(m, train, horizon, seasonLength))
    case None => Err(UnknownModel(name))
  }

  // ---------------------------------------------------------------------------
  // Holding out the tail.

  /** `Math.min(Math.max(3, holdout), Math.floor(n / 2))`. */
  function HoldoutLength(n: nat, holdout: int): nat {
    var m := if holdout > 3 then holdout else 3;
    if m < n / 2 then m else n / 2
  }

  /** The holdout is the requested length, raised to 3 and capped at half the series;
      with at least two values the test part and the training part are both non-empty
      and the training part is at least as long. */
  lemma HoldoutBounds(n: nat, holdout: int)
    requires n >= 2
    ensures var h := HoldoutLength(n, holdout);
      1 <= h <= n - h &&
      (3 <= holdout <= n / 2 ==> h == holdout) &&
      (holdout < 3 ==> h == (if n / 2 < 3 then n / 2 else 3)) &&
      (holdout > n / 2 ==> h == n / 2)
  {
  }

  lemma HoldoutExamples()
    ensures HoldoutLength(20, 100) == 10
    ensures HoldoutLength(40, 6) == 6
    ensures HoldoutLength(40, 1) == 3
    ensures HoldoutLength(4, 3) == 2
  {
  }

  // ---------------------------------------------------------------------------
  // Scoring and ranking.

  /** One row of the benchmark; the root mean square error is not modelled. */
  datatype Metrics = Metrics(model: ModelName, mae: real, mape: real)

  /** The order in which the models are listed and tried. */
  const Models: seq<ModelName> := [Holt, SeasonalNaive, TrendSeasonal]

  function Rank(m: ModelName): nat {
    match m
    case Holt => 0
    case SeasonalNaive => 1
    case TrendSeasonal => 2
  }

  /** A model trained on `train` and scored on `test`. */
  function Evaluate(m: ModelName, train: seq<real>, test: seq<real>, seasonLength: int): (e: Metrics)
    requires |train| >= 1 && |test| >= 1
    ensures e.model == m
  {
    var pred := Forecast(m, train, |test|, seasonLength);
    Metrics(m, Mae(test, pred), Mape(test, pred))
  }

  /** `a` has the smaller error, or the same error and an earlier model. */
  predicate Precedes(a: Metrics, b: Metrics) {
    a.mae < b.mae || (a.mae == b.mae && Rank(a.model) < Rank(b.model))
  }

  /** Ordered by error, ties by listing order. */
  predicate Ranked(s: seq<Metrics>) {
    forall i, j :: 0 <= i < j < |s| ==> Precedes(s[i], s[j])
  }

  /** Listed in listing order. */
  predicate ListingOrder(s: seq<Metrics>) {
    forall i, j :: 0 <= i < j < |s| ==> Rank(s[i].model) < Rank(s[j].model)
  }

  /** `x` placed after every row of no greater error. */
  function InsertByMae(x: Metrics, s: seq<Metrics>): (r: seq<Metrics>)
    ensures multiset(r) == multiset(s) + multiset{x}
  {
    if s == [] || x.mae < s[0].mae then [x] + s
    else
      assert s == [s[0]] + s[1..];
      [s[0]] + InsertByMae(x, s[1..])
  }

  /** The stable sort `sort((a, b) => a.mae - b.mae)`, as an insertion sort. */
  function SortByMae(s: seq<Metrics>): (r: seq<Metrics>)
    ensures multiset(r) == multiset(s)
  {
    if s == [] then []
    else
      assert s == s[..|s| - 1] + [s[|s| - 1]];
      InsertByMae(s[|s| - 1], SortByMae(s[..|s| - 1]))
  }

  /** A row of smaller error than the first goes in front. */
  lemma InsertFront(x: Metrics, s: seq<Metrics>)
    requires Ranked(s) && s != [] && x.mae < s[0].mae
    ensures Ranked([x] + s)
  {
    var r := [x] + s;
    forall i, j | 0 <= i < j < |r| ensures Precedes(r[i], r[j]) {
      if i == 0 {
        assert r[j] == s[j - 1];
        if j > 1 {
          assert Precedes(s[0], s[j - 1]);
        }
      } else {
        assert r[i] == s[i - 1] && r[j] == s[j - 1];
      }
    }
  }

  lemma {:induction false} InsertRanked(x: Metrics, s: seq<Metrics>)
    requires Ranked(s)
    requires forall y :: y in s ==> Rank(y.model) < Rank(x.model)
    ensures Ranked(InsertByMae(x, s))
  {
    if s != [] && !(x.mae < s[0].mae) {
      var rest := InsertByMae(x, s[1..]);
      RankedTail(s);
      forall y | y in s[1..] ensures Rank(y.model) < Rank(x.model) {
        assert y in s;
      }
      InsertRanked(x, s[1..]);
      forall y | y in rest ensures Precedes(s[0], y) {
        assert y in multiset(rest);
        if y != x {
          assert y in multiset(s[1..]);
        } else {
          assert s[0] in s;
        }
      }
      ConsRanked(s[0], rest);
    } else if s != [] {
      InsertFront(x, s);
    }
  }

  /** The rows after the first of a ranked list are ranked, and all come after it. */
  lemma RankedTail(s: seq<Metrics>)
    requires Ranked(s) && s != []
    ensures Ranked(s[1..]) && forall y :: y in s[1..] ==> Precedes(s[0], y)
  {
    forall i, j | 0 <= i < j < |s| - 1 ensures Precedes(s[1..][i], s[1..][j]) {
      assert s[1..][i] == s[i + 1] && s[1..][j] == s[j + 1];
    }
    forall y | y in s[1..] ensures Precedes(s[0], y) {
      var j :| 0 <= j < |s[1..]| && s[1..][j] == y;
      assert s[j + 1] == y;
    }
  }

  /** A row that comes before every row of a ranked list heads a ranked list. */
  lemma ConsRanked(a: Metrics, rest: seq<Metrics>)
    requires Ranked(rest) && forall y :: y in rest ==> Precedes(a, y)
    ensures Ranked([a] + rest)
  {
    var r := [a] + rest;
    forall i, j | 0 <= i < j < |r| ensures Precedes(r[i], r[j]) {
      if i == 0 {
        assert r[j] == rest[j - 1];
        assert r[j] in rest;
      } else {
        assert r[i] == rest[i - 1] && r[j] == rest[j - 1];
      }
    }
  }

  /** Rows listed in listing order come out ordered by error, ties kept in listing
      order. */
  lemma {:induction false} SortRanked(s: seq<Metrics>)
    requires ListingOrder(s)
    ensures Ranked(SortByMae(s))
  {
    if s != [] {
      var init := s[..|s| - 1];
      var x := s[|s| - 1];
      assert ListingOrder(init);
      SortRanked(init);
      forall y | y in SortByMae(init) ensures Rank(y.model) < Rank(x.model) {
        assert y in multiset(SortByMae(init));
        assert y in multiset(init);
        var j :| 0 <= j < |init| && init[j] == y;
      }
      InsertRanked(x, SortByMae(init));
    }
  }

  /** Three rows in listing order, sorted: a permutation of them, ordered by error with
      ties in listing order, the first of smallest error. */
  lemma RankRows(rows: seq<Metrics>)
    requires |rows| == 3 && ListingOrder(rows)
    ensures var r := SortByMae(rows);
      |r| == 3 && multiset(r) == multiset(rows) && Ranked(r) &&
      forall i :: 0 <= i < 3 ==> r[0].mae <= rows[i].mae
  {
    SortRanked(rows);
    var r := SortByMae(rows);
    assert |r| == |multiset(r)| == |multiset(rows)|;
    forall i | 0 <= i < 3 ensures r[0].mae <= rows[i].mae {
      assert rows[i] in multiset(r);
      var j :| 0 <= j < |r| && r[j] == rows[i];
      if j > 0 {
        assert Precedes(r[0], r[j]);
      }
    }
  }

  /** `models.map(...)`: each listed model trained on `train` and scored on `test`,
      in the order listed. */
  function RowsOf(ms: seq<ModelName>, train: seq<real>, test: seq<real>, seasonLength: int): (rows: seq<Metrics>)
    requires |train| >= 1 && |test| >= 1
    ensures |rows| == |ms|
  {
    if ms == [] then []
    else RowsOf(ms[..|ms| - 1], train, test, seasonLength) + [Evaluate(ms[|ms| - 1], train, test, seasonLength)]
  }

  /** Each row is its model's score. */
  lemma {:induction false} RowsOfAt(ms: seq<ModelName>, train: seq<real>, test: seq<real>, seasonLength: int, i: nat)
    requires |train| >= 1 && |test| >= 1 && i < |ms|
    ensures RowsOf(ms, train, test, seasonLength)[i] == Evaluate(ms[i], train, test, seasonLength)
  {
    if i < |ms| - 1 {
      RowsOfAt(ms[..|ms| - 1], train, test, seasonLength, i);
    }
  }

  /** Row `i` is the row of model `i`. */
  lemma RowModel(ms: seq<ModelName>, train: seq<real>, test: seq<real>, seasonLength: int, i: nat)
    requires |train| >= 1 && |test| >= 1 && i < |ms|
    ensures RowsOf(ms, train, test, seasonLength)[i].model == ms[i]
  {
    RowsOfAt(ms, train, test, seasonLength, i);
  }

  /** The rows come in listing order, one per model. */
  lemma ModelsListed(train: seq<real>, test: seq<real>, seasonLength: int)
    requires |train| >= 1 && |test| >= 1
    ensures ListingOrder(RowsOf(Models, train, test, seasonLength))
  {
    var rows := RowsOf(Models, train, test, seasonLength);
    forall i | 0 <= i < |rows| ensures rows[i].model == Models[i] {
      RowModel(Models, train, test, seasonLength, i);
    }
  }

  /** `benchmarkModels`: each model trained on all but the holdout and scored on the
      holdout, ranked by error. */
  function BenchmarkModels(values: seq<real>, holdout: int, seasonLength: int): (r: seq<Metrics>)
    requires |values| >= 2
    ensures |r| == |Models|
  {
    var n := |values|;
    var h := HoldoutLength(n, holdout);
    HoldoutBounds(n, holdout);
    var rows := RowsOf(Models, values[..n - h], values[n - h..], seasonLength);
    assert |SortByMae(rows)| == |multiset(SortByMae(rows))| == |multiset(rows)|;
    SortByMae(rows)
  }

  /** The benchmark trains on the values before the holdout and tests on the holdout,
      and sorts the rows of the three models. */
  lemma BenchmarkSplit(values: seq<real>, holdout: int, seasonLength: int)
    requires |values| >= 2
    ensures var n, h := |values|, HoldoutLength(|values|, holdout);
      var train, test := values[..n - h], values[n - h..];
      && train + test == values && |test| == h && |train| >= 1 && |test| >= 1
      && BenchmarkModels(values, holdout, seasonLength) == SortByMae(RowsOf(Models, train, test, seasonLength))
  {
    var n, h := |values|, HoldoutLength(|values|, holdout);
    HoldoutBounds(n, holdout);
    assert values[..n - h] + values[n - h..] == values;
  }

  /** The benchmark's rows are the three models' rows ranked by error, ties in listing
      order, the first one of smallest error. */
  lemma BenchmarkRanking(values: seq<real>, holdout: int, seasonLength: int)
    requires |values| >= 2
    ensures var n, h := |values|, HoldoutLength(|values|, holdout);
      var train, test := values[..n - h], values[n - h..];
      var rows, r := RowsOf(Models, train, test, seasonLength), BenchmarkModels(values, holdout, seasonLength);
      train + test == values && |test| == h &&
      |r| == 3 && multiset(r) == multiset(rows) && Ranked(r) &&
      forall i :: 0 <= i < 3 ==> r[0].mae <= rows[i].mae
  {
    BenchmarkSplit(values, holdout, seasonLength);
    var n, h := |values|, HoldoutLength(|values|, holdout);
    var rows := RowsOf(Models, values[..n - h], values[n - h..], seasonLength);
    ModelsListed(values[..n - h], values[n - h..], seasonLength);
    RankRows(rows);
  }

  /** The benchmark's rows are ranked, so its first row has the smallest error. */
  lemma BenchmarkFirstLeast(values: seq<real>, holdout: int, seasonLength: int)
    requires |values| >= 2
    ensures var r := BenchmarkModels(values, holdout, seasonLength);
      Ranked(r) && forall i :: 0 <= i < |r| ==> r[0].mae <= r[i].mae
  {
    BenchmarkRanking(values, holdout, seasonLength);
    var r := BenchmarkModels(values, holdout, seasonLength);
    forall i | 0 < i < |r| ensures r[0].mae <= r[i].mae {
      assert Precedes(r[0], r[i]);
    }
  }
}
