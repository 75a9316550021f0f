/** The descriptive statistics of script.js: `mean`, the error measures `mae` and
    `mape`, the two-decimal rounding `Number(x.toFixed(2))`, the value `histogram` and
    the weekday or month `seasonalityProfile`. Numbers are exact reals. */
module Stats {
  import opened Aggregate
  import opened Impute
  import opened Dates

  // ---------------------------------------------------------------------------
  // Rounding to cents.

  /** `x.toFixed(2)` read back as a number: the nearest whole number of cents, a half
      cent rounding away from zero. */
  function Cents(x: real): int {
    if x >= 0.0 then (x * 100.0 + 0.5).Floor else -((-x) * 100.0 + 0.5).Floor
  }

  function Round2(x: real): real {
    Cents(x) as real / 100.0
  }

  /** The rounded value is within half a cent of the value. */
  lemma Round2Close(x: real)
    ensures -0.005 <= Round2(x) - x <= 0.005
  {
  }

  /** Rounding keeps the sign and never moves a value past zero. */
  lemma Round2Sign(x: real)
    ensures x >= 0.0 ==> Round2(x) >= 0.0
    ensures x <= 0.0 ==> Round2(x) <= 0.0
    ensures Round2(-x) == -Round2(x)
  {
  }

  /** A whole number of cents is its own rounding, so rounding twice is rounding once. */
  lemma Round2Cents(k: int)
    ensures Round2(k as real / 100.0) == k as real / 100.0
  {
    var x := k as real / 100.0;
    assert x * 100.0 == k as real;
    if k >= 0 {
      assert (x * 100.0 + 0.5).Floor == k;
    } else {
      assert (-x) * 100.0 == -k as real;
      assert ((-x) * 100.0 + 0.5).Floor == -k;
    }
  }

  lemma Round2Idempotent(x: real)
    ensures Round2(Round2(x)) == Round2(x)
  {
    Round2Cents(Cents(x));
  }

  /** Rounding never reverses the order of two values. */
  lemma Round2Monotone(x: real, y: real)
    requires x <= y
    ensures Round2(x) <= Round2(y)
  {
    FloorMonotone(x * 100.0 + 0.5, y * 100.0 + 0.5);
    FloorMonotone((-y) * 100.0 + 0.5, (-x) * 100.0 + 0.5);
    assert Cents(x) <= Cents(y);
  }

  lemma FloorMonotone(a: real, b: real)
    requires a <= b
    ensures a.Floor <= b.Floor
  {
  }

  /** One value of `clipPositive`: rounded to cents, then raised to 0 if negative. */
  function Clip(v: real): real {
    var c := Round2(v);
    if c > 0.0 then c else 0.0
  }

  /** `clipPositive`, applied to every forecast value. */
  function ClipAll(vs: seq<real>): (r: seq<real>)
    ensures |r| == |vs|
  {
    seq(|vs|, i requires 0 <= i < |vs| => Clip(vs[i]))
  }

  /** A clipped value is never negative; a non-positive value clips to 0, a
      non-negative one to its rounding (within half a cent of it); clipping twice is
      clipping once. */
  lemma ClipProperties(v: real)
    ensures Clip(v) >= 0.0
    ensures v <= 0.0 ==> Clip(v) == 0.0
    ensures v >= 0.0 ==> Clip(v) == Round2(v) && -0.005 <= Clip(v) - v <= 0.005
    ensures Clip(Clip(v)) == Clip(v)
  {
    Round2Sign(v);
    Round2Close(v);
    Round2Idempotent(v);
    Round2Cents(0);
  }

  /** Every clipped forecast value is non-negative. */
  lemma ClipAllNonNegative(vs: seq<real>)
    ensures forall i :: 0 <= i < |vs| ==> ClipAll(vs)[i] >= 0.0
  {
    forall i | 0 <= i < |vs| ensures ClipAll(vs)[i] >= 0.0 {
      ClipProperties(vs[i]);
    }
  }

  // ---------------------------------------------------------------------------
  // Sums and means.

  /** `arr.reduce((a, b) => a + b, 0)`. */
  function Sum(s: seq<real>): real {
    if s == [] then 0.0 else Sum(s[..|s| - 1]) + s[|s| - 1]
  }

  /** `mean`: the sum over the count. */
  function Mean(s: seq<real>): real
    requires |s| > 0
  {
    Sum(s) / |s| as real
  }

  lemma SumSnoc(s: seq<real>, v: real)
    ensures Sum(s + [v]) == Sum(s) + v
  {
    assert (s + [v])[..|s|] == s;
  }

  /** A sum of non-negative terms is non-negative, and zero only when every term is. */
  lemma {:induction false} SumNonNegative(s: seq<real>)
    requires forall k :: 0 <= k < |s| ==> s[k] >= 0.0
    ensures Sum(s) >= 0.0
    ensures Sum(s) == 0.0 <==> forall k :: 0 <= k < |s| ==> s[k] == 0.0
  {
    if s != [] {
      var init := s[..|s| - 1];
      assert forall k :: 0 <= k < |init| ==> init[k] == s[k];
      SumNonNegative(init);
    }
  }

  /** Terms between `lo` and `hi` sum to between `n * lo` and `n * hi`. */
  lemma {:induction false} SumBounds(s: seq<real>, lo: real, hi: real)
    requires forall k :: 0 <= k < |s| ==> lo <= s[k] <= hi
    ensures |s| as real * lo <= Sum(s) <= |s| as real * hi
  {
    if s != [] {
      var init := s[..|s| - 1];
      assert forall k :: 0 <= k < |init| ==> init[k] == s[k];
      SumBounds(init, lo, hi);
      var n := |init| as real;
      assert |s| as real * lo == n * lo + lo;
      assert |s| as real * hi == n * hi + hi;
    }
  }

  /** The mean lies between the smallest and the largest term. */
  lemma MeanBounds(s: seq<real>, lo: real, hi: real)
    requires |s| > 0
    requires forall k :: 0 <= k < |s| ==> lo <= s[k] <= hi
    ensures lo <= Mean(s) <= hi
  {
    SumBounds(s, lo, hi);
    var n := |s| as real;
    assert Mean(s) * n == Sum(s);
  }

  /** Non-negative terms have a non-negative mean. */
  lemma MeanNonNegative(s: seq<real>)
    requires |s| > 0 && forall k :: 0 <= k < |s| ==> s[k] >= 0.0
    ensures Mean(s) >= 0.0
  {
    SumNonNegative(s);
    QuotientNonNegative(Sum(s), |s| as real);
  }

  /** The mean of a constant series is that constant. */
  lemma MeanConstant(s: seq<real>, c: real)
    requires |s| > 0
    requires forall k :: 0 <= k < |s| ==> s[k] == c
    ensures Mean(s) == c
  {
    MeanBounds(s, c, c);
  }

  // ---------------------------------------------------------------------------
  // Error measures.

  function Abs(x: real): real {
    if x < 0.0 then -x else x
  }

  /** `actual.map((y, i) => Math.abs(y - pred[i]))`. */
  function AbsErrors(actual: seq<real>, pred: seq<real>): (e: seq<real>)
    requires |pred| == |actual|
    ensures |e| == |actual|
  {
    seq(|actual|, i requires 0 <= i < |actual| => Abs(actual[i] - pred[i]))
  }

  /** One more pair adds its error at the end. */
  lemma AbsErrorsSnoc(actual: seq<real>, pred: seq<real>, y: real, p: real)
    requires |pred| == |actual|
    ensures AbsErrors(actual + [y], pred + [p]) == AbsErrors(actual, pred) + [Abs(y - p)]
  {
  }

  /** `mae`: the mean absolute error. */
  function Mae(actual: seq<real>, pred: seq<real>): real
    requires |actual| > 0 && |pred| == |actual|
  {
    Mean(AbsErrors(actual, pred))
  }

  /** The mean absolute error is never negative, and it is zero exactly when the
      prediction equals the actual values. */
  lemma MaeZero(actual: seq<real>, pred: seq<real>)
    requires |actual| > 0 && |pred| == |actual|
    ensures Mae(actual, pred) >= 0.0
    ensures Mae(actual, pred) == 0.0 <==> pred == actual
  {
    var e := AbsErrors(actual, pred);
    SumNonNegative(e);
    var n := |e| as real;
    assert Mae(actual, pred) * n == Sum(e);
    if pred != actual {
      var k :| 0 <= k < |actual| && pred[k] != actual[k];
      assert e[k] != 0.0;
    }
  }

  /** The relative errors `|(y - p) / y|` of the non-zero actual values, in order. */
  function Ratios(actual: seq<real>, pred: seq<real>): (r: seq<real>)
    requires |pred| == |actual|
    ensures |r| <= |actual|
  {
    if actual == [] then []
    else
      var n := |actual| - 1;
      var y := actual[n];
      Ratios(actual[..n], pred[..n]) + (if y == 0.0 then [] else [Abs((y - pred[n]) / y)])
  }

  /** `mape`: the mean relative error in percent over the non-zero actual values, or 0
      when every actual value is zero. */
  function Mape(actual: seq<real>, pred: seq<real>): real
    requires |pred| == |actual|
  {
    var v := Ratios(actual, pred);
    if |v| > 0 then Mean(v) * 100.0 else 0.0
  }

  lemma {:induction false} RatiosNonNegative(actual: seq<real>, pred: seq<real>)
    requires |pred| == |actual|
    ensures forall k :: 0 <= k < |Ratios(actual, pred)| ==> Ratios(actual, pred)[k] >= 0.0
  {
    if actual != [] {
      var n := |actual| - 1;
      RatiosNonNegative(actual[..n], pred[..n]);
    }
  }

  /** A ratio is kept for each non-zero actual value, and it is zero when the
      prediction is exact there. */
  lemma {:induction false} RatiosOfExact(actual: seq<real>)
    ensures forall k :: 0 <= k < |Ratios(actual, actual)| ==> Ratios(actual, actual)[k] == 0.0
  {
    if actual != [] {
      var n := |actual| - 1;
      RatiosOfExact(actual[..n]);
    }
  }

  lemma {:induction false} RatiosOfZeros(actual: seq<real>, pred: seq<real>)
    requires |pred| == |actual|
    requires forall k :: 0 <= k < |actual| ==> actual[k] == 0.0
    ensures Ratios(actual, pred) == []
  {
    if actual != [] {
      var n := |actual| - 1;
      RatiosOfZeros(actual[..n], pred[..n]);
    }
  }

  /** The percentage error is never negative. */
  lemma MapeNonNegative(actual: seq<real>, pred: seq<real>)
    requires |pred| == |actual|
    ensures Mape(actual, pred) >= 0.0
  {
    var v := Ratios(actual, pred);
    if |v| > 0 {
      RatiosNonNegative(actual, pred);
      MeanNonNegative(v);
    }
  }

  /** An exact prediction has no percentage error. */
  lemma MapeOfExact(actual: seq<real>)
    ensures Mape(actual, actual) == 0.0
  {
    var v := Ratios(actual, actual);
    if |v| > 0 {
      RatiosOfExact(actual);
      MeanConstant(v, 0.0);
    }
  }

  /** With no non-zero actual value the percentage error is 0. */
  lemma MapeOfZeros(actual: seq<real>, pred: seq<real>)
    requires |pred| == |actual|
    requires forall k :: 0 <= k < |actual| ==> actual[k] == 0.0
    ensures Mape(actual, pred) == 0.0
  {
    RatiosOfZeros(actual, pred);
  }

  // ---------------------------------------------------------------------------
  // Histogram.

  /** `Math.min(...values)`. */
  function MinOf(s: seq<real>): (m: real)
    requires |s| > 0
    ensures m in s && forall k :: 0 <= k < |s| ==> m <= s[k]
  {
    if |s| == 1 then s[0]
    else
      var m := MinOf(s[..|s| - 1]);
      assert m in s[..|s| - 1];
      if s[|s| - 1] < m then s[|s| - 1] else m
  }

  /** `Math.max(...values)`. */
  function MaxOf(s: seq<real>): (m: real)
    requires |s| > 0
    ensures m in s && forall k :: 0 <= k < |s| ==> s[k] <= m
  {
    if |s| == 1 then s[0]
    else
      var m := MaxOf(s[..|s| - 1]);
      assert m in s[..|s| - 1];
      if s[|s| - 1] > m then s[|s| - 1] else m
  }

  /** The number of bins when none is asked for. */
  const DefaultBins: nat := 12

  lemma QuotientNonNegative(a: real, w: real)
    requires a >= 0.0 && w > 0.0
    ensures a / w >= 0.0
  {
  }

  /** The bin of value `v`: whole widths above the minimum, the top edge falling into
      the last bin. */
  function BinOf(v: real, lo: real, width: real, bins: nat): (b: nat)
    requires width > 0.0 && v >= lo && bins >= 1
    ensures b < bins
  {
    QuotientNonNegative(v - lo, width);
    var idx := ((v - lo) / width).Floor;
    if idx >= bins then bins - 1 else idx
  }

  /** Every value is at least `lo`. */
  predicate AtLeast(values: seq<real>, lo: real) {
    forall k :: 0 <= k < |values| ==> values[k] >= lo
  }

  /** The counts of the bins after the values in order, each adding one to its bin. */
  function Binned(values: seq<real>, lo: real, width: real, bins: nat): (c: seq<nat>)
    requires width > 0.0 && bins >= 1
    requires AtLeast(values, lo)
    ensures |c| == bins
  {
    if values == [] then seq(bins, _ => 0)
    else
      var n := |values| - 1;
      var c := Binned(values[..n], lo, width, bins);
      var j := BinOf(values[n], lo, width, bins);
      c[j := c[j] + 1]
  }

  /** The counts `histogram` returns: one bin holding every value when all values are
      equal, otherwise `bins` bins of equal width from the minimum to the maximum. */
  function HistogramCounts(values: seq<real>, bins: nat): seq<nat>
    requires |values| > 0 && bins >= 1
  {
    var lo, hi := MinOf(values), MaxOf(values);
    if lo == hi then [|values|] else Binned(values, lo, (hi - lo) / bins as real, bins)
  }

  function SumNat(c: seq<nat>): nat {
    if c == [] then 0 else SumNat(c[..|c| - 1]) + c[|c| - 1]
  }

  lemma {:induction false} SumNatZeros(n: nat)
    ensures SumNat(seq(n, _ => 0)) == 0
  {
    if n > 0 {
      assert seq(n, _ => 0)[..n - 1] == seq(n - 1, _ => 0);
      SumNatZeros(n - 1);
    }
  }

  /** Adding one to an entry adds one to the total. */
  lemma {:induction false} SumNatBump(c: seq<nat>, j: nat)
    requires j < |c|
    ensures SumNat(c[j := c[j] + 1]) == SumNat(c) + 1
  {
    var n := |c| - 1;
    var c' := c[j := c[j] + 1];
    if j < n {
      assert c'[..n] == c[..n][j := c[j] + 1];
      SumNatBump(c[..n], j);
    } else {
      assert c'[..n] == c[..n];
    }
  }

  lemma {:induction false} BinnedTotal(values: seq<real>, lo: real, width: real, bins: nat)
    requires width > 0.0 && bins >= 1
    requires AtLeast(values, lo)
    ensures SumNat(Binned(values, lo, width, bins)) == |values|
  {
    if values == [] {
      SumNatZeros(bins);
    } else {
      var n := |values| - 1;
      BinnedTotal(values[..n], lo, width, bins);
      SumNatBump(Binned(values[..n], lo, width, bins), BinOf(values[n], lo, width, bins));
    }
  }

  /** Every value is counted exactly once: the counts add up to the number of values. */
  lemma HistogramTotal(values: seq<real>, bins: nat)
    requires |values| > 0 && bins >= 1
    ensures var c := HistogramCounts(values, bins);
      && |c| == (if MinOf(values) == MaxOf(values) then 1 else bins)
      && SumNat(c) == |values|
  {
    var lo, hi := MinOf(values), MaxOf(values);
    if lo != hi {
      BinnedTotal(values, lo, (hi - lo) / bins as real, bins);
    } else {
      assert SumNat([|values|]) == SumNat([]) + |values|;
    }
  }

  lemma FloorBelow(x: real, w: real, lo: real, v: real)
    requires w > 0.0 && x == (v - lo) / w
    ensures lo + x.Floor as real * w <= v
  {
    assert x * w == v - lo;
    ScaleReal(x.Floor as real, x, w);
  }

  lemma FloorAbove(x: real, w: real, lo: real, v: real)
    requires w > 0.0 && x == (v - lo) / w
    ensures v < lo + (x.Floor + 1) as real * w
  {
    assert x * w == v - lo;
    ScaleReal(x, (x.Floor + 1) as real, w);
  }

  lemma FloorBounds(x: real, w: real, lo: real, v: real)
    requires w > 0.0 && x == (v - lo) / w
    ensures lo + x.Floor as real * w <= v < lo + (x.Floor + 1) as real * w
  {
    FloorBelow(x, w, lo, v);
    FloorAbove(x, w, lo, v);
  }

  lemma ScaleReal(a: real, b: real, w: real)
    requires w > 0.0
    ensures a <= b ==> a * w <= b * w
    ensures a < b ==> a * w < b * w
  {
  }

  lemma WidthPositive(lo: real, hi: real, bins: nat)
    requires lo < hi && bins >= 1
    ensures (hi - lo) / bins as real > 0.0
    ensures (hi - lo) / ((hi - lo) / bins as real) == bins as real
  {
    var n := bins as real;
    var w := (hi - lo) / n;
    assert w * n == hi - lo;
  }

  lemma QuotientBelow(a: real, b: real, w: real)
    requires a < b && w > 0.0
    ensures a / w < b / w
  {
    assert (a / w) * w == a && (b / w) * w == b;
    ScaleReal(b / w, a / w, w);
  }

  /** A value between the minimum `lo` and the maximum `hi` below the maximum lies in
      its bin, `[lo + b * width, lo + (b + 1) * width)`; the maximum itself lies in the
      last bin. */
  lemma BinOfInterval(lo: real, hi: real, bins: nat, v: real)
    requires lo < hi && bins >= 1 && lo <= v <= hi
    ensures var width := (hi - lo) / bins as real;
      width > 0.0 &&
      var b := BinOf(v, lo, width, bins);
      && (v < hi ==> lo + b as real * width <= v < lo + (b + 1) as real * width)
      && (v == hi ==> b == bins - 1)
  {
    WidthPositive(lo, hi, bins);
    var width := (hi - lo) / bins as real;
    var x := (v - lo) / width;
    FloorBounds(x, width, lo, v);
    if v < hi {
      QuotientBelow(v - lo, hi - lo, width);
      FloorMonotone(x, bins as real);
      assert x.Floor < bins;
    }
  }

  /** The bin is the floor of the offset in widths, capped at the last bin. */
  lemma BinOfFloor(v: real, lo: real, width: real, bins: nat)
    requires width > 0.0 && v >= lo && bins >= 1
    ensures var f := ((v - lo) / width).Floor;
      BinOf(v, lo, width, bins) == if f >= bins then bins - 1 else f
  {
  }

  /** A prefix of values above `lo` is above `lo`. */
  lemma PrefixAbove(values: seq<real>, lo: real, i: nat)
    requires i <= |values| && AtLeast(values, lo)
    ensures AtLeast(values[..i], lo)
  {
  }

  /** The next value adds one to its bin. */
  lemma BinnedStep(values: seq<real>, lo: real, width: real, bins: nat, i: nat)
    requires width > 0.0 && bins >= 1 && i < |values|
    requires AtLeast(values, lo)
    ensures AtLeast(values[..i], lo) && AtLeast(values[..i + 1], lo)
    ensures var c := Binned(values[..i], lo, width, bins);
      var j := BinOf(values[i], lo, width, bins);
      Binned(values[..i + 1], lo, width, bins) == c[j := c[j] + 1]
  {
    PrefixAbove(values, lo, i);
    PrefixAbove(values, lo, i + 1);
    assert values[..i + 1][..i] == values[..i];
  }

  /** Values not all equal are binned over `bins` equal widths. */
  lemma HistogramOfSpread(values: seq<real>, bins: nat)
    requires |values| > 0 && bins >= 1 && MinOf(values) != MaxOf(values)
    ensures var lo, hi := MinOf(values), MaxOf(values);
      (hi - lo) / bins as real > 0.0
      && HistogramCounts(values, bins) == Binned(values, lo, (hi - lo) / bins as real, bins)
  {
    assert MinOf(values) <= values[0] <= MaxOf(values);
    WidthPositive(MinOf(values), MaxOf(values), bins);
  }

  /** The `forEach` loop of `histogram`: each value adds one to the bin its offset
      from the minimum falls in, the top edge counting in the last bin. */
  method CountBins(values: seq<real>, lo: real, width: real, bins: nat) returns (counts: seq<nat>)
    requires width > 0.0 && bins >= 1 && AtLeast(values, lo)
    ensures counts == Binned(values, lo, width, bins)
  {
    counts := seq(bins, _ => 0);
    assert values[..0] == [];
    var i := 0;
    while i < |values|
      invariant 0 <= i <= |values|
      invariant counts == Binned(values[..i], lo, width, bins)
    {
      BinnedStep(values, lo, width, bins, i);
      QuotientNonNegative(values[i] - lo, width);
      var idx := ((values[i] - lo) / width).Floor;
      if idx >= bins {
        idx := bins - 1;
      }
      BinOfFloor(values[i], lo, width, bins);
      counts := counts[idx := counts[idx] + 1];
      i := i + 1;
    }
    assert values[..i] == values;
  }

  /** `histogram(values, bins)`. The bin labels are text and are not modelled. */
  method Histogram(values: seq<real>, bins: nat) returns (counts: seq<nat>)
    requires |values| > 0 && bins >= 1
    ensures counts == HistogramCounts(values, bins)
  {
    var lo, hi := MinOf(values), MaxOf(values);
    if lo == hi {
      return [|values|];
    }
    HistogramOfSpread(values, bins);
    var width := (hi - lo) / bins as real;
    counts := CountBins(values, lo, width, bins);
  }

  // ---------------------------------------------------------------------------
  // Seasonality profile.

  /** `getDay()` of a day: 0 for Sunday. 1970-01-01 was a Thursday. */
  function Weekday(day: int): nat {
    (day + 4) % 7
  }

  /** The weekday advances by one each day and repeats every week. */
  lemma WeekdayCycle(day: int)
    ensures Weekday(day + 1) == (Weekday(day) + 1) % 7
    ensures Weekday(day + 7) == Weekday(day)
  {
  }

  /** The calendar month, 1 to 12, of a day (the inverse of `DaysFromCivil` for the
      month). */
  function CivilMonth(day: int): (m: int)
    ensures 1 <= m <= 12
  {
    var z := day + 719468;
    var era := z / 146097;
    var doe := z - era * 146097;
    var yoe := (doe - doe / 1460 + doe / 36524 - doe / 146096) / 365;
    var doy := doe - (365 * yoe + yoe / 4 - yoe / 100);
    var mp := (5 * doy + 2) / 153;
    if mp < 10 then mp + 3 else mp - 9
  }

  /** `getMonth()`: 0 for January. */
  function MonthIndex(day: int): nat {
    CivilMonth(day) - 1
  }

  /** 1970-01-01 falls in January. */
  lemma MonthOfEpoch()
    ensures MonthIndex(0) == 0
  {
    assert 719468 / 146097 == 4 && 719468 - 4 * 146097 == 135080;
    assert (135080 - 135080 / 1460 + 135080 / 36524 - 135080 / 146096) / 365 == 369;
    assert 135080 - (365 * 369 + 369 / 4 - 369 / 100) == 306;
  }

  /** 1999-12-31 falls in December. */
  lemma MonthOfCenturyEnd()
    ensures MonthIndex(10956) == 11
  {
    assert 730424 / 146097 == 4 && 730424 - 4 * 146097 == 146036;
    assert (146036 - 146036 / 1460 + 146036 / 36524 - 146036 / 146096) / 365 == 399;
    assert 146036 - (365 * 399 + 399 / 4 - 399 / 100) == 305;
  }

  /** 2024-02-29 falls in February and the next day in March. */
  lemma MonthOfLeapDay()
    ensures MonthIndex(19782) == 1
    ensures MonthIndex(19783) == 2
  {
    assert 739250 / 146097 == 5 && 739250 - 5 * 146097 == 8765;
    assert (8765 - 8765 / 1460 + 8765 / 36524 - 8765 / 146096) / 365 == 23;
    assert 8765 - (365 * 23 + 23 / 4 - 23 / 100) == 365;
    assert 739251 / 146097 == 5 && 739251 - 5 * 146097 == 8766;
    assert (8766 - 8766 / 1460 + 8766 / 36524 - 8766 / 146096) / 365 == 24;
    assert 8766 - (365 * 24 + 24 / 4 - 24 / 100) == 0;
  }

  /** The buckets: seven weekdays for a daily series, twelve months otherwise. */
  function BucketCount(g: Granularity): nat {
    if g == Daily then 7 else 12
  }

  function BucketOf(g: Granularity, day: int): (b: nat)
    ensures b < BucketCount(g)
  {
    if g == Daily then Weekday(day) else MonthIndex(day)
  }

  /** The bucket of each point. */
  function BucketsOf(series: seq<Point>, g: Granularity): (ks: seq<nat>)
    ensures |ks| == |series| && forall i :: 0 <= i < |ks| ==> ks[i] < BucketCount(g)
  {
    seq(|series|, i requires 0 <= i < |series| => BucketOf(g, series[i].date))
  }

  predicate KeysBelow(keys: seq<nat>, k: nat) {
    forall i :: 0 <= i < |keys| ==> keys[i] < k
  }

  /** The sum of the values under each of the keys `0 .. k - 1`. */
  function SumsByKey(values: seq<real>, keys: seq<nat>, k: nat): (r: seq<real>)
    requires |keys| == |values| && KeysBelow(keys, k)
    ensures |r| == k
  {
    if values == [] then seq(k, _ => 0.0)
    else
      var n := |values| - 1;
      var r := SumsByKey(values[..n], keys[..n], k);
      r[keys[n] := r[keys[n]] + values[n]]
  }

  /** The number of entries under each of the keys `0 .. k - 1`. */
  function CountsByKey(keys: seq<nat>, k: nat): (r: seq<nat>)
    requires KeysBelow(keys, k)
    ensures |r| == k
  {
    if keys == [] then seq(k, _ => 0)
    else
      var n := |keys| - 1;
      var r := CountsByKey(keys[..n], k);
      r[keys[n] := r[keys[n]] + 1]
  }

  /** A bucket's average rounded to cents, or 0 for an empty bucket. */
  function Average(sum: real, count: nat): real {
    if count > 0 then Round2(sum / count as real) else 0.0
  }

  /** `series.map(p => p.value)`. */
  function ValuesOf(series: seq<Point>): (v: seq<real>)
    ensures |v| == |series|
  {
    seq(|series|, k requires 0 <= k < |series| => series[k].value)
  }

  lemma {:induction false} SumZeros(n: nat)
    ensures Sum(seq(n, _ => 0.0)) == 0.0
  {
    if n > 0 {
      assert seq(n, _ => 0.0)[..n - 1] == seq(n - 1, _ => 0.0);
      SumZeros(n - 1);
    }
  }

  /** Adding `x` to one entry adds `x` to the total. */
  lemma {:induction false} SumBump(c: seq<real>, j: nat, x: real)
    requires j < |c|
    ensures Sum(c[j := c[j] + x]) == Sum(c) + x
  {
    var n := |c| - 1;
    var c' := c[j := c[j] + x];
    if j < n {
      assert c'[..n] == c[..n][j := c[j] + x];
      SumBump(c[..n], j, x);
    } else {
      assert c'[..n] == c[..n];
    }
  }

  /** Every entry is counted under exactly one key. */
  lemma {:induction false} CountsByKeyTotal(keys: seq<nat>, k: nat)
    requires KeysBelow(keys, k)
    ensures SumNat(CountsByKey(keys, k)) == |keys|
  {
    if keys == [] {
      SumNatZeros(k);
    } else {
      var n := |keys| - 1;
      CountsByKeyTotal(keys[..n], k);
      SumNatBump(CountsByKey(keys[..n], k), keys[n]);
    }
  }

  /** Every value is added under exactly one key. */
  lemma {:induction false} SumsByKeyTotal(values: seq<real>, keys: seq<nat>, k: nat)
    requires |keys| == |values| && KeysBelow(keys, k)
    ensures Sum(SumsByKey(values, keys, k)) == Sum(values)
  {
    if values == [] {
      SumZeros(k);
    } else {
      var n := |values| - 1;
      SumsByKeyTotal(values[..n], keys[..n], k);
      SumBump(SumsByKey(values[..n], keys[..n], k), keys[n], values[n]);
    }
  }

  /** Non-negative values give non-negative sums. */
  lemma {:induction false} SumsByKeyNonNegative(values: seq<real>, keys: seq<nat>, k: nat)
    requires |keys| == |values| && KeysBelow(keys, k)
    requires forall i :: 0 <= i < |values| ==> values[i] >= 0.0
    ensures forall b :: 0 <= b < k ==> SumsByKey(values, keys, k)[b] >= 0.0
  {
    if values != [] {
      var n := |values| - 1;
      assert forall i :: 0 <= i < n ==> values[..n][i] == values[i];
      SumsByKeyNonNegative(values[..n], keys[..n], k);
    }
  }

  /** One more entry adds its value and one count under its key. */
  lemma ByKeyStep(values: seq<real>, keys: seq<nat>, k: nat, i: nat)
    requires |keys| == |values| && KeysBelow(keys, k) && i < |values|
    ensures var r := SumsByKey(values[..i], keys[..i], k);
      SumsByKey(values[..i + 1], keys[..i + 1], k) == r[keys[i] := r[keys[i]] + values[i]]
    ensures var c := CountsByKey(keys[..i], k);
      CountsByKey(keys[..i + 1], k) == c[keys[i] := c[keys[i]] + 1]
  {
    assert values[..i + 1][..i] == values[..i] && keys[..i + 1][..i] == keys[..i];
  }

  /** The sums of each weekday or month. */
  function BucketSums(series: seq<Point>, g: Granularity): (r: seq<real>)
    ensures |r| == BucketCount(g)
  {
    SumsByKey(ValuesOf(series), BucketsOf(series, g), BucketCount(g))
  }

  /** The numbers of points of each weekday or month. */
  function BucketSizes(series: seq<Point>, g: Granularity): (r: seq<nat>)
    ensures |r| == BucketCount(g)
  {
    CountsByKey(BucketsOf(series, g), BucketCount(g))
  }

  /** Every point lands in exactly one bucket: the sizes add up to the number of
      points and the sums to the total of the values. */
  lemma BucketTotals(series: seq<Point>, g: Granularity)
    ensures SumNat(BucketSizes(series, g)) == |series|
    ensures Sum(BucketSums(series, g)) == Sum(ValuesOf(series))
  {
    CountsByKeyTotal(BucketsOf(series, g), BucketCount(g));
    SumsByKeyTotal(ValuesOf(series), BucketsOf(series, g), BucketCount(g));
  }

  /** With non-negative values every bucket average is non-negative. */
  lemma AveragesNonNegative(series: seq<Point>, g: Granularity)
    requires forall k :: 0 <= k < |series| ==> series[k].value >= 0.0
    ensures forall b :: 0 <= b < BucketCount(g) ==> Average(BucketSums(series, g)[b], BucketSizes(series, g)[b]) >= 0.0
  {
    SumsByKeyNonNegative(ValuesOf(series), BucketsOf(series, g), BucketCount(g));
    forall b | 0 <= b < BucketCount(g)
      ensures Average(BucketSums(series, g)[b], BucketSizes(series, g)[b]) >= 0.0
    {
      var c := BucketSizes(series, g)[b];
      if c > 0 {
        QuotientNonNegative(BucketSums(series, g)[b], c as real);
        Round2Sign(BucketSums(series, g)[b] / c as real);
      }
    }
  }

  datatype Profile = Profile(labels: seq<string>, averages: seq<real>, title: string)

  const WeekdayNames: seq<string> := ["Sun", "Mon", "Tue", "Wed", "Thu", "Fri", "Sat"]
  const MonthNames: seq<string> := ["Jan", "Feb", "Mar", "Apr", "May", "Jun", "Jul", "Aug", "Sep", "Oct", "Nov", "Dec"]

  /** The `forEach` loop of `seasonalityProfile`: each value is added, with one count,
      into the slot of its key. */
  method TallyByKey(values: seq<real>, keys: seq<nat>, k: nat) returns (sums: seq<real>, counts: seq<nat>)
    requires |keys| == |values| && KeysBelow(keys, k)
    ensures sums == SumsByKey(values, keys, k) && counts == CountsByKey(keys, k)
  {
    sums, counts := seq(k, _ => 0.0), seq(k, _ => 0);
    var i := 0;
    while i < |values|
      invariant 0 <= i <= |values|
      invariant sums == SumsByKey(values[..i], keys[..i], k)
      invariant counts == CountsByKey(keys[..i], k)
    {
      ByKeyStep(values, keys, k, i);
      var idx := keys[i];
      sums := sums[idx := sums[idx] + values[i]];
      counts := counts[idx := counts[idx] + 1];
      i := i + 1;
    }
    assert values[..i] == values && keys[..i] == keys;
  }

  /** `seasonalityProfile`: the rounded average value per weekday for a daily series
      and per calendar month otherwise. */
  method SeasonalityProfile(series: seq<Point>, g: Granularity) returns (p: Profile)
    ensures p.labels == (if g == Daily then WeekdayNames else MonthNames)
    ensures p.title == (if g == Daily then "Average by weekday" else "Average by month")
    ensures |p.averages| == BucketCount(g)
    ensures forall b :: 0 <= b < BucketCount(g) ==>
      p.averages[b] == Average(BucketSums(series, g)[b], BucketSizes(series, g)[b])
  {
    var sums, counts := TallyByKey(ValuesOf(series), BucketsOf(series, g), BucketCount(g));
    var averages := seq(|sums|, b requires 0 <= b < |sums| && b < |counts| =>
      if counts[b] > 0 then Round2(sums[b] / counts[b] as real) else 0.0);
    if g == Daily {
      p := Profile(WeekdayNames, averages, "Average by weekday");
    } else {
      p := Profile(MonthNames, averages, "Average by month");
    }
  }
}
