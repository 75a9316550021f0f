/** fillMissing and inferGranularity in script.js: the regular step of a daily series is
    the median of its positive gaps, the series is laid on the grid start, start + step,
    ... up to its last day, and every grid day without a value is filled either by
    carrying the previous value forward or by linear interpolation. */
module Impute {
  import opened Wrappers
  import opened Aggregate

  // ---------------------------------------------------------------------------
  // Granularity.

  datatype Granularity = Daily | Weekly | Monthly | Custom(days: int)

  /** inferGranularity: at most 2 days is daily, at most 10 weekly, at most 40 monthly,
      anything longer a custom step of that many days. */
  function InferGranularity(stepDays: int): (g: Granularity)
    ensures g.Custom? ==> g.days == stepDays && stepDays > 40
  {
    if stepDays <= 2 then Daily
    else if stepDays <= 10 then Weekly
    else if stepDays <= 40 then Monthly
    else Custom(stepDays)
  }

  /** Granularities from the finest to the coarsest. */
  function Coarseness(g: Granularity): nat {
    match g
    case Daily => 0
    case Weekly => 1
    case Monthly => 2
    case Custom(_) => 3
  }

  /** A longer step never gives a finer granularity. */
  lemma GranularityMonotone(a: int, b: int)
    requires a <= b
    ensures Coarseness(InferGranularity(a)) <= Coarseness(InferGranularity(b))
  {
  }

  // ---------------------------------------------------------------------------
  // The step.

  /** The positive day gaps between neighbouring points, in order. */
  function Gaps(points: seq<Point>): (ds: seq<int>)
    ensures forall k :: 0 <= k < |ds| ==> ds[k] > 0
  {
    if |points| < 2 then []
    else
      var d := points[|points| - 1].date - points[|points| - 2].date;
      Gaps(points[..|points| - 1]) + (if d > 0 then [d] else [])
  }

  /** The loop that collects `diffs`. */
  method PositiveGaps(points: seq<Point>) returns (diffs: seq<int>)
    requires |points| >= 2
    ensures diffs == Gaps(points)
  {
    diffs := [];
    var i := 1;
    while i < |points|
      invariant 1 <= i <= |points|
      invariant diffs == Gaps(points[..i])
    {
      var days := points[i].date - points[i - 1].date;
      assert points[..i + 1][..i] == points[..i];
      if days > 0 {
        diffs := diffs + [days];
      }
      i := i + 1;
    }
    assert points[..i] == points;
  }

  predicate Ascending(s: seq<int>) {
    forall i, j :: 0 <= i < j < |s| ==> s[i] <= s[j]
  }

  function InsertAscending(s: seq<int>, x: int): (r: seq<int>)
    ensures multiset(r) == multiset(s) + multiset{x} && |r| == |s| + 1
  {
    if s == [] || x <= s[0] then [x] + s
    else
      assert s == [s[0]] + s[1..];
      [s[0]] + InsertAscending(s[1..], x)
  }

  /** A value no larger than anything after it, put in front, keeps a sequence
      ascending. */
  lemma ConsAscending(a: int, s: seq<int>)
    requires Ascending(s) && forall k :: 0 <= k < |s| ==> a <= s[k]
    ensures Ascending([a] + s)
  {
    var r := [a] + s;
    forall i, j | 0 <= i < j < |r| ensures r[i] <= r[j] {
      assert r[j] == s[j - 1];
      if i > 0 {
        assert r[i] == s[i - 1];
      }
    }
  }

  /** Inserting keeps a lower bound of the sequence and the value. */
  lemma InsertBounded(s: seq<int>, x: int, lo: int)
    requires lo <= x && forall k :: 0 <= k < |s| ==> lo <= s[k]
    ensures forall k :: 0 <= k < |s| + 1 ==> lo <= InsertAscending(s, x)[k]
  {
    var r := InsertAscending(s, x);
    forall k | 0 <= k < |r| ensures lo <= r[k] {
      assert r[k] in multiset(r);
      if r[k] != x {
        assert r[k] in multiset(s);
        var j :| 0 <= j < |s| && s[j] == r[k];
      }
    }
  }

  /** Inserting into an ascending sequence keeps it ascending. */
  lemma {:induction false} InsertKeepsAscending(s: seq<int>, x: int)
    requires Ascending(s)
    ensures Ascending(InsertAscending(s, x))
  {
    if s == [] || x <= s[0] {
      ConsAscending(x, s);
    } else {
      var tail := s[1..];
      assert Ascending(tail) && forall k :: 0 <= k < |tail| ==> s[0] <= tail[k] by {
        assert forall k :: 0 <= k < |tail| ==> tail[k] == s[k + 1];
      }
      InsertKeepsAscending(tail, x);
      InsertBounded(tail, x, s[0]);
      ConsAscending(s[0], InsertAscending(tail, x));
    }
  }

  /** `diffs.sort((a, b) => a - b)`: the same numbers in ascending order. */
  function SortAscending(s: seq<int>): (r: seq<int>)
    ensures Ascending(r) && multiset(r) == multiset(s) && |r| == |s|
  {
    if s == [] then []
    else
      assert s == s[..|s| - 1] + [s[|s| - 1]];
      var sorted := SortAscending(s[..|s| - 1]);
      InsertKeepsAscending(sorted, s[|s| - 1]);
      InsertAscending(sorted, s[|s| - 1])
  }

  /** `inferredStepDays`: the middle element of the sorted gaps (the upper middle for an
      even count), or 1 without gaps. */
  function InferStep(diffs: seq<int>): int {
    if |diffs| == 0 then 1 else SortAscending(diffs)[|diffs| / 2]
  }

  /** The step is one of the gaps. */
  lemma StepIsGap(diffs: seq<int>)
    requires |diffs| > 0
    ensures InferStep(diffs) in diffs
  {
    var s := SortAscending(diffs);
    assert s[|diffs| / 2] in multiset(s);
  }

  /** The step is the median: no smaller than the gaps sorted before it and no larger
      than those sorted after it. */
  lemma StepIsMedian(diffs: seq<int>)
    requires |diffs| > 0
    ensures var s, m := SortAscending(diffs), |diffs| / 2;
      && (forall k :: 0 <= k <= m ==> s[k] <= InferStep(diffs))
      && (forall k :: m <= k < |s| ==> InferStep(diffs) <= s[k])
  {
    var s, m := SortAscending(diffs), |diffs| / 2;
    assert InferStep(diffs) == s[m];
    assert Ascending(s);
  }

  /** So the step is at least one day. */
  lemma StepPositive(points: seq<Point>)
    ensures InferStep(Gaps(points)) >= 1
  {
    var ds := Gaps(points);
    if |ds| > 0 {
      StepIsGap(ds);
    }
  }

  /** When every gap is `c`, the step is `c`. */
  lemma StepOfEqualGaps(diffs: seq<int>, c: int)
    requires forall k :: 0 <= k < |diffs| ==> diffs[k] == c
    requires |diffs| > 0
    ensures InferStep(diffs) == c
  {
    StepIsGap(diffs);
  }

  // ---------------------------------------------------------------------------
  // The grid and the values known on it.

  /** The grid days start, start + step, ... while they do not pass `end`. */
  function GridDates(start: int, end: int, step: int): (g: seq<int>)
    requires step >= 1
    decreases end - start
  {
    if start > end then [] else [start] + GridDates(start + step, end, step)
  }

  /** Grid day `k` is `start + k * step`; every one is at most `end` and the next one
      would pass it. */
  lemma {:induction false} GridDatesSpec(start: int, end: int, step: int)
    requires step >= 1
    ensures var g := GridDates(start, end, step);
      && (forall k :: 0 <= k < |g| ==> g[k] == start + k * step && g[k] <= end)
      && start + |g| * step > end
    decreases end - start
  {
    if start <= end {
      GridDatesSpec(start + step, end, step);
      var g, rest := GridDates(start, end, step), GridDates(start + step, end, step);
      forall k | 0 < k < |g| ensures g[k] == start + k * step {
        assert g[k] == rest[k - 1];
      }
    }
  }

  /** `new Map(points.map(p => [dateKey(p.date), p.value]))`: a later point on the same
      day replaces an earlier one. */
  function ValueByDate(points: seq<Point>): map<int, real> {
    if points == [] then map[]
    else ValueByDate(points[..|points| - 1])[points[|points| - 1].date := points[|points| - 1].value]
  }

  /** The map's keys are exactly the days of the points. */
  lemma {:induction false} ValueByDateKeys(points: seq<Point>)
    ensures forall d :: d in ValueByDate(points) <==> exists k :: 0 <= k < |points| && points[k].date == d
  {
    if points != [] {
      var init := points[..|points| - 1];
      ValueByDateKeys(init);
      assert forall k :: 0 <= k < |init| ==> init[k] == points[k];
    }
  }

  /** With distinct days, every point's own value is found on its day. */
  lemma {:induction false} ValueByDateOfDistinct(points: seq<Point>)
    requires DistinctDates(points)
    ensures forall k :: 0 <= k < |points| ==> points[k].date in ValueByDate(points) && ValueByDate(points)[points[k].date] == points[k].value
  {
    if points != [] {
      var init := points[..|points| - 1];
      ValueByDateOfDistinct(init);
      forall k | 0 <= k < |init| ensures points[k] == init[k] && points[k].date != points[|points| - 1].date {
      }
    }
  }

  /** `valueByDate.get(dateKey(d))`. */
  function Lookup(m: map<int, real>, d: int): Option<real> {
    if d in m then Some(m[d]) else None
  }

  /** The slots of the grid days `g`: the known value of each day, if any. */
  function Slots(g: seq<int>, m: map<int, real>): (s: seq<Option<real>>)
    ensures |s| == |g|
  {
    if g == [] then [] else Slots(g[..|g| - 1], m) + [Lookup(m, g[|g| - 1])]
  }

  /** Slot `k` holds what is known on grid day `k`. */
  lemma {:induction false} SlotsAt(g: seq<int>, m: map<int, real>)
    ensures forall k :: 0 <= k < |g| ==> Slots(g, m)[k] == Lookup(m, g[k])
  {
    if g != [] {
      SlotsAt(g[..|g| - 1], m);
    }
  }

  // ---------------------------------------------------------------------------
  // What each slot is filled with.

  /** The `strategy` argument: 'forward', or anything else, which interpolates. */
  datatype Strategy = Forward | Interpolate

  function StrategyOf(name: string): Strategy {
    if name == "forward" then Forward else Interpolate
  }

  /** The nearest known slot before `i`, or -1. */
  function PrevKnown(s: seq<Option<real>>, i: int): (p: int)
    requires 0 <= i <= |s|
    ensures -1 <= p < i && (p >= 0 ==> s[p].Some?)
  {
    if i == 0 then -1 else if s[i - 1].Some? then i - 1 else PrevKnown(s, i - 1)
  }

  /** Nothing between the slot `PrevKnown` finds and `i` is known. */
  lemma {:induction false} PrevKnownNearest(s: seq<Option<real>>, i: int)
    requires 0 <= i <= |s|
    ensures forall j :: PrevKnown(s, i) < j < i ==> s[j].None?
  {
    if i > 0 && s[i - 1].None? {
      PrevKnownNearest(s, i - 1);
    }
  }

  /** A known slot with nothing known between it and `i` is the one `PrevKnown` finds. */
  lemma {:induction false} PrevKnownIs(s: seq<Option<real>>, p: int, i: int)
    requires -1 <= p < i <= |s| && (p >= 0 ==> s[p].Some?)
    requires forall j :: p < j < i ==> s[j].None?
    ensures PrevKnown(s, i) == p
  {
    if p < i - 1 {
      PrevKnownIs(s, p, i - 1);
    }
  }

  /** The nearest known slot after `i`, or `|s|`. */
  function NextKnown(s: seq<Option<real>>, i: int): (q: int)
    requires -1 <= i < |s|
    ensures i < q <= |s| && (q < |s| ==> s[q].Some?)
    decreases |s| - i
  {
    if i + 1 == |s| then |s| else if s[i + 1].Some? then i + 1 else NextKnown(s, i + 1)
  }

  /** Nothing between `i` and the slot `NextKnown` finds is known. */
  lemma {:induction false} NextKnownNearest(s: seq<Option<real>>, i: int)
    requires -1 <= i < |s|
    ensures forall j :: i < j < NextKnown(s, i) ==> s[j].None?
    decreases |s| - i
  {
    if i + 1 < |s| && s[i + 1].None? {
      NextKnownNearest(s, i + 1);
    }
  }

  /** A known slot with nothing known between `i` and it is the one `NextKnown` finds. */
  lemma {:induction false} NextKnownIs(s: seq<Option<real>>, i: int, q: int)
    requires -1 <= i < q <= |s| && (q < |s| ==> s[q].Some?)
    requires forall j :: i < j < q ==> s[j].None?
    ensures NextKnown(s, i) == q
    decreases q - i
  {
    if i + 1 < q {
      NextKnownIs(s, i + 1, q);
    }
  }

  /** Interpolation across a run of unknown slots between a known slot `p` holding `a`
      and a known slot `q` holding `b`: each slot moves the fraction `1/(q - k + 1)` of
      the remaining way from the slot before it towards `b`. */
  function Stepped(a: real, b: real, p: int, q: int, k: int): real
    requires p <= k < q
    decreases k - p
  {
    if k == p then a
    else Toward(Stepped(a, b, p, q, k - 1), b, k, q)
  }

  /** One step of the interpolation loop: the value `v` of slot `k - 1` moved towards
      `b` at slot `q` by `(k - (k - 1)) / (q - (k - 1))` of the way. */
  function Toward(v: real, b: real, k: int, q: int): real
    requires k < q
  {
    v + ((k - (k - 1)) as real / (q - (k - 1)) as real) * (b - v)
  }

  /** The value slot `i` ends with. A known slot keeps its value. With 'forward' an unknown
      slot takes the last known value before it, or 0. Otherwise an unknown slot between
      two known ones is stepped towards the next known value; after the last known slot
      it takes that slot's value, before the first one the first one's value, and with
      none known 0. */
  function Filled(s: seq<Option<real>>, strategy: Strategy, i: int): real
    requires 0 <= i < |s|
  {
    if s[i].Some? then s[i].value
    else
      var p, q := PrevKnown(s, i), NextKnown(s, i);
      if strategy == Forward then (if p >= 0 then s[p].value else 0.0)
      else if p >= 0 && q < |s| then Stepped(s[p].value, s[q].value, p, q, i)
      else if p >= 0 then s[p].value
      else if q < |s| then s[q].value
      else 0.0
  }

  /** The number of unknown slots. */
  function Missing(s: seq<Option<real>>): nat {
    if s == [] then 0 else Missing(s[..|s| - 1]) + (if s[|s| - 1].None? then 1 else 0)
  }

  /** One step lands on the straight line of slope `u`: from its value `v` at offset `t`
      towards its value `b` at offset `t + d`, a fraction `1/d` of the way is its value at
      offset `t + 1`. */
  lemma LineStep(a: real, u: real, t: real, d: real, b: real, v: real)
    requires d > 0.0 && v == a + t * u && b == a + (t + d) * u
    ensures v + (1.0 / d) * (b - v) == a + (t + 1.0) * u
  {
    assert b - v == d * u;
    assert (1.0 / d) * (d * u) == u;
  }

  /** The stepped values lie on the straight line from `(p, a)` to `(q, b)`. */
  lemma {:induction false} SteppedIsLinear(a: real, b: real, p: int, q: int, k: int)
    requires p <= k < q
    ensures Stepped(a, b, p, q, k) == a + (k - p) as real * ((b - a) / (q - p) as real)
    decreases k - p
  {
    if k > p {
      var u := (b - a) / (q - p) as real;
      SteppedIsLinear(a, b, p, q, k - 1);
      assert (q - p) as real * u == b - a;
      assert (k - (k - 1)) as real / (q - (k - 1)) as real == 1.0 / (q - k + 1) as real;
      LineStep(a, u, (k - 1 - p) as real, (q - k + 1) as real, b, Stepped(a, b, p, q, k - 1));
    }
  }

  /** The forward strategy copies the slot before. */
  lemma ForwardCopiesPrevious(s: seq<Option<real>>, i: int)
    requires 0 < i < |s| && s[i].None?
    ensures Filled(s, Forward, i) == Filled(s, Forward, i - 1)
  {
  }

  /** An unknown slot has the same known neighbours as the unknown slot before it. */
  lemma SameNeighbours(s: seq<Option<real>>, i: int)
    requires 0 < i < |s| && s[i - 1].None?
    ensures PrevKnown(s, i) == PrevKnown(s, i - 1)
    ensures s[i].None? ==> NextKnown(s, i - 1) == NextKnown(s, i)
  {
  }

  /** Interpolation as the source computes it, from the slot before (already filled)
      and the next known slot. */
  lemma InterpolateStep(s: seq<Option<real>>, i: int)
    requires 0 < i < |s| && s[i].None?
    ensures var v, q := Filled(s, Interpolate, i - 1), NextKnown(s, i);
      Filled(s, Interpolate, i) == if q < |s| then Toward(v, s[q].value, i, q) else v
  {
    var p, q := PrevKnown(s, i), NextKnown(s, i);
    var v := Filled(s, Interpolate, i - 1);
    if s[i - 1].None? {
      SameNeighbours(s, i);
      if p >= 0 && q < |s| {
        assert v == Stepped(s[p].value, s[q].value, p, q, i - 1);
      } else if q < |s| {
        assert Filled(s, Interpolate, i) == s[q].value == v;
        assert (s[q].value - v) == 0.0;
      }
    } else if q < |s| {
      assert p == i - 1;
      assert v == s[p].value == Stepped(s[p].value, s[q].value, p, q, i - 1);
    }
  }

  /** Unknown slots after the last known one copy the slot before. */
  lemma TrailingCopiesPrevious(s: seq<Option<real>>, strategy: Strategy, i: int)
    requires 0 < i < |s| && s[i].None? && NextKnown(s, i) == |s|
    ensures Filled(s, strategy, i) == Filled(s, strategy, i - 1)
  {
    if strategy == Interpolate {
      InterpolateStep(s, i);
    }
  }

  /** Across a run of unknown slots between two known ones, interpolation is linear. */
  lemma InterpolateLinear(s: seq<Option<real>>, p: int, q: int, i: int)
    requires 0 <= p < i < q < |s| && s[p].Some? && s[q].Some?
    requires forall j :: p < j < q ==> s[j].None?
    ensures Filled(s, Interpolate, i) == s[p].value + (i - p) as real * ((s[q].value - s[p].value) / (q - p) as real)
  {
    PrevKnownIs(s, p, i);
    NextKnownIs(s, i, q);
    SteppedIsLinear(s[p].value, s[q].value, p, q, i);
  }

  lemma InterpolateExample()
    ensures Filled([Some(10.0), None, Some(20.0)], Interpolate, 1) == 15.0
  {
    var s := [Some(10.0), None, Some(20.0)];
    InterpolateLinear(s, 0, 2, 1);
  }

  // ---------------------------------------------------------------------------
  // The methods.

  /** The interpolation branch of the source's loop, on the slots as they are: the
      nearest known slot before `i` and the nearest known slot after it, and the value
      the fraction `(i - p)/(q - p)` of the way between them; with only one of them its
      value, with neither 0. */
  function Interpolated(s: seq<Option<real>>, i: int): real
    requires 0 <= i < |s|
  {
    var p, q := PrevKnown(s, i), NextKnown(s, i);
    if p >= 0 && q < |s| then s[p].value + ((i - p) as real / (q - p) as real) * (s[q].value - s[p].value)
    else if p >= 0 then s[p].value
    else if q < |s| then s[q].value
    else 0.0
  }

  /** Once every slot before `i` holds its final value, one interpolation step at `i`
      gives `i` its final value. */
  lemma InterpolatedIsFilled(cur: seq<Option<real>>, orig: seq<Option<real>>, i: int)
    requires |cur| == |orig| && 0 <= i < |orig| && orig[i].None?
    requires forall k :: 0 <= k < i ==> cur[k] == Some(Filled(orig, Interpolate, k))
    requires forall k :: i <= k < |orig| ==> cur[k] == orig[k]
    ensures Interpolated(cur, i) == Filled(orig, Interpolate, i)
  {
    PrevKnownIs(cur, i - 1, i);
    var q := NextKnown(orig, i);
    NextKnownNearest(orig, i);
    NextKnownIs(cur, i, q);
    if i > 0 {
      InterpolateStep(orig, i);
    }
  }

  /** The scans and the arithmetic of the interpolation branch. */
  method InterpolateAt(full: array<Option<real>>, i: int) returns (v: real)
    requires 0 <= i < full.Length
    ensures v == Interpolated(full[..], i)
  {
    var prev := i - 1;
    while prev >= 0 && full[prev].None?
      invariant -1 <= prev <= i - 1
      invariant forall k :: prev < k < i ==> full[k].None?
    {
      prev := prev - 1;
    }
    var next := i + 1;
    while next < full.Length && full[next].None?
      invariant i + 1 <= next <= full.Length
      invariant forall k :: i < k < next ==> full[k].None?
    {
      next := next + 1;
    }
    PrevKnownIs(full[..], prev, i);
    NextKnownIs(full[..], i, next);
    if prev >= 0 && next < full.Length {
      var ratio := (i - prev) as real / (next - prev) as real;
      v := full[prev].value + ratio * (full[next].value - full[prev].value);
    } else if prev >= 0 {
      v := full[prev].value;
    } else if next < full.Length {
      v := full[next].value;
    } else {
      v := 0.0;
    }
  }

  /** The second loop of fillMissing, in place over the grid slots. `added` counts the
      unknown slots and every slot ends filled as `Filled` says. */
  method FillSlots(full: array<Option<real>>, strategy: Strategy) returns (added: nat)
    modifies full
    ensures added == Missing(old(full[..]))
    ensures forall k :: 0 <= k < full.Length ==> full[k] == Some(Filled(old(full[..]), strategy, k))
  {
    ghost var orig := full[..];
    added := 0;
    var i := 0;
    while i < full.Length
      invariant 0 <= i <= full.Length
      invariant forall k :: 0 <= k < i ==> full[k] == Some(Filled(orig, strategy, k))
      invariant forall k :: i <= k < full.Length ==> full[k] == orig[k]
      invariant added == Missing(orig[..i])
    {
      assert orig[..i + 1][..i] == orig[..i];
      if full[i].None? {
        added := added + 1;
        if strategy == Forward {
          if i > 0 {
            ForwardCopiesPrevious(orig, i);
          }
          full[i] := Some(if i > 0 then full[i - 1].value else 0.0);
        } else {
          InterpolatedIsFilled(full[..], orig, i);
          var v := InterpolateAt(full, i);
          full[i] := Some(v);
        }
      }
      i := i + 1;
    }
    assert orig[..i] == orig;
  }

  lemma Concat3<T>(a: seq<T>, b: seq<T>, c: seq<T>)
    ensures a + (b + c) == (a + b) + c
  {
  }

  /** The grid loop: one slot per grid day, holding the day's known value if any. */
  method LayGrid(start: int, end: int, step: int, valueByDate: map<int, real>) returns (dates: seq<int>, cells: seq<Option<real>>)
    requires step >= 1
    ensures dates == GridDates(start, end, step)
    ensures cells == Slots(dates, valueByDate)
  {
    dates, cells := [], [];
    var d := start;
    while d <= end
      invariant dates + GridDates(d, end, step) == GridDates(start, end, step)
      invariant cells == Slots(dates, valueByDate)
      decreases end - d
    {
      ghost var rest := GridDates(d + step, end, step);
      assert GridDates(d, end, step) == [d] + rest;
      Concat3(dates, [d], rest);
      assert (dates + [d])[..|dates|] == dates;
      dates := dates + [d];
      cells := cells + [Lookup(valueByDate, d)];
      d := d + step;
    }
  }

  /** What fillMissing returns. */
  datatype Filling = Filling(filled: seq<Point>, inferredStepDays: int, added: nat, granularity: Granularity)

  /** Fills the grid slots in place and pairs each filled value with its grid day. */
  method FillGrid(dates: seq<int>, cells: seq<Option<real>>, strategy: Strategy) returns (filled: seq<Point>, added: nat)
    requires |dates| == |cells|
    ensures |filled| == |cells|
    ensures added == Missing(cells)
    ensures forall k :: 0 <= k < |cells| ==> filled[k] == Point(dates[k], Filled(cells, strategy, k))
  {
    var full := new Option<real>[|cells|];
    var j := 0;
    while j < |cells|
      invariant 0 <= j <= |cells|
      invariant forall k :: 0 <= k < j ==> full[k] == cells[k]
    {
      full[j] := cells[j];
      j := j + 1;
    }
    assert full[..] == cells;
    added := FillSlots(full, strategy);
    filled := [];
    j := 0;
    while j < full.Length
      invariant 0 <= j <= full.Length
      invariant |filled| == j
      invariant forall k :: 0 <= k < j ==> filled[k] == Point(dates[k], Filled(cells, strategy, k))
    {
      filled := filled + [Point(dates[j], full[j].value)];
      j := j + 1;
    }
  }

  /** `f` is what filling `points` with `strategy` gives: a short series as it is;
      otherwise the median step, its granularity, the grid from the first day to the
      last, the number of empty slots, and every slot filled by the strategy. */
  ghost predicate FillingOf(points: seq<Point>, strategy: string, f: Filling) {
    if |points| < 2 then f == Filling(points, 1, 0, Daily)
    else
      && f.inferredStepDays == InferStep(Gaps(points)) >= 1
      && f.granularity == InferGranularity(f.inferredStepDays)
      && var g := GridDates(points[0].date, points[|points| - 1].date, f.inferredStepDays);
         var s := Slots(g, ValueByDate(points));
         && |f.filled| == |g|
         && f.added == Missing(s)
         && forall k :: 0 <= k < |g| ==> f.filled[k] == Point(g[k], Filled(s, StrategyOf(strategy), k))
  }

  /** A series and a strategy determine their filling. */
  lemma FillingUnique(points: seq<Point>, strategy: string, f: Filling, f': Filling)
    requires FillingOf(points, strategy, f) && FillingOf(points, strategy, f')
    ensures f == f'
  {
    if |points| >= 2 {
      assert f.filled == f'.filled;
    }
  }

  method FillMissing(points: seq<Point>, strategy: string) returns (r: Filling)
    ensures |points| < 2 ==> r == Filling(points, 1, 0, Daily)
    ensures |points| >= 2 ==>
      && r.inferredStepDays == InferStep(Gaps(points)) >= 1
      && r.granularity == InferGranularity(r.inferredStepDays)
      && var g := GridDates(points[0].date, points[|points| - 1].date, r.inferredStepDays);
         var s := Slots(g, ValueByDate(points));
         && |r.filled| == |g| == |s|
         && r.added == Missing(s)
         && forall k :: 0 <= k < |g| ==> r.filled[k] == Point(g[k], Filled(s, StrategyOf(strategy), k))
    ensures FillingOf(points, strategy, r)
  {
    if |points| < 2 {
      return Filling(points, 1, 0, Daily);
    }
    var diffs := PositiveGaps(points);
    var step := if |diffs| > 0 then SortAscending(diffs)[|diffs| / 2] else 1;
    StepPositive(points);
    var granularity := InferGranularity(step);
    var valueByDate := ValueByDate(points);
    var start, end := points[0].date, points[|points| - 1].date;
    var dates, cells := LayGrid(start, end, step, valueByDate);
    var filled, added := FillGrid(dates, cells, StrategyOf(strategy));
    return Filling(filled, step, added, granularity);
  }

  // ---------------------------------------------------------------------------
  // A series already on its grid.

  /** An unknown slot is counted exactly when there is one. */
  lemma {:induction false} MissingZero(s: seq<Option<real>>)
    ensures Missing(s) == 0 <==> forall k :: 0 <= k < |s| ==> s[k].Some?
  {
    if s != [] {
      var init := s[..|s| - 1];
      MissingZero(init);
      assert forall k :: 0 <= k < |init| ==> init[k] == s[k];
    }
  }

  /** Consecutive points `c` days apart, for a `c` of at least one day. */
  predicate EvenlySpaced(points: seq<Point>, c: int) {
    c >= 1 && forall k :: 1 <= k < |points| ==> points[k].date == points[k - 1].date + c
  }

  /** Evenly spaced points have one gap of `c` between each neighbouring pair. */
  lemma {:induction false} EvenGaps(points: seq<Point>, c: int)
    requires EvenlySpaced(points, c) && |points| >= 1
    ensures |Gaps(points)| == |points| - 1
    ensures forall k :: 0 <= k < |Gaps(points)| ==> Gaps(points)[k] == c
  {
    if |points| >= 2 {
      var init := points[..|points| - 1];
      assert forall k :: 0 <= k < |init| ==> init[k] == points[k];
      EvenGaps(init, c);
    }
  }

  /** Point `k` of an evenly spaced series lies `k * c` days after the first. */
  lemma {:induction false} EvenDates(points: seq<Point>, c: int)
    requires EvenlySpaced(points, c)
    ensures forall k :: 0 <= k < |points| ==> points[k].date == points[0].date + k * c
  {
    if |points| >= 2 {
      var init := points[..|points| - 1];
      EvenDates(init, c);
      var n := |points| - 1;
      forall k | 0 <= k < |points| ensures points[k].date == points[0].date + k * c {
        if k < n {
          assert points[k] == init[k];
        } else {
          assert points[n - 1] == init[n - 1];
          assert n * c == (n - 1) * c + c;
        }
      }
    }
  }

  lemma ScaleStrict(i: int, j: int, c: int)
    requires i < j && c >= 1
    ensures i * c < j * c
  {
    assert j * c == i * c + (j - i) * c;
  }

  lemma ScaleCancel(a: int, b: int, c: int)
    requires c >= 1
    ensures a * c <= b * c ==> a <= b
    ensures a * c < b * c ==> a < b
  {
    if a > b {
      ScaleStrict(b, a, c);
    } else if a == b {
    }
  }

  /** Evenly spaced days are distinct. */
  lemma EvenDistinct(points: seq<Point>, c: int)
    requires EvenlySpaced(points, c)
    ensures DistinctDates(points)
  {
    EvenDates(points, c);
    forall i, j | 0 <= i < j < |points| ensures points[i].date != points[j].date {
      ScaleStrict(i, j, c);
    }
  }

  /** The grid of an evenly spaced series, stepped by its spacing, is its own days. */
  lemma EvenGrid(points: seq<Point>, c: int)
    requires EvenlySpaced(points, c) && |points| >= 1
    ensures var g := GridDates(points[0].date, points[|points| - 1].date, c);
      |g| == |points| && forall k :: 0 <= k < |g| ==> g[k] == points[k].date
  {
    var start, end, n := points[0].date, points[|points| - 1].date, |points|;
    var g := GridDates(start, end, c);
    EvenDates(points, c);
    GridDatesSpec(start, end, c);
    assert end == start + (n - 1) * c;
    ScaleCancel(n - 1, |g|, c);
    assert g[|g| - 1] == start + (|g| - 1) * c <= end;
    ScaleCancel(|g| - 1, n - 1, c);
    forall k | 0 <= k < |g| ensures g[k] == points[k].date {
      assert g[k] == start + k * c;
    }
  }

  /** The slots of an evenly spaced series on its own grid are all known, each holding
      its point's value. */
  lemma EvenSlots(points: seq<Point>, c: int)
    requires EvenlySpaced(points, c) && |points| >= 1
    ensures var s := Slots(GridDates(points[0].date, points[|points| - 1].date, c), ValueByDate(points));
      |s| == |points| && forall k :: 0 <= k < |s| ==> s[k] == Some(points[k].value)
  {
    EvenGrid(points, c);
    EvenDistinct(points, c);
    ValueByDateOfDistinct(points);
    SlotsAt(GridDates(points[0].date, points[|points| - 1].date, c), ValueByDate(points));
  }

  /** An evenly spaced series comes back unchanged: the step is its spacing, the grid is
      its own days, nothing is added, and every slot keeps the point's value. */
  lemma EvenlySpacedUnchanged(points: seq<Point>, c: int, strategy: Strategy)
    requires EvenlySpaced(points, c) && |points| >= 2
    ensures InferStep(Gaps(points)) == c
    ensures var g := GridDates(points[0].date, points[|points| - 1].date, c);
      var s := Slots(g, ValueByDate(points));
      && |g| == |points|
      && Missing(s) == 0
      && forall k :: 0 <= k < |g| ==> g[k] == points[k].date && Filled(s, strategy, k) == points[k].value
  {
    EvenGaps(points, c);
    StepOfEqualGaps(Gaps(points), c);
    EvenGrid(points, c);
    EvenSlots(points, c);
    MissingZero(Slots(GridDates(points[0].date, points[|points| - 1].date, c), ValueByDate(points)));
  }

  /** A grid day that carries an original point keeps that point's value. */
  lemma KnownSlotKeeps(points: seq<Point>, g: seq<int>, strategy: Strategy, k: int, j: int)
    requires DistinctDates(points)
    requires 0 <= k < |g| && 0 <= j < |points| && g[k] == points[j].date
    ensures Filled(Slots(g, ValueByDate(points)), strategy, k) == points[j].value
  {
    ValueByDateOfDistinct(points);
    SlotsAt(g, ValueByDate(points));
  }
}
