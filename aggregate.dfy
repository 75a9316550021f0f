/** aggregateAndSort in script.js: every row is read as a day and a value, the values
    of each day are summed, the days are sorted, and rows that could not be read are
    counted by the first reason they failed. */
module Aggregate {
  import opened Wrappers
  import opened Numeric
  import opened Dates
  import opened Delimited

  /** One point of the series: a day number and its value. */
  datatype Point = Point(date: int, value: real)

  /** What one row contributes: nothing, because its date or its value does not
      parse, or a value on a day. */
  datatype Reading = BadDate | BadValue | Valid(day: int, value: real)

  /** `r[col]`, which is undefined when the row has no such key. */
  function Cell(r: Row, col: string): (c: Option<string>)
    ensures c.Some? <==> col in r
  {
    if col in r then Some(r[col]) else None
  }

  /** The date is checked first, so a row whose date and value both fail counts as a
      bad date. */
  function Classify(r: Row, dateCol: string, targetCol: string, native: string -> Option<int>): (x: Reading)
    ensures x.BadDate? <==> ParseDateValue(Cell(r, dateCol), native).None?
    ensures x.BadValue? <==> ParseDateValue(Cell(r, dateCol), native).Some?
                             && ParseNumericValue(Cell(r, targetCol)).None?
    ensures x.Valid? ==> Some(x.day) == ParseDateValue(Cell(r, dateCol), native)
                         && Some(x.value) == ParseNumericValue(Cell(r, targetCol))
  {
    match ParseDateValue(Cell(r, dateCol), native)
    case None => BadDate
    case Some(d) =>
      match ParseNumericValue(Cell(r, targetCol))
      case None => BadValue
      case Some(y) => Valid(d, y)
  }

  function Readings(rows: seq<Row>, dateCol: string, targetCol: string, native: string -> Option<int>): (rds: seq<Reading>)
    ensures |rds| == |rows|
  {
    if rows == [] then []
    else Readings(rows[..|rows| - 1], dateCol, targetCol, native) + [Classify(rows[|rows| - 1], dateCol, targetCol, native)]
  }

  /** One more row adds its classification. */
  lemma ReadingsSnoc(rows: seq<Row>, dateCol: string, targetCol: string, native: string -> Option<int>, i: nat)
    requires i < |rows|
    ensures Readings(rows[..i + 1], dateCol, targetCol, native)
         == Readings(rows[..i], dateCol, targetCol, native) + [Classify(rows[i], dateCol, targetCol, native)]
  {
    assert rows[..i + 1][..i] == rows[..i];
  }

  // ---------------------------------------------------------------------------
  // What a day's total is, and how the rows are counted.

  /** Some valid reading falls on day `d`. */
  predicate HasDay(rds: seq<Reading>, d: int) {
    exists k :: 0 <= k < |rds| && rds[k].Valid? && rds[k].day == d
  }

  /** The sum of the values of the valid readings on day `d`. */
  function DaySum(rds: seq<Reading>, d: int): real
    decreases |rds|
  {
    if rds == [] then 0.0
    else DaySum(rds[..|rds| - 1], d) + (if rds[|rds| - 1].Valid? && rds[|rds| - 1].day == d then rds[|rds| - 1].value else 0.0)
  }

  function BadDates(rds: seq<Reading>): nat
    decreases |rds|
  {
    if rds == [] then 0 else BadDates(rds[..|rds| - 1]) + (if rds[|rds| - 1].BadDate? then 1 else 0)
  }

  function BadValues(rds: seq<Reading>): nat
    decreases |rds|
  {
    if rds == [] then 0 else BadValues(rds[..|rds| - 1]) + (if rds[|rds| - 1].BadValue? then 1 else 0)
  }

  function ValidCount(rds: seq<Reading>): nat
    decreases |rds|
  {
    if rds == [] then 0 else ValidCount(rds[..|rds| - 1]) + (if rds[|rds| - 1].Valid? then 1 else 0)
  }

  /** One more reading: how the days, their totals and the counts change. */
  lemma ReadingStep(seen: seq<Reading>, x: Reading)
    ensures forall d :: HasDay(seen + [x], d) <==> HasDay(seen, d) || (x.Valid? && x.day == d)
    ensures forall d :: DaySum(seen + [x], d) == DaySum(seen, d) + (if x.Valid? && x.day == d then x.value else 0.0)
    ensures BadDates(seen + [x]) == BadDates(seen) + (if x.BadDate? then 1 else 0)
    ensures BadValues(seen + [x]) == BadValues(seen) + (if x.BadValue? then 1 else 0)
    ensures ValidCount(seen + [x]) == ValidCount(seen) + (if x.Valid? then 1 else 0)
  {
    var next := seen + [x];
    assert next[..|seen|] == seen && next[|seen|] == x;
    forall d ensures HasDay(next, d) <==> HasDay(seen, d) || (x.Valid? && x.day == d) {
      if HasDay(next, d) {
        var k :| 0 <= k < |next| && next[k].Valid? && next[k].day == d;
        if k < |seen| { assert seen[k] == next[k]; }
      }
      if HasDay(seen, d) {
        var k :| 0 <= k < |seen| && seen[k].Valid? && seen[k].day == d;
        assert next[k] == seen[k];
      }
      if x.Valid? && x.day == d {
        assert next[|seen|].Valid? && next[|seen|].day == d;
      }
    }
  }

  /** A day without valid readings sums to nothing. */
  lemma {:induction false} NoDayNoSum(rds: seq<Reading>, d: int)
    requires !HasDay(rds, d)
    ensures DaySum(rds, d) == 0.0
    decreases |rds|
  {
    if rds != [] {
      var init := rds[..|rds| - 1];
      NoDayNoSum(init, d);
    }
  }

  /** Every row is counted exactly once: as a bad date, a bad value or a valid reading. */
  lemma {:induction false} CountsPartition(rds: seq<Reading>)
    ensures BadDates(rds) + BadValues(rds) + ValidCount(rds) == |rds|
    decreases |rds|
  {
    if rds != [] {
      CountsPartition(rds[..|rds| - 1]);
    }
  }

  /** Some reading is valid exactly when some day has one. */
  lemma {:induction false} ValidHasDay(rds: seq<Reading>)
    ensures ValidCount(rds) == 0 <==> forall d :: !HasDay(rds, d)
    decreases |rds|
  {
    if rds != [] {
      var init, x := rds[..|rds| - 1], rds[|rds| - 1];
      ValidHasDay(init);
      assert init + [x] == rds;
      ReadingStep(init, x);
      if ValidCount(rds) != 0 {
        if x.Valid? {
          assert HasDay(rds, x.day);
        } else {
          var d :| HasDay(init, d);
          assert HasDay(rds, d);
        }
      }
    }
  }

  // ---------------------------------------------------------------------------
  // The method.

  predicate StrictlyIncreasing(ps: seq<Point>) {
    forall i, j :: 0 <= i < j < |ps| ==> ps[i].date < ps[j].date
  }

  /** 'No valid rows found after parsing selected columns', with both counts. */
  datatype AggregateError = NoValidRows(invalidDates: nat, invalidValues: nat)

  predicate DistinctDates(ps: seq<Point>) {
    forall i, j :: 0 <= i < j < |ps| ==> ps[i].date != ps[j].date
  }

  /** A point put into its place in date order. */
  function InsertByDate(s: seq<Point>, p: Point): (r: seq<Point>)
    requires StrictlyIncreasing(s) && forall k :: 0 <= k < |s| ==> s[k].date != p.date
    ensures StrictlyIncreasing(r) && |r| == |s| + 1
    ensures forall q :: q in r <==> q in s || q == p
  {
    if s == [] then [p]
    else if p.date < s[0].date then [p] + s
    else
      var rest := InsertByDate(s[1..], p);
      assert forall q :: q in rest ==> s[0].date < q.date;
      [s[0]] + rest
  }

  /** `.sort((a, b) => a.date - b.date)` on the map's entries, whose dates are distinct:
      the same points in strictly increasing date order. */
  function SortByDate(ps: seq<Point>): (r: seq<Point>)
    requires DistinctDates(ps)
    ensures StrictlyIncreasing(r) && |r| == |ps|
    ensures forall q :: q in r <==> q in ps
  {
    if ps == [] then []
    else
      var init := ps[..|ps| - 1];
      assert forall q :: q in ps <==> q in init || q == ps[|ps| - 1];
      var sorted := SortByDate(init);
      forall k | 0 <= k < |sorted| ensures sorted[k].date != ps[|ps| - 1].date {
        assert sorted[k] in init;
      }
      InsertByDate(sorted, ps[|ps| - 1])
  }

  /** `order` lists the keys of `m` once each, as a JavaScript `Map` keeps them. */
  ghost predicate KeyOrder(m: map<int, real>, order: seq<int>) {
    && (forall k :: 0 <= k < |order| ==> order[k] in m)
    && (forall d :: d in m ==> d in order)
    && (forall i, j :: 0 <= i < j < |order| ==> order[i] != order[j])
  }

  /** `map.set` appends a new key to the order and keeps the place of an old one. */
  lemma KeyOrderSet(m: map<int, real>, order: seq<int>, key: int, v: real)
    requires KeyOrder(m, order)
    ensures KeyOrder(m[key := v], if key in m then order else order + [key])
  {
  }

  /** The map's entries in first-insertion order, as `Array.from(map.entries())`
      gives them. */
  method Entries(m: map<int, real>, order: seq<int>) returns (entries: seq<Point>)
    requires KeyOrder(m, order)
    ensures DistinctDates(entries) && |entries| == |order|
    ensures forall q :: q in entries <==> q.date in m && q.value == m[q.date]
  {
    entries := [];
    var k := 0;
    while k < |order|
      invariant 0 <= k <= |order|
      invariant |entries| == k
      invariant forall j :: 0 <= j < k ==> entries[j] == Point(order[j], m[order[j]])
    {
      entries := entries + [Point(order[k], m[order[k]])];
      k := k + 1;
    }
    forall q: Point | q.date in m && q.value == m[q.date] ensures q in entries {
      var j :| 0 <= j < |order| && order[j] == q.date;
      assert entries[j] == q;
    }
  }

  /** The state after the rows read so far: `m` holds exactly the days with a valid
      reading, each with its total, `order` lists them as the `Map` does, and the
      counters count the rows rejected for their date and for their value. */
  ghost predicate Tallied(seen: seq<Reading>, m: map<int, real>, order: seq<int>, invalidDates: nat, invalidValues: nat) {
    && (forall d :: d in m <==> HasDay(seen, d))
    && (forall d :: d in m ==> m[d] == DaySum(seen, d))
    && invalidDates == BadDates(seen) && invalidValues == BadValues(seen)
    && KeyOrder(m, order)
  }

  /** The first half of the `forEach` callback: the row's date is parsed, then its
      value. */
  method ReadRow(row: Row, dateCol: string, targetCol: string, native: string -> Option<int>) returns (x: Reading)
    ensures x == Classify(row, dateCol, targetCol, native)
  {
    var dt := ParseDateValue(Cell(row, dateCol), native);
    if dt.None? {
      return BadDate;
    }
    var y := ParseNumericValue(Cell(row, targetCol));
    if y.None? {
      return BadValue;
    }
    return Valid(dt.value, y.value);
  }

  /** The second half: a counter grows, or the value is added to its day's total. */
  method Tally(x: Reading, m: map<int, real>, order: seq<int>, invalidDates: nat, invalidValues: nat, ghost seen: seq<Reading>)
    returns (m': map<int, real>, order': seq<int>, invalidDates': nat, invalidValues': nat)
    requires Tallied(seen, m, order, invalidDates, invalidValues)
    ensures Tallied(seen + [x], m', order', invalidDates', invalidValues')
  {
    m', order', invalidDates', invalidValues' := m, order, invalidDates, invalidValues;
    match x
    case BadDate =>
      TalliedInvalid(seen, x, m, order, invalidDates, invalidValues);
      invalidDates' := invalidDates + 1;
    case BadValue =>
      TalliedInvalid(seen, x, m, order, invalidDates, invalidValues);
      invalidValues' := invalidValues + 1;
    case Valid(key, y) =>
      var total := (if key in m then m[key] else 0.0) + y;
      TalliedValid(seen, key, y, m, order, invalidDates, invalidValues);
      if key !in m {
        order' := order + [key];
      }
      m' := m[key := total];
  }

  /** A reading without a valid date or value only adds to its count. */
  lemma TalliedInvalid(seen: seq<Reading>, x: Reading, m: map<int, real>, order: seq<int>, invalidDates: nat, invalidValues: nat)
    requires Tallied(seen, m, order, invalidDates, invalidValues) && !x.Valid?
    ensures Tallied(seen + [x], m, order, invalidDates + (if x.BadDate? then 1 else 0),
                    invalidValues + (if x.BadValue? then 1 else 0))
  {
    ReadingStep(seen, x);
  }

  /** A valid reading adds its value to its day, recording a new day at the end. */
  lemma TalliedValid(seen: seq<Reading>, key: int, y: real, m: map<int, real>, order: seq<int>, invalidDates: nat, invalidValues: nat)
    requires Tallied(seen, m, order, invalidDates, invalidValues)
    ensures var total := (if key in m then m[key] else 0.0) + y;
      Tallied(seen + [Valid(key, y)], m[key := total], if key in m then order else order + [key],
              invalidDates, invalidValues)
  {
    var total := (if key in m then m[key] else 0.0) + y;
    ReadingStep(seen, Valid(key, y));
    KeyOrderSet(m, order, key, total);
    if key !in m {
      NoDayNoSum(seen, key);
    }
  }

  /** No key was recorded exactly when no reading was valid. */
  lemma TalliedEmpty(rds: seq<Reading>, m: map<int, real>, order: seq<int>, invalidDates: nat, invalidValues: nat)
    requires Tallied(rds, m, order, invalidDates, invalidValues)
    ensures order == [] <==> ValidCount(rds) == 0
  {
    ValidHasDay(rds);
    if order != [] {
      assert HasDay(rds, order[0]);
    } else {
      assert forall d :: !HasDay(rds, d);
    }
  }

  /** Points that are exactly the map's entries have exactly the valid days, each with
      its total. */
  lemma TalliedPoints(rds: seq<Reading>, m: map<int, real>, order: seq<int>, invalidDates: nat, invalidValues: nat, points: seq<Point>)
    requires Tallied(rds, m, order, invalidDates, invalidValues)
    requires forall q: Point :: q in points <==> q.date in m && q.value == m[q.date]
    ensures forall d :: (exists k :: 0 <= k < |points| && points[k].date == d) <==> HasDay(rds, d)
    ensures forall k :: 0 <= k < |points| ==> points[k].value == DaySum(rds, points[k].date)
  {
    forall d ensures (exists k :: 0 <= k < |points| && points[k].date == d) <==> HasDay(rds, d) {
      if HasDay(rds, d) {
        assert Point(d, m[d]) in points;
      }
      if exists k :: 0 <= k < |points| && points[k].date == d {
        var k :| 0 <= k < |points| && points[k].date == d;
        assert points[k] in points;
      }
    }
    forall k | 0 <= k < |points| ensures points[k].value == DaySum(rds, points[k].date) {
      assert points[k] in points;
    }
  }

  /** The `forEach` loop of `aggregateAndSort`: every row read and tallied. */
  method TallyRows(rows: seq<Row>, dateCol: string, targetCol: string, native: string -> Option<int>)
    returns (m: map<int, real>, order: seq<int>, invalidDateCount: nat, invalidValueCount: nat)
    ensures Tallied(Readings(rows, dateCol, targetCol, native), m, order, invalidDateCount, invalidValueCount)
  {
    m, order, invalidDateCount, invalidValueCount := map[], [], 0, 0;
    var i := 0;
    while i < |rows|
      invariant 0 <= i <= |rows|
      invariant Tallied(Readings(rows[..i], dateCol, targetCol, native), m, order, invalidDateCount, invalidValueCount)
    {
      var x := ReadRow(rows[i], dateCol, targetCol, native);
      ghost var seen := Readings(rows[..i], dateCol, targetCol, native);
      ReadingsSnoc(rows, dateCol, targetCol, native, i);
      m, order, invalidDateCount, invalidValueCount := Tally(x, m, order, invalidDateCount, invalidValueCount, seen);
      i := i + 1;
    }
    assert rows[..i] == rows;
  }

  /** `ps` is the series the readings add up to: one point per day that has a valid
      reading, in ascending date order, each holding that day's total. */
  ghost predicate AggregatedFrom(rds: seq<Reading>, ps: seq<Point>) {
    && StrictlyIncreasing(ps)
    && (forall d :: (exists k :: 0 <= k < |ps| && ps[k].date == d) <==> HasDay(rds, d))
    && (forall k :: 0 <= k < |ps| ==> ps[k].value == DaySum(rds, ps[k].date))
  }

  predicate HasDate(ps: seq<Point>, d: int) {
    exists k :: 0 <= k < |ps| && ps[k].date == d
  }

  lemma EmptyTogether(ps: seq<Point>, qs: seq<Point>)
    requires forall d :: HasDate(ps, d) <==> HasDate(qs, d)
    ensures ps == [] <==> qs == []
  {
    if ps != [] {
      assert HasDate(ps, ps[0].date);
    }
    if qs != [] {
      assert HasDate(qs, qs[0].date);
    }
  }

  /** Two ascending series over the same days have the same dates, position by position. */
  lemma {:induction false} SameDaysSameDates(ps: seq<Point>, qs: seq<Point>)
    requires StrictlyIncreasing(ps) && StrictlyIncreasing(qs)
    requires forall d :: HasDate(ps, d) <==> HasDate(qs, d)
    ensures |ps| == |qs| && forall k :: 0 <= k < |ps| ==> ps[k].date == qs[k].date
    decreases |ps|
  {
    EmptyTogether(ps, qs);
    if ps != [] {
      assert HasDate(ps, ps[0].date);
      assert HasDate(qs, qs[0].date);
      var j :| 0 <= j < |ps| && ps[j].date == qs[0].date;
      var i :| 0 <= i < |qs| && qs[i].date == ps[0].date;
      assert ps[0].date == qs[0].date;
      forall d ensures HasDate(ps[1..], d) <==> HasDate(qs[1..], d) {
        if HasDate(ps[1..], d) {
          var k :| 0 <= k < |ps[1..]| && ps[1..][k].date == d;
          assert ps[k + 1].date == d && d > ps[0].date;
          assert HasDate(qs, d);
          var m :| 0 <= m < |qs| && qs[m].date == d;
          assert m > 0 && qs[1..][m - 1].date == d;
        }
        if HasDate(qs[1..], d) {
          var k :| 0 <= k < |qs[1..]| && qs[1..][k].date == d;
          assert qs[k + 1].date == d && d > qs[0].date;
          assert HasDate(ps, d);
          var m :| 0 <= m < |ps| && ps[m].date == d;
          assert m > 0 && ps[1..][m - 1].date == d;
        }
      }
      SameDaysSameDates(ps[1..], qs[1..]);
      forall k | 0 <= k < |ps| ensures ps[k].date == qs[k].date {
        if k > 0 {
          assert ps[1..][k - 1].date == qs[1..][k - 1].date;
        }
      }
    }
  }

  /** The readings determine their series: `AggregatedFrom` has at most one solution. */
  lemma AggregatedUnique(rds: seq<Reading>, ps: seq<Point>, qs: seq<Point>)
    requires AggregatedFrom(rds, ps) && AggregatedFrom(rds, qs)
    ensures ps == qs
  {
    forall d ensures HasDate(ps, d) <==> HasDate(qs, d) {
      assert HasDate(ps, d) <==> HasDay(rds, d);
      assert HasDate(qs, d) <==> HasDay(rds, d);
    }
    SameDaysSameDates(ps, qs);
  }

  /** `aggregateAndSort`: the daily totals in ascending date order, or, when no row has
      both a date and a value, the numbers of rows lacking each. */
  method AggregateAndSort(rows: seq<Row>, dateCol: string, targetCol: string, native: string -> Option<int>)
    returns (r: Result<seq<Point>, AggregateError>)
    ensures var rds := Readings(rows, dateCol, targetCol, native);
      && (r.Err? <==> ValidCount(rds) == 0)
      && (r.Err? ==> r.error == NoValidRows(BadDates(rds), BadValues(rds)))
      && (r.Ok? ==>
            && StrictlyIncreasing(r.value)
            && (forall d :: (exists k :: 0 <= k < |r.value| && r.value[k].date == d) <==> HasDay(rds, d))
            && (forall k :: 0 <= k < |r.value| ==> r.value[k].value == DaySum(rds, r.value[k].date)))
    ensures r.Ok? ==> AggregatedFrom(Readings(rows, dateCol, targetCol, native), r.value)
  {
    var m, order, invalidDateCount, invalidValueCount := TallyRows(rows, dateCol, targetCol, native);
    ghost var rds := Readings(rows, dateCol, targetCol, native);
    TalliedEmpty(rds, m, order, invalidDateCount, invalidValueCount);
    var entries := Entries(m, order);
    var points := SortByDate(entries);
    if |points| == 0 {
      return Err(NoValidRows(invalidDateCount, invalidValueCount));
    }
    TalliedPoints(rds, m, order, invalidDateCount, invalidValueCount, points);
    r := Ok(points);
  }
}
