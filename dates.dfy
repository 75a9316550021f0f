/** Date coercion of a raw cell (parseDateValue in script.js). A date is the number of
    days since 1970-01-01 in the proleptic Gregorian calendar, which is what the
    pipeline keeps of a date once it has taken its UTC day key. The cell is tried, in
    order, as a spreadsheet serial number, by the host's own date parser (a parameter
    here), and as `D/M/Y` or `M/D/Y`. */
module Dates {
  import opened Wrappers
  import opened Text
  import opened Numeric

  /** Days since 1970-01-01 of year `y`, month `m`, day `d`. A day past the end of the
      month runs on into the next month, as `Date.UTC` does. */
  function DaysFromCivil(y: int, m: int, d: int): int
    requires 1 <= m <= 12
  {
    var y' := if m <= 2 then y - 1 else y;
    var era := y' / 400;
    var yoe := y' - era * 400;
    var mp := if m > 2 then m - 3 else m + 9;
    var doy := (153 * mp + 2) / 5 + d - 1;
    var doe := yoe * 365 + yoe / 4 - yoe / 100 + doy;
    era * 146097 + doe - 719468
  }

  predicate IsLeapYear(y: int) {
    y % 4 == 0 && (y % 100 != 0 || y % 400 == 0)
  }

  function MonthLength(y: int, m: int): int
    requires 1 <= m <= 12
  {
    if m == 2 then (if IsLeapYear(y) then 29 else 28)
    else if m == 4 || m == 6 || m == 9 || m == 11 then 30
    else 31
  }

  /** The month counted from March, as the day count numbers it. */
  function MarchMonth(m: int): int {
    if m > 2 then m - 3 else m + 9
  }

  /** The day of the year, counted from 1 March, on which month `m` starts. */
  function MarchDay(m: int): int {
    (153 * MarchMonth(m) + 2) / 5
  }

  /** Two first days of a month in the same March-based year lie as far apart as
      their months' starts. */
  lemma SameMarchYear(y1: int, m1: int, y2: int, m2: int)
    requires 1 <= m1 <= 12 && 1 <= m2 <= 12
    requires (if m1 <= 2 then y1 - 1 else y1) == (if m2 <= 2 then y2 - 1 else y2)
    ensures DaysFromCivil(y2, m2, 1) - DaysFromCivil(y1, m1, 1) == MarchDay(m2) - MarchDay(m1)
  {
  }

  /** The start of each month but February lies its length before the next one's. */
  lemma MarchDays(y: int, m: int)
    requires 1 <= m <= 12 && m != 2
    ensures MarchDay(if m == 12 then 1 else m + 1) == MarchDay(m) + MonthLength(y, m)
  {
    if m == 1 { assert MarchDay(2) == 337 && MarchDay(1) == 306; }
    else if m == 3 { assert MarchDay(4) == 31 && MarchDay(3) == 0; }
    else if m == 4 { assert MarchDay(5) == 61 && MarchDay(4) == 31; }
    else if m == 5 { assert MarchDay(6) == 92 && MarchDay(5) == 61; }
    else if m == 6 { assert MarchDay(7) == 122 && MarchDay(6) == 92; }
    else if m == 7 { assert MarchDay(8) == 153 && MarchDay(7) == 122; }
    else if m == 8 { assert MarchDay(9) == 184 && MarchDay(8) == 153; }
    else if m == 9 { assert MarchDay(10) == 214 && MarchDay(9) == 184; }
    else if m == 10 { assert MarchDay(11) == 245 && MarchDay(10) == 214; }
    else if m == 11 { assert MarchDay(12) == 275 && MarchDay(11) == 245; }
    else { assert MarchDay(1) == 306 && MarchDay(12) == 275; }
  }

  /** Every month other than February is followed, one month length later, by the
      first of the next month. */
  lemma MonthsFollow(y: int, m: int)
    requires 1 <= m <= 12 && m != 2
    ensures m < 12 ==> DaysFromCivil(y, m + 1, 1) == DaysFromCivil(y, m, 1) + MonthLength(y, m)
    ensures m == 12 ==> DaysFromCivil(y + 1, 1, 1) == DaysFromCivil(y, m, 1) + MonthLength(y, m)
  {
    MarchDays(y, m);
    if m < 12 {
      SameMarchYear(y, m, y, m + 1);
    } else {
      SameMarchYear(y, m, y + 1, 1);
    }
  }

  /** The year after the last of a 400-year era starts the next era. */
  lemma EraEnd(y: int, era: int)
    requires y == era * 400 + 400
    ensures y / 400 == era + 1 && y - (era + 1) * 400 == 0 && IsLeapYear(y)
  {
    assert y == 4 * (100 * era + 100);
  }

  /** Within an era, the year after year-of-era `yoe` is year-of-era `yoe + 1`. */
  lemma EraStep(y: int, era: int, yoe: int)
    requires y - 1 == era * 400 + yoe && 0 <= yoe < 399
    ensures y / 400 == era && y - era * 400 == yoe + 1 && y % 400 == yoe + 1
    ensures y % 4 == (yoe + 1) % 4 && y % 100 == (yoe + 1) % 100
  {
    assert y == era * 400 + (yoe + 1);
  }

  /** 1 March of year `y`, from its era and year of era. */
  lemma FirstOfMarch(y: int, era: int, yoe: int)
    requires y / 400 == era && y - era * 400 == yoe
    ensures DaysFromCivil(y, 3, 1) == era * 146097 + yoe * 365 + yoe / 4 - yoe / 100 - 719468
  {
  }

  /** 1 February of year `y`, from the era and year of era of the year before. */
  lemma FirstOfFebruary(y: int, era: int, yoe: int)
    requires (y - 1) / 400 == era && (y - 1) - era * 400 == yoe
    ensures DaysFromCivil(y, 2, 1) == era * 146097 + yoe * 365 + yoe / 4 - yoe / 100 + 337 - 719468
  {
  }

  /** Inside an era, the year after year-of-era `yoe` adds a leap day exactly when it
      is a leap year. */
  lemma LeapDay(y: int, yoe: int)
    requires 0 <= yoe < 399 && y % 400 == yoe + 1 && y % 4 == (yoe + 1) % 4 && y % 100 == (yoe + 1) % 100
    ensures (yoe + 1) / 4 - (yoe + 1) / 100 == yoe / 4 - yoe / 100 + (if IsLeapYear(y) then 1 else 0)
  {
    assert (yoe + 1) / 4 == yoe / 4 + (if (yoe + 1) % 4 == 0 then 1 else 0);
    assert (yoe + 1) / 100 == yoe / 100 + (if (yoe + 1) % 100 == 0 then 1 else 0);
  }

  /** The day before 1 March is 28 or 29 February. */
  lemma FebruaryLength(y: int)
    ensures DaysFromCivil(y, 3, 1) == DaysFromCivil(y, 2, 1) + MonthLength(y, 2)
  {
    var era := (y - 1) / 400;
    var yoe := (y - 1) - era * 400;
    FirstOfFebruary(y, era, yoe);
    if yoe == 399 {
      EraEnd(y, era);
      FirstOfMarch(y, era + 1, 0);
      assert DaysFromCivil(y, 2, 1) == era * 146097 + 146068 - 719468;
    } else {
      EraStep(y, era, yoe);
      FirstOfMarch(y, era, yoe + 1);
      LeapDay(y, yoe);
    }
  }

  /** The spreadsheet epoch 1899-12-30 and the Unix epoch. */
  const ExcelEpochDay: int := -25569

  lemma Epochs()
    ensures DaysFromCivil(1899, 12, 30) == ExcelEpochDay
    ensures DaysFromCivil(1970, 1, 1) == 0
  {
    assert 1899 / 400 == 4 && (153 * 9 + 2) / 5 == 275;
    assert 1969 / 400 == 4 && (153 * 10 + 2) / 5 == 306;
  }

  /** The first days of 2021, as the examples below use them. */
  lemma January2021()
    ensures DaysFromCivil(2021, 1, 1) == 18628
    ensures DaysFromCivil(2021, 1, 13) == 18640
  {
    assert 2020 / 400 == 5 && (153 * 10 + 2) / 5 == 306;
  }

  /** The serial branch: `Number(text)` strictly between 25000 and 80000 counts days
      from the spreadsheet epoch; the day key drops the time of day. */
  function SerialDay(text: string): (r: Option<int>)
    ensures r.Some? <==> (NumberOf(text).Some? && 25000.0 < NumberOf(text).value < 80000.0)
    ensures r.Some? ==> ExcelEpochDay + 25000 <= r.value < ExcelEpochDay + 80000
    ensures r.Some? ==> r.value == ExcelEpochDay + NumberOf(text).value.Floor
  {
    match NumberOf(text)
    case Some(x) => if 25000.0 < x < 80000.0 then Some(ExcelEpochDay + x.Floor) else None
    case None => None
  }

  // ---------------------------------------------------------------------------
  // The pattern `^(\d{1,2})[\/-](\d{1,2})[\/-](\d{2,4})$`.

  predicate IsDateSeparator(c: char) {
    c == '/' || c == '-'
  }

  /** The length of the run of digits at the start of `s`. */
  function LeadingDigits(s: string): (k: nat)
    ensures k <= |s| && AllDigits(s[..k])
    ensures k < |s| ==> !IsDigit(s[k])
  {
    if s == [] || !IsDigit(s[0]) then 0
    else
      var k := 1 + LeadingDigits(s[1..]);
      assert s[..k] == [s[0]] + s[1..][..k - 1];
      k
  }

  datatype SlashParts = SlashParts(first: nat, second: nat, year: nat)

  /** One or two digits and a separator at the start of `t`: the digits and what
      follows the separator. */
  function NextField(t: string): (r: Option<(string, string)>)
    ensures r.Some? ==> AllDigits(r.value.0) && 1 <= |r.value.0| <= 2
  {
    var k := LeadingDigits(t);
    if 1 <= k <= 2 && k < |t| && IsDateSeparator(t[k]) then Some((t[..k], t[k + 1..])) else None
  }

  /** The three numbers of a text of the shape `D{1,2} S D{1,2} S D{2,4}`, where S is
      `/` or `-`. Digits are never separators, so each field ends at the first
      non-digit. */
  function MatchSlashDate(t: string): Option<SlashParts> {
    match NextField(t)
    case None => None
    case Some((a, rest)) =>
      match NextField(rest)
      case None => None
      case Some((b, y)) =>
        if 2 <= |y| <= 4 && AllDigits(y) then Some(SlashParts(DigitsValue(a), DigitsValue(b), DigitsValue(y)))
        else None
  }

  /** The texts the pattern accepts, built from their fields. */
  predicate SlashShape(a: string, s1: char, b: string, s2: char, y: string) {
    1 <= |a| <= 2 && AllDigits(a) && 1 <= |b| <= 2 && AllDigits(b) && 2 <= |y| <= 4 && AllDigits(y)
    && IsDateSeparator(s1) && IsDateSeparator(s2)
  }

  function SlashText(a: string, s1: char, b: string, s2: char, y: string): string {
    a + [s1] + b + [s2] + y
  }

  /** The first field, its separator and the rest of the text. */
  lemma SlashJoin(a: string, s1: char, b: string, s2: char, y: string)
    ensures SlashText(a, s1, b, s2, y) == a + [s1] + (b + [s2] + y)
  {
  }

  lemma {:induction false} LeadingDigitsOf(d: string, c: char, r: string)
    requires AllDigits(d) && !IsDigit(c)
    ensures LeadingDigits(d + [c] + r) == |d|
  {
    if d != [] {
      assert (d + [c] + r)[1..] == d[1..] + [c] + r;
      LeadingDigitsOf(d[1..], c, r);
    }
  }

  lemma NextFieldOf(d: string, c: char, r: string)
    requires 1 <= |d| <= 2 && AllDigits(d) && IsDateSeparator(c)
    ensures NextField(d + [c] + r) == Some((d, r))
  {
    LeadingDigitsOf(d, c, r);
    var t := d + [c] + r;
    assert t[..|d|] == d && t[|d|] == c && t[|d| + 1..] == r;
  }

  /** The pattern accepts every text of the shape, with the fields' values. */
  lemma MatchSlashDateComplete(a: string, s1: char, b: string, s2: char, y: string)
    requires SlashShape(a, s1, b, s2, y)
    ensures MatchSlashDate(SlashText(a, s1, b, s2, y))
         == Some(SlashParts(DigitsValue(a), DigitsValue(b), DigitsValue(y)))
  {
    SlashJoin(a, s1, b, s2, y);
    NextFieldOf(a, s1, b + [s2] + y);
    NextFieldOf(b, s2, y);
  }

  /** A matched field is the digits, a separator and the rest of the text. */
  lemma NextFieldSplit(t: string)
    requires NextField(t).Some?
    ensures var (d, r) := NextField(t).value;
      |d| < |t| && IsDateSeparator(t[|d|]) && t == d + [t[|d|]] + r
  {
    var k := LeadingDigits(t);
    assert t == t[..k] + [t[k]] + t[k + 1..];
  }

  /** ... and nothing else. */
  lemma MatchSlashDateSound(t: string)
    requires MatchSlashDate(t).Some?
    ensures exists a, s1, b, s2, y ::
      (SlashShape(a, s1, b, s2, y) && t == SlashText(a, s1, b, s2, y)
       && MatchSlashDate(t) == Some(SlashParts(DigitsValue(a), DigitsValue(b), DigitsValue(y))))
  {
    var f := NextField(t).value;
    var a, rest := f.0, f.1;
    var g := NextField(rest).value;
    var b, y := g.0, g.1;
    NextFieldSplit(t);
    NextFieldSplit(rest);
    var s1, s2 := t[|a|], rest[|b|];
    assert 2 <= |y| <= 4 && AllDigits(y);
    assert SlashShape(a, s1, b, s2, y);
    SlashJoin(a, s1, b, s2, y);
    MatchSlashDateComplete(a, s1, b, s2, y);
  }

  /** Two-digit years are in the 2000s. */
  function FullYear(y: nat): nat {
    if y < 100 then y + 2000 else y
  }

  /** The fields of a matched text: a first field above 12 can only be the day, so it
      is read day-first; otherwise month-first. The month must lie in 1..12 and the
      day in 1..31. */
  function SlashFields(p: SlashParts): (r: Option<int>)
    ensures r.Some? <==> (if p.first > 12 then 1 <= p.second <= 12 && p.first <= 31
                          else 1 <= p.first && 1 <= p.second <= 31)
  {
    var dayFirst := p.first > 12;
    var month := if dayFirst then p.second else p.first;
    var day := if dayFirst then p.first else p.second;
    if 1 <= month <= 12 && 1 <= day <= 31 then Some(DaysFromCivil(FullYear(p.year), month, day))
    else None
  }

  /** A day above 12 may come first or second: both orders give the same date. */
  lemma DayFirstSwap(d: nat, m: nat, y: nat)
    requires 12 < d <= 31 && 1 <= m <= 12
    ensures SlashFields(SlashParts(d, m, y)) == SlashFields(SlashParts(m, d, y))
                                            == Some(DaysFromCivil(FullYear(y), m, d))
  {
  }

  /** A first field of at most 12 is the month: the text is read month-first. */
  lemma MonthFirstRead(m: nat, d: nat, y: nat)
    requires 1 <= m <= 12 && 1 <= d <= 31
    ensures SlashFields(SlashParts(m, d, y)) == Some(DaysFromCivil(FullYear(y), m, d))
  {
  }

  function SlashDay(text: string): Option<int> {
    match MatchSlashDate(text)
    case Some(p) => SlashFields(p)
    case None => None
  }

  /** parseDateValue: a missing or blank cell is no date; otherwise the trimmed text is
      tried as a serial, then by `native` (the host's date parser, giving the UTC day
      of what it parsed), then as a slash date. */
  function ParseDateValue(raw: Option<string>, native: string -> Option<int>): (r: Option<int>)
    ensures raw.None? ==> r.None?
    ensures raw.Some? && Trim(raw.value) == [] ==> r.None?
  {
    match raw
    case None => None
    case Some(s) =>
      var text := Trim(s);
      if text == [] then None
      else if SerialDay(text).Some? then SerialDay(text)
      else match native(text)
        case Some(d) => Some(d)
        case None => SlashDay(text)
  }

  /** A run of digits strictly between 25000 and 80000 is a serial. */
  lemma SerialOfDigits(ds: string)
    requires 1 <= |ds| && AllDigits(ds) && 25000 < DigitsValue(ds) < 80000
    ensures SerialDay(ds) == Some(ExcelEpochDay + DigitsValue(ds))
  {
    SignedInteger(false, ds, DigitsValue(ds) as real);
    assert SignText(false) + ds == ds;
    assert (DigitsValue(ds) as real).Floor == DigitsValue(ds);
  }

  /** A serial number is read the same whatever the host parser would say. */
  lemma SerialText(ds: string, native: string -> Option<int>)
    requires 1 <= |ds| && AllDigits(ds) && 25000 < DigitsValue(ds) < 80000
    ensures ParseDateValue(Some(ds), native) == Some(ExcelEpochDay + DigitsValue(ds))
  {
    assert IsDigit(ds[0]) && IsDigit(ds[|ds| - 1]);
    TrimIdentity(ds);
    SerialOfDigits(ds);
  }

  /** A slash date is not a number. */
  lemma SlashTextNotNumber(a: string, s1: char, b: string, s2: char, y: string)
    requires SlashShape(a, s1, b, s2, y)
    ensures NumberOf(SlashText(a, s1, b, s2, y)) == None
  {
    var t := SlashText(a, s1, b, s2, y);
    assert t[0] == a[0] && IsDigit(t[0]) && t[|t| - 1] == y[|y| - 1];
    TrimIdentity(t);
    NumberNeedsDigits(t, |a|);
  }

  /** A text whose first character is a digit and which has a character that is neither
      a digit nor a point is not a number. */
  lemma NumberNeedsDigits(t: string, j: nat)
    requires 0 < j < |t| && IsDigit(t[0]) && !IsDigit(t[j]) && t[j] != '.'
    requires Trim(t) == t
    ensures NumberOf(t) == None
  {
    var k := IndexOf(t, '.');
    IndexOfSpec(t, '.');
    if j < k {
      assert t[..k][j] == t[j];
    } else {
      assert t[k + 1..][j - k - 1] == t[j];
    }
  }

  /** When the host parser gives up, a slash date is read by its fields. */
  lemma SlashTextParses(a: string, s1: char, b: string, s2: char, y: string, native: string -> Option<int>)
    requires SlashShape(a, s1, b, s2, y)
    requires native(SlashText(a, s1, b, s2, y)).None?
    ensures ParseDateValue(Some(SlashText(a, s1, b, s2, y)), native)
         == SlashFields(SlashParts(DigitsValue(a), DigitsValue(b), DigitsValue(y)))
  {
    var t := SlashText(a, s1, b, s2, y);
    assert t[0] == a[0] && t[|t| - 1] == y[|y| - 1];
    TrimIdentity(t);
    SlashTextNotNumber(a, s1, b, s2, y);
    MatchSlashDateComplete(a, s1, b, s2, y);
  }

  lemma SmallNumbers()
    ensures DigitsValue("13") == 13 && DigitsValue("01") == 1 && DigitsValue("2021") == 2021
  {
    assert "13"[..1] == "1" && "01"[..1] == "0";
    assert "2021"[..3] == "202" && "202"[..2] == "20" && "20"[..1] == "2";
  }

  /** 13/01/2021 is read day-first: 13 January 2021. */
  lemma DayFirstExample(native: string -> Option<int>)
    requires native(SlashText("13", '/', "01", '/', "2021")).None?
    ensures ParseDateValue(Some(SlashText("13", '/', "01", '/', "2021")), native) == Some(DaysFromCivil(2021, 1, 13))
  {
    SmallNumbers();
    SlashTextParses("13", '/', "01", '/', "2021", native);
    DayFirstSwap(13, 1, 2021);
  }

  /** 01/13/2021 is read month-first: the same day. */
  lemma MonthFirstExample(native: string -> Option<int>)
    requires native(SlashText("01", '/', "13", '/', "2021")).None?
    ensures ParseDateValue(Some(SlashText("01", '/', "13", '/', "2021")), native) == Some(DaysFromCivil(2021, 1, 13))
  {
    SmallNumbers();
    SlashTextParses("01", '/', "13", '/', "2021", native);
  }

  lemma Serial44197()
    ensures DigitsValue("44197") == 44197
  {
    assert "44197"[..4] == "4419" && "4419"[..3] == "441" && "441"[..2] == "44" && "44"[..1] == "4";
  }

  /** The serial 44197 is 1 January 2021. */
  lemma SerialExample(native: string -> Option<int>)
    ensures ParseDateValue(Some("44197"), native) == Some(DaysFromCivil(2021, 1, 1))
  {
    January2021();
    Serial44197();
    SerialText("44197", native);
  }
}
