# Demand forecasting core, modelled in Dafny

This project models the computational core of a browser demand-forecasting tool
(`script.js`) and of its small Python twin (`forecast.py`), and proves properties of
that model.

The browser pipeline works like this:

1. It reads a delimited text upload. It detects the delimiter, splits each line with a
   quote-aware scanner, and maps header names to cells.
2. It coerces every row's date cell and value cell. Currency and percent symbols are
   stripped, and European, thousands and comma-decimal separators are rewritten. A date
   cell may be a spreadsheet serial, a text the host's date parser accepts, or a
   `D/M/Y` or `M/D/Y` text.
3. It sums the values per day and sorts the days.
4. It infers the regular step as the median positive gap. It lays a grid from the first
   day to the last and fills missing slots forward or by linear interpolation.
5. It profiles the series: a histogram, and weekday or month averages.
6. It benchmarks three models on a holdout: Holt's linear trend, seasonal naive, and
   trend plus seasonal index. They are ranked by mean absolute error.
7. It runs the model the user chose, or the best-ranked one, and lays out the chart
   axis.

`forecast.py` fits a least-squares line to the history and extends it for a number of
days (14 when none is given, `LinearForecast.DefaultPeriods`), clipped at zero and
rounded to cents.

**How things are represented**
- Numbers are exact `real`s.
- A JavaScript `NaN` or `null` is `None`.
- Dates are integer day numbers counted from 1970-01-01 (UTC).
- Strings are `seq<char>`.
- Errors the source throws are `Err` values carrying the source's message or cause.
- The host's native date parser is a function parameter `native`. The file upload and
  the page are not modelled.

**Form of the model.** It follows the source's own form: loops become methods with
invariants, proved equal to specification functions, and the properties are lemmas
about those functions.
- `fillMissing` fills an `array<Option<real>>` in place, and `forecastTrendSeasonal`
  centres its `seasonal` array in place.
- Delimiter detection, the line scanner, CSV assembly, aggregation, the histogram and
  seasonal tallies, the three forecasting loops and the Python forecast loop are each
  a method.
- Numeric and date coercion, `runModel`, `benchmarkModels` and the Python record are
  functions.

**Three behaviours of the code worth noting:**
- Holt's one-step forecast is the previous level plus the *updated* trend (lines
  364-367 of `script.js`).
- Holt's single-observation case repeats the value without clipping or rounding
  (line 355).
- The seasonal index is centred by the mean of the per-slot averages (line 422).

Module layout, one file each:
- `wrappers.dfy`: `Option`, `Result`.
- `text.dfy`: trim, split, replace and remove on strings.
- `delimited.dfy`
- `numeric.dfy`
- `dates.dfy`
- `aggregate.dfy`
- `impute.dfy`
- `stats.dfy`
- `regression.dfy`: the least-squares line shared by both programs.
- `holt.dfy`
- `seasonal.dfy`
- `benchmark.dfy`
- `app.dfy`
- `linear.dfy`: `forecast.py`.

## Model

| member | source | states |
|---|---|---|
| Text.TrimStart | script.js:60 | the result is no longer than the input and does not start with whitespace |
| Text.TrimEnd | script.js:60 | the result is no longer than the input and does not end with whitespace |
| Text.TrimStartCutsSpace | script.js:60 | the start trim keeps a suffix of the text, and every character it cuts is whitespace |
| Text.TrimEndCutsSpace | script.js:60 | the end trim keeps a prefix of the text, and every character it cuts is whitespace |
| Text.Trim | script.js:60 | `trim` is the end trim of the start trim: by `Text.TrimStartCutsSpace` and `Text.TrimEndCutsSpace` it keeps the middle of the text and cuts only whitespace, and by `Text.TrimIdentity` it leaves an already trimmed text alone |
| Text.TrimIdentity | script.js:81 | a text that neither starts nor ends with whitespace is its own trim |
| Text.SplitOnLength | script.js:30 | `split(c)` yields one more piece than there are occurrences of `c` |
| Text.SplitOnPieces | script.js:30 | no piece of `split(c)` contains `c` |
| Text.JoinSplitOn | script.js:30 | joining the pieces of `split(c)` with `c` gives back the text |
| Text.RemoveWhere | script.js:84 | a global regex removal keeps no character of the removed class and never lengthens the text |
| Text.RemoveWhereNone | script.js:84 | removal from a text without such characters changes nothing |
| Text.RemoveWhereAppend | script.js:84 | removal distributes over concatenation |
| Text.RemoveCharAppend | script.js:87 | removing every `.` (or `,`) distributes over concatenation |
| Text.RemoveCharAbsent | script.js:89 | removing a character that does not occur changes nothing |
| Text.ReplaceFirst | script.js:87 | `replace(',', '.')` keeps the length of the text |
| Text.IndexOfSpec | script.js:87 | the found index holds the character and nothing before it does; the length means absent |
| Text.ReplaceFirstAt | script.js:91 | only the first occurrence is replaced, and without one the text is unchanged |
| Text.ReplaceFirstSkip | script.js:87 | a prefix without the character passes through the replacement untouched |
| Text.LowerAll | script.js:146-147 | lower-casing maps every character and keeps the length (the `/i` flag) |
| Text.ContainsFrom | script.js:146-147 | the search is true exactly when the pattern occurs at or after the start position |
| Delimited.DetectDelimiter | script.js:25-37 | the chosen candidate has the greatest split count, and every earlier candidate a strictly smaller one |
| Delimited.BestDelimiterUnique | script.js:29-35 | the best delimiter is uniquely determined by the header line |
| Delimited.CommaWinsTies | script.js:26-34 | when no candidate occurs more often than the comma, the comma is chosen |
| Delimited.Scan | script.js:39-59 | the quote-aware scanner always yields at least one field |
| Delimited.TrimAll | script.js:60 | every field is trimmed, and the count and order are kept |
| Delimited.Fields | script.js:39-61 | the trimmed fields of the scan: by `Delimited.FieldsWithoutQuotes` and `Delimited.EncodeLineRoundTrip` a line without quotes gives its trimmed split, and an encoded line gives back its fields trimmed |
| Delimited.ParseDelimitedLine | script.js:39-61 | the character loop yields exactly the scanner's trimmed fields, at least one |
| Delimited.FieldsWithoutQuotes | script.js:39-61 | a line without `"` gives its split on the delimiter, each piece trimmed, with one more field than delimiters |
| Delimited.ScanEscaped | script.js:45-48 | inside quotes every doubled `""` is one literal `"` and the closing quote ends the quoted text |
| Delimited.ScanQuoted | script.js:45-52 | a quoted field, delimiters and doubled quotes included, is read back as its text |
| Delimited.ScanEncoded | script.js:39-59 | scanning a line of quoted, escaped fields yields exactly those fields |
| Delimited.EncodeLineRoundTrip | script.js:39-61 | for every candidate delimiter, parsing the encoding of any fields gives the fields trimmed |
| Delimited.SplitLines | script.js:64 | `/\r?\n/` splitting gives one more line than newlines |
| Delimited.NonBlank | script.js:64 | no kept line is blank after trimming, and no more lines come out than go in |
| Delimited.NonBlankMembers | script.js:64 | a line is kept exactly when it is one of the input lines and not blank |
| Delimited.NonBlankAppend | script.js:64 | the filter works part by part: on a concatenation it keeps each part's lines, in order |
| Delimited.NonBlankOne | script.js:64 | a single line is kept exactly when it is not blank |
| Delimited.MakeRow | script.js:72-73 | the row object built one header at a time; `Delimited.MakeRowSpec` states its keys and cells |
| Delimited.MakeRowSpec | script.js:72-73 | a row has exactly the header keys, and each holds its column's cell or `''` when the line is short (the last duplicate header wins) |
| Delimited.ParseCsv | script.js:63-77 | fewer than 2 non-blank lines is the data-row error; otherwise the headers are the first line's fields under the best delimiter, and row `i` maps them to line `i + 1`'s fields |
| Delimited.FindFirst | script.js:146-147 | `find` returns the first matching index, or none when no header matches |
| Delimited.GuessDateColumn | script.js:146 | the first header mentioning date, ds or timestamp, otherwise the first header |
| Delimited.GuessTargetColumn | script.js:147 | the first header mentioning a demand word, otherwise the second header (the first when there is only one) |
| Numeric.NumberOf | script.js:96 | `Number` of a blank text is 0 |
| Numeric.PointEdgeExamples | script.js:96 | `Number` reads `.5` as 0.5 and `5.` as 5, and a lone `.` as not a number |
| Numeric.ParseNumericValue | script.js:79-97 | a null or blank cell is NaN, and a cell that is only symbols and spaces is 0 |
| Numeric.Show | script.js:86-91 | the decimal rendering of `n` is digits whose value is `n`, with the expected digit count |
| Numeric.Group | script.js:86-89 | the rendering of `n` with thousands separators is digits and separators in groups of three |
| Numeric.UngroupedDigits | script.js:87-89 | removing the separators from a grouped rendering leaves the digits of `n` |
| Numeric.DigitsValueAppend | script.js:96 | the value of concatenated digit strings is positional |
| Numeric.SymbolIgnored | script.js:84 | a currency sign or `%` anywhere in a cell is ignored |
| Numeric.SpaceIgnored | script.js:84 | whitespace anywhere in a cell is ignored |
| Numeric.Clean | script.js:84 | the cell without currency, percent and white space: `Numeric.SymbolIgnored` and `Numeric.SpaceIgnored` state that these characters do not change the value, and `Numeric.NoSpaceOrSymbol` that a plain cell is unchanged |
| Numeric.Rewrite | script.js:86-94 | the first of the European, thousands and comma-decimal rewrites whose pattern matches, else dropping commas; the round-trip lemmas `Numeric.EuropeanRoundTrip`, `Numeric.ThousandsRoundTrip`, `Numeric.CommaDecimalRoundTrip` and `Numeric.PlainRoundTrip` state what each branch gives |
| Numeric.PlainCell | script.js:84-96 | a cell with no symbols or spaces is the `Number` of its rewrite |
| Numeric.EuropeanMatches | script.js:86 | `[-]d.ddd,f` is matched by the European pattern |
| Numeric.EuropeanRewrite | script.js:87 | the European rewrite drops the dots and turns the comma into a point |
| Numeric.EuropeanRoundTrip | script.js:86-96 | every signed European rendering of `n,f` parses to `±(n + 0.f)` |
| Numeric.ThousandsNotEuropean | script.js:86 | a comma-grouped number with a decimal point is not European |
| Numeric.ThousandsMatches | script.js:88 | a comma-grouped number of at least 1000 with a fraction matches the thousands pattern |
| Numeric.ThousandsRoundTrip | script.js:88-96 | every signed comma-grouped `n.f` (`n >= 1000`) parses to `±(n + 0.f)` |
| Numeric.TwoCommasNotEuropean | script.js:86 | a number with two comma groups is not European |
| Numeric.IntegerThousandsMatches | script.js:88 | a comma-grouped integer of at least 1000 matches the thousands pattern |
| Numeric.ThousandsIntegerRoundTrip | script.js:86-96 | a signed comma-grouped integer of a million or more parses to itself |
| Numeric.SingleCommaEuropean | script.js:86 | a single comma group (`1,234`) is matched by the European pattern first |
| Numeric.SingleThousandsCommaIsDecimal | script.js:86-96 | so `n` in 1000..999999 written with one comma parses to `n / 1000` |
| Numeric.LongCommaNotEuropean | script.js:86 | four or more digits before a comma are not European |
| Numeric.LongCommaNotThousands | script.js:88 | nor thousands-grouped |
| Numeric.LongCommaDecimal | script.js:90 | but they match the comma-decimal pattern |
| Numeric.CommaDecimalRoundTrip | script.js:86-96 | every signed `n,f` parses to `±(n + 0.f)`, whichever of the two comma patterns catches it |
| Numeric.CommaFreeRewrite | script.js:92-93 | a text without commas and without comma groups reaches `Number` unchanged |
| Numeric.PlainRoundTrip | script.js:79-96 | every signed `n.f` without separators parses to `±(n + 0.f)` |
| Numeric.PlainIntegerRoundTrip | script.js:79-96 | every signed integer without separators parses to itself |
| Numeric.ExampleEuropean | script.js:86-87 | `"1.234,56"` parses to 1234.56 |
| Numeric.ExampleThousands | script.js:88-89 | `"1,234.56"` parses to 1234.56 |
| Numeric.ExampleCommaDecimal | script.js:90-91 | `"-1234,5"` parses to -1234.5 |
| Numeric.ExampleThousandsInteger | script.js:88-89 | `"1,234,567"` parses to 1234567 |
| Numeric.ExampleSingleComma | script.js:86-87 | `"1,234"` parses to 1.234 |
| Numeric.EdgeExamples | script.js:80-82 | null, empty and all-blank cells are NaN |
| Numeric.LoneCurrency | script.js:84-96 | a lone `"$"` parses to 0 |
| Dates.DaysFromCivil | script.js:129 | `Date.UTC` as a day number; `Dates.Epochs`, `Dates.MonthsFollow` and `Dates.FebruaryLength` state its epoch and month lengths |
| Dates.MonthsFollow | script.js:129 | the first of each month except February is the first of the previous month plus its length, across the year end too |
| Dates.FebruaryLength | script.js:129 | the first of March is the first of February plus 28 or 29 days by the Gregorian leap rule |
| Dates.Epochs | script.js:99-102 | 1899-12-30 is day -25569 and 1970-01-01 is day 0 |
| Dates.January2021 | script.js:129 | 2021-01-01 and 2021-01-13 are days 18628 and 18640 |
| Dates.SerialDay | script.js:109-113 | a serial exists exactly when `Number(text)` lies strictly between 25000 and 80000, and it is that many days after the spreadsheet epoch |
| Dates.SerialOfDigits | script.js:109-111 | a digit run strictly between 25000 and 80000 is the spreadsheet epoch plus its value |
| Dates.LeadingDigits | script.js:118 | the counted prefix is all digits and is followed by a non-digit or the end |
| Dates.NextField | script.js:118 | a matched field is one or two digits |
| Dates.MatchSlashDateComplete | script.js:118 | every `dd/dd/yyyy` text (with `/` or `-`, 1-2, 1-2 and 2-4 digits) matches, with its three numbers |
| Dates.MatchSlashDateSound | script.js:118 | every match comes from such a text |
| Dates.SlashFields | script.js:120-131 | a date is produced exactly when the day-first or month-first reading has month 1..12 and day 1..31 |
| Dates.DayFirstSwap | script.js:125-127 | a first field above 12 is read as the day, so both orders name the same date |
| Dates.MonthFirstRead | script.js:125-129 | a first field of at most 12 is the month and the second the day, for every date |
| Dates.ParseDateValue | script.js:104-107 | a null or blank cell is no date |
| Dates.SerialText | script.js:109-113 | a digit run strictly between 25000 and 80000 is read as a serial before the native parser is asked |
| Dates.SlashTextNotNumber | script.js:109-110 | a slash date is not a number, so the serial branch never takes it |
| Dates.NumberNeedsDigits | script.js:109 | a text with a non-digit, non-point character after its first digit is not a number |
| Dates.SlashTextParses | script.js:115-131 | when the native parser rejects a slash date, its fields decide the day |
| Dates.DayFirstExample | script.js:118-131 | `13/01/2021` is 2021-01-13 |
| Dates.MonthFirstExample | script.js:118-131 | `01/13/2021` is 2021-01-13 |
| Dates.SerialExample | script.js:109-113 | serial `44197` is 2021-01-01 |
| Aggregate.Cell | script.js:160-161 | a cell is present exactly when the row has the column |
| Aggregate.Classify | script.js:160-169 | a bad date wins over a bad value; a valid reading carries the parsed day and value |
| Aggregate.Readings | script.js:159 | one reading per row |
| Aggregate.CountsPartition | script.js:162-169 | bad dates, bad values and valid readings add up to the number of rows |
| Aggregate.ValidHasDay | script.js:179 | no valid reading is the same as no day at all |
| Aggregate.NoDayNoSum | script.js:172 | a day without readings sums to 0 |
| Aggregate.InsertByDate | script.js:177 | inserting a new date keeps the order strict and the contents exact |
| Aggregate.SortByDate | script.js:177 | sorting distinct dates gives a strictly increasing permutation |
| Aggregate.KeyOrderSet | script.js:172 | a `Map.set` appends a key to the insertion order only when it is new |
| Aggregate.Entries | script.js:175-176 | the map's entries are exactly its key/value pairs, with distinct dates |
| Aggregate.ReadRow | script.js:160-169 | reading a row classifies it |
| Aggregate.Tally | script.js:162-172 | one row's step keeps map, order and both counters in step with the readings so far |
| Aggregate.TalliedEmpty | script.js:179 | the map is empty exactly when no reading was valid |
| Aggregate.TalliedPoints | script.js:175-176 | the entries have exactly the read days, each with its day's sum |
| Aggregate.TallyRows | script.js:159-173 | the loop over all rows tallies exactly their readings |
| Aggregate.AggregateAndSort | script.js:154-185 | no valid row is the error with both counts; otherwise the points are strictly increasing, cover exactly the valid days, and each holds the sum of its day's values; in short the points are `AggregatedFrom` the readings |
| Aggregate.SameDaysSameDates | script.js:175-176 | two strictly ascending series over the same set of days have the same dates in the same positions |
| Aggregate.AggregatedUnique | script.js:154-185 | the readings determine the aggregated series: two series `AggregatedFrom` the same readings are equal |
| Impute.InferStep | script.js:205 | the step of the gaps: `Impute.StepIsMedian`, `Impute.StepIsGap`, `Impute.StepPositive` and `Impute.StepOfEqualGaps` state that it is their upper median, one of them, positive, and the common gap of equal gaps |
| Impute.InferGranularity | script.js:187-192 | a custom granularity carries its step, which is above 40 days |
| Impute.GranularityMonotone | script.js:187-192 | a longer step never gives a finer granularity |
| Impute.Gaps | script.js:199-203 | every kept gap is positive |
| Impute.PositiveGaps | script.js:199-203 | the loop collects exactly the positive gaps, in order |
| Impute.InsertAscending | script.js:205 | insertion adds exactly one element |
| Impute.InsertKeepsAscending | script.js:205 | insertion keeps a sequence ascending |
| Impute.SortAscending | script.js:205 | the numeric sort is an ascending permutation |
| Impute.StepIsGap | script.js:205 | the step is one of the gaps |
| Impute.StepIsMedian | script.js:205 | the step is the sorted gaps' element at `floor(k / 2)`: no smaller than those before it, no larger than those after |
| Impute.StepPositive | script.js:202-205 | the step is at least 1, including when there are no positive gaps |
| Impute.StepOfEqualGaps | script.js:205 | equal gaps give that gap as the step |
| Impute.GridDatesSpec | script.js:213 | the grid is start, start + step, …, every date at most the end and the next one past it |
| Impute.ValueByDateKeys | script.js:208 | the lookup table's keys are exactly the points' dates |
| Impute.ValueByDateOfDistinct | script.js:208 | with distinct dates each point's date looks up its value |
| Impute.Slots | script.js:214 | one slot per grid date |
| Impute.SlotsAt | script.js:214 | each slot holds the value recorded for its date, if any |
| Impute.PrevKnown | script.js:224-225 | the backward scan stops at a known slot or -1 |
| Impute.PrevKnownNearest | script.js:224-225 | every slot it skips is missing |
| Impute.NextKnown | script.js:226-227 | the forward scan stops at a known slot or the end |
| Impute.NextKnownNearest | script.js:226-227 | every slot it skips is missing |
| Impute.SteppedIsLinear | script.js:229-231 | index-weighted interpolation across a run lies on the line between the two known neighbours |
| Impute.ForwardCopiesPrevious | script.js:221-222 | forward fill copies the previous filled value |
| Impute.InterpolateStep | script.js:224-238 | a gap interpolates from the previous filled slot toward the next known one, or copies it when none follows |
| Impute.TrailingCopiesPrevious | script.js:232-233 | gaps after the last known slot copy the previous value, for both strategies |
| Impute.InterpolateLinear | script.js:229-231 | between known neighbours at `p` and `q` slot `i` is `v_p + (i - p)(v_q - v_p)/(q - p)` |
| Impute.InterpolateExample | script.js:229-231 | one gap between 10 and 20 becomes 15 |
| Impute.InterpolatedIsFilled | script.js:224-238 | interpolating over the partly filled array gives the filled value of the original slots |
| Impute.InterpolateAt | script.js:224-238 | the two scans and the ratio compute the interpolated value on the array as it stands |
| Impute.FillSlots | script.js:217-241 | the in-place loop counts the missing slots and leaves every slot filled with its strategy's value |
| Impute.LayGrid | script.js:208-215 | the date loop lays exactly the grid and its looked-up slots |
| Impute.FillGrid | script.js:217-244 | the filled series has one point per grid date, with the fill of its slot, and `added` counts the missing slots |
| Impute.FillMissing | script.js:194-249 | fewer than 2 points are returned as they are with step 1; otherwise the median step, its granularity, the grid from first to last date and every slot's fill; in short the result is `FillingOf` the points |
| Impute.FillingUnique | script.js:194-249 | a series and a strategy determine the filling: two `FillingOf` results are equal |
| Impute.MissingZero | script.js:219-220 | nothing is added exactly when every slot is known |
| Impute.EvenGaps | script.js:199-203 | an evenly spaced series has all its gaps equal to the spacing |
| Impute.EvenGrid | script.js:213 | an evenly spaced series's grid is its own dates |
| Impute.EvenSlots | script.js:214 | and every slot is known |
| Impute.EvenlySpacedUnchanged | script.js:194-244 | a gap-free regular series keeps its step, adds nothing and keeps every date and value, with either strategy |
| Impute.KnownSlotKeeps | script.js:219 | a slot whose date had a point keeps that point's value |
| Stats.Round2 | script.js:352 | `Number(v.toFixed(2))`: `Stats.Round2Close`, `Stats.Round2Sign`, `Stats.Round2Cents`, `Stats.Round2Idempotent` and `Stats.Round2Monotone` state its properties |
| Stats.Round2Close | script.js:352 | rounding to cents moves a value by at most half a cent |
| Stats.Round2Sign | script.js:352 | rounding keeps the sign and is symmetric about 0 |
| Stats.Round2Cents | script.js:352 | whole cents are kept exactly |
| Stats.Round2Idempotent | script.js:352 | rounding twice is rounding once |
| Stats.Round2Monotone | script.js:352 | rounding is monotone |
| Stats.Clip | script.js:352 | one value of `clipPositive`; `Stats.ClipProperties` states it |
| Stats.ClipProperties | script.js:352 | a clipped value is non-negative, 0 for non-positive inputs, the rounded value otherwise, and clipping is idempotent |
| Stats.ClipAll | script.js:352 | `clipPositive` keeps the length |
| Stats.ClipAllNonNegative | script.js:352 | every clipped value is non-negative |
| Stats.SumNonNegative | script.js:251 | non-negative terms have a non-negative sum, which is 0 exactly when every term is |
| Stats.SumBounds | script.js:251 | the sum lies between `n` times the bounds |
| Stats.Mean | script.js:251 | the sum over the count; `Stats.MeanBounds`, `Stats.MeanNonNegative` and `Stats.MeanConstant` state its properties |
| Stats.MeanBounds | script.js:251 | the mean lies between any bounds of the terms |
| Stats.MeanNonNegative | script.js:251 | non-negative terms have a non-negative mean |
| Stats.MeanConstant | script.js:251 | a constant sequence has that constant as its mean |
| Stats.AbsErrors | script.js:343 | one absolute error per actual value |
| Stats.Mae | script.js:343 | the mean of the absolute errors; `Stats.MaeZero` states its properties |
| Stats.MaeZero | script.js:343 | the MAE is non-negative, and 0 exactly when the prediction equals the actuals |
| Stats.Ratios | script.js:346-348 | zero actuals are skipped, so the ratios are no more than the actuals |
| Stats.RatiosNonNegative | script.js:347 | every ratio is non-negative |
| Stats.RatiosOfExact | script.js:347 | an exact prediction has zero ratios |
| Stats.RatiosOfZeros | script.js:346-348 | all-zero actuals leave no ratio |
| Stats.Mape | script.js:345-350 | the mean percentage error over the non-zero actuals, 0 without any; `Stats.MapeNonNegative`, `Stats.MapeOfExact` and `Stats.MapeOfZeros` state its properties |
| Stats.MapeNonNegative | script.js:345-350 | the MAPE is non-negative |
| Stats.MapeOfExact | script.js:345-350 | an exact prediction has MAPE 0 |
| Stats.MapeOfZeros | script.js:349 | all-zero actuals give MAPE 0 |
| Stats.MinOf | script.js:265 | `Math.min` is an element no larger than any other |
| Stats.MaxOf | script.js:266 | `Math.max` is an element no smaller than any other |
| Stats.BinOf | script.js:274-275 | the bin index is below the bin count |
| Stats.BinOfInterval | script.js:271-275 | a value below the maximum falls in the bin whose interval holds it; the maximum goes to the last bin |
| Stats.Binned | script.js:272-277 | there is one count per bin |
| Stats.BinnedTotal | script.js:273-277 | the counts add up to the number of values |
| Stats.HistogramTotal | script.js:264-277 | one bin when min equals max, otherwise `bins`, and the counts always add up to the number of values |
| Stats.HistogramOfSpread | script.js:267-272 | with spread the width is positive and the counts are the values binned from the minimum |
| Stats.CountBins | script.js:272-277 | the counting loop computes exactly the binned counts |
| Stats.Histogram | script.js:264-277 | the histogram method computes the counts of its specification |
| Stats.WeekdayCycle | script.js:293 | the weekday advances by one each day and repeats every 7 |
| Stats.CivilMonth | script.js:308 | the month of a day lies in 1..12 |
| Stats.MonthOfEpoch | script.js:308 | day 0 is in January |
| Stats.MonthOfCenturyEnd | script.js:308 | 1999-12-31 is in December |
| Stats.MonthOfLeapDay | script.js:308 | 2024-02-29 is in February and the next day in March |
| Stats.BucketOf | script.js:293-308 | a weekday bucket is below 7 and a month bucket below 12 |
| Stats.BucketsOf | script.js:292-308 | one bucket per point, each below the bucket count |
| Stats.SumsByKey | script.js:294-309 | one sum per bucket |
| Stats.CountsByKey | script.js:295-310 | one count per bucket |
| Stats.CountsByKeyTotal | script.js:295-310 | the counts add up to the number of points |
| Stats.SumsByKeyTotal | script.js:294-309 | the bucket sums add up to the total |
| Stats.SumsByKeyNonNegative | script.js:294-309 | non-negative values give non-negative bucket sums |
| Stats.ValuesOf | script.js:294 | one value per point |
| Stats.BucketSums | script.js:290-311 | one sum per weekday or month |
| Stats.BucketSizes | script.js:291-311 | one count per weekday or month |
| Stats.BucketTotals | script.js:290-311 | the bucket counts cover every point and the sums add up to the total |
| Stats.AveragesNonNegative | script.js:299-315 | non-negative values give non-negative averages, empty buckets 0 |
| Stats.TallyByKey | script.js:290-296 | the tally loop computes exactly the per-bucket sums and counts |
| Stats.SeasonalityProfile | script.js:287-318 | weekday names and title for daily series, month names otherwise, and each bucket's average of its points (0 when empty) |
| Regression.Fit | forecast.py:37-47 | the least-squares line; `Regression.FitThroughMeans`, `Regression.FitOfSingle` and `Regression.FitOfLine` state its properties |
| Regression.DenPositive | forecast.py:45-46 | with two or more points the centred square sum is positive |
| Regression.FitThroughMeans | forecast.py:42-47 | the fitted line passes through the point of means |
| Regression.FitOfSingle | script.js:408-409 | one point gives slope 0 and the point as intercept |
| Regression.LinePath | forecast.py:50-51 | the line's values over the horizon, one per step |
| Regression.FitOfLine | forecast.py:42-47 | an exactly linear series of two or more points is fitted by its own line |
| Regression.TrendLine | script.js:400-409 | the accumulating loop computes the least-squares slope and intercept |
| HoltLinear.OneStep | script.js:362-368 | one one-step forecast per smoothed observation |
| HoltLinear.RunStep | script.js:363-368 | each loop step updates level and trend and records the previous level plus the new trend |
| HoltLinear.ErrorSumIsSum | script.js:369 | the accumulated error is the sum of the absolute one-step errors |
| HoltLinear.ScoreIsMae | script.js:369 | a pair's score is the MAE of the one-step forecasts against `train[1..]` |
| HoltLinear.ConsiderStep | script.js:370 | a candidate replaces the best only when strictly better |
| HoltLinear.SearchFindsFirstMin | script.js:357-372 | the grid search finds a pair of minimal score, strictly better than every pair before it in α-then-β order |
| HoltLinear.ParametersOf | script.js:370 | the chosen weights are the found grid point's tenths |
| HoltLinear.Extend | script.js:382-383 | one value per horizon step |
| HoltLinear.HoltForecast | script.js:354-385 | `horizon` values |
| HoltLinear.RunOfLine | script.js:360-368 | on an exactly linear series the smoothing stays on the line, whatever the weights |
| HoltLinear.OneStepOfLine | script.js:362-368 | and every one-step forecast hits the next observation |
| HoltLinear.ScoreOfLine | script.js:369 | so every pair scores 0 |
| HoltLinear.ExtendOfLine | script.js:383 | extending a state on a line continues the line |
| HoltLinear.HoltOfLine | script.js:354-385 | an exactly linear series is forecast along its line, clipped |
| HoltLinear.HoltOfTwoPoints | script.js:354-385 | `10, 12` forecasts `14` one step ahead |
| HoltLinear.HoltShape | script.js:355-384 | a single value is repeated unclipped; otherwise every forecast is non-negative |
| HoltLinear.ScorePair | script.js:360-369 | the smoothing loop computes the pair's score |
| HoltLinear.SelectWeights | script.js:357-372 | the nested loops choose the weights of the first minimal grid point |
| HoltLinear.Smooth | script.js:374-380 | the refit loop ends in the chosen smoothing's final state |
| HoltLinear.Extrapolate | script.js:382-383 | the output loop extends level and trend |
| HoltLinear.ForecastHolt | script.js:354-385 | the method computes the Holt forecast |
| Seasonal.SeasonLag | script.js:388 | the lag is `max(1, min(seasonLength, n))` |
| Seasonal.NaiveForecast | script.js:387-394 | `horizon` values |
| Seasonal.NaiveIsRepeated | script.js:390-393 | the forecast is the last season repeated, clipped |
| Seasonal.NaiveFirstSeason | script.js:391 | the first season of the forecast is the last season of the training series, clipped |
| Seasonal.NaivePeriodic | script.js:391 | the forecast repeats with period `s` |
| Seasonal.NaiveNonNegative | script.js:393 | every forecast is non-negative |
| Seasonal.ForecastSeasonalNaive | script.js:387-394 | the loop computes the seasonal naive forecast |
| Seasonal.Residuals | script.js:414-419 | one residual per observation |
| Seasonal.Phases | script.js:416 | one phase per observation, each below `s` |
| Seasonal.Averages | script.js:420 | one average per slot |
| Seasonal.Centre | script.js:422-423 | centring keeps the length |
| Seasonal.CentreSumsToZero | script.js:422-423 | centred values sum to 0 |
| Seasonal.SeasonalIndices | script.js:411-423 | one index per season slot |
| Seasonal.IndicesCentred | script.js:411-423 | the seasonal indices sum to 0 |
| Seasonal.IndicesOfLine | script.js:414-423 | an exactly linear series has all seasonal indices 0 |
| Seasonal.Project | script.js:425-429 | `horizon` values |
| Seasonal.TrendSeasonalForecast | script.js:396-431 | `horizon` values |
| Seasonal.TrendSeasonalOfLine | script.js:396-431 | an exactly linear series of 3 or more points is forecast along its line, clipped |
| Seasonal.TrendSeasonalShape | script.js:398-430 | under 3 points it is Holt's forecast; otherwise every value is non-negative |
| Seasonal.CentredAverages | script.js:420-423 | the two in-place loops compute the centred slot averages |
| Seasonal.ProjectLoop | script.js:425-429 | the output loop computes the projection |
| Seasonal.ForecastTrendSeasonal | script.js:396-431 | the method computes the trend-seasonal forecast |
| Benchmark.ModelNames | script.js:433-437 | names and models correspond one to one |
| Benchmark.Forecast | script.js:434-436 | each model forecasts `horizon` values |
| Benchmark.RunModel | script.js:433-438 | a known name runs its model; any other name is the unknown-model error naming it |
| Benchmark.HoldoutLength | script.js:441 | `Math.min(Math.max(3, holdout), Math.floor(n / 2))`; `Benchmark.HoldoutBounds` states its bounds |
| Benchmark.HoldoutBounds | script.js:441-443 | the holdout is `min(max(3, holdout), floor(n / 2))`, at least 1, and leaves at least as many training points |
| Benchmark.HoldoutExamples | script.js:441 | 100 on 20 points gives 10, 6 on 40 gives 6, 1 on 40 gives 3, 3 on 4 gives 2 |
| Benchmark.Evaluate | script.js:447-452 | a score row names its model |
| Benchmark.InsertByMae | script.js:454 | insertion adds exactly one row |
| Benchmark.SortByMae | script.js:454 | the sort is a permutation |
| Benchmark.InsertRanked | script.js:454 | inserting a later-listed model keeps the rows ranked |
| Benchmark.SortRanked | script.js:454 | rows in listing order sort to ascending MAE, ties in listing order (stable) |
| Benchmark.RankRows | script.js:454 | three rows sort to a ranked permutation whose first has the least MAE |
| Benchmark.RowsOf | script.js:446-453 | one score row per model |
| Benchmark.RowsOfAt | script.js:446-453 | row `i` scores model `i` |
| Benchmark.ModelsListed | script.js:445-446 | the rows come in the order holt, seasonal_naive, trend_seasonal |
| Benchmark.BenchmarkModels | script.js:440-455 | exactly three scores |
| Benchmark.BenchmarkSplit | script.js:441-454 | train and test concatenate to the series, the test holds `h` values, and the scores are the sorted rows |
| Benchmark.BenchmarkRanking | script.js:440-455 | the scores are a stably ranked permutation of the three rows, the first with the least MAE |
| Benchmark.BenchmarkFirstLeast | script.js:454 | the first score has the least MAE |
| App.WholeAtLeast | script.js:588-594 | a setting is accepted exactly when `Number` gives a whole number at least the bound, and then it is that number |
| App.WholeOfBlank | script.js:588-592 | a blank field reads as 0 and is refused |
| App.WholeOfDigits | script.js:588-594 | a digit string is accepted exactly when its value reaches the bound |
| App.WholeOfNegative | script.js:592-594 | a negative number is refused |
| App.WholeOfFraction | script.js:592-594 | a number with a non-zero fraction is refused |
| App.ReadSettings | script.js:588-594 | the three checks run in order, the first failure gives its message, and only three good settings pass |
| App.Values | script.js:606 | one value per point |
| App.AxisDays | script.js:614-617 | the history dates followed by `horizon` dates one step apart after the last, ascending when the series is |
| App.SeriesCover | script.js:618-619 | history and forecast series have the same length and exactly one of them holds a value at each position |
| App.GridAscends | script.js:213-214 | a series laid on a grid has strictly increasing dates |
| App.Outcome | script.js:598-619 | under 12 points is the too-short error; the only other error is a failed model run; a report carries its filling |
| App.OutcomeErrors | script.js:598-613 | the run fails exactly when the series is too short or an explicit model name is unknown |
| App.OutcomeReport | script.js:606-619 | a report's chosen model is known, and its labels, history and forecast series are those of that model's forecast |
| App.AutoChoosesBest | script.js:607-609 | the automatic choice benchmarks the filled values and takes the first of the ranked scores, one with least MAE |
| App.Prepare | script.js:596-597 | no valid row is the aggregation error with both counts; otherwise the result is the filling of the series aggregated from the rows' readings (`PreparedFrom`), which ascends with a step of at least 1 |
| App.PreparedUnique | script.js:596-597 | the readings and the strategy determine the filled series: there is only one `PreparedFrom` them |
| App.Run | script.js:588-619 | a bad setting fails with its message, no valid row fails with the counts, and otherwise the result is exactly the outcome of the read settings on the filled series the rows give (`PreparedFrom`); a report's labels ascend |
| App.LabelsAscend | script.js:614-617 | the chart labels of a report over an ascending series ascend |
| LinearForecast.PyRound2Close | forecast.py:52 | Python's `round(x, 2)` is within half a cent and keeps non-negative values non-negative |
| LinearForecast.PyRound2Cents | forecast.py:52 | whole cents are kept |
| LinearForecast.PyRound2Ties | forecast.py:52 | a half cent rounds to the even cent |
| LinearForecast.Settle | forecast.py:52 | one settled value per value |
| LinearForecast.SettleNonNegative | forecast.py:52 | every settled value is non-negative |
| LinearForecast.Linear | forecast.py:37-53 | an empty history is the division by zero; otherwise `periods` values (none for `periods <= 0`) |
| LinearForecast.LinearNonNegative | forecast.py:49-53 | every forecast is non-negative |
| LinearForecast.LinearOfSingle | forecast.py:39-40 | one value is repeated as `round(max(v, 0), 2)` |
| LinearForecast.LinearExample | tests/test_forecast.py:22-26 | `[42]` with 3 periods gives `[42.0, 42.0, 42.0]` |
| LinearForecast.LinearOfLine | forecast.py:42-52 | an exactly linear history is extended along its line, clipped at 0 and rounded |
| LinearForecast.LinearLoop | forecast.py:37-53 | the append loop computes the forecast |
| LinearForecast.Demands | forecast.py:61 | one demand per row |
| LinearForecast.ForecastDemand | forecast.py:56-72 | fewer than 1 period is the `ValueError`; otherwise it fails exactly on an empty history |
| LinearForecast.ForecastDemandShape | forecast.py:60-72 | history labels and values follow the rows in order, values rounded; forecast labels are the `periods` days after the last, strictly increasing; forecast values are the linear forecast, non-negative |
| LinearForecast.SixDayExample | tests/test_forecast.py:6-19 | six days of history with 5 periods give 5 labels and 5 non-negative values |
| LinearForecast.SingleRowExample | tests/test_forecast.py:22-26 | a single row of 42 with 3 periods forecasts `[42.0, 42.0, 42.0]` |

## Left out

- The page is not modelled: the DOM, the charts and the file upload. This covers the
  column selectors' DOM writes, `modelLabel`, `renderKpis`, `renderModelTable`, chart
  drawing and the selected-model summary text. None of them computes anything the model
  needs.
- The "Please upload a CSV file" check and the cached `rawRows` are not modelled. They
  concern the upload and state kept between clicks. The model takes the parsed rows as
  input.
- `std`, `rollingAverage`, `summarizeSeries` and `rmse` are not modelled, because they
  need `Math.sqrt` or feed only the key figures and charts. The benchmark rows therefore
  carry MAE and MAPE only; ranking uses MAE alone.
- The histogram's text labels (`toFixed(0)` and `toFixed(1)`) and all date labels as
  text are not modelled. Labels are day numbers instead.
- Stats.Round2: models `toFixed(2)` as exact rounding half away from zero over reals. It
  differs from binary floating point on values such as 1.005. Every `real` here is exact,
  so no result of this model is a floating-point result.
- LinearForecast.PyRound2: models Python's `round` as half-to-even over exact reals. A
  decimal such as 2.675 is not a binary tie in Python, so it rounds differently there.
- Python's `max(x, 0.0)` returning `-0.0` is not modelled, because zero is unsigned
  in `real`.
- HoltLinear.SelectWeights: the grid is the exact tenths 0.1 … 0.9. The source steps by
  adding 0.1 in floating point, which also yields nine values per loop, but slightly off
  the tenths.
- Numeric.NumberOf: it reads only plain decimal notation: a sign, digits with an
  optional point (either side of the point may be empty, as in `.5` or `5.`), and blank
  text as 0. Exponents, hexadecimal and `Infinity` are read as "not a number".
- Dates.ParseDateValue: the host's date parser (`new Date(text)`) is the parameter
  `native`, which returns a UTC day. What text it accepts is not modelled.
- Time of day, local time zones and daylight saving are not modelled; every day is a
  whole UTC day number. In the source, `setDate`, `getDay` and `getMonth` work in local
  time while `toISOString` works in UTC.
- Dates.SlashFields: an out-of-month day such as 31/02 rolls over into the next month,
  as `Date.UTC` does. A year below 100 after the `+2000` adjustment cannot occur.
- Stats.Mean: it requires a non-empty sequence, where the source would give `NaN`.
  Every caller passes a non-empty sequence.
- HoltLinear.HoltForecast: it requires at least one training value, and the other
  models do too. With no value the source reads `train[0]` as `undefined`. Every caller
  passes at least one value, because of the 12-point check and `h <= n / 2`.
- Numeric.ParseNumericValue: `String(raw)` of a non-string cell is not modelled,
  because every cell is text.
- `parse_csv` in forecast.py is not modelled. It relies on `csv.DictReader` and
  `datetime.fromisoformat`. Its rows are the input of `ForecastDemand`, and `strftime`
  labels are day numbers.
- LinearForecast.Linear: the source divides by `len(values)` and raises
  `ZeroDivisionError` on an empty history. The model returns an error value for this.
- The full end-to-end example (30 daily points with one gap, 5 periods) has no lemma of
  its own. `App.Run` states that its result is the outcome of the one filled series the
  rows give (`App.PreparedFrom`, unique by `App.PreparedUnique`); `App.AutoChoosesBest`
  and `Benchmark.BenchmarkRanking` state what that outcome is.
- The JavaScript arrays in `histogram`, `seasonalityProfile` and the projection loop of
  `forecastTrendSeasonal` are sequence variables that the loops reassign. Two are
  in-place arrays: `fillMissing`'s slots (`Impute.FillSlots`) and the `seasonal` array that
  `forecastTrendSeasonal`'s centring loops at lines 420-423 update
  (`Seasonal.CentredAverages`). No other array is shared or aliased, so nothing
  observable is lost.
