/** The delimited-text layer of script.js: delimiter detection, the quote-aware
    line scanner, and the conversion of a text blob into headers and rows. */
module Delimited {
  import opened Wrappers
  import opened Text

  /** The delimiters tried on the header line, in order. */
  const Candidates: seq<char> := [',', ';', '\t', '|']

  /** `line.split(c).length`. */
  function SplitCount(line: string, c: char): nat {
    |SplitOn(line, c)|
  }

  /** `d` is what delimiter detection picks for `line`: a candidate with the largest
      split count such that every earlier candidate has a strictly smaller one. */
  predicate IsBestDelimiter(line: string, d: char) {
    && d in Candidates
    && (forall j :: 0 <= j < |Candidates| ==> SplitCount(line, Candidates[j]) <= SplitCount(line, d))
    && (forall j, k :: 0 <= j < k < |Candidates| && Candidates[k] == d ==>
          SplitCount(line, Candidates[j]) < SplitCount(line, d))
  }

  /** The rule picks exactly one delimiter. */
  lemma BestDelimiterUnique(line: string, d1: char, d2: char)
    requires IsBestDelimiter(line, d1) && IsBestDelimiter(line, d2)
    ensures d1 == d2
  {
    var k1 :| 0 <= k1 < |Candidates| && Candidates[k1] == d1;
    var k2 :| 0 <= k2 < |Candidates| && Candidates[k2] == d2;
    assert SplitCount(line, d1) == SplitCount(line, d2);
  }

  /** Since a split count is one more than the number of occurrences, the rule prefers
      the candidate occurring most often; on a tie the comma wins. */
  lemma CommaWinsTies(line: string, d: char)
    requires IsBestDelimiter(line, d)
    requires forall j :: 0 <= j < |Candidates| ==> Count(line, Candidates[j]) <= Count(line, ',')
    ensures d == ','
  {
    forall j | 0 <= j < |Candidates|
      ensures SplitCount(line, Candidates[j]) == Count(line, Candidates[j]) + 1
    {
      SplitOnLength(line, Candidates[j]);
    }
    var k :| 0 <= k < |Candidates| && Candidates[k] == d;
    assert SplitCount(line, Candidates[0]) >= SplitCount(line, d);
  }

  /** detectDelimiter: keep the first candidate whose split count beats the best so far. */
  method DetectDelimiter(headerLine: string) returns (best: char)
    ensures IsBestDelimiter(headerLine, best)
  {
    best := ',';
    var bestCount := -1;
    ghost var bi := 0;
    var k := 0;
    while k < |Candidates|
      invariant 0 <= k <= |Candidates| && 0 <= bi < |Candidates|
      invariant best == Candidates[bi]
      invariant k == 0 ==> bestCount == -1
      invariant k > 0 ==> bi < k && bestCount == SplitCount(headerLine, best)
      invariant forall j :: 0 <= j < k ==> SplitCount(headerLine, Candidates[j]) <= bestCount
      invariant forall j :: 0 <= j < bi ==> SplitCount(headerLine, Candidates[j]) < bestCount
    {
      var c := Candidates[k];
      var count := |SplitOn(headerLine, c)|;
      if count > bestCount {
        best, bestCount, bi := c, count, k;
      }
      k := k + 1;
    }
  }

  /** The raw fields the quote-aware scanner produces from the rest `s` of a line,
      given its state: whether it is inside quotes, the field being gathered, and the
      fields finished so far. A quote inside quotes followed by a second quote is one
      literal quote; any other quote toggles the quoting state; the delimiter ends a
      field only outside quotes. */
  function Scan(s: string, delim: char, inQuotes: bool, value: string, out: seq<string>): (r: seq<string>)
    ensures |r| >= 1
    decreases |s|
  {
    if s == [] then out + [value]
    else if s[0] == '"' then
      if inQuotes && |s| > 1 && s[1] == '"' then Scan(s[2..], delim, inQuotes, value + ['"'], out)
      else Scan(s[1..], delim, !inQuotes, value, out)
    else if s[0] == delim && !inQuotes then Scan(s[1..], delim, false, [], out + [value])
    else Scan(s[1..], delim, inQuotes, value + [s[0]], out)
  }

  function TrimAll(fs: seq<string>): (r: seq<string>)
    ensures |r| == |fs| && forall i :: 0 <= i < |fs| ==> r[i] == Trim(fs[i])
  {
    seq(|fs|, i requires 0 <= i < |fs| => Trim(fs[i]))
  }

  /** The trimmed fields of one line. */
  function Fields(line: string, delim: char): seq<string> {
    TrimAll(Scan(line, delim, false, [], []))
  }

  /** parseDelimitedLine: an index loop over the characters. */
  method ParseDelimitedLine(line: string, delimiter: char) returns (fields: seq<string>)
    ensures |fields| >= 1
    ensures fields == Fields(line, delimiter)
  {
    var out: seq<string> := [];
    var value: string := [];
    var inQuotes := false;
    var i := 0;
    while i < |line|
      invariant 0 <= i <= |line|
      invariant Scan(line[i..], delimiter, inQuotes, value, out) == Scan(line, delimiter, false, [], [])
    {
      var ch := line[i];
      assert line[i..][1..] == line[i + 1..];
      if ch == '"' {
        if inQuotes && i + 1 < |line| && line[i + 1] == '"' {
          assert line[i..][2..] == line[i + 2..];
          value := value + ['"'];
          i := i + 1;
        } else {
          inQuotes := !inQuotes;
        }
      } else if ch == delimiter && !inQuotes {
        out := out + [value];
        value := [];
      } else {
        value := value + [ch];
      }
      i := i + 1;
    }
    out := out + [value];
    fields := TrimAll(out);
  }

  /** Without quotes the scanner is a plain split on the delimiter. */
  lemma {:induction false} ScanNoQuotes(s: string, delim: char, value: string, out: seq<string>)
    requires '"' !in s
    ensures var p := SplitOn(s, delim);
      Scan(s, delim, false, value, out) == out + [value + p[0]] + p[1..]
  {
    if s != [] {
      NoQuoteTail(s);
      var p := SplitOn(s[1..], delim);
      if s[0] == delim {
        ScanNoQuotes(s[1..], delim, [], out + [value]);
        JoinAtDelimiter(out, value, p);
      } else {
        ScanNoQuotes(s[1..], delim, value + [s[0]], out);
        JoinInField(out, value, s[0], p);
      }
    } else {
      assert value + [] == value;
    }
  }

  /** The rest of a text without quotes has none either. */
  lemma NoQuoteTail(s: string)
    requires s != [] && '"' !in s
    ensures s[0] != '"' && '"' !in s[1..]
  {
    assert s[0] in s;
    forall i | 0 <= i < |s[1..]| ensures s[1..][i] != '"' {
      assert s[1..][i] == s[i + 1];
    }
  }

  /** A delimiter closes the field: the pieces after it follow the field. */
  lemma JoinAtDelimiter(out: seq<string>, value: string, p: seq<string>)
    requires |p| >= 1
    ensures var q := [[]] + p;
      out + [value] + [[] + p[0]] + p[1..] == out + [value + q[0]] + q[1..]
  {
    assert [] + p[0] == p[0] && value + [] == value;
    assert ([[]] + p)[1..] == p == [p[0]] + p[1..];
  }

  /** Any other character joins the field and the first piece after it. */
  lemma JoinInField(out: seq<string>, value: string, c: char, p: seq<string>)
    requires |p| >= 1
    ensures var q := [[c] + p[0]] + p[1..];
      out + [value + [c] + p[0]] + p[1..] == out + [value + q[0]] + q[1..]
  {
    assert value + [c] + p[0] == value + ([c] + p[0]);
    assert ([[c] + p[0]] + p[1..])[1..] == p[1..];
  }

  /** A line with no quote character yields the line split on the delimiter, each piece
      trimmed, with one field more than there are delimiters. */
  lemma FieldsWithoutQuotes(line: string, delim: char)
    requires '"' !in line
    ensures Fields(line, delim) == TrimAll(SplitOn(line, delim))
    ensures |Fields(line, delim)| == Count(line, delim) + 1
  {
    ScanNoQuotes(line, delim, [], []);
    var p := SplitOn(line, delim);
    assert [] + [[] + p[0]] + p[1..] == p by {
      assert [] + p[0] == p[0];
      assert [p[0]] + p[1..] == p;
    }
    assert Scan(line, delim, false, [], []) == p;
    SplitOnLength(line, delim);
  }

  /** A field written as CSV text: every quote doubled. */
  function Escape(f: string): string {
    if f == [] then [] else (if f[0] == '"' then ['"', '"'] else [f[0]]) + Escape(f[1..])
  }

  /** A quoted field. */
  function Quote(f: string): string {
    ['"'] + Escape(f) + ['"']
  }

  /** A line holding every field quoted, joined by the delimiter. */
  function EncodeLine(fs: seq<string>, delim: char): string
    requires |fs| >= 1
  {
    if |fs| == 1 then Quote(fs[0]) else Quote(fs[0]) + [delim] + EncodeLine(fs[1..], delim)
  }

  /** Inside quotes the delimiter is ordinary text and a doubled quote is one literal
      quote; the closing quote ends quoting. */
  lemma {:induction false} ScanEscaped(f: string, rest: string, delim: char, value: string, out: seq<string>)
    requires rest == [] || rest[0] != '"'
    ensures Scan(Escape(f) + ['"'] + rest, delim, true, value, out) == Scan(rest, delim, false, value + f, out)
  {
    if f == [] {
      var s := Escape(f) + ['"'] + rest;
      assert Escape(f) == [] && value + f == value;
      assert s == ['"'] + rest && s[1..] == rest;
    } else {
      ScanEscaped(f[1..], rest, delim, value + [f[0]], out);
      assert value + [f[0]] + f[1..] == value + f;
      EscapedHead(f, rest);
    }
  }

  /** The escaped text of a field starts with its first character, doubled when it is
      a quote, and goes on with the escaped rest. */
  lemma EscapedHead(f: string, rest: string)
    requires f != []
    ensures var s, t := Escape(f) + ['"'] + rest, Escape(f[1..]) + ['"'] + rest;
      if f[0] == '"' then |s| > 1 && s[0] == s[1] == '"' && s[2..] == t
      else s[0] == f[0] && s[1..] == t
  {
    var t := Escape(f[1..]) + ['"'] + rest;
    if f[0] == '"' {
      assert Escape(f) + ['"'] + rest == ['"', '"'] + t;
    } else {
      assert Escape(f) + ['"'] + rest == [f[0]] + t;
    }
  }

  /** A quoted field outside quotes contributes exactly its text to the current field. */
  lemma ScanQuoted(f: string, rest: string, delim: char, value: string, out: seq<string>)
    requires rest == [] || rest[0] != '"'
    ensures Scan(Quote(f) + rest, delim, false, value, out) == Scan(rest, delim, false, value + f, out)
  {
    var s := Quote(f) + rest;
    assert s[0] == '"' && s[1..] == Escape(f) + ['"'] + rest;
    ScanEscaped(f, rest, delim, value, out);
  }

  lemma {:induction false} ScanEncoded(fs: seq<string>, delim: char, out: seq<string>)
    requires |fs| >= 1 && delim != '"'
    ensures Scan(EncodeLine(fs, delim), delim, false, [], out) == out + fs
  {
    var f := fs[0];
    assert [] + f == f;
    if |fs| == 1 {
      ScanQuoted(f, [], delim, [], out);
      assert Quote(f) + [] == EncodeLine(fs, delim);
      assert fs == [f];
    } else {
      var tail := [delim] + EncodeLine(fs[1..], delim);
      ScanQuoted(f, tail, delim, [], out);
      assert EncodeLine(fs, delim) == Quote(f) + tail;
      assert tail[1..] == EncodeLine(fs[1..], delim);
      assert Scan(tail, delim, false, f, out) == Scan(tail[1..], delim, false, [], out + [f]);
      ScanEncoded(fs[1..], delim, out + [f]);
      assert out + [f] + fs[1..] == out + fs;
    }
  }

  /** Reading back a line of quoted fields gives the fields themselves, trimmed,
      whatever delimiters and quotes they contain. */
  lemma EncodeLineRoundTrip(fs: seq<string>, delim: char)
    requires |fs| >= 1 && delim in Candidates
    ensures Fields(EncodeLine(fs, delim), delim) == TrimAll(fs)
  {
    ScanEncoded(fs, delim, []);
  }

  /** Drops one carriage return at the end of a line. */
  function DropCR(s: string): string {
    if s != [] && s[|s| - 1] == '\r' then s[..|s| - 1] else s
  }

  /** `text.split(/\r?\n/)`: split at each line feed, dropping a carriage return that
      immediately precedes it. */
  function SplitLines(text: string): (r: seq<string>)
    ensures |r| == Count(text, '\n') + 1
  {
    SplitOnLength(text, '\n');
    var pieces := SplitOn(text, '\n');
    seq(|pieces|, i requires 0 <= i < |pieces| => if i < |pieces| - 1 then DropCR(pieces[i]) else pieces[i])
  }

  /** `.filter((line) => line.trim() !== '')`. */
  function NonBlank(lines: seq<string>): (r: seq<string>)
    ensures |r| <= |lines|
    ensures forall i :: 0 <= i < |r| ==> Trim(r[i]) != []
  {
    if lines == [] then []
    else if Trim(lines[0]) != [] then [lines[0]] + NonBlank(lines[1..])
    else NonBlank(lines[1..])
  }

  /** A line is kept exactly when it is one of the lines and not blank. */
  lemma {:induction false} NonBlankMembers(lines: seq<string>)
    ensures forall l :: l in NonBlank(lines) <==> l in lines && Trim(l) != []
  {
    if lines != [] {
      NonBlankMembers(lines[1..]);
      assert forall l :: l in lines <==> l == lines[0] || l in lines[1..];
    }
  }

  /** The filter works line by line: on a concatenation it keeps each part's lines, in
      order. */
  lemma {:induction false} NonBlankAppend(a: seq<string>, b: seq<string>)
    ensures NonBlank(a + b) == NonBlank(a) + NonBlank(b)
  {
    if a != [] {
      assert (a + b)[1..] == a[1..] + b;
      NonBlankAppend(a[1..], b);
    } else {
      assert a + b == b;
    }
  }

  /** A single line is kept exactly when it is not blank. */
  lemma NonBlankOne(l: string)
    ensures NonBlank([l]) == (if Trim(l) != [] then [l] else [])
  {
    assert [l][1..] == [];
  }

  function NonBlankLines(text: string): seq<string> {
    NonBlank(SplitLines(text))
  }

  type Row = map<string, string>

  datatype Table = Table(headers: seq<string>, rows: seq<Row>)

  datatype CsvError = TooFewLines   // 'CSV requires at least one data row.'

  /** `cols[idx] ?? ''`. */
  function CellAt(cols: seq<string>, idx: nat): string {
    if idx < |cols| then cols[idx] else []
  }

  /** One row object: each header in order is assigned its column, so a repeated
      header keeps its last column. */
  function MakeRow(headers: seq<string>, cols: seq<string>): Row
    decreases |headers|
  {
    if headers == [] then map[]
    else MakeRow(headers[..|headers| - 1], cols)[headers[|headers| - 1] := CellAt(cols, |headers| - 1)]
  }

  /** Every row has exactly the header keys; a header's value is the cell in its (last)
      column, or '' when the line has fewer cells. */
  lemma {:induction false} MakeRowSpec(headers: seq<string>, cols: seq<string>)
    ensures forall h :: h in MakeRow(headers, cols) <==> h in headers
    ensures forall idx :: 0 <= idx < |headers| && (forall j :: idx < j < |headers| ==> headers[j] != headers[idx]) ==>
      MakeRow(headers, cols)[headers[idx]] == CellAt(cols, idx)
  {
    if headers != [] {
      var init := headers[..|headers| - 1];
      MakeRowSpec(init, cols);
      forall h ensures h in headers <==> h in init || h == headers[|headers| - 1] {
        if h in headers {
          var i :| 0 <= i < |headers| && headers[i] == h;
          if i < |headers| - 1 { assert init[i] == h; }
        }
      }
      forall idx | 0 <= idx < |headers| - 1 && (forall j :: idx < j < |headers| ==> headers[j] != headers[idx])
        ensures MakeRow(headers, cols)[headers[idx]] == CellAt(cols, idx)
      {
        assert init[idx] == headers[idx];
        assert forall j :: idx < j < |init| ==> init[j] != init[idx];
      }
    }
  }

  /** parseCSV: at least two non-blank lines are required; the first gives the
      delimiter and the headers, every later one a row. */
  method ParseCsv(text: string) returns (r: Result<Table, CsvError>, ghost delim: char)
    ensures var lines := NonBlankLines(text);
      && (r.Err? <==> |lines| < 2)
      && (r.Ok? ==>
            && IsBestDelimiter(lines[0], delim)
            && r.value.headers == Fields(lines[0], delim)
            && |r.value.rows| == |lines| - 1
            && forall i :: 0 <= i < |r.value.rows| ==>
                 r.value.rows[i] == MakeRow(r.value.headers, Fields(lines[i + 1], delim)))
  {
    var lines := NonBlankLines(text);
    delim := ',';
    if |lines| < 2 {
      return Err(TooFewLines), delim;
    }
    var delimiter := DetectDelimiter(lines[0]);
    delim := delimiter;
    var headers := ParseDelimitedLine(lines[0], delimiter);
    var rows: seq<Row> := [];
    var i := 1;
    while i < |lines|
      invariant 1 <= i <= |lines|
      invariant |rows| == i - 1
      invariant forall k :: 0 <= k < |rows| ==> rows[k] == MakeRow(headers, Fields(lines[k + 1], delim))
    {
      var cols := ParseDelimitedLine(lines[i], delimiter);
      rows := rows + [MakeRow(headers, cols)];
      i := i + 1;
    }
    r := Ok(Table(headers, rows));
  }

  /** A header the date pattern `/date|ds|timestamp/i` accepts. */
  predicate LooksLikeDate(h: string) {
    var l := LowerAll(h);
    ContainsFrom(l, "date", 0) || ContainsFrom(l, "ds", 0) || ContainsFrom(l, "timestamp", 0)
  }

  /** A header the metric pattern `/demand|sales|qty|quantity|target|y/i` accepts. */
  predicate LooksLikeTarget(h: string) {
    var l := LowerAll(h);
    ContainsFrom(l, "demand", 0) || ContainsFrom(l, "sales", 0) || ContainsFrom(l, "qty", 0)
    || ContainsFrom(l, "quantity", 0) || ContainsFrom(l, "target", 0) || ContainsFrom(l, "y", 0)
  }

  /** `headers.find(p)`: the index of the first header satisfying `p`, if any. */
  function FindFirst(headers: seq<string>, p: string -> bool): (r: Option<nat>)
    ensures r.Some? ==> (r.value < |headers| && p(headers[r.value])
                         && forall j :: 0 <= j < r.value ==> !p(headers[j]))
    ensures r.None? ==> forall j :: 0 <= j < |headers| ==> !p(headers[j])
  {
    if headers == [] then None
    else if p(headers[0]) then Some(0)
    else match FindFirst(headers[1..], p)
      case None => None
      case Some(k) => Some(k + 1)
  }

  /** The default date column: the first header that looks like a date, else the first. */
  function GuessDateColumn(headers: seq<string>): (h: string)
    requires |headers| >= 1
    ensures (exists k :: 0 <= k < |headers| && h == headers[k] && LooksLikeDate(h)
               && forall j :: 0 <= j < k ==> !LooksLikeDate(headers[j]))
         || (h == headers[0] && forall j :: 0 <= j < |headers| ==> !LooksLikeDate(headers[j]))
  {
    match FindFirst(headers, LooksLikeDate)
    case Some(k) => headers[k]
    case None => headers[0]
  }

  /** The default metric column: the first header that looks like a metric, else the
      second header (the first when there is only one). */
  function GuessTargetColumn(headers: seq<string>): (h: string)
    requires |headers| >= 1
    ensures (exists k :: 0 <= k < |headers| && h == headers[k] && LooksLikeTarget(h)
               && forall j :: 0 <= j < k ==> !LooksLikeTarget(headers[j]))
         || (h == headers[if |headers| > 1 then 1 else 0] && forall j :: 0 <= j < |headers| ==> !LooksLikeTarget(headers[j]))
  {
    match FindFirst(headers, LooksLikeTarget)
    case Some(k) => headers[k]
    case None => headers[if |headers| > 1 then 1 else 0]
  }
}
