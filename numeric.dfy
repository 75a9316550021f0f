/** Numeric coercion of a raw cell (parseNumericValue in script.js): currency, percent
    and white space are stripped, then four anchored patterns decide, in priority
    order, which of `.` and `,` is the thousands separator and which the decimal
    point, and the rewritten text is read as a decimal number. A not-a-number result
    is `None`. */
module Numeric {
  import opened Wrappers
  import opened Text

  predicate IsDigit(c: char) {
    '0' <= c <= '9'
  }

  predicate AllDigits(s: string) {
    forall i :: 0 <= i < |s| ==> IsDigit(s[i])
  }

  function DigitValue(c: char): nat
    requires IsDigit(c)
  {
    c as int - '0' as int
  }

  /** The value of a string of decimal digits ('' is 0). */
  function DigitsValue(s: string): nat
    requires AllDigits(s)
    decreases |s|
  {
    if s == [] then 0 else DigitsValue(s[..|s| - 1]) * 10 + DigitValue(s[|s| - 1])
  }

  function Pow10(n: nat): (p: nat)
    ensures p >= 1
  {
    if n == 0 then 1 else 10 * Pow10(n - 1)
  }

  /** The value of the digits after a decimal point. */
  function FractionValue(f: string): real
    requires AllDigits(f)
  {
    if f == [] then 0.0 else (DigitValue(f[0]) as real + FractionValue(f[1..])) / 10.0
  }

  function Signed(neg: bool, x: real): real {
    if neg then -x else x
  }

  /** Unsigned decimal notation: digits, and an optional point with digits, at least
      one digit in all. */
  function ReadUnsigned(body: string): Option<real> {
    var k := IndexOf(body, '.');
    var ip := body[..k];
    var fp := if k < |body| then body[k + 1..] else [];
    if AllDigits(ip) && AllDigits(fp) && |ip| + |fp| >= 1 then
      Some(DigitsValue(ip) as real + FractionValue(fp))
    else None
  }

  /** An optional sign in front of unsigned decimal notation. */
  function ReadSigned(t: string): Option<real>
    requires t != []
  {
    var body := if t[0] == '-' || t[0] == '+' then t[1..] else t;
    match ReadUnsigned(body)
    case None => None
    case Some(x) => Some(Signed(t[0] == '-', x))
  }

  /** JavaScript's `Number(text)` on plain decimal notation, after trimming: '' is 0;
      an optional sign, digits, and an optional point with digits, at least one digit
      in all. Every other text is not a number. */
  function NumberOf(text: string): (r: Option<real>)
    ensures Trim(text) == [] ==> r == Some(0.0)
  {
    var t := Trim(text);
    if t == [] then Some(0.0) else ReadSigned(t)
  }

  /** The symbols `[$£€₹%]` removed before the patterns are tried. */
  predicate IsCurrencyOrPercent(c: char) {
    c == '$' || c == '\U{00A3}' || c == '\U{20AC}' || c == '\U{20B9}' || c == '%'
  }

  /** `-?` at the start of a pattern. */
  function StripMinus(s: string): string {
    if s != [] && s[0] == '-' then s[1..] else s
  }

  /** `\d{1,3}(S\d{3})*` for the separator S. */
  predicate Grouped(s: string, sep: char)
    decreases |s|
  {
    || (1 <= |s| <= 3 && AllDigits(s))
    || (|s| >= 5 && s[|s| - 4] == sep && AllDigits(s[|s| - 3..]) && Grouped(s[..|s| - 4], sep))
  }

  /** `\d{1,3}(S\d{3})+`: at least one separator. */
  predicate GroupedMulti(s: string, sep: char) {
    |s| >= 5 && s[|s| - 4] == sep && AllDigits(s[|s| - 3..]) && Grouped(s[..|s| - 4], sep)
  }

  /** `^-?\d{1,3}(\.\d{3})*,\d+$`: dots group thousands, one comma is the decimal point. */
  predicate European(t: string) {
    var b := StripMinus(t);
    var k := IndexOf(b, ',');
    k < |b| && Grouped(b[..k], '.') && k + 1 < |b| && AllDigits(b[k + 1..])
  }

  /** `^-?\d{1,3}(,\d{3})+(\.\d+)?$`: commas group thousands, an optional dot fraction. */
  predicate Thousands(t: string) {
    var b := StripMinus(t);
    var k := IndexOf(b, '.');
    GroupedMulti(b[..k], ',') && (k == |b| || (k + 1 < |b| && AllDigits(b[k + 1..])))
  }

  /** `^-?\d+,\d+$`: one comma as the decimal point. */
  predicate CommaDecimal(t: string) {
    var b := StripMinus(t);
    var k := IndexOf(b, ',');
    1 <= k && k + 1 < |b| && AllDigits(b[..k]) && AllDigits(b[k + 1..])
  }

  /** The separator rewrite chosen by the first pattern that matches. */
  function Rewrite(text: string): string {
    if European(text) then ReplaceFirst(RemoveChar(text, '.'), ',', '.')
    else if Thousands(text) then RemoveChar(text, ',')
    else if CommaDecimal(text) then ReplaceFirst(text, ',', '.')
    else RemoveChar(text, ',')
  }

  /** The cell text with currency, percent and white space removed. */
  function Clean(text: string): string {
    RemoveWhere(RemoveWhere(text, IsCurrencyOrPercent), IsSpace)
  }

  /** parseNumericValue. A missing cell and a blank one are not numbers; anything
      else is read after cleaning and rewriting, so a cell that is only symbols reads
      as `Number('')`, which is 0. */
  function ParseNumericValue(raw: Option<string>): (r: Option<real>)
    ensures raw.None? ==> r.None?
    ensures raw.Some? && Trim(raw.value) == [] ==> r.None?
    ensures raw.Some? && Trim(raw.value) != [] && Clean(Trim(raw.value)) == [] ==> r == Some(0.0)
  {
    match raw
    case None => None
    case Some(s) =>
      var text := Trim(s);
      if text == [] then None else NumberOf(Rewrite(Clean(text)))
  }

  // ---------------------------------------------------------------------------
  // Formatting numbers, as the reference for the round-trip lemmas.

  function DigitChar(d: nat): (c: char)
    requires d < 10
    ensures IsDigit(c) && DigitValue(c) == d
  {
    ('0' as int + d) as char
  }

  /** The decimal digits of `n`. */
  function Show(n: nat): (s: string)
    ensures 1 <= |s| && AllDigits(s) && DigitsValue(s) == n
    ensures n < 10 ==> |s| == 1
    ensures n < 100 ==> |s| <= 2
    ensures n < 1000 ==> |s| <= 3
    ensures n >= 1000 ==> |s| >= 4
    decreases n
  {
    if n < 10 then
      assert DigitsValue([DigitChar(n)]) == DigitsValue([]) * 10 + n;
      [DigitChar(n)]
    else
      var s := Show(n / 10) + [DigitChar(n % 10)];
      assert s[..|s| - 1] == Show(n / 10);
      assert DigitsValue(s) == (n / 10) * 10 + n % 10;
      assert n >= 1000 ==> n / 10 >= 100 && |Show(n / 10)| >= 3 by {
        if n >= 1000 {
          var m := n / 10;
          assert m >= 100;
          assert m >= 10 && Show(m) == Show(m / 10) + [DigitChar(m % 10)];
          assert m / 10 >= 10 && Show(m / 10) == Show(m / 10 / 10) + [DigitChar(m / 10 % 10)];
        }
      }
      s
  }

  /** Exactly three digits, with leading zeros. */
  function Pad3(k: nat): (s: string)
    requires k < 1000
    ensures |s| == 3 && AllDigits(s) && DigitsValue(s) == k
  {
    var a, b, c := DigitChar(k / 100), DigitChar(k / 10 % 10), DigitChar(k % 10);
    var s := [a, b, c];
    assert s[..2] == [a, b] && [a, b][..1] == [a] && [a][..0] == [];
    assert DigitsValue([a]) == k / 100;
    assert DigitsValue([a, b]) == k / 100 * 10 + k / 10 % 10;
    assert DigitsValue(s) == (k / 100 * 10 + k / 10 % 10) * 10 + k % 10;
    s
  }

  /** `n` written with the separator between groups of three digits. */
  function Group(n: nat, sep: char): (s: string)
    requires !IsDigit(sep)
    ensures |s| >= 1 && IsDigit(s[0]) && IsDigit(s[|s| - 1])
    ensures forall i :: 0 <= i < |s| ==> IsDigit(s[i]) || s[i] == sep
    ensures Grouped(s, sep)
    ensures n < 1000 ==> s == Show(n)
    decreases n
  {
    if n < 1000 then Show(n)
    else
      var g := Group(n / 1000, sep);
      var s := g + [sep] + Pad3(n % 1000);
      assert s[..|s| - 4] == g && s[|s| - 3..] == Pad3(n % 1000);
      s
  }

  lemma ShiftDigit(x: int, p: int, y: int, d: int)
    ensures (x * p + y) * 10 + d == x * (p * 10) + (y * 10 + d)
  {
  }

  lemma {:induction false} DigitsValueAppend(a: string, b: string)
    requires AllDigits(a) && AllDigits(b)
    ensures AllDigits(a + b)
    ensures DigitsValue(a + b) == DigitsValue(a) * Pow10(|b|) + DigitsValue(b)
  {
    if b == [] {
      assert a + b == a;
    } else {
      var b' := b[..|b| - 1];
      var last := b[|b| - 1];
      DigitsValueAppend(a, b');
      var ab := a + b;
      assert ab[..|ab| - 1] == a + b' && ab[|ab| - 1] == last;
      assert DigitsValue(ab) == DigitsValue(a + b') * 10 + DigitValue(last);
      assert DigitsValue(b) == DigitsValue(b') * 10 + DigitValue(last);
      assert Pow10(|b|) == Pow10(|b'|) * 10;
      ShiftDigit(DigitsValue(a), Pow10(|b'|), DigitsValue(b'), DigitValue(last));
    }
  }

  /** Removing a separator that sits between two pieces. */
  lemma RemoveBetween(g: string, sep: char, p: string)
    requires sep !in p
    ensures RemoveChar(g + [sep] + p, sep) == RemoveChar(g, sep) + p
  {
    RemoveCharKeepsTail(g + [sep], p, sep);
    RemoveCharDropsLast(g, sep);
  }

  /** Removing the separators from a grouped number leaves its digits. */
  lemma {:induction false} UngroupedDigits(n: nat, sep: char)
    requires !IsDigit(sep)
    ensures var d := RemoveChar(Group(n, sep), sep);
      |d| >= 1 && AllDigits(d) && IsDigit(d[0]) && IsDigit(d[|d| - 1]) && DigitsValue(d) == n
  {
    if n < 1000 {
      RemoveCharAbsent(Show(n), sep);
    } else {
      var g := Group(n / 1000, sep);
      var p := Pad3(n % 1000);
      assert Group(n, sep) == g + [sep] + p;
      UngroupedDigits(n / 1000, sep);
      RemoveBetween(g, sep, p);
      var dg := RemoveChar(g, sep);
      DigitsValueAppend(dg, p);
      assert Pow10(3) == 1000;
      assert (dg + p)[0] == dg[0] && (dg + p)[|dg + p| - 1] == p[2];
    }
  }

  /** Where a character first occurs, given that it does not occur earlier. */
  lemma IndexOfAt(s: string, c: char, k: nat)
    requires k <= |s| && (k < |s| ==> s[k] == c)
    requires forall i :: 0 <= i < k ==> s[i] != c
    ensures IndexOf(s, c) == k
  {
    IndexOfSpec(s, c);
  }

  /** Cutting `a + [c] + f` at the first `c`, which is the one after `a`. */
  lemma SplitAt(a: string, c: char, f: string)
    requires c !in a
    ensures IndexOf(a + [c] + f, c) == |a|
    ensures (a + [c] + f)[..|a|] == a && (a + [c] + f)[|a| + 1..] == f
  {
    IndexOfAt(a + [c] + f, c, |a|);
  }

  lemma NoOccurrence(s: string, c: char)
    requires c !in s
    ensures IndexOf(s, c) == |s| && s[..|s|] == s
  {
    IndexOfAt(s, c, |s|);
  }

  /** Replacing the first `,` of `a + [','] + f`, when `a` has none. */
  lemma ReplaceAfter(a: string, f: string)
    requires ',' !in a
    ensures ReplaceFirst(a + [','] + f, ',', '.') == a + ['.'] + f
  {
    SplitAt(a, ',', f);
    ReplaceFirstAt(a + [','] + f, ',', '.');
  }

  /** Removing a character that occurs only in the middle piece. */
  lemma RemoveInside(pre: string, g: string, rest: string, x: char)
    requires x !in pre && x !in rest
    ensures RemoveChar(pre + g + rest, x) == pre + RemoveChar(g, x) + rest
  {
    RemoveCharAppend(pre + g, rest, x);
    RemoveCharAppend(pre, g, x);
    RemoveCharAbsent(pre, x);
    RemoveCharAbsent(rest, x);
  }

  function SignText(neg: bool): string {
    if neg then "-" else ""
  }

  lemma StripSign(neg: bool, b: string)
    requires b != [] && IsDigit(b[0])
    ensures StripMinus(SignText(neg) + b) == b
  {
    if !neg {
      assert SignText(neg) + b == b;
    }
  }

  /** `StripMinus` and `Rewrite` see a text after `Clean`, which keeps a plain number text. */
  predicate PlainChar(c: char) {
    IsDigit(c) || c == '.' || c == ',' || c == '-'
  }

  lemma NoSpaceOrSymbol(t: string)
    requires forall i :: 0 <= i < |t| ==> PlainChar(t[i])
    ensures Clean(t) == t
  {
    RemoveWhereNone(t, IsCurrencyOrPercent);
    RemoveWhereNone(t, IsSpace);
  }

  /** A cell made only of digits, separators and a sign reaches the patterns unchanged. */
  lemma PlainCell(t: string)
    requires t != [] && forall i :: 0 <= i < |t| ==> PlainChar(t[i])
    ensures ParseNumericValue(Some(t)) == NumberOf(Rewrite(t))
  {
    assert PlainChar(t[0]) && PlainChar(t[|t| - 1]);
    TrimIdentity(t);
    NoSpaceOrSymbol(t);
  }

  /** The text of a signed number is plain when its digits part is. */
  lemma PlainSigned(neg: bool, b: string)
    requires forall i :: 0 <= i < |b| ==> PlainChar(b[i])
    ensures forall i :: 0 <= i < |SignText(neg) + b| ==> PlainChar((SignText(neg) + b)[i])
  {
  }

  /** Reading `D.F` for digit strings D and F. */
  lemma ReadFraction(d: string, f: string)
    requires |d| >= 1 && AllDigits(d) && AllDigits(f)
    ensures ReadUnsigned(d + ['.'] + f) == Some(DigitsValue(d) as real + FractionValue(f))
  {
    var b := d + ['.'] + f;
    DigitsLack(d, '.');
    SplitAt(d, '.', f);
    assert IndexOf(b, '.') == |d| < |b|;
    assert b[..|d|] == d && b[|d| + 1..] == f;
  }

  /** Reading `D` for a digit string D. */
  lemma ReadInteger(d: string)
    requires |d| >= 1 && AllDigits(d)
    ensures ReadUnsigned(d) == Some(DigitsValue(d) as real)
  {
    NoOccurrence(d, '.');
    assert FractionValue([]) == 0.0;
  }

  /** `Number` of a signed text reads its unsigned part and applies the sign. */
  lemma ReadWithSign(neg: bool, body: string, v: real)
    requires body != [] && IsDigit(body[0]) && IsDigit(body[|body| - 1])
    requires ReadUnsigned(body) == Some(v)
    ensures NumberOf(SignText(neg) + body) == Some(Signed(neg, v))
  {
    var t := SignText(neg) + body;
    assert t[0] == (if neg then '-' else body[0]);
    assert t[|t| - 1] == body[|body| - 1];
    TrimIdentity(t);
    assert (if t[0] == '-' || t[0] == '+' then t[1..] else t) == body;
  }

  /** `Number` of `[-]D.F` for digit strings D and F, whose value is `v`. */
  lemma SignedDecimal(neg: bool, d: string, f: string, v: real)
    requires |d| >= 1 && AllDigits(d) && |f| >= 1 && AllDigits(f)
    requires v == DigitsValue(d) as real + FractionValue(f)
    ensures NumberOf(SignText(neg) + (d + ['.'] + f)) == Some(Signed(neg, v))
  {
    var body := d + ['.'] + f;
    assert body[0] == d[0] && body[|body| - 1] == f[|f| - 1];
    ReadFraction(d, f);
    ReadWithSign(neg, body, v);
  }

  /** `Number` of `[-]D` for a digit string D, whose value is `v`. */
  lemma SignedInteger(neg: bool, d: string, v: real)
    requires |d| >= 1 && AllDigits(d)
    requires v == DigitsValue(d) as real
    ensures NumberOf(SignText(neg) + d) == Some(Signed(neg, v))
  {
    ReadInteger(d);
    ReadWithSign(neg, d, v);
  }

  /** A text with a non-digit is not all digits. */
  lemma NonDigitAt(s: string, j: nat)
    requires j < |s| && !IsDigit(s[j])
    ensures !AllDigits(s)
  {
  }

  /** More than three digits and no separator is not a grouped number. */
  lemma NotGrouped(s: string, sep: char)
    requires |s| >= 4 && AllDigits(s) && !IsDigit(sep)
    ensures !Grouped(s, sep)
  {
    assert IsDigit(s[|s| - 4]);
  }

  /** The text of a grouped number has only digits and its separator. */
  lemma GroupPlain(n: nat, sep: char)
    requires sep == '.' || sep == ','
    ensures forall i :: 0 <= i < |Group(n, sep)| ==> PlainChar(Group(n, sep)[i])
  {
  }

  lemma GroupLacks(n: nat, sep: char, other: char)
    requires !IsDigit(sep) && !IsDigit(other) && other != sep
    ensures other !in Group(n, sep)
  {
    var g := Group(n, sep);
    assert forall i :: 0 <= i < |g| ==> IsDigit(g[i]) || g[i] == sep;
  }

  lemma DigitsLack(d: string, c: char)
    requires AllDigits(d) && !IsDigit(c)
    ensures c !in d
  {
    assert forall i :: 0 <= i < |d| ==> IsDigit(d[i]);
  }

  /** `G P F`, for a grouped number G, a point or comma P and digits F, is plain. */
  lemma SeparatedPlain(g: string, point: char, f: string)
    requires forall i :: 0 <= i < |g| ==> PlainChar(g[i])
    requires PlainChar(point) && AllDigits(f)
    ensures forall i :: 0 <= i < |g + [point] + f| ==> PlainChar((g + [point] + f)[i])
  {
    assert forall i :: 0 <= i < |f| ==> IsDigit(f[i]);
  }

  /** A plain signed text reaches the patterns unchanged. */
  lemma PlainSignedCell(neg: bool, b: string)
    requires b != [] && forall i :: 0 <= i < |b| ==> PlainChar(b[i])
    ensures ParseNumericValue(Some(SignText(neg) + b)) == NumberOf(Rewrite(SignText(neg) + b))
  {
    PlainSigned(neg, b);
    PlainCell(SignText(neg) + b);
  }

  lemma RemoveSigned(neg: bool, b: string, x: char)
    requires x != '-'
    ensures RemoveChar(SignText(neg) + b, x) == SignText(neg) + RemoveChar(b, x)
  {
    RemoveCharAppend(SignText(neg), b, x);
    RemoveCharAbsent(SignText(neg), x);
  }

  /** The first comma of `[-]A,F`, when `A` has none, becomes a point. */
  lemma ReplaceSigned(neg: bool, a: string, f: string)
    requires ',' !in a
    ensures ReplaceFirst(SignText(neg) + (a + [','] + f), ',', '.') == SignText(neg) + (a + ['.'] + f)
  {
    ReplaceFirstSkip(SignText(neg), a + [','] + f, ',', '.');
    ReplaceAfter(a, f);
  }

  // ---------------------------------------------------------------------------
  // European notation: `[-]1.234.567,89`.

  lemma EuropeanMatches(neg: bool, n: nat, f: string)
    requires |f| >= 1 && AllDigits(f)
    ensures European(SignText(neg) + (Group(n, '.') + [','] + f))
  {
    var g := Group(n, '.');
    StripSign(neg, g + [','] + f);
    GroupLacks(n, '.', ',');
    SplitAt(g, ',', f);
  }

  lemma EuropeanRewrite(neg: bool, n: nat, f: string)
    requires |f| >= 1 && AllDigits(f)
    ensures Rewrite(SignText(neg) + (Group(n, '.') + [','] + f))
         == SignText(neg) + (RemoveChar(Group(n, '.'), '.') + ['.'] + f)
  {
    var g := Group(n, '.');
    var d := RemoveChar(g, '.');
    EuropeanMatches(neg, n, f);
    DigitsLack(f, '.');
    RemoveSigned(neg, g + [','] + f, '.');
    RemoveCharAround(g, ',', f, '.');
    UngroupedDigits(n, '.');
    DigitsLack(d, ',');
    ReplaceSigned(neg, d, f);
  }

  /** Numbers written the European way, `[-]1.234.567,89`, read back as written:
      the value `v` of the number `n` with the fraction digits `f`. */
  lemma EuropeanRoundTrip(neg: bool, n: nat, f: string, v: real)
    requires |f| >= 1 && AllDigits(f)
    requires v == n as real + FractionValue(f)
    ensures ParseNumericValue(Some(SignText(neg) + (Group(n, '.') + [','] + f))) == Some(Signed(neg, v))
  {
    var g := Group(n, '.');
    var d := RemoveChar(g, '.');
    GroupPlain(n, '.');
    SeparatedPlain(g, ',', f);
    PlainSignedCell(neg, g + [','] + f);
    EuropeanRewrite(neg, n, f);
    UngroupedDigits(n, '.');
    SignedDecimal(neg, d, f, v);
  }

  /** The first comma comes no later than a known one. */
  lemma FirstAtMost(b: string, c: char, j: nat)
    requires j < |b| && b[j] == c
    ensures IndexOf(b, c) <= j
  {
    IndexOfSpec(b, c);
  }

  /** The European pattern fails when a non-digit follows the first comma. */
  lemma NotEuropeanAt(t: string, j: nat)
    requires var b := StripMinus(t); j < |b| && !IsDigit(b[j]) && IndexOf(b, ',') < j
    ensures !European(t)
  {
    var b := StripMinus(t);
    var k := IndexOf(b, ',');
    assert b[k + 1..][j - k - 1] == b[j];
    NonDigitAt(b[k + 1..], j - k - 1);
  }

  // ---------------------------------------------------------------------------
  // Thousands commas with a decimal point: `[-]1,234,567.89`.

  /** A grouped number of at least 1000 has a separator followed by three digits. */
  lemma GroupSplit(n: nat, sep: char)
    requires n >= 1000 && !IsDigit(sep)
    ensures var g := Group(n, sep); var g1 := Group(n / 1000, sep);
      g == g1 + [sep] + Pad3(n % 1000) && |g1| >= 1
  {
  }

  lemma GroupMulti(n: nat, sep: char)
    requires n >= 1000 && !IsDigit(sep)
    ensures GroupedMulti(Group(n, sep), sep)
  {
    var g := Group(n, sep);
    var g1 := Group(n / 1000, sep);
    GroupSplit(n, sep);
    assert g[..|g| - 4] == g1 && g[|g| - 3..] == Pad3(n % 1000);
  }

  /** With a comma before the point, the European pattern fails. */
  lemma ThousandsNotEuropean(neg: bool, n: nat, f: string)
    requires n >= 1000 && AllDigits(f)
    ensures !European(SignText(neg) + (Group(n, ',') + ['.'] + f))
  {
    var g := Group(n, ',');
    var g1 := Group(n / 1000, ',');
    var b := g + ['.'] + f;
    GroupSplit(n, ',');
    StripSign(neg, b);
    assert b[|g1|] == ',' && b[|g|] == '.';
    FirstAtMost(b, ',', |g1|);
    NotEuropeanAt(SignText(neg) + b, |g|);
  }

  lemma ThousandsMatches(neg: bool, n: nat, f: string)
    requires n >= 1000 && |f| >= 1 && AllDigits(f)
    ensures Thousands(SignText(neg) + (Group(n, ',') + ['.'] + f))
  {
    var g := Group(n, ',');
    StripSign(neg, g + ['.'] + f);
    GroupLacks(n, ',', '.');
    SplitAt(g, '.', f);
    GroupMulti(n, ',');
  }

  lemma ThousandsRewrite(neg: bool, n: nat, f: string)
    requires n >= 1000 && |f| >= 1 && AllDigits(f)
    ensures Rewrite(SignText(neg) + (Group(n, ',') + ['.'] + f))
         == SignText(neg) + (RemoveChar(Group(n, ','), ',') + ['.'] + f)
  {
    var g := Group(n, ',');
    ThousandsNotEuropean(neg, n, f);
    ThousandsMatches(neg, n, f);
    DigitsLack(f, ',');
    RemoveSigned(neg, g + ['.'] + f, ',');
    RemoveCharAround(g, '.', f, ',');
  }

  /** Numbers written with thousands commas and a decimal point, `[-]1,234.56`, read
      back as written. */
  lemma ThousandsRoundTrip(neg: bool, n: nat, f: string, v: real)
    requires n >= 1000 && |f| >= 1 && AllDigits(f)
    requires v == n as real + FractionValue(f)
    ensures ParseNumericValue(Some(SignText(neg) + (Group(n, ',') + ['.'] + f))) == Some(Signed(neg, v))
  {
    var g := Group(n, ',');
    var d := RemoveChar(g, ',');
    GroupPlain(n, ',');
    SeparatedPlain(g, '.', f);
    PlainSignedCell(neg, g + ['.'] + f);
    ThousandsRewrite(neg, n, f);
    UngroupedDigits(n, ',');
    SignedDecimal(neg, d, f, v);
  }

  // ---------------------------------------------------------------------------
  // Thousands commas alone: `[-]1,234,567`.

  /** A number of at least a million has two separators. */
  lemma TwoSeparators(n: nat, sep: char)
    requires n >= 1000000 && !IsDigit(sep)
    ensures var g := Group(n, sep);
      var i := |Group(n / 1000 / 1000, sep)|; var j := |Group(n / 1000, sep)|;
      i < j < |g| && g[i] == sep && g[j] == sep
  {
    GroupSplit(n, sep);
    GroupSplit(n / 1000, sep);
  }

  /** With two commas, the European pattern fails. */
  lemma TwoCommasNotEuropean(neg: bool, n: nat)
    requires n >= 1000000
    ensures !European(SignText(neg) + Group(n, ','))
  {
    var g := Group(n, ',');
    TwoSeparators(n, ',');
    StripSign(neg, g);
    FirstAtMost(g, ',', |Group(n / 1000 / 1000, ',')|);
    NotEuropeanAt(SignText(neg) + g, |Group(n / 1000, ',')|);
  }

  lemma IntegerThousandsMatches(neg: bool, n: nat)
    requires n >= 1000
    ensures Thousands(SignText(neg) + Group(n, ','))
  {
    var g := Group(n, ',');
    GroupSplit(n, ',');
    StripSign(neg, g);
    GroupLacks(n, ',', '.');
    NoOccurrence(g, '.');
    GroupMulti(n, ',');
  }

  /** With two or more thousands commas and no fraction, `[-]1,234,567` reads back as
      written. */
  lemma ThousandsIntegerRoundTrip(neg: bool, n: nat, v: real)
    requires n >= 1000000
    requires v == n as real
    ensures ParseNumericValue(Some(SignText(neg) + Group(n, ','))) == Some(Signed(neg, v))
  {
    var g := Group(n, ',');
    var d := RemoveChar(g, ',');
    GroupSplit(n, ',');
    GroupPlain(n, ',');
    PlainSignedCell(neg, g);
    TwoCommasNotEuropean(neg, n);
    IntegerThousandsMatches(neg, n);
    RemoveSigned(neg, g, ',');
    assert Rewrite(SignText(neg) + g) == SignText(neg) + d;
    UngroupedDigits(n, ',');
    SignedInteger(neg, d, v);
  }

  /** Three digits after a point are thousandths. */
  lemma FractionOfPad3(k: nat)
    requires k < 1000
    ensures FractionValue(Pad3(k)) == k as real / 1000.0
  {
    var p := Pad3(k);
    var a, b, c := k / 100, k / 10 % 10, k % 10;
    assert p[2..][1..] == [];
    assert FractionValue(p[2..]) == c as real / 10.0;
    assert FractionValue(p[1..]) == (b as real + c as real / 10.0) / 10.0;
    assert FractionValue(p) == (a as real + (b as real + c as real / 10.0) / 10.0) / 10.0;
    assert k == 100 * a + 10 * b + c;
  }

  lemma ThousandSplit(n: nat)
    ensures (n / 1000) as real + (n % 1000) as real / 1000.0 == n as real / 1000.0
  {
    assert n == 1000 * (n / 1000) + n % 1000;
  }

  /** One comma and three digits, `[-]1,234`, matches the European pattern, which is
      tried first. */
  lemma SingleCommaEuropean(neg: bool, n: nat)
    requires 1000 <= n < 1000000
    ensures European(SignText(neg) + Group(n, ','))
  {
    var q := Group(n / 1000, ',');
    var p := Pad3(n % 1000);
    GroupSplit(n, ',');
    assert q == Show(n / 1000);
    StripSign(neg, q + [','] + p);
    DigitsLack(q, ',');
    SplitAt(q, ',', p);
  }

  /** The European pattern is tried first, so one thousands comma without a fraction,
      `[-]1,234`, is read as a decimal comma: the value is a thousandth of the number. */
  lemma SingleThousandsCommaIsDecimal(neg: bool, n: nat, v: real)
    requires 1000 <= n < 1000000
    requires v == n as real / 1000.0
    ensures ParseNumericValue(Some(SignText(neg) + Group(n, ','))) == Some(Signed(neg, v))
  {
    var g := Group(n, ',');
    var q := Group(n / 1000, ',');
    var p := Pad3(n % 1000);
    GroupSplit(n, ',');
    assert q == Show(n / 1000);
    GroupPlain(n, ',');
    PlainSignedCell(neg, g);
    SingleCommaEuropean(neg, n);
    GroupLacks(n, ',', '.');
    RemoveCharAbsent(SignText(neg) + g, '.');
    DigitsLack(q, ',');
    ReplaceSigned(neg, q, p);
    assert Rewrite(SignText(neg) + g) == SignText(neg) + (q + ['.'] + p);
    FractionOfPad3(n % 1000);
    ThousandSplit(n);
    SignedDecimal(neg, q, p, v);
  }

  // ---------------------------------------------------------------------------
  // A decimal comma after a plain integer part: `[-]1234,5`.

  lemma LongCommaNotEuropean(neg: bool, n: nat, f: string)
    requires n >= 1000 && |f| >= 1 && AllDigits(f)
    ensures !European(SignText(neg) + (Show(n) + [','] + f))
  {
    var s := Show(n);
    StripSign(neg, s + [','] + f);
    DigitsLack(s, ',');
    SplitAt(s, ',', f);
    NotGrouped(s, '.');
  }

  /** More than three integer digits before a comma do not group as thousands. */
  lemma LongCommaNotGrouped(s: string, f: string)
    requires |s| >= 4 && AllDigits(s) && |f| >= 1 && AllDigits(f)
    ensures !GroupedMulti(s + [','] + f, ',')
  {
    var b := s + [','] + f;
    if |f| == 3 {
      assert b[..|b| - 4] == s;
      NotGrouped(s, ',');
    } else if |f| < 3 {
      assert b[|b| - 4] == s[|s| + |f| - 3];
    } else {
      assert b[|b| - 4] == f[|f| - 4];
    }
  }

  lemma LongCommaNotThousands(neg: bool, n: nat, f: string)
    requires n >= 1000 && |f| >= 1 && AllDigits(f)
    ensures !Thousands(SignText(neg) + (Show(n) + [','] + f))
  {
    var s := Show(n);
    var b := s + [','] + f;
    StripSign(neg, b);
    DigitsLack(s, '.');
    DigitsLack(f, '.');
    NoOccurrence(b, '.');
    LongCommaNotGrouped(s, f);
  }

  lemma LongCommaDecimal(neg: bool, n: nat, f: string)
    requires n >= 1000 && |f| >= 1 && AllDigits(f)
    ensures CommaDecimal(SignText(neg) + (Show(n) + [','] + f))
  {
    var s := Show(n);
    StripSign(neg, s + [','] + f);
    DigitsLack(s, ',');
    SplitAt(s, ',', f);
  }

  /** A plain integer part with a decimal comma, `[-]1234,5`, reads back as written,
      whether the European pattern (up to three integer digits) or the comma-decimal
      pattern (more digits) is the one that matches. */
  lemma CommaDecimalRoundTrip(neg: bool, n: nat, f: string, v: real)
    requires |f| >= 1 && AllDigits(f)
    requires v == n as real + FractionValue(f)
    ensures ParseNumericValue(Some(SignText(neg) + (Show(n) + [','] + f))) == Some(Signed(neg, v))
  {
    var s := Show(n);
    if n < 1000 {
      assert s == Group(n, '.');
      EuropeanRoundTrip(neg, n, f, v);
    } else {
      assert forall i :: 0 <= i < |s| ==> PlainChar(s[i]);
      SeparatedPlain(s, ',', f);
      PlainSignedCell(neg, s + [','] + f);
      LongCommaNotEuropean(neg, n, f);
      LongCommaNotThousands(neg, n, f);
      LongCommaDecimal(neg, n, f);
      DigitsLack(s, ',');
      ReplaceSigned(neg, s, f);
      assert Rewrite(SignText(neg) + (s + [','] + f)) == SignText(neg) + (s + ['.'] + f);
      SignedDecimal(neg, s, f, v);
    }
  }

  // ---------------------------------------------------------------------------
  // No separator at all: `[-]1234.5` and `[-]42`.

  /** Digits alone never group with a separator. */
  lemma DigitsNotMulti(s: string, sep: char)
    requires AllDigits(s) && !IsDigit(sep)
    ensures !GroupedMulti(s, sep)
  {
    if |s| >= 5 {
      assert IsDigit(s[|s| - 4]);
    }
  }

  /** A comma-free text matches none of the comma patterns and is left as it is. */
  lemma CommaFreeRewrite(neg: bool, b: string)
    requires b != [] && IsDigit(b[0]) && ',' !in b
    requires !GroupedMulti(b[..IndexOf(b, '.')], ',')
    ensures Rewrite(SignText(neg) + b) == SignText(neg) + b
  {
    var t := SignText(neg) + b;
    StripSign(neg, b);
    NoOccurrence(b, ',');
    assert !European(t) && !CommaDecimal(t);
    assert !Thousands(t);
    assert ',' !in SignText(neg);
    assert ',' !in t;
    RemoveCharAbsent(t, ',');
  }

  /** A plain decimal with no thousands separator, `[-]1234.5`, reads back as written. */
  lemma PlainRoundTrip(neg: bool, n: nat, f: string, v: real)
    requires |f| >= 1 && AllDigits(f)
    requires v == n as real + FractionValue(f)
    ensures ParseNumericValue(Some(SignText(neg) + (Show(n) + ['.'] + f))) == Some(Signed(neg, v))
  {
    var d := Show(n);
    var b := d + ['.'] + f;
    assert forall i :: 0 <= i < |d| ==> PlainChar(d[i]);
    SeparatedPlain(d, '.', f);
    PlainSignedCell(neg, b);
    DigitsLack(d, '.');
    DigitsLack(d, ',');
    DigitsLack(f, ',');
    SplitAt(d, '.', f);
    DigitsNotMulti(d, ',');
    assert ',' !in b;
    CommaFreeRewrite(neg, b);
    SignedDecimal(neg, d, f, v);
  }

  /** A plain integer, `[-]42`, reads back as written. */
  lemma PlainIntegerRoundTrip(neg: bool, n: nat, v: real)
    requires v == n as real
    ensures ParseNumericValue(Some(SignText(neg) + Show(n))) == Some(Signed(neg, v))
  {
    var d := Show(n);
    assert forall i :: 0 <= i < |d| ==> PlainChar(d[i]);
    PlainSignedCell(neg, d);
    DigitsLack(d, '.');
    DigitsLack(d, ',');
    NoOccurrence(d, '.');
    DigitsNotMulti(d, ',');
    CommaFreeRewrite(neg, d);
    SignedInteger(neg, d, v);
  }

  // ---------------------------------------------------------------------------
  // Examples.

  lemma ExampleEuropean()
    ensures ParseNumericValue(Some("1.234,56")) == Some(1234.56)
  {
    GroupOf1234('.');
    assert SignText(false) + (Group(1234, '.') + [','] + "56") == "1.234,56";
    assert FractionValue("56") == 0.56;
    EuropeanRoundTrip(false, 1234, "56", 1234.56);
  }

  lemma ExampleThousands()
    ensures ParseNumericValue(Some("1,234.56")) == Some(1234.56)
  {
    GroupOf1234(',');
    assert SignText(false) + (Group(1234, ',') + ['.'] + "56") == "1,234.56";
    assert FractionValue("56") == 0.56;
    ThousandsRoundTrip(false, 1234, "56", 1234.56);
  }

  lemma ExampleCommaDecimal()
    ensures ParseNumericValue(Some("-1234,5")) == Some(-1234.5)
  {
    ShowOf1234();
    assert SignText(true) + (Show(1234) + [','] + "5") == "-1234,5";
    assert FractionValue("5") == 0.5;
    CommaDecimalRoundTrip(true, 1234, "5", 1234.5);
  }

  lemma ShowOf1234()
    ensures Show(1234) == "1234"
  {
    assert Show(1) == "1";
    assert Show(12) == "12";
    assert Show(123) == "123";
  }

  lemma GroupOf1234(sep: char)
    requires !IsDigit(sep)
    ensures Group(1234, sep) == "1" + [sep] + "234"
  {
    assert Show(1) == "1";
    assert Pad3(234) == "234";
  }

  lemma GroupOf1234567()
    ensures Group(1234567, ',') == "1,234,567"
  {
    GroupOf1234(',');
    assert Pad3(567) == "567";
    assert 1234567 / 1000 == 1234 && 1234567 % 1000 == 567;
  }

  lemma ExampleThousandsInteger()
    ensures ParseNumericValue(Some("1,234,567")) == Some(1234567.0)
  {
    GroupOf1234567();
    assert SignText(false) + Group(1234567, ',') == "1,234,567";
    ThousandsIntegerRoundTrip(false, 1234567, 1234567.0);
  }

  lemma ExampleSingleComma()
    ensures ParseNumericValue(Some("1,234")) == Some(1.234)
  {
    GroupOf1234(',');
    assert SignText(false) + Group(1234, ',') == "1,234";
    SingleThousandsCommaIsDecimal(false, 1234, 1.234);
  }

  /** Missing and blank cells are not numbers. */
  lemma EdgeExamples()
    ensures ParseNumericValue(None) == None
    ensures ParseNumericValue(Some("")) == None
    ensures ParseNumericValue(Some("  ")) == None
  {
  }

  /** As JavaScript's `Number`, a point may have no digits on one side. */
  lemma PointEdgeExamples()
    ensures NumberOf(".5") == Some(0.5)
    ensures NumberOf("5.") == Some(5.0)
    ensures NumberOf(".") == None
  {
    TrimIdentity(".5");
    assert IndexOf(".5", '.') == 0;
    assert ".5"[1..] == "5" && FractionValue("5") == 0.5;
    assert ReadUnsigned(".5") == Some(0.5);
    TrimIdentity("5.");
    assert IndexOf("5.", '.') == 1;
    assert "5."[..1] == "5" && DigitsValue("5") == 5;
    assert ReadUnsigned("5.") == Some(5.0);
    TrimIdentity(".");
    assert IndexOf(".", '.') == 0;
    assert ReadUnsigned(".") == None;
  }

  /** A lone currency symbol reads as 0. */
  lemma LoneCurrency()
    ensures ParseNumericValue(Some("$")) == Some(0.0)
  {
    assert Trim("$") == "$";
    assert Clean("$") == [];
  }

  /** Removing the characters `drop` selects ignores one of them wherever it stands. */
  lemma DroppedAnywhere(a: string, c: char, b: string, drop: char -> bool)
    requires drop(c)
    ensures RemoveWhere(a + [c] + b, drop) == RemoveWhere(a + b, drop)
  {
    RemoveWhereAppend(a + [c], b, drop);
    RemoveWhereAppend(a, [c], drop);
    RemoveWhereAppend(a, b, drop);
    assert RemoveWhere([c], drop) == [];
    assert RemoveWhere(a, drop) + [] == RemoveWhere(a, drop);
  }

  /** A character `drop` keeps survives in place. */
  lemma KeptInPlace(a: string, c: char, b: string, drop: char -> bool)
    requires !drop(c)
    ensures RemoveWhere(a + [c] + b, drop) == RemoveWhere(a, drop) + [c] + RemoveWhere(b, drop)
  {
    RemoveWhereAppend(a + [c], b, drop);
    RemoveWhereAppend(a, [c], drop);
    assert RemoveWhere([c], drop) == [c];
  }

  /** Currency symbols and percent signs are ignored wherever they stand. */
  lemma SymbolIgnored(a: string, c: char, b: string)
    requires IsCurrencyOrPercent(c)
    ensures Clean(a + [c] + b) == Clean(a + b)
  {
    DroppedAnywhere(a, c, b, IsCurrencyOrPercent);
  }

  /** So are spaces inside the text. */
  lemma SpaceIgnored(a: string, c: char, b: string)
    requires IsSpace(c)
    ensures Clean(a + [c] + b) == Clean(a + b)
  {
    var a', b' := RemoveWhere(a, IsCurrencyOrPercent), RemoveWhere(b, IsCurrencyOrPercent);
    assert !IsCurrencyOrPercent(c);
    KeptInPlace(a, c, b, IsCurrencyOrPercent);
    RemoveWhereAppend(a, b, IsCurrencyOrPercent);
    DroppedAnywhere(a', c, b', IsSpace);
    RemoveWhereAppend(a', b', IsSpace);
  }
}
