/** String helpers that mirror the JavaScript string operations the pipeline uses:
    `trim`, `split` on one character, global and first-only `replace`, and the
    character class `\s`. Strings are sequences of characters. */
module Text {

  /** The characters JavaScript's `trim` and the regular-expression class `\s` treat
      as white space (ECMAScript WhiteSpace and LineTerminator). */
  predicate IsSpace(c: char) {
    c == '\t' || c == '\n' || c == '\U{000B}' || c == '\U{000C}' || c == '\r' || c == ' '
    || c == '\U{00A0}' || c == '\U{1680}' || ('\U{2000}' <= c <= '\U{200A}')
    || c == '\U{2028}' || c == '\U{2029}' || c == '\U{202F}' || c == '\U{205F}'
    || c == '\U{3000}' || c == '\U{FEFF}'
  }

  function TrimStart(s: string): (r: string)
    ensures |r| <= |s|
    ensures r == [] || !IsSpace(r[0])
  {
    if s != [] && IsSpace(s[0]) then TrimStart(s[1..]) else s
  }

  function TrimEnd(s: string): (r: string)
    ensures |r| <= |s|
    ensures r == [] || !IsSpace(r[|r| - 1])
  {
    if s != [] && IsSpace(s[|s| - 1]) then TrimEnd(s[..|s| - 1]) else s
  }

  /** `TrimStart` keeps a suffix of `s` and cuts off only white space. */
  lemma {:induction false} TrimStartCutsSpace(s: string)
    ensures TrimStart(s) == s[|s| - |TrimStart(s)|..]
    ensures forall i :: 0 <= i < |s| - |TrimStart(s)| ==> IsSpace(s[i])
  {
    if s != [] && IsSpace(s[0]) {
      TrimStartCutsSpace(s[1..]);
      assert s[1..][|s| - 1 - |TrimStart(s)|..] == s[|s| - |TrimStart(s)|..];
      assert forall i :: 1 <= i < |s| - |TrimStart(s)| ==> s[i] == s[1..][i - 1];
    }
  }

  /** `TrimEnd` keeps a prefix of `s` and cuts off only white space. */
  lemma {:induction false} TrimEndCutsSpace(s: string)
    ensures TrimEnd(s) == s[..|TrimEnd(s)|]
    ensures forall i :: |TrimEnd(s)| <= i < |s| ==> IsSpace(s[i])
  {
    if s != [] && IsSpace(s[|s| - 1]) {
      TrimEndCutsSpace(s[..|s| - 1]);
      assert s[..|s| - 1][..|TrimEnd(s)|] == s[..|TrimEnd(s)|];
      assert forall i :: |TrimEnd(s)| <= i < |s| - 1 ==> s[i] == s[..|s| - 1][i];
    }
  }

  /** JavaScript's `String.prototype.trim`. */
  function Trim(s: string): string {
    TrimEnd(TrimStart(s))
  }

  /** A string already free of space at both ends is its own trim. */
  lemma TrimIdentity(s: string)
    requires s == [] || (!IsSpace(s[0]) && !IsSpace(s[|s| - 1]))
    ensures Trim(s) == s
  {
  }

  /** Number of occurrences of `c` in `s`. */
  function Count(s: string, c: char): nat {
    if s == [] then 0 else (if s[0] == c then 1 else 0) + Count(s[1..], c)
  }

  /** JavaScript's `s.split(c)` for a one-character separator. */
  function SplitOn(s: string, c: char): (r: seq<string>)
    ensures |r| >= 1
  {
    if s == [] then [[]]
    else
      var rest := SplitOn(s[1..], c);
      if s[0] == c then [[]] + rest else [[s[0]] + rest[0]] + rest[1..]
  }

  /** `split` yields one more piece than there are separators. */
  lemma {:induction false} SplitOnLength(s: string, c: char)
    ensures |SplitOn(s, c)| == Count(s, c) + 1
  {
    if s != [] {
      SplitOnLength(s[1..], c);
    }
  }

  /** No piece of `split` contains the separator. */
  lemma {:induction false} SplitOnPieces(s: string, c: char)
    ensures forall k :: 0 <= k < |SplitOn(s, c)| ==> c !in SplitOn(s, c)[k]
  {
    if s != [] {
      SplitOnPieces(s[1..], c);
    }
  }

  /** Joining the pieces with the separator gives back the string. */
  function Join(pieces: seq<string>, c: char): string
    requires |pieces| >= 1
  {
    if |pieces| == 1 then pieces[0] else pieces[0] + [c] + Join(pieces[1..], c)
  }

  lemma {:induction false} JoinSplitOn(s: string, c: char)
    ensures Join(SplitOn(s, c), c) == s
  {
    if s != [] {
      JoinSplitOn(s[1..], c);
      var rest := SplitOn(s[1..], c);
      if s[0] != c {
        if |rest| == 1 {
        } else {
          assert Join(rest, c) == rest[0] + [c] + Join(rest[1..], c);
          assert ([s[0]] + rest[0]) + [c] + Join(rest[1..], c) == [s[0]] + Join(rest, c);
        }
      }
    }
  }

  /** `s` with every character satisfying `drop` removed (a global `replace` by ''). */
  function RemoveWhere(s: string, drop: char -> bool): (r: string)
    ensures |r| <= |s|
    ensures forall i :: 0 <= i < |r| ==> !drop(r[i])
  {
    if s == [] then []
    else (if drop(s[0]) then [] else [s[0]]) + RemoveWhere(s[1..], drop)
  }

  /** Removing characters that do not occur changes nothing. */
  lemma {:induction false} RemoveWhereNone(s: string, drop: char -> bool)
    requires forall i :: 0 <= i < |s| ==> !drop(s[i])
    ensures RemoveWhere(s, drop) == s
  {
    if s != [] {
      RemoveWhereNone(s[1..], drop);
    }
  }

  lemma {:induction false} RemoveWhereAppend(a: string, b: string, drop: char -> bool)
    ensures RemoveWhere(a + b, drop) == RemoveWhere(a, drop) + RemoveWhere(b, drop)
  {
    if a == [] {
      assert a + b == b;
    } else {
      var ab := a + b;
      assert ab[1..] == a[1..] + b;
      RemoveWhereAppend(a[1..], b, drop);
      assert RemoveWhere(ab, drop) == (if drop(a[0]) then [] else [a[0]]) + RemoveWhere(a[1..] + b, drop);
    }
  }

  /** `s.replace(/x/g, '')`: every occurrence of `x` removed. */
  function RemoveChar(s: string, x: char): string {
    if s == [] then [] else (if s[0] == x then [] else [s[0]]) + RemoveChar(s[1..], x)
  }

  lemma {:induction false} RemoveCharAppend(a: string, b: string, x: char)
    ensures RemoveChar(a + b, x) == RemoveChar(a, x) + RemoveChar(b, x)
  {
    if a == [] {
      assert a + b == b;
    } else {
      var ab := a + b;
      assert ab[1..] == a[1..] + b;
      RemoveCharAppend(a[1..], b, x);
      assert RemoveChar(ab, x) == (if a[0] == x then [] else [a[0]]) + RemoveChar(a[1..] + b, x);
    }
  }

  lemma {:induction false} RemoveCharAbsent(s: string, x: char)
    requires x !in s
    ensures RemoveChar(s, x) == s
  {
    if s != [] {
      assert s == [s[0]] + s[1..];
      RemoveCharAbsent(s[1..], x);
    }
  }

  /** A tail without `x` survives the removal untouched. */
  lemma RemoveCharKeepsTail(a: string, p: string, x: char)
    requires x !in p
    ensures RemoveChar(a + p, x) == RemoveChar(a, x) + p
  {
    RemoveCharAppend(a, p, x);
    RemoveCharAbsent(p, x);
  }

  /** A trailing `x` disappears. */
  lemma RemoveCharDropsLast(a: string, x: char)
    ensures RemoveChar(a + [x], x) == RemoveChar(a, x)
  {
    RemoveCharAppend(a, [x], x);
    assert RemoveChar([x], x) == [];
  }

  /** Removing a character other than the one in the middle. */
  lemma RemoveCharAround(a: string, c: char, f: string, x: char)
    requires x != c && x !in f
    ensures RemoveChar(a + [c] + f, x) == RemoveChar(a, x) + [c] + f
  {
    RemoveCharKeepsTail(a + [c], f, x);
    RemoveCharAppend(a, [c], x);
    assert RemoveChar([c], x) == [c];
  }

  /** `s.replace(from, to)` with a one-character pattern: only the first occurrence. */
  function ReplaceFirst(s: string, from: char, to: char): (r: string)
    ensures |r| == |s|
  {
    if s == [] then []
    else if s[0] == from then [to] + s[1..]
    else [s[0]] + ReplaceFirst(s[1..], from, to)
  }

  /** Index of the first occurrence of `c`, or `|s|` when there is none. */
  function IndexOf(s: string, c: char): (k: nat)
    ensures k <= |s|
  {
    if s == [] then 0 else if s[0] == c then 0 else 1 + IndexOf(s[1..], c)
  }

  /** `IndexOf` finds `c` unless it is absent, and nothing before it is `c`. */
  lemma {:induction false} IndexOfSpec(s: string, c: char)
    ensures var k := IndexOf(s, c);
      (k < |s| ==> s[k] == c) && forall i :: 0 <= i < k ==> s[i] != c
  {
    if s != [] && s[0] != c {
      IndexOfSpec(s[1..], c);
    }
  }

  /** Replacing the first occurrence rewrites exactly the position `IndexOf` finds. */
  lemma {:induction false} ReplaceFirstAt(s: string, from: char, to: char)
    ensures var k := IndexOf(s, from);
      ReplaceFirst(s, from, to) == if k == |s| then s else s[..k] + [to] + s[k + 1..]
  {
    if s != [] && s[0] != from {
      ReplaceFirstAt(s[1..], from, to);
      var k := IndexOf(s[1..], from);
      assert IndexOf(s, from) == k + 1;
      assert ReplaceFirst(s, from, to) == [s[0]] + ReplaceFirst(s[1..], from, to);
      if k < |s| - 1 {
        assert [s[0]] + (s[1..][..k] + [to] + s[1..][k + 1..]) == s[..k + 1] + [to] + s[k + 2..];
      } else {
        assert [s[0]] + s[1..] == s;
      }
    }
  }

  /** A prefix without `from` is passed over. */
  lemma {:induction false} ReplaceFirstSkip(pre: string, s: string, from: char, to: char)
    requires from !in pre
    ensures ReplaceFirst(pre + s, from, to) == pre + ReplaceFirst(s, from, to)
  {
    if pre == [] {
      assert pre + s == s;
    } else {
      ReplaceFirstSkip(pre[1..], s, from, to);
      assert (pre + s)[0] == pre[0] && (pre + s)[1..] == pre[1..] + s;
    }
  }

  /** ASCII lower-casing, enough for the case-insensitive header patterns. */
  function Lower(c: char): char {
    if 'A' <= c <= 'Z' then (c as int + 32) as char else c
  }

  function LowerAll(s: string): (r: string)
    ensures |r| == |s| && forall i :: 0 <= i < |s| ==> r[i] == Lower(s[i])
  {
    if s == [] then [] else [Lower(s[0])] + LowerAll(s[1..])
  }

  /** `pat` occurs in `s` starting at some index. */
  predicate ContainsAt(s: string, pat: string, i: nat) {
    i + |pat| <= |s| && s[i..i + |pat|] == pat
  }

  ghost predicate Contains(s: string, pat: string) {
    exists i: nat :: ContainsAt(s, pat, i)
  }

  /** A decidable form of `Contains`, by scanning positions from `i`. */
  function ContainsFrom(s: string, pat: string, i: nat): (b: bool)
    ensures b <==> exists j: nat :: i <= j && ContainsAt(s, pat, j)
    decreases |s| - i
  {
    if i + |pat| > |s| then
      assert forall j: nat :: i <= j ==> !ContainsAt(s, pat, j);
      false
    else if s[i..i + |pat|] == pat then
      assert ContainsAt(s, pat, i);
      true
    else
      var b := ContainsFrom(s, pat, i + 1);
      assert (exists j: nat :: i <= j && ContainsAt(s, pat, j)) ==> (exists j: nat :: i + 1 <= j && ContainsAt(s, pat, j));
      b
  }
}
