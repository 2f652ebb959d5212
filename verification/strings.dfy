/**
 * The JavaScript string operations the adapter relies on: `includes`,
 * `startsWith`, `split` on a literal separator, `join`, `trim` and the
 * `\s` character class, written over `seq<char>`.
 */
module Strings {
  import opened Base

  /** The `\s` class of JavaScript regular expressions. ECMA-262 uses the same
      WhiteSpace and LineTerminator code points for `String.prototype.trim`. */
  predicate IsJsWhitespace(c: char) {
    || c == '\t' || c == '\n' || c == '\U{000B}' || c == '\U{000C}' || c == '\r' || c == ' '
    || c == '\U{00A0}' || c == '\U{1680}' || ('\U{2000}' <= c <= '\U{200A}')
    || c == '\U{2028}' || c == '\U{2029}' || c == '\U{202F}' || c == '\U{205F}'
    || c == '\U{3000}' || c == '\U{FEFF}'
  }

  /** The line terminators, which `.` in a JavaScript regular expression does not match. */
  predicate IsLineTerminator(c: char) {
    c == '\n' || c == '\r' || c == '\U{2028}' || c == '\U{2029}'
  }

  /** `s.startsWith(p)`. */
  predicate HasPrefix(s: string, p: string) {
    |p| <= |s| && s[..|p|] == p
  }

  /** `sub` occurs in `s` starting at index `i`. */
  predicate OccursAt(s: string, sub: string, i: nat) {
    i + |sub| <= |s| && s[i..i + |sub|] == sub
  }

  /** `s.includes(sub)`. */
  predicate Contains(s: string, sub: string) {
    exists i: nat | i <= |s| :: OccursAt(s, sub, i)
  }

  /** A character that occurs nowhere in `s` rules out every `sub` containing it. */
  lemma AbsentCharExcludes(s: string, sub: string, k: nat)
    requires k < |sub|
    requires forall i | 0 <= i < |s| :: s[i] != sub[k]
    ensures !Contains(s, sub)
  {
    forall i: nat | i <= |s| ensures !OccursAt(s, sub, i) {
      if i + |sub| <= |s| {
        assert s[i..i + |sub|][k] == s[i + k];
      }
    }
  }

  /** A witness index proves `includes`. */
  lemma OccursAtContains(s: string, sub: string, i: nat)
    requires OccursAt(s, sub, i)
    ensures Contains(s, sub)
  {
  }

  /** Index of the leftmost occurrence of `sep` at or after `i`, as `indexOf` computes it. */
  function FindFrom(s: string, sep: string, i: nat): (r: Option<nat>)
    requires i <= |s|
    ensures r.Some? ==> i <= r.value && OccursAt(s, sep, r.value)
    ensures r.Some? ==> forall k | i <= k < r.value :: !OccursAt(s, sep, k)
    ensures r.None? ==> forall k | i <= k <= |s| :: !OccursAt(s, sep, k)
    decreases |s| - i
  {
    if OccursAt(s, sep, i) then Some(i)
    else if i == |s| then None
    else FindFrom(s, sep, i + 1)
  }

  function Find(s: string, sep: string): (r: Option<nat>)
    ensures r.Some? ==> OccursAt(s, sep, r.value) && forall k: nat | k < r.value :: !OccursAt(s, sep, k)
    ensures r.None? <==> !Contains(s, sep)
  {
    FindFrom(s, sep, 0)
  }

  /** `s.split(sep)` for a non-empty literal separator: the pieces between
      leftmost, non-overlapping occurrences of `sep`. */
  function Split(s: string, sep: string): (pieces: seq<string>)
    requires |sep| > 0
    ensures |pieces| >= 1
    decreases |s|
  {
    match Find(s, sep)
    case None => [s]
    case Some(p) => [s[..p]] + Split(s[p + |sep|..], sep)
  }

  /** `parts.join(sep)`. */
  function Join(parts: seq<string>, sep: string): string {
    if |parts| == 0 then ""
    else if |parts| == 1 then parts[0]
    else parts[0] + sep + Join(parts[1..], sep)
  }

  /** The concatenation of a sequence of strings. */
  function Concat(parts: seq<string>): string {
    if |parts| == 0 then "" else parts[0] + Concat(parts[1..])
  }

  function Last<T>(xs: seq<T>): T
    requires |xs| > 0
  {
    xs[|xs| - 1]
  }

  function DropLast<T>(xs: seq<T>): seq<T>
    requires |xs| > 0
  {
    xs[..|xs| - 1]
  }

  /** `s.trim()`: drops JavaScript whitespace from both ends. */
  function Trim(s: string): (r: string)
    ensures |r| > 0 ==> !IsJsWhitespace(r[0]) && !IsJsWhitespace(r[|r| - 1])
    ensures exists i: nat, j: nat | i <= j <= |s| :: r == s[i..j] && AllWhitespace(s[..i]) && AllWhitespace(s[j..])
  {
    var i := IndexWhere(s, 0, NotWhitespace);
    var j := TrailingStart(s, i, |s|);
    s[i..j]
  }

  /** A string that neither starts nor ends with whitespace is its own trim. */
  lemma TrimUnchanged(s: string)
    requires |s| > 0 ==> !IsJsWhitespace(s[0]) && !IsJsWhitespace(s[|s| - 1])
    ensures Trim(s) == s
  {
    if |s| > 0 {
      assert IndexWhere(s, 0, NotWhitespace) == 0;
      assert TrailingStart(s, 0, |s|) == |s|;
    }
  }

  predicate AllWhitespace(s: string) {
    forall k | 0 <= k < |s| :: IsJsWhitespace(s[k])
  }

  /** First index at or after `i` whose character satisfies `stop`, or `|s|`: the
      scan that `indexOf`, a character class run or a whitespace skip performs. */
  function IndexWhere(s: string, i: nat, stop: char -> bool): (r: nat)
    requires i <= |s|
    ensures i <= r <= |s|
    ensures forall k | i <= k < r :: !stop(s[k])
    ensures r < |s| ==> stop(s[r])
    decreases |s| - i
  {
    if i == |s| || stop(s[i]) then i else IndexWhere(s, i + 1, stop)
  }

  /** `IndexWhere` stops at the first character that satisfies the test. */
  lemma {:induction false} IndexWhereAt(s: string, i: nat, e: nat, stop: char -> bool)
    requires i <= e <= |s|
    requires forall k | i <= k < e :: !stop(s[k])
    requires e < |s| ==> stop(s[e])
    ensures IndexWhere(s, i, stop) == e
    decreases e - i
  {
    if i < e {
      IndexWhereAt(s, i + 1, e, stop);
    }
  }

  predicate NotWhitespace(c: char) {
    !IsJsWhitespace(c)
  }

  /** Least `r` in `[lo, j]` such that `s[r..j]` is all whitespace. */
  function TrailingStart(s: string, lo: nat, j: nat): (r: nat)
    requires lo <= j <= |s|
    requires lo < |s| ==> !IsJsWhitespace(s[lo])
    requires AllWhitespace(s[j..])
    ensures lo <= r <= j
    ensures AllWhitespace(s[r..])
    ensures r > lo ==> !IsJsWhitespace(s[r - 1])
    decreases j - lo
  {
    if j == lo then j
    else if IsJsWhitespace(s[j - 1]) then TrailingStart(s, lo, j - 1)
    else j
  }

  /** Joining the pieces of a split with the same separator restores the input. */
  lemma {:induction false} SplitJoin(s: string, sep: string)
    requires |sep| > 0
    ensures Join(Split(s, sep), sep) == s
    decreases |s|
  {
    var f := Find(s, sep);
    if f.None? {
      assert Split(s, sep) == [s];
    } else {
      var p := f.value;
      var rest := s[p + |sep|..];
      var pieces := Split(rest, sep);
      SplitAtFirst(s, sep, p);
      assert ([s[..p]] + pieces)[1..] == pieces;
      assert Join(Split(s, sep), sep) == s[..p] + sep + Join(pieces, sep);
      SplitJoin(rest, sep);
      assert s[p..p + |sep|] == sep;
      assert s == s[..p] + s[p..p + |sep|] + rest;
    }
  }

  /** No piece of a split contains the separator. */
  lemma {:induction false} SplitPiecesAvoidSeparator(s: string, sep: string)
    requires |sep| > 0
    ensures forall k | 0 <= k < |Split(s, sep)| :: !Contains(Split(s, sep)[k], sep)
    decreases |s|
  {
    var f := Find(s, sep);
    if f.None? {
      assert Split(s, sep) == [s];
    } else {
      var p := f.value;
      var rest := s[p + |sep|..];
      SplitPiecesAvoidSeparator(rest, sep);
      HeadAvoidsSeparator(s, sep, p);
      SplitAtFirst(s, sep, p);
      var pieces := Split(s, sep);
      forall k | 0 <= k < |pieces| ensures !Contains(pieces[k], sep) {
        if k > 0 {
          assert pieces[k] == Split(rest, sep)[k - 1];
        }
      }
    }
  }

  /** The text before the first occurrence of `sep` does not contain it. */
  lemma HeadAvoidsSeparator(s: string, sep: string, p: nat)
    requires |sep| > 0
    requires Find(s, sep) == Some(p)
    ensures !Contains(s[..p], sep)
  {
    forall i: nat | i <= p ensures !OccursAt(s[..p], sep, i) {
      if OccursAt(s[..p], sep, i) {
        assert s[..p][i..i + |sep|] == s[i..i + |sep|];
        assert OccursAt(s, sep, i);
      }
    }
  }

  /** An occurrence of `sep` wholly inside `x` is still the leftmost one once `y` is appended. */
  lemma {:induction false} FindFromExtend(x: string, y: string, sep: string, i: nat, p: nat)
    requires i <= p <= |x|
    requires FindFrom(x, sep, i) == Some(p)
    ensures FindFrom(x + y, sep, i) == Some(p)
    decreases p - i
  {
    assert (x + y)[p..p + |sep|] == x[p..p + |sep|];
    if i < p {
      assert (x + y)[i..i + |sep|] == x[i..i + |sep|];
      FindFromExtend(x, y, sep, i + 1, p);
    }
  }

  /** The input to a split may be delivered in two pieces: the complete pieces of the
      first part stand, and its unterminated remainder is split again together with
      the second part. This is what makes the stream framing independent of chunk
      boundaries. */
  lemma {:induction false} SplitAppend(x: string, y: string, sep: string)
    requires |sep| > 0
    ensures Split(x + y, sep) == DropLast(Split(x, sep)) + Split(Last(Split(x, sep)) + y, sep)
    decreases |x|
  {
    var f := Find(x, sep);
    if f.None? {
      assert Split(x, sep) == [x];
    } else {
      var p := f.value;
      var rest := x[p + |sep|..];
      var tail := Split(rest, sep);
      var head := x[..p];
      SplitBothAtFirst(x, y, sep, p);
      SplitAppend(rest, y, sep);
      var whole := [head] + tail;
      assert DropLast(whole) == [head] + DropLast(tail);
      assert Last(whole) == Last(tail);
      var later := Split(Last(tail) + y, sep);
      calc {
        Split(x + y, sep);
        [head] + Split(rest + y, sep);
        [head] + (DropLast(tail) + later);
        { SeqAssoc([head], DropLast(tail), later); }
        ([head] + DropLast(tail)) + later;
        DropLast(whole) + Split(Last(whole) + y, sep);
      }
    }
  }

  /** A separator found in `x` splits `x + y` at the same place. */
  lemma SplitBothAtFirst(x: string, y: string, sep: string, p: nat)
    requires |sep| > 0
    requires Find(x, sep) == Some(p)
    ensures Split(x, sep) == [x[..p]] + Split(x[p + |sep|..], sep)
    ensures Split(x + y, sep) == [x[..p]] + Split(x[p + |sep|..] + y, sep)
  {
    FindFromExtend(x, y, sep, 0, p);
    SplitAtFirst(x, sep, p);
    SplitAtFirst(x + y, sep, p);
    assert (x + y)[..p] == x[..p];
    assert (x + y)[p + |sep|..] == x[p + |sep|..] + y;
  }

  lemma SeqAssoc<T>(a: seq<T>, b: seq<T>, c: seq<T>)
    ensures a + (b + c) == (a + b) + c
  {
  }

  lemma {:induction false} SplitAtFirst(s: string, sep: string, p: nat)
    requires |sep| > 0
    requires Find(s, sep) == Some(p)
    ensures Split(s, sep) == [s[..p]] + Split(s[p + |sep|..], sep)
  {
  }

  lemma {:induction false} ConcatAppend(a: seq<string>, b: seq<string>)
    ensures Concat(a + b) == Concat(a) + Concat(b)
  {
    if |a| > 0 {
      assert (a + b)[1..] == a[1..] + b;
      ConcatAppend(a[1..], b);
    } else {
      assert a + b == b;
    }
  }

  /** The decimal numeral of `n`, as a template literal renders a non-negative integer. */
  function NatToString(n: nat): (r: string)
    ensures |r| > 0
    ensures forall k | 0 <= k < |r| :: '0' <= r[k] <= '9'
  {
    if n < 10 then [Digit(n)] else NatToString(n / 10) + [Digit(n % 10)]
  }

  function Digit(d: nat): (c: char)
    requires d < 10
    ensures '0' <= c <= '9'
  {
    "0123456789"[d]
  }

  /** The number a string of decimal digits denotes. */
  function DigitsValue(s: string): nat
    requires forall k | 0 <= k < |s| :: '0' <= s[k] <= '9'
  {
    if |s| == 0 then 0 else DigitsValue(s[..|s| - 1]) * 10 + (s[|s| - 1] as int - '0' as int)
  }

  /** Decimal rendering loses nothing: the digits read back as the number. */
  lemma {:induction false} NatToStringRoundTrip(n: nat)
    ensures DigitsValue(NatToString(n)) == n
  {
    var r := NatToString(n);
    if n >= 10 {
      NatToStringRoundTrip(n / 10);
      assert r[..|r| - 1] == NatToString(n / 10);
    }
    assert r[|r| - 1] == Digit(n % 10);
  }
}
