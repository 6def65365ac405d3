/**
 * String helpers shared by the model: decimal printing of integers (what
 * JavaScript's `String(n)` and Python's `str(n)` give for integers),
 * `Array.prototype.join`, prefix tests and ASCII lower-casing.
 */
module JsStrings {
  import Sequences

  predicate IsDigit(c: char) { '0' <= c <= '9' }

  predicate AllDigits(s: string) { forall i :: 0 <= i < |s| ==> IsDigit(s[i]) }

  function DigitChar(d: nat): (c: char)
    requires d < 10
    ensures IsDigit(c) && (c as int) - ('0' as int) == d
  {
    (('0' as int) + d) as char
  }

  function DigitValue(c: char): nat
    requires IsDigit(c)
  {
    (c as int) - ('0' as int)
  }

  /** The decimal representation of `n`, most significant digit first. */
  function NatToString(n: nat): (s: string)
    ensures |s| > 0 && AllDigits(s)
    decreases n
  {
    if n < 10 then [DigitChar(n)] else NatToString(n / 10) + [DigitChar(n % 10)]
  }

  /** The value of a string of decimal digits (the inverse of NatToString). */
  function ParseDigits(s: string): nat
    requires AllDigits(s)
    decreases |s|
  {
    if s == [] then 0 else ParseDigits(s[..|s| - 1]) * 10 + DigitValue(s[|s| - 1])
  }

  /** Reading back a printed number gives the number. */
  lemma {:induction false} NatToStringRoundTrip(n: nat)
    ensures ParseDigits(NatToString(n)) == n
    decreases n
  {
    if n >= 10 {
      var s := NatToString(n);
      assert s[..|s| - 1] == NatToString(n / 10);
      NatToStringRoundTrip(n / 10);
    }
  }

  /** Distinct numbers print differently. */
  lemma NatToStringInjective(m: nat, n: nat)
    requires NatToString(m) == NatToString(n)
    ensures m == n
  {
    NatToStringRoundTrip(m);
    NatToStringRoundTrip(n);
  }

  /** Decimal representation of an integer, with a leading '-' when negative. */
  function IntToString(i: int): (s: string)
    ensures |s| > 0
    ensures (i < 0) == (s[0] == '-')
  {
    if i < 0 then "-" + NatToString(-i) else NatToString(i)
  }

  /** `parts.join(sep)`. */
  function Join(parts: seq<string>, sep: string): string
  {
    if |parts| == 0 then ""
    else if |parts| == 1 then parts[0]
    else Join(parts[..|parts| - 1], sep) + sep + parts[|parts| - 1]
  }

  /**
   * The index normalisation of `slice` on JavaScript strings, arrays and
   * Buffers: a negative index counts from the end; the result is clamped to
   * [0, length].
   */
  function JsOffset(offset: int, length: nat): (r: nat)
    ensures r <= length
    ensures 0 <= offset <= length ==> r == offset
  {
    if offset < 0 then (if offset + length > 0 then offset + length else 0)
    else if offset < length then offset
    else length
  }

  /** `s.slice(start, end)`: empty when the normalised end is not past the normalised start. */
  function JsSlice<T>(s: seq<T>, start: int, end: int): (r: seq<T>)
    ensures 0 <= start <= end <= |s| ==> r == s[start..end]
    ensures |r| <= |s|
  {
    var b := JsOffset(start, |s|);
    var e := JsOffset(end, |s|);
    if e > b then s[b..e] else []
  }

  predicate StartsWith(s: string, prefix: string) {
    |prefix| <= |s| && s[..|prefix|] == prefix
  }

  lemma StartsWithTrans(a: string, b: string, c: string)
    requires StartsWith(a, b) && StartsWith(b, c)
    ensures StartsWith(a, c)
  {
    assert a[..|c|] == a[..|b|][..|c|];
  }

  lemma StartsWithConcat(a: string, b: string)
    ensures StartsWith(a + b, a)
  {
    assert (a + b)[..|a|] == a;
  }

  predicate EndsWith(s: string, suffix: string) {
    |suffix| <= |s| && s[|s| - |suffix|..] == suffix
  }

  function LowerChar(c: char): char {
    if 'A' <= c <= 'Z' then ((c as int) + 32) as char else c
  }

  /** `s.toLowerCase()` restricted to ASCII letters. */
  function ToLower(s: string): (r: string)
    ensures |r| == |s|
    ensures forall i :: 0 <= i < |s| ==> r[i] == LowerChar(s[i])
  {
    seq(|s|, i requires 0 <= i < |s| => LowerChar(s[i]))
  }

  /** Index of the first occurrence of `c` in `s` at or after `from`, or |s|. */
  function IndexOfCharFrom(s: string, c: char, from: nat): (r: nat)
    requires from <= |s|
    ensures from <= r <= |s|
    ensures r < |s| ==> s[r] == c
    ensures forall i :: from <= i < r ==> s[i] != c
    decreases |s| - from
  {
    if from == |s| then |s| else if s[from] == c then from else IndexOfCharFrom(s, c, from + 1)
  }

  /** `t` occurs in `s` at index `i`. */
  predicate OccursAt(s: string, t: string, i: int) {
    0 <= i && i + |t| <= |s| && s[i..i + |t|] == t
  }

  /**
   * `s.indexOf(t, from)` for `from >= 0`: the first index at or after `from`
   * where `t` occurs, or -1. (The empty string is found at `from`, clamped
   * to the length.)
   */
  function IndexOf(s: string, t: string, from: nat): (r: int)
    ensures r == -1 || (0 <= r && r + |t| <= |s| && (from <= r || t == []))
    decreases |s| - from
  {
    if t == [] then (if from <= |s| then from else |s|)
    else if from + |t| > |s| then -1
    else if s[from..from + |t|] == t then from
    else IndexOf(s, t, from + 1)
  }

  /** What `IndexOf` finds: an occurrence at or after `from`, or -1. */
  lemma {:induction false} IndexOfFound(s: string, t: string, from: nat)
    requires t != []
    ensures var r := IndexOf(s, t, from); r == -1 || (from <= r && OccursAt(s, t, r))
    decreases |s| - from
  {
    if from + |t| <= |s| && s[from..from + |t|] != t {
      IndexOfFound(s, t, from + 1);
    }
  }

  /** `IndexOf` finds the first occurrence: none lies between `from` and the result (or after `from`, on -1). */
  lemma {:induction false} IndexOfFirst(s: string, t: string, from: nat)
    requires t != []
    ensures var r := IndexOf(s, t, from);
      (r == -1 ==> forall i :: from <= i ==> !OccursAt(s, t, i))
      && (0 <= r ==> forall i :: from <= i < r ==> !OccursAt(s, t, i))
    decreases |s| - from
  {
    if from + |t| <= |s| && s[from..from + |t|] != t {
      IndexOfFirst(s, t, from + 1);
    }
  }

  /** `s` does not contain the character `c`. */
  predicate Avoids(s: string, c: char) {
    forall i :: 0 <= i < |s| ==> s[i] != c
  }

  /** The characters of `x + [c] + y`. */
  lemma JoinedChars(x: string, c: char, y: string)
    ensures (x + [c] + y)[|x|] == c
    ensures forall k :: |x| < k < |x| + 1 + |y| ==> (x + [c] + y)[k] == y[k - |x| - 1]
  {
  }

  /** Splitting at the last `c`: a tail free of `c` after a `c` is determined by the string. */
  lemma SplitAtLast(x: string, y: string, x': string, y': string, c: char)
    requires Avoids(y, c) && Avoids(y', c)
    requires x + [c] + y == x' + [c] + y'
    ensures x == x' && y == y'
  {
    var s := x + [c] + y;
    if |y| < |y'| {
      JoinedChars(x, c, y);
      JoinedChars(x', c, y');
      assert false;
    } else if |y'| < |y| {
      JoinedChars(x, c, y);
      JoinedChars(x', c, y');
      assert false;
    }
    assert y == s[|s| - |y|..] == y';
    assert x == s[..|x|] == x';
  }

  /** The decimal forms of a list of numbers. */
  function NatStrings(ns: seq<nat>): (r: seq<string>)
    ensures |r| == |ns| && forall i :: 0 <= i < |ns| ==> r[i] == NatToString(ns[i])
  {
    seq(|ns|, i requires 0 <= i < |ns| => NatToString(ns[i]))
  }

  /** Joining numbers with a separator that is not a digit loses nothing: equal texts come from equal lists. */
  lemma {:induction false} JoinNatsInjective(a: seq<nat>, b: seq<nat>, sep: char)
    requires !IsDigit(sep)
    requires Join(NatStrings(a), [sep]) == Join(NatStrings(b), [sep])
    ensures a == b
    decreases |a| + |b|
  {
    var sa, sb := NatStrings(a), NatStrings(b);
    if |a| >= 2 && |b| >= 2 {
      JoinNatsLast(a, b, sep);
      JoinNatsInjective(a[..|a| - 1], b[..|b| - 1], sep);
      Sequences.EqualByInitLast(a, b);
    } else if |a| >= 2 && |b| == 1 {
      JoinedChars(Join(sa[..|sa| - 1], [sep]), sep, sa[|sa| - 1]);
      assert false;
    } else if |a| == 1 && |b| >= 2 {
      JoinedChars(Join(sb[..|sb| - 1], [sep]), sep, sb[|sb| - 1]);
      assert false;
    } else if |a| == 1 && |b| == 1 {
      NatToStringInjective(a[0], b[0]);
    } else if |a| == 0 && |b| > 0 {
      assert false;
    } else if |b| == 0 && |a| > 0 {
      assert false;
    }
  }

  /** Two joined lists of at least two numbers that print alike end alike, and print alike before that. */
  lemma JoinNatsLast(a: seq<nat>, b: seq<nat>, sep: char)
    requires !IsDigit(sep) && |a| >= 2 && |b| >= 2
    requires Join(NatStrings(a), [sep]) == Join(NatStrings(b), [sep])
    ensures Join(NatStrings(a[..|a| - 1]), [sep]) == Join(NatStrings(b[..|b| - 1]), [sep])
    ensures a[|a| - 1] == b[|b| - 1]
  {
    var sa, sb := NatStrings(a), NatStrings(b);
    var ia, ib := a[..|a| - 1], b[..|b| - 1];
    assert NatStrings(ia) == sa[..|sa| - 1] && NatStrings(ib) == sb[..|sb| - 1];
    assert Avoids(sa[|sa| - 1], sep) && Avoids(sb[|sb| - 1], sep);
    SplitAtLast(Join(NatStrings(ia), [sep]), sa[|sa| - 1], Join(NatStrings(ib), [sep]), sb[|sb| - 1], sep);
    NatToStringInjective(a[|a| - 1], b[|b| - 1]);
  }
}
