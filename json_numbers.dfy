/**
 * `JSON.parse("[" + text + "]")` for the number arrays of a heap snapshot:
 * comma-separated integers with optional JSON whitespace (section 2 of
 * RFC 8259) around each; an empty or all-whitespace text is the empty array.
 * Integers are an optional '-' and either "0" or digits not starting with 0
 * (section 6 of RFC 8259); fractions and exponents are not modelled.
 */
module JsonNumbers {
  import opened Wrappers
  import opened JsStrings

  predicate IsJsonSpace(c: char) { c == ' ' || c == '\t' || c == '\n' || c == '\r' }

  /** The first index at or after `i` that is not whitespace. */
  function SkipSpace(s: string, i: nat): (j: nat)
    requires i <= |s|
    ensures i <= j <= |s|
    ensures j < |s| ==> !IsJsonSpace(s[j])
    decreases |s| - i
  {
    if i == |s| || !IsJsonSpace(s[i]) then i else SkipSpace(s, i + 1)
  }

  /** The end of the run of digits starting at `i`. */
  function DigitRun(s: string, i: nat): (j: nat)
    requires i <= |s|
    ensures i <= j <= |s|
    ensures j < |s| ==> !IsDigit(s[j])
    ensures AllDigits(s[i..j])
    decreases |s| - i
  {
    if i == |s| || !IsDigit(s[i]) then i else DigitRun(s, i + 1)
  }

  /** A JSON integer starting at `i`, with the index just after it. */
  function ParseIntAt(s: string, i: nat): (r: Option<(int, nat)>)
    requires i <= |s|
    ensures r.Some? ==> i < r.value.1 <= |s|
  {
    var neg := i < |s| && s[i] == '-';
    var d := if neg then i + 1 else i;
    var j := DigitRun(s, d);
    if j == d then None
    else if s[d] == '0' && j > d + 1 then Some((0, d + 1))
    else
      var v: int := ParseDigits(s[d..j]);
      Some((if neg then -v else v, j))
  }

  /** The items of a non-empty array body from `i`: value, then either the end or a comma and more. */
  function ParseItems(s: string, i: nat): Option<seq<int>>
    requires i <= |s|
    decreases |s| - i, 1
  {
    var p := ParseIntAt(s, SkipSpace(s, i));
    if p.None? then None else ItemsAfter(s, p.value.0, p.value.1)
  }

  /** The rest of an array body after the item `v`, which ends just before `b`. */
  function ItemsAfter(s: string, v: int, b: nat): Option<seq<int>>
    requires b <= |s|
    decreases |s| - b, 0
  {
    var c := SkipSpace(s, b);
    if c == |s| then Some([v])
    else if s[c] != ',' then None
    else
      var rest := ParseItems(s, c + 1);
      if rest.None? then None else Some([v] + rest.value)
  }

  /** `JSON.parse("[" + s + "]")` of a number array body; None where JSON.parse throws. */
  function ParseNumbers(s: string): Option<seq<int>>
  {
    if SkipSpace(s, 0) == |s| then Some([]) else ParseItems(s, 0)
  }

  /** The body of a number array as printed without whitespace: decimal numbers joined by commas. */
  function FormatNumbers(ns: seq<nat>): string
  {
    if |ns| == 0 then ""
    else if |ns| == 1 then NatToString(ns[0])
    else NatToString(ns[0]) + "," + FormatNumbers(ns[1..])
  }

  lemma {:induction false} NatToStringNoLeadingZero(n: nat)
    ensures NatToString(n)[0] == '0' ==> n == 0
    ensures |NatToString(n)| > 1 ==> NatToString(n)[0] != '0'
    decreases n
  {
    if n >= 10 {
      NatToStringNoLeadingZero(n / 10);
      assert NatToString(n)[0] == NatToString(n / 10)[0];
    }
  }

  /** A printed number at `i`, not followed by another digit, parses back. */
  lemma ParseIntAtNat(n: nat, s: string, i: nat)
    requires i + |NatToString(n)| <= |s|
    requires s[i..i + |NatToString(n)|] == NatToString(n)
    requires i + |NatToString(n)| == |s| || !IsDigit(s[i + |NatToString(n)|])
    ensures ParseIntAt(s, i) == Some((n, i + |NatToString(n)|))
  {
    var t := NatToString(n);
    assert forall k :: i <= k < i + |t| ==> s[k] == t[k - i];
    DigitRunExact(s, i, i + |t|);
    NatToStringNoLeadingZero(n);
    NatToStringRoundTrip(n);
  }

  lemma {:induction false} DigitRunExact(s: string, i: nat, j: nat)
    requires i <= j <= |s|
    requires forall k :: i <= k < j ==> IsDigit(s[k])
    requires j == |s| || !IsDigit(s[j])
    ensures DigitRun(s, i) == j
    decreases j - i
  {
    if i < j {
      DigitRunExact(s, i + 1, j);
    }
  }

  /** A printed number array occupying the end of `s` from `i` parses back. */
  lemma {:induction false} ParseItemsFormat(ns: seq<nat>, s: string, i: nat)
    requires |ns| > 0
    requires i <= |s| && s[i..] == FormatNumbers(ns)
    ensures ParseItems(s, i) == Some(ns)
    decreases |ns|, 1
  {
    if |ns| == 1 {
      LastItemFormat(ns, s, i);
    } else {
      FirstItemFormat(ns, s, i);
    }
  }

  lemma LastItemFormat(ns: seq<nat>, s: string, i: nat)
    requires |ns| == 1
    requires i <= |s| && s[i..] == FormatNumbers(ns)
    ensures ParseItems(s, i) == Some(ns)
  {
    assert s[i..] == NatToString(ns[0]);
    LastItem(ns[0], s, i);
    assert ns == [ns[0]];
  }

  /** A longer printed array: its first number, a comma and the printed rest. */
  lemma {:induction false} FirstItemFormat(ns: seq<nat>, s: string, i: nat)
    requires |ns| > 1
    requires i <= |s| && s[i..] == FormatNumbers(ns)
    ensures ParseItems(s, i) == Some(ns)
    decreases |ns|, 0
  {
    var j := SplitFirst(ns, s, i);
    ParseItemsFormat(ns[1..], s, j);
    FirstItemOf(s, i, ns, j, ns[1..]);
  }

  /** Where the printed rest of a longer array starts, after the first number and its comma. */
  lemma SplitFirst(ns: seq<nat>, s: string, i: nat) returns (j: nat)
    requires |ns| > 1
    requires i <= |s| && s[i..] == FormatNumbers(ns)
    ensures j == i + |NatToString(ns[0])| + 1 && j <= |s|
    ensures s[i..j - 1] == NatToString(ns[0]) && s[j - 1] == ','
    ensures s[j..] == FormatNumbers(ns[1..])
  {
    var t := NatToString(ns[0]);
    var rest := FormatNumbers(ns[1..]);
    assert s[i..] == t + "," + rest;
    SplitAtComma(t, rest, s, i);
    j := i + |t| + 1;
  }

  lemma FirstItemOf(s: string, i: nat, ns: seq<nat>, j: nat, tail: seq<nat>)
    requires |ns| > 1 && tail == ns[1..] && j == i + |NatToString(ns[0])| + 1 && j <= |s|
    requires s[i..j - 1] == NatToString(ns[0]) && s[j - 1] == ','
    requires ParseItems(s, j) == Some(tail)
    ensures ParseItems(s, i) == Some(ns)
  {
    var vs: seq<int> := tail;
    FirstItem(s, i, ns[0], vs);
    assert [ns[0] as int] + vs == ns;
  }

  /** A printed number at `i` followed by a comma and more items is the first item. */
  lemma FirstItem(s: string, i: nat, n: nat, vs: seq<int>)
    requires i + |NatToString(n)| < |s|
    requires s[i..i + |NatToString(n)|] == NatToString(n) && s[i + |NatToString(n)|] == ','
    requires ParseItems(s, i + |NatToString(n)| + 1) == Some(vs)
    ensures ParseItems(s, i) == Some([n as int] + vs)
  {
    var c := i + |NatToString(n)|;
    NumberBeforeComma(n, s, i);
    ParseItemsStep(s, i, n, c);
    ItemsAfterComma(s, n, c, vs);
  }

  lemma NumberBeforeComma(n: nat, s: string, i: nat)
    requires i + |NatToString(n)| < |s|
    requires s[i..i + |NatToString(n)|] == NatToString(n) && s[i + |NatToString(n)|] == ','
    ensures ParseIntAt(s, i) == Some((n as int, i + |NatToString(n)|)) && !IsJsonSpace(s[i])
  {
    ParseIntAtNat(n, s, i);
    assert s[i] == NatToString(n)[0];
  }

  lemma SplitAtComma(t: string, rest: string, s: string, i: nat)
    requires i <= |s| && s[i..] == t + "," + rest
    ensures s[i..i + |t|] == t && s[i + |t|] == ',' && s[i + |t| + 1..] == rest
  {
  }

  /** A printed number at the end of `s` is the last item. */
  lemma LastItem(n: nat, s: string, i: nat)
    requires i <= |s| && s[i..] == NatToString(n)
    ensures ParseItems(s, i) == Some([n])
  {
    ParseIntAtNat(n, s, i);
    assert s[i] == NatToString(n)[0];
    ParseItemsStep(s, i, n, |s|);
  }

  lemma ItemsAfterComma(s: string, v: int, c: nat, vs: seq<int>)
    requires c < |s| && s[c] == ','
    requires ParseItems(s, c + 1) == Some(vs)
    ensures ItemsAfter(s, v, c) == Some([v] + vs)
  {
    assert SkipSpace(s, c) == c;
  }

  /** The item at `i` of ParseItems, when it starts exactly at `i` and is followed by a comma or the end. */
  lemma ParseItemsStep(s: string, i: nat, v: int, c: nat)
    requires i < |s| && !IsJsonSpace(s[i])
    requires ParseIntAt(s, i) == Some((v, c))
    requires c == |s| || s[c] == ','
    ensures ParseItems(s, i) == ItemsAfter(s, v, c)
    ensures c == |s| ==> ParseItems(s, i) == Some([v])
  {
    assert SkipSpace(s, i) == i;
    assert SkipSpace(s, c) == c;
  }

  /** Parsing a printed number array gives the numbers back. */
  lemma ParseFormatNumbers(ns: seq<nat>)
    ensures ParseNumbers(FormatNumbers(ns)) == Some(ns)
  {
    if |ns| > 0 {
      var s := FormatNumbers(ns);
      assert s[0..] == s;
      ParseItemsFormat(ns, s, 0);
      assert FormatNumbers(ns)[0] == NatToString(ns[0])[0];
    }
  }

  /** A dangling comma is a syntax error, as in JSON. */
  lemma TrailingCommaRejected()
    ensures ParseNumbers("1,") == None
  {
    assert SkipSpace("1,", 0) == 0;
    assert DigitRun("1,", 1) == 1;
    assert DigitRun("1,", 0) == 1;
    assert "1,"[0..1] == "1";
    assert ParseDigits("1") == 1 by {
      assert "1"[..0] == "";
    }
    assert ParseIntAt("1,", 0) == Some((1, 1));
    assert SkipSpace("1,", 2) == 2;
  }
}
