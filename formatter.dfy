/**
 * The position arithmetic of the source viewer's formatter: finding line
 * endings, binary search over sorted offsets, and the mapping between
 * (line, column) locations and character positions of the original and the
 * pretty-printed text.
 *
 * Offsets are JavaScript numbers; a read past an array gives `undefined`
 * and arithmetic on it gives NaN, which the model writes as None. The
 * callers' `x || 0` turns NaN (and 0) into 0: `OrZero`.
 */
module Formatter {
  import opened Wrappers
  import opened JsStrings

  // ---------------------------------------------------------------------
  // findAll and computeLineEndings
  // ---------------------------------------------------------------------

  /**
   * The occurrences `findAll` reports from `from` on: the first occurrence,
   * then the occurrences from just past its end. Each is an occurrence at
   * or after `from`.
   */
  function Occurrences(s: string, t: string, from: nat): (r: seq<nat>)
    requires t != []
    ensures forall x :: x in r ==> from <= x && OccursAt(s, t, x)
    decreases |s| - from
  {
    var i := IndexOf(s, t, from);
    IndexOfFound(s, t, from);
    if i < 0 then [] else [i] + Occurrences(s, t, i + |t|)
  }

  predicate StrictlyIncreasing(a: seq<int>) {
    forall i, j :: 0 <= i < j < |a| ==> a[i] < a[j]
  }

  /** Each element is at least `gap` past the one before it. */
  predicate Apart(r: seq<int>, gap: nat) {
    forall k :: 0 <= k < |r| - 1 ==> r[k] + gap <= r[k + 1]
  }

  /** Each reported occurrence starts at or after the end of the previous one, so they do not overlap. */
  lemma {:induction false} OccurrencesApart(s: string, t: string, from: nat)
    requires t != []
    ensures Apart(Occurrences(s, t, from), |t|)
    decreases |s| - from
  {
    var i := IndexOf(s, t, from);
    IndexOfFound(s, t, from);
    if i >= 0 {
      var next: nat := i + |t|;
      var rest := Occurrences(s, t, next);
      OccurrencesApart(s, t, next);
      var r := [i] + rest;
      assert r == Occurrences(s, t, from);
      forall k | 0 <= k < |r| - 1
        ensures r[k] + |t| <= r[k + 1]
      {
        if k > 0 {
          assert r[k] == rest[k - 1] && r[k + 1] == rest[k];
          assert rest[k - 1] + |t| <= rest[k];
        } else {
          assert r[1] == rest[0] && rest[0] in rest;
        }
      }
    }
  }

  /** Hence they are strictly increasing. */
  lemma OccurrencesIncrease(s: string, t: string, from: nat)
    requires t != []
    ensures StrictlyIncreasing(Occurrences(s, t, from))
  {
    var r := Occurrences(s, t, from);
    OccurrencesApart(s, t, from);
    assert forall k :: 0 <= k < |r| - 1 ==> r[k] < r[k + 1];
    forall a, b | 0 <= a < b < |r|
      ensures r[a] < r[b]
    {
      Increasing(r, a, b);
    }
  }

  lemma {:induction false} Increasing(r: seq<int>, a: nat, b: nat)
    requires forall k :: 0 <= k < |r| - 1 ==> r[k] < r[k + 1]
    requires a < b < |r|
    ensures r[a] < r[b]
    decreases b - a
  {
    if a + 1 < b {
      Increasing(r, a + 1, b);
    }
  }

  /** For a one-character needle every occurrence is reported. */
  lemma {:induction false} OccurrencesOfChar(s: string, c: char, from: nat)
    ensures forall i :: i in Occurrences(s, [c], from) <==> from <= i < |s| && s[i] == c
    decreases |s| - from
  {
    var i := IndexOf(s, [c], from);
    IndexOfFound(s, [c], from);
    IndexOfFirst(s, [c], from);
    if i >= 0 {
      OccurrencesOfChar(s, c, i + 1);
      assert OccursAt(s, [c], i);
      assert s[i..i + 1] == [s[i]];
      forall j | from <= j < i
        ensures s[j] != c
      {
        assert !OccursAt(s, [c], j);
        assert s[j..j + 1] == [s[j]];
      }
    } else {
      forall j | from <= j < |s|
        ensures s[j] != c
      {
        assert !OccursAt(s, [c], j);
        assert s[j..j + 1] == [s[j]];
      }
    }
  }

  /** The occurrences still to be reported when the loop's cursor is at `i`. */
  function Pending(s: string, t: string, i: int): seq<nat>
    requires t != []
  {
    if i < 0 then [] else [i] + Occurrences(s, t, i + |t|)
  }

  /** One more reported occurrence. */
  lemma PendingStep(s: string, t: string, matches: seq<nat>, i: nat)
    requires t != []
    ensures matches + Pending(s, t, i) == (matches + [i]) + Pending(s, t, IndexOf(s, t, i + |t|))
  {
  }

  /** `findAll`: the start indices of the successive non-overlapping occurrences of `toFind`. */
  method FindAll(str: string, toFind: string) returns (matches: seq<nat>)
    requires toFind != []
    ensures matches == Occurrences(str, toFind, 0)
  {
    matches := [];
    var i := IndexOf(str, toFind, 0);
    while i != -1
      invariant -1 <= i <= |str|
      invariant matches + Pending(str, toFind, i) == Occurrences(str, toFind, 0)
      decreases if i < 0 then 0 else |str| + 1 - i
    {
      PendingStep(str, toFind, matches, i);
      matches := matches + [i];
      i := IndexOf(str, toFind, i + |toFind|);
    }
  }

  /** The line endings of `str`: the positions of its newlines, then its length. */
  function LineEndings(str: string): seq<nat> {
    Occurrences(str, "\n", 0) + [|str|]
  }

  /** `computeLineEndings`. */
  method ComputeLineEndings(str: string) returns (endings: seq<nat>)
    ensures endings == LineEndings(str)
  {
    endings := FindAll(str, "\n");
    endings := endings + [|str|];
  }

  /**
   * The line endings are exactly the newline positions, in increasing
   * order, followed by the length.
   */
  lemma LineEndingsSpec(str: string)
    ensures var e := LineEndings(str);
      0 < |e| && e[|e| - 1] == |str| && StrictlyIncreasing(e)
      && forall i :: i in e[..|e| - 1] <==> 0 <= i < |str| && str[i] == '\n'
  {
    var e := LineEndings(str);
    var nl := Occurrences(str, "\n", 0);
    OccurrencesIncrease(str, "\n", 0);
    OccurrencesOfChar(str, '\n', 0);
    assert e[..|e| - 1] == nl;
    forall a, b | 0 <= a < b < |e|
      ensures e[a] < e[b]
    {
      if b == |e| - 1 {
        assert nl[a] in nl;
      }
    }
  }

  // ---------------------------------------------------------------------
  // upperBound
  // ---------------------------------------------------------------------

  predicate Sorted(a: seq<int>) {
    forall i, j :: 0 <= i < j < |a| ==> a[i] <= a[j]
  }

  /** The binary search of `upperBound` on the window [l, r). */
  function UpperBoundIn(arr: seq<int>, item: int, l: nat, r: nat): (b: nat)
    requires l <= r <= |arr|
    ensures l <= b <= r
    decreases r - l
  {
    if l < r then
      var m := (l + r) / 2;
      if item >= arr[m] then UpperBoundIn(arr, item, m + 1, r) else UpperBoundIn(arr, item, l, m)
    else r
  }

  /** `upperBound(arr, item)`. */
  function UpperBound(arr: seq<int>, item: int): (b: nat)
    ensures b <= |arr|
  {
    UpperBoundIn(arr, item, 0, |arr|)
  }

  /**
   * On a sorted window whose left neighbours are at most `item` and whose
   * right neighbours exceed it, the search splits the window at the first
   * element greater than `item`.
   */
  lemma {:induction false} UpperBoundInSorted(arr: seq<int>, item: int, l: nat, r: nat)
    requires l <= r <= |arr| && Sorted(arr)
    requires forall i :: 0 <= i < l ==> arr[i] <= item
    requires forall i :: r <= i < |arr| ==> item < arr[i]
    ensures var b := UpperBoundIn(arr, item, l, r);
      (forall i :: 0 <= i < b ==> arr[i] <= item) && (forall i :: b <= i < |arr| ==> item < arr[i])
    decreases r - l
  {
    if l < r {
      var m := (l + r) / 2;
      if item >= arr[m] {
        UpperBoundInSorted(arr, item, m + 1, r);
      } else {
        UpperBoundInSorted(arr, item, l, m);
      }
    }
  }

  /** On a sorted array `upperBound` is the index of the first element greater than `item`, or the length. */
  lemma UpperBoundSorted(arr: seq<int>, item: int)
    requires Sorted(arr)
    ensures var b := UpperBound(arr, item);
      (forall i :: 0 <= i < b ==> arr[i] <= item) && (forall i :: b <= i < |arr| ==> item < arr[i])
  {
    UpperBoundInSorted(arr, item, 0, |arr|);
  }

  /** The `upperBound` loop. */
  method UpperBoundLoop(arr: seq<int>, item: int) returns (r: nat)
    ensures r == UpperBound(arr, item)
  {
    var l: nat := 0;
    r := |arr|;
    while l < r
      invariant l <= r <= |arr|
      invariant UpperBoundIn(arr, item, l, r) == UpperBound(arr, item)
      decreases r - l
    {
      var m := (l + r) / 2;
      if item >= arr[m] {
        l := m + 1;
      } else {
        r := m;
      }
    }
  }

  // ---------------------------------------------------------------------
  // FormatterSourceMapping
  // ---------------------------------------------------------------------

  /** The callers' `x || 0`: NaN becomes 0. */
  function OrZero(x: Option<int>): int {
    if x.Some? then x.value else 0
  }

  /**
   * `locationToPosition` for a 1-indexed `line` and `column`: the column
   * on line 0, else one past the end of the previous line plus the column;
   * None (NaN) when that previous line ending does not exist.
   */
  function LocationToPosition(lineEndings: seq<int>, line: int, column: int): (r: Option<int>)
    ensures line == 1 ==> r == Some(column - 1)
    ensures line != 1 && 0 <= line - 2 < |lineEndings| ==> r == Some(lineEndings[line - 2] + 1 + column - 1)
    ensures r.None? <==> line != 1 && !(0 <= line - 2 < |lineEndings|)
  {
    var lineNumber := line - 1;
    var columnNumber := column - 1;
    if lineNumber == 0 then Some(columnNumber)
    else if 0 <= lineNumber - 1 < |lineEndings| then Some(lineEndings[lineNumber - 1] + 1 + columnNumber)
    else None
  }

  /** A 1-indexed line and column. */
  datatype LineColumn = LineColumn(line: int, column: int)

  /**
   * `positionToLocation`: the line is the number of line endings before
   * `position`, the column the offset from the start of that line, both
   * made 1-indexed.
   */
  function PositionToLocation(lineEndings: seq<int>, position: int): (r: LineColumn)
    ensures 1 <= r.line <= |lineEndings| + 1
    ensures r.line == 1 ==> r.column == position + 1
  {
    var lineNumber := UpperBound(lineEndings, position - 1);
    var columnNumber := if lineNumber == 0 then position else position - lineEndings[lineNumber - 1] - 1;
    LineColumn(lineNumber + 1, columnNumber + 1)
  }

  /**
   * For a text's own line endings and a position inside it (or just past
   * its end), the location is 1-indexed, on an existing line, and maps back
   * to the position.
   */
  lemma PositionRoundTrip(str: string, p: int)
    requires 0 <= p <= |str|
    ensures var lc := PositionToLocation(LineEndings(str), p);
      1 <= lc.line <= |LineEndings(str)| && 1 <= lc.column
      && LocationToPosition(LineEndings(str), lc.line, lc.column) == Some(p)
  {
    var e := LineEndings(str);
    LineEndingsSorted(str);
    var k := UpperBound(e, p - 1);
    UpperBoundSorted(e, p - 1);
    assert k < |e| by {
      assert p - 1 < e[|e| - 1];
    }
    if k > 0 {
      assert e[k - 1] <= p - 1;
    }
  }

  /** The line endings of a text are sorted and end with its length. */
  lemma LineEndingsSorted(str: string)
    ensures var e := LineEndings(str); 0 < |e| && e[|e| - 1] == |str| && Sorted(e)
  {
    LineEndingsSpec(str);
  }

  /**
   * `_convertPosition`: the position is moved by the last anchor of
   * `positions1` at or before it onto the matching anchor of `positions2`,
   * keeping its offset from the anchor but not passing the next anchor of
   * `positions2`. None when there is no such anchor (or no matching one) or
   * the position is already NaN.
   */
  function ConvertPosition(positions1: seq<int>, positions2: seq<int>, position: Option<int>): (r: Option<int>)
    ensures position.None? ==> r.None?
    ensures r.Some? ==> |positions1| > 0 && |positions2| > 0
    ensures |positions1| == 0 || |positions2| == 0 ==> r.None?
    ensures r.Some? && |positions2| == 1 ==> r.value == positions2[0] + position.value - positions1[0]
  {
    if position.None? then None
    else
      var index := UpperBound(positions1, position.value) - 1;
      if index < 0 || index >= |positions2| then None
      else
        var converted := positions2[index] + position.value - positions1[index];
        if index < |positions2| - 1 && converted > positions2[index + 1] then Some(positions2[index + 1])
        else Some(converted)
  }

  /**
   * On sorted anchors: with `k` the last anchor at or before the position,
   * the result keeps the offset from anchor `k`, clamped to the next target
   * anchor; before the first anchor the result is None.
   */
  lemma ConvertPositionSpec(positions1: seq<int>, positions2: seq<int>, position: int, k: nat)
    requires Sorted(positions1) && k < |positions1| && k < |positions2|
    requires positions1[k] <= position && (k + 1 < |positions1| ==> position < positions1[k + 1])
    ensures var offset := positions2[k] + position - positions1[k];
      ConvertPosition(positions1, positions2, Some(position))
        == Some(if k + 1 < |positions2| && offset > positions2[k + 1] then positions2[k + 1] else offset)
  {
    UpperBoundSorted(positions1, position);
  }

  lemma ConvertBeforeFirstAnchor(positions1: seq<int>, positions2: seq<int>, position: int)
    requires Sorted(positions1) && (|positions1| == 0 || position < positions1[0])
    ensures ConvertPosition(positions1, positions2, Some(position)) == None
  {
    UpperBoundSorted(positions1, position);
  }

  /** `FormatterSourceMapping`: line endings of both texts and the paired anchor positions. */
  datatype SourceMapping = SourceMapping(originalLineEndings: seq<int>, formattedLineEndings: seq<int>,
                                         original: seq<int>, formatted: seq<int>)

  /** `originalToFormatted`, on the (line, column) part of a location. */
  function OriginalToFormatted(m: SourceMapping, line: int, column: int): (r: LineColumn)
    ensures 1 <= r.line <= |m.formattedLineEndings| + 1
  {
    var originalPosition := LocationToPosition(m.originalLineEndings, line, column);
    var formattedPosition := ConvertPosition(m.original, m.formatted, Some(OrZero(originalPosition)));
    PositionToLocation(m.formattedLineEndings, OrZero(formattedPosition))
  }

  /** `formattedToOriginal`, on the (line, column) part of a location. */
  function FormattedToOriginal(m: SourceMapping, line: int, column: int): (r: LineColumn)
    ensures 1 <= r.line <= |m.originalLineEndings| + 1
  {
    var formattedPosition := LocationToPosition(m.formattedLineEndings, line, column);
    var originalPosition := ConvertPosition(m.formatted, m.original, formattedPosition);
    PositionToLocation(m.originalLineEndings, OrZero(originalPosition))
  }

  /**
   * The identity mapping (the formatted text is the original, with one
   * anchor at 0) maps the location of every position of the text, in both
   * directions, to itself.
   */
  lemma IdentityMapping(str: string, p: int)
    requires 0 <= p <= |str|
    ensures var m := SourceMapping(LineEndings(str), LineEndings(str), [0], [0]);
      var lc := PositionToLocation(LineEndings(str), p);
      OriginalToFormatted(m, lc.line, lc.column) == lc && FormattedToOriginal(m, lc.line, lc.column) == lc
  {
    PositionRoundTrip(str, p);
    ConvertPositionSpec([0], [0], p, 0);
  }
}
