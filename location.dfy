/**
 * Source locations of the viewer: a file (or none, for anonymous code), a
 * 1-indexed line and column, and whether the location is in the original
 * text or in the pretty-printed one.
 */
module Locations {
  import opened Wrappers
  import opened JsStrings
  import opened Formatter

  /** `SourceFile`: a URL, the original and formatted text, and the mapping between them. */
  datatype SourceFile = SourceFile(url: string, source: string, formattedSource: string, mapping: SourceMapping)

  datatype Location = Location(file: Option<SourceFile>, line: int, column: int, forOriginal: bool)

  /** `url`: the file's URL, or "<anonymous>" without a file. */
  function Url(l: Location): (r: string)
    ensures l.file.Some? ==> r == l.file.value.url
    ensures l.file.None? ==> r == "<anonymous>"
  {
    if l.file.Some? then l.file.value.url else "<anonymous>"
  }

  function BoolToString(b: bool): string {
    if b then "true" else "false"
  }

  /** `key`: "url:line:column:forOriginal". */
  function Key(l: Location): (r: string)
    ensures StartsWith(r, Url(l) + ":")
    ensures EndsWith(r, ":true") <==> l.forOriginal
  {
    Url(l) + ":" + IntToString(l.line) + ":" + IntToString(l.column) + ":" + BoolToString(l.forOriginal)
  }

  lemma IntToStringNoColon(i: int)
    ensures Avoids(IntToString(i), ':')
  {
    var s := if i < 0 then NatToString(-i) else NatToString(i);
    assert AllDigits(s);
  }

  /** Two locations have the same key exactly when their URL, line, column and space agree. */
  lemma KeyInjective(a: Location, b: Location)
    ensures Key(a) == Key(b) <==>
      Url(a) == Url(b) && a.line == b.line && a.column == b.column && a.forOriginal == b.forOriginal
  {
    if Key(a) == Key(b) {
      IntToStringNoColon(a.line);
      IntToStringNoColon(a.column);
      IntToStringNoColon(b.line);
      IntToStringNoColon(b.column);
      assert Avoids(BoolToString(a.forOriginal), ':') && Avoids(BoolToString(b.forOriginal), ':');
      SplitAtLast(Url(a) + ":" + IntToString(a.line) + ":" + IntToString(a.column), BoolToString(a.forOriginal),
                  Url(b) + ":" + IntToString(b.line) + ":" + IntToString(b.column), BoolToString(b.forOriginal), ':');
      SplitAtLast(Url(a) + ":" + IntToString(a.line), IntToString(a.column),
                  Url(b) + ":" + IntToString(b.line), IntToString(b.column), ':');
      SplitAtLast(Url(a), IntToString(a.line), Url(b), IntToString(b.line), ':');
      assert IntToString(a.line) == IntToString(b.line) ==> a.line == b.line by {
        IntToStringInjective(a.line, b.line);
      }
      IntToStringInjective(a.column, b.column);
    }
  }

  lemma IntToStringInjective(i: int, j: int)
    requires IntToString(i) == IntToString(j)
    ensures i == j
  {
    if i < 0 && j < 0 {
      assert NatToString(-i) == IntToString(i)[1..] == NatToString(-j);
      NatToStringInjective(-i, -j);
    } else if 0 <= i && 0 <= j {
      NatToStringInjective(i, j);
    }
  }

  /** `lineZeroIndexed` and `columnZeroIndexed`. */
  function LineZeroIndexed(l: Location): (r: int)
    ensures l.line >= 1 ==> r >= 0
  {
    l.line - 1
  }

  function ColumnZeroIndexed(l: Location): (r: int)
    ensures l.column >= 1 ==> r >= 0
  {
    l.column - 1
  }

  /**
   * For the location of position `p` in a text, the zero-indexed line is
   * the number of newlines before `p` and the zero-indexed column is the
   * distance from the start of that line.
   */
  lemma ZeroIndexedOfPosition(str: string, f: Option<SourceFile>, p: int, forOriginal: bool)
    requires 0 <= p <= |str|
    ensures var lc := PositionToLocation(LineEndings(str), p);
      var l := Location(f, lc.line, lc.column, forOriginal);
      var e := LineEndings(str);
      0 <= LineZeroIndexed(l) < |e|
      && (forall i :: 0 <= i < LineZeroIndexed(l) ==> e[i] < p)
      && (LineZeroIndexed(l) == 0 ==> ColumnZeroIndexed(l) == p)
      && (LineZeroIndexed(l) > 0 ==> ColumnZeroIndexed(l) == p - e[LineZeroIndexed(l) - 1] - 1)
  {
    var e := LineEndings(str);
    LineEndingsSpec(str);
    assert Sorted(e);
    UpperBoundSorted(e, p - 1);
  }

  /** `toAceEditorLocation`: a zero-indexed row and the unchanged 1-indexed column. */
  datatype AceLocation = AceLocation(row: int, column: int)

  function ToAceEditorLocation(l: Location): (r: AceLocation)
    ensures r.row == LineZeroIndexed(l) && r.column == l.column
  {
    AceLocation(LineZeroIndexed(l), l.column)
  }

  /**
   * `getFormattedLocation`: a formatted-space location is returned as it
   * is; an original one is mapped through its file. None where the source
   * reads the mapping of a missing file.
   */
  function GetFormattedLocation(l: Location): (r: Option<Location>)
    ensures !l.forOriginal ==> r == Some(l)
    ensures r.None? <==> l.forOriginal && l.file.None?
    ensures r.Some? ==> !r.value.forOriginal && r.value.file == l.file
  {
    if !l.forOriginal then Some(l)
    else if l.file.None? then None
    else
      var lc := OriginalToFormatted(l.file.value.mapping, l.line, l.column);
      Some(Location(l.file, lc.line, lc.column, false))
  }

  /**
   * `getOriginalLocation`: an original-space or file-less location is
   * returned as it is; a formatted one is mapped through its file.
   */
  function GetOriginalLocation(l: Location): (r: Location)
    ensures l.forOriginal || l.file.None? ==> r == l
    ensures r.file == l.file
    ensures r.forOriginal <==> l.forOriginal || l.file.Some?
  {
    if l.forOriginal || l.file.None? then l
    else
      var lc := FormattedToOriginal(l.file.value.mapping, l.line, l.column);
      Location(l.file, lc.line, lc.column, true)
  }

  function SameSpaceEqual(a: Location, b: Location): bool {
    a.file == b.file && a.line == b.line && a.column == b.column
  }

  /**
   * `equal` as written: locations in different spaces are both mapped to
   * the original space and compared again. The recursion is bounded by
   * `fuel`; None means it had not returned when the fuel ran out.
   */
  function EqualAsWritten(a: Location, b: Location, fuel: nat): Option<bool>
    decreases fuel
  {
    if fuel == 0 then None
    else if a.forOriginal != b.forOriginal then
      EqualAsWritten(GetOriginalLocation(a), GetOriginalLocation(b), fuel - 1)
    else Some(SameSpaceEqual(a, b))
  }

  /**
   * A file-less formatted-space location compared with an original-space
   * one never returns: mapping leaves both unchanged and `equal` calls
   * itself on the same pair again.
   */
  lemma {:induction false} EqualAsWrittenDiverges(a: Location, b: Location, fuel: nat)
    requires a.file.None? && !a.forOriginal && b.forOriginal
    ensures EqualAsWritten(a, b, fuel) == None
    decreases fuel
  {
    if fuel > 0 {
      EqualAsWrittenDiverges(a, b, fuel - 1);
    }
  }

  /** `EqualAsWrittenDiverges` for two concrete anonymous locations. */
  lemma EqualAsWrittenDivergesExample(fuel: nat)
    ensures EqualAsWritten(Location(None, 1, 1, false), Location(None, 1, 1, true), fuel) == None
  {
    EqualAsWrittenDiverges(Location(None, 1, 1, false), Location(None, 1, 1, true), fuel);
  }

  /**
   * `equal`, corrected: locations in different spaces are compared after
   * mapping both to the original space; if one of them cannot be mapped
   * (it has no file) they are not equal.
   */
  function Equal(a: Location, b: Location): (r: bool)
    ensures a.forOriginal == b.forOriginal ==> (r <==> SameSpaceEqual(a, b))
    ensures r ==> a.file == b.file
  {
    if a.forOriginal != b.forOriginal then
      var oa, ob := GetOriginalLocation(a), GetOriginalLocation(b);
      oa.forOriginal == ob.forOriginal && SameSpaceEqual(oa, ob)
    else SameSpaceEqual(a, b)
  }

  /**
   * The corrected `equal` agrees with the source wherever the source
   * returns (one level of mapping suffices there), is reflexive and
   * symmetric.
   */
  lemma EqualAgrees(a: Location, b: Location, fuel: nat)
    requires EqualAsWritten(a, b, fuel).Some?
    ensures EqualAsWritten(a, b, fuel) == Some(Equal(a, b))
  {
    if a.forOriginal != b.forOriginal {
      var oa, ob := GetOriginalLocation(a), GetOriginalLocation(b);
      if oa.forOriginal != ob.forOriginal {
        if !a.forOriginal && a.file.None? {
          EqualAsWrittenDiverges(a, b, fuel);
        } else {
          EqualAsWrittenDiverges(b, a, fuel);
          EqualSymmetricAsWritten(a, b, fuel);
        }
      }
    }
  }

  /** The source's `equal` is symmetric. */
  lemma {:induction false} EqualSymmetricAsWritten(a: Location, b: Location, fuel: nat)
    ensures EqualAsWritten(a, b, fuel) == EqualAsWritten(b, a, fuel)
    decreases fuel
  {
    if fuel > 0 && a.forOriginal != b.forOriginal {
      EqualSymmetricAsWritten(GetOriginalLocation(a), GetOriginalLocation(b), fuel - 1);
    }
  }

  lemma EqualIsEquivalence(a: Location, b: Location)
    ensures Equal(a, a)
    ensures Equal(a, b) == Equal(b, a)
  {
  }
}
