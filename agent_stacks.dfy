/**
 * The agent's per-object stack-trace maps: for every property of a
 * proxied object, the set of stack traces of the writes to it. The
 * wrappers around `push`, `unshift`, `pop`, `shift` and `splice` move the
 * traces of array indices along with the elements.
 *
 * Keys are modelled as `Index(i)` for the decimal key `${i}` of an array
 * index and `Name(s)` for every other property key (including the text
 * "-1" that `pop` and `shift` compute on an empty array).
 */
module AgentStacks {
  import opened Wrappers

  datatype PropertyKey = Index(i: nat) | Name(name: string)

  type Trace = string

  /** `GrowthObjectStackTraces`: property key to its set of traces. */
  type StackMap = map<PropertyKey, set<Trace>>

  /** `map.get(p)`: undefined (None) when the key is absent. */
  function Lookup(m: StackMap, p: PropertyKey): Option<set<Trace>> {
    if p in m then Some(m[p]) else None
  }

  // ---------------------------------------------------------------------
  // The four helpers, as functions of the map
  // ---------------------------------------------------------------------

  /** `_addStackTrace`: the trace joins the key's set, which is created when missing. */
  function Added(m: StackMap, p: PropertyKey, trace: Trace): StackMap {
    m[p := Lookup(m, p).GetOr({}) + {trace}]
  }

  /** `_removeStacks`. */
  function Removed(m: StackMap, p: PropertyKey): StackMap {
    m - {p}
  }

  /** `_copyStacks`: acts only when `from` has traces. */
  function Copied(m: StackMap, from: PropertyKey, to: PropertyKey): StackMap {
    if from in m then m[to := m[from]] else m
  }

  /** `_combineStacks`: `to` gains the traces of `from`, only when both have traces. */
  function Combined(m: StackMap, from: PropertyKey, to: PropertyKey): StackMap {
    if from in m && to in m then m[to := m[to] + m[from]] else m
  }

  /** Each helper changes the key it names and no other. */
  lemma HelpersTouchOneKey(m: StackMap, p: PropertyKey, q: PropertyKey, from: PropertyKey, trace: Trace)
    ensures Lookup(Added(m, p, trace), p) == Some(Lookup(m, p).GetOr({}) + {trace})
    ensures Lookup(Removed(m, p), p) == None
    ensures Lookup(Copied(m, from, p), p) == if from in m then Lookup(m, from) else Lookup(m, p)
    ensures Lookup(Combined(m, from, p), p) == if from in m && p in m then Some(m[p] + m[from]) else Lookup(m, p)
    ensures q != p ==>
      Lookup(Added(m, p, trace), q) == Lookup(m, q) && Lookup(Removed(m, p), q) == Lookup(m, q)
      && Lookup(Copied(m, from, p), q) == Lookup(m, q) && Lookup(Combined(m, from, p), q) == Lookup(m, q)
  {
  }

  // ---------------------------------------------------------------------
  // The loops of the wrappers, as functions of the map
  // ---------------------------------------------------------------------

  /** `_addStackTrace` at `start + i` for `i` in `0 .. count - 1`. */
  function AddRange(m: StackMap, start: nat, count: nat, trace: Trace): StackMap {
    if count == 0 then m else Added(AddRange(m, start, count - 1, trace), Index(start + count - 1), trace)
  }

  /** `_removeStacks` at `start + i` for `i` in `0 .. count - 1`. */
  function RemoveRange(m: StackMap, start: nat, count: nat): StackMap {
    if count == 0 then m else Removed(RemoveRange(m, start, count - 1), Index(start + count - 1))
  }

  /** `_removeStacks` then `_addStackTrace` at `start + i`, for `i` in `0 .. count - 1`. */
  function Refresh(m: StackMap, start: nat, count: nat, trace: Trace): StackMap {
    if count == 0 then m
    else
      var key := Index(start + count - 1);
      Added(Removed(Refresh(m, start, count - 1, trace), key), key, trace)
  }

  /** `_copyStacks(i, i + up)` for `i` from `hi - 1` down to `hi - count`. */
  function CopyUp(m: StackMap, hi: nat, count: nat, up: nat): StackMap
    requires count <= hi
  {
    if count == 0 then m else Copied(CopyUp(m, hi, count - 1, up), Index(hi - count), Index(hi - count + up))
  }

  /** `_copyStacks(i, i - down)` for `i` from `lo` up to `lo + count - 1`. */
  function CopyDown(m: StackMap, lo: nat, count: nat, down: nat): StackMap
    requires down <= lo
  {
    if count == 0 then m else Copied(CopyDown(m, lo, count - 1, down), Index(lo + count - 1), Index(lo + count - 1 - down))
  }

  lemma {:induction false} AddRangeLookup(m: StackMap, start: nat, count: nat, trace: Trace, p: PropertyKey)
    ensures Lookup(AddRange(m, start, count, trace), p)
      == if p.Index? && start <= p.i < start + count then Some(Lookup(m, p).GetOr({}) + {trace}) else Lookup(m, p)
  {
    if count > 0 {
      AddRangeLookup(m, start, count - 1, trace, p);
    }
  }

  lemma {:induction false} RemoveRangeLookup(m: StackMap, start: nat, count: nat, p: PropertyKey)
    ensures Lookup(RemoveRange(m, start, count), p) == if p.Index? && start <= p.i < start + count then None else Lookup(m, p)
  {
    if count > 0 {
      RemoveRangeLookup(m, start, count - 1, p);
    }
  }

  lemma {:induction false} RefreshLookup(m: StackMap, start: nat, count: nat, trace: Trace, p: PropertyKey)
    ensures Lookup(Refresh(m, start, count, trace), p) == if p.Index? && start <= p.i < start + count then Some({trace}) else Lookup(m, p)
  {
    if count > 0 {
      var key := Index(start + count - 1);
      var prev := Refresh(m, start, count - 1, trace);
      RefreshLookup(m, start, count - 1, trace, p);
      assert Refresh(m, start, count, trace) == Added(Removed(prev, key), key, trace);
      if p == key {
        assert Lookup(Removed(prev, key), key) == None;
        assert {} + {trace} == {trace};
      } else {
        assert Lookup(Removed(prev, key), p) == Lookup(prev, p);
      }
    }
  }

  /**
   * Copying upward from the top reads every source before it is
   * overwritten: each target gets its source's original traces, when the
   * source had any.
   */
  lemma {:induction false} CopyUpLookup(m: StackMap, hi: nat, count: nat, up: nat, p: PropertyKey)
    requires count <= hi
    ensures Lookup(CopyUp(m, hi, count, up), p)
      == if p.Index? && hi - count + up <= p.i < hi + up && Index(p.i - up) in m then Lookup(m, Index(p.i - up)) else Lookup(m, p)
  {
    if count > 0 {
      var src := Index(hi - count);
      CopyUpLookup(m, hi, count - 1, up, p);
      CopyUpLookup(m, hi, count - 1, up, src);
    }
  }

  /** Copying downward from the bottom likewise reads every source before it is overwritten. */
  lemma {:induction false} CopyDownLookup(m: StackMap, lo: nat, count: nat, down: nat, p: PropertyKey)
    requires down <= lo && down > 0
    ensures Lookup(CopyDown(m, lo, count, down), p)
      == if p.Index? && lo - down <= p.i < lo + count - down && Index(p.i + down) in m then Lookup(m, Index(p.i + down)) else Lookup(m, p)
  {
    if count > 0 {
      var src := Index(lo + count - 1);
      CopyDownLookup(m, lo, count - 1, down, p);
      CopyDownLookup(m, lo, count - 1, down, src);
    }
  }

  // ---------------------------------------------------------------------
  // The wrappers, as functions of the map and the array's length
  // ---------------------------------------------------------------------

  /** `${length - 1}`: an index, or the name "-1" for an empty array. */
  function LastKey(length: nat): PropertyKey {
    if length > 0 then Index(length - 1) else Name("-1")
  }

  function PushMap(m: StackMap, length: nat, count: nat, trace: Trace): StackMap {
    AddRange(m, length, count, trace)
  }

  function PopMap(m: StackMap, length: nat): StackMap {
    Removed(m, LastKey(length))
  }

  function ShiftMap(m: StackMap, length: nat): StackMap {
    Removed(CopyDown(Removed(m, Index(0)), 1, if length > 0 then length - 1 else 0, 1), LastKey(length))
  }

  /**
   * `unshift` as corrected: every existing index moves up by the number of
   * new items, from the top down, then the new indices get the call's trace.
   */
  function UnshiftMap(m: StackMap, length: nat, count: nat, trace: Trace): StackMap {
    Refresh(CopyUp(m, length, length, count), 0, count, trace)
  }

  /**
   * `unshift` as written: the copy loop runs over the new items'
   * positions (`i` from `items.length - 1` down to 0) instead of the
   * existing elements', so only the first `count` indices move.
   */
  function UnshiftMapAsWritten(m: StackMap, count: nat, trace: Trace): StackMap {
    Refresh(CopyUp(m, count, count, count), 0, count, trace)
  }

  /** `start | 0`: ToInt32. */
  function ToInt32(x: int): int {
    var r := x % 0x1_0000_0000;
    if r >= 0x8000_0000 then r - 0x1_0000_0000 else r
  }

  /** `actualStart`: a negative start counts from the end; the result is clamped to [0, length]. */
  function SpliceStart(length: nat, start: int): (r: nat)
    ensures r <= length
  {
    var s := ToInt32(start);
    if s > length then length
    else if s < 0 then (if length + s < 0 then 0 else length + s)
    else s
  }

  /** `actualDeleteCount`: everything from the start when omitted; clamped to [0, length - start]. */
  function SpliceDeleteCount(length: nat, start: nat, deleteCount: Option<int>): (r: nat)
    requires start <= length
    ensures start + r <= length
  {
    var d := if deleteCount.Some? then ToInt32(deleteCount.value) else 0;
    var d' := if deleteCount.None? || d > length - start then length - start else d;
    if d' < 0 then 0 else d'
  }

  /** Within the 32-bit range, a start in [-length, length] counts from the front or, when negative, from the end. */
  lemma SpliceStartInRange(length: nat, start: int)
    requires length < 0x8000_0000 && -(length as int) <= start <= length
    ensures SpliceStart(length, start) == if start < 0 then length + start else start
  {
  }

  /** An omitted delete count removes the whole tail; one that fits is kept as given. */
  lemma SpliceDeleteCountInRange(length: nat, start: nat, deleteCount: int)
    requires start <= length < 0x8000_0000 && 0 <= deleteCount < 0x8000_0000
    ensures SpliceDeleteCount(length, start, None) == length - start
    ensures SpliceDeleteCount(length, start, Some(deleteCount)) == if deleteCount <= length - start then deleteCount else length - start
  {
  }

  /**
   * The delete and move loops of the `splice` wrapper, for a start and
   * delete count already normalised: the deleted indices lose their
   * traces and the tail moves by `newCount - deleteCount`.
   */
  function SpliceMoved(m: StackMap, length: nat, start: nat, deleteCount: nat, newCount: nat): StackMap
    requires start + deleteCount <= length
  {
    var removed := RemoveRange(m, start, deleteCount);
    var tail := length - (start + deleteCount);
    if newCount > deleteCount then CopyUp(removed, length, tail, newCount - deleteCount)
    else if newCount < deleteCount then
      var down := deleteCount - newCount;
      RemoveRange(CopyDown(removed, start + deleteCount, tail, down), length - down, down)
    else removed
  }

  /** The map updates of the `splice` wrapper: the moves, then the new items get the call's trace. */
  function SpliceMap(m: StackMap, length: nat, start: nat, deleteCount: nat, newCount: nat, trace: Trace): StackMap
    requires start + deleteCount <= length
  {
    Refresh(SpliceMoved(m, length, start, deleteCount, newCount), start, newCount, trace)
  }

  // ---------------------------------------------------------------------
  // What the wrappers mean for an array's indices
  // ---------------------------------------------------------------------

  /** The traces of indices `0 .. length - 1`. */
  function Column(m: StackMap, length: nat): (r: seq<Option<set<Trace>>>)
    ensures |r| == length && forall i :: 0 <= i < length ==> r[i] == Lookup(m, Index(i))
  {
    seq(length, i requires 0 <= i < length => Lookup(m, Index(i)))
  }

  /** No index at or past the end has traces. */
  ghost predicate Clean(m: StackMap, length: nat) {
    forall i: nat :: Index(i) in m ==> i < length
  }

  /** Every index of the array has traces. */
  ghost predicate Dense(m: StackMap, length: nat) {
    forall i: nat :: i < length ==> Index(i) in m
  }

  /** Keys that are not indices keep their traces. */
  ghost predicate SameNames(m: StackMap, m': StackMap) {
    forall s :: Lookup(m', Name(s)) == Lookup(m, Name(s))
  }

  /** `count` new indices holding only the call's trace. */
  function Fresh(count: nat, trace: Trace): (r: seq<Option<set<Trace>>>)
    ensures |r| == count && forall i :: 0 <= i < count ==> r[i] == Some({trace})
  {
    seq(count, _ => Some({trace}))
  }

  /** The column of a map, from the traces of every index. */
  lemma ColumnOf(r: StackMap, length: nat, col: seq<Option<set<Trace>>>)
    requires |col| == length
    requires forall i: nat :: Lookup(r, Index(i)) == if i < length then col[i] else None
    ensures Clean(r, length) && Column(r, length) == col
  {
    forall i: nat | Index(i) in r ensures i < length {
      assert Lookup(r, Index(i)).Some?;
    }
  }

  lemma PushLookup(m: StackMap, length: nat, count: nat, trace: Trace, p: PropertyKey)
    requires Clean(m, length)
    ensures Lookup(PushMap(m, length, count, trace), p) ==
      if p.Index? && length <= p.i then (if p.i < length + count then Some({trace}) else None) else Lookup(m, p)
  {
    AddRangeLookup(m, length, count, trace, p);
    if p.Index? && length <= p.i {
      assert p == Index(p.i) && p !in m;
      assert {} + {trace} == {trace};
    }
  }

  /** `push` appends the call's trace for each new item. */
  lemma PushColumn(m: StackMap, length: nat, count: nat, trace: Trace)
    requires Clean(m, length)
    ensures Clean(PushMap(m, length, count, trace), length + count)
    ensures Column(PushMap(m, length, count, trace), length + count) == Column(m, length) + Fresh(count, trace)
    ensures SameNames(m, PushMap(m, length, count, trace))
  {
    var r, col := PushMap(m, length, count, trace), Column(m, length) + Fresh(count, trace);
    forall i: nat ensures Lookup(r, Index(i)) == if i < length + count then col[i] else None {
      PushLookup(m, length, count, trace, Index(i));
    }
    forall s ensures Lookup(r, Name(s)) == Lookup(m, Name(s)) {
      PushLookup(m, length, count, trace, Name(s));
    }
    ColumnOf(r, length + count, col);
  }

  /** `pop` on a non-empty array drops the last index's traces. */
  lemma PopColumn(m: StackMap, length: nat)
    requires Clean(m, length) && length > 0
    ensures Clean(PopMap(m, length), length - 1)
    ensures Column(PopMap(m, length), length - 1) == Column(m, length)[..length - 1]
    ensures SameNames(m, PopMap(m, length))
  {
  }

  /**
   * `shift`, key by key: index `j` below `length - 1` takes the traces of
   * index `j + 1` when that index has any; otherwise `_copyStacks` does
   * nothing and index `j` keeps what it had (index 0 was cleared first).
   * The last index (the name "-1" on an empty array) is cleared.
   */
  lemma ShiftLookup(m: StackMap, length: nat, p: PropertyKey)
    ensures Lookup(ShiftMap(m, length), p) ==
      if p == LastKey(length) then None
      else if p.Index? && p.i + 1 < length && Index(p.i + 1) in m then Lookup(m, Index(p.i + 1))
      else if p == Index(0) then None
      else Lookup(m, p)
  {
    var m0 := Removed(m, Index(0));
    var n := if length > 0 then length - 1 else 0;
    CopyDownLookup(m0, 1, n, 1, p);
    if p.Index? {
      assert p == Index(p.i);
    }
  }

  /**
   * On a sparse array the traces are not moved but copied: shifting
   * `[ , b, ]` (only index 1 has traces) gives index 0 the traces {"b"},
   * and index 1 keeps them, since index 2 has none to copy down.
   */
  lemma ShiftSparseKeepsStale()
    ensures var r := ShiftMap(map[Index(1) := {"b"}], 3);
      Lookup(r, Index(0)) == Some({"b"}) && Lookup(r, Index(1)) == Some({"b"}) && Lookup(r, Index(2)) == None
  {
    var m := map[Index(1) := {"b"}];
    ShiftLookup(m, 3, Index(0));
    ShiftLookup(m, 3, Index(1));
    ShiftLookup(m, 3, Index(2));
  }

  /** `shift` on an array whose indices all have traces moves every index down by one. */
  lemma ShiftColumn(m: StackMap, length: nat)
    requires Clean(m, length) && Dense(m, length) && length > 0
    ensures Clean(ShiftMap(m, length), length - 1)
    ensures Column(ShiftMap(m, length), length - 1) == Column(m, length)[1..]
    ensures SameNames(m, ShiftMap(m, length))
  {
    var r, col := ShiftMap(m, length), Column(m, length)[1..];
    forall i: nat ensures Lookup(r, Index(i)) == if i < length - 1 then col[i] else None {
      ShiftLookup(m, length, Index(i));
      if i + 1 < length {
        assert Index(i + 1) in m;
      } else if i >= length {
        assert Index(i) !in m;
      }
    }
    forall s ensures Lookup(r, Name(s)) == Lookup(m, Name(s)) {
      ShiftLookup(m, length, Name(s));
    }
    ColumnOf(r, length - 1, col);
  }

  /**
   * `unshift` as corrected, key by key: the new first indices hold the
   * call's trace alone; index `j` above them takes the traces of index
   * `j - count` when that index has any, and otherwise keeps its own.
   */
  lemma UnshiftLookup(m: StackMap, length: nat, count: nat, trace: Trace, p: PropertyKey)
    ensures Lookup(UnshiftMap(m, length, count, trace), p) ==
      if p.Index? && p.i < count then Some({trace})
      else if p.Index? && p.i < length + count && Index(p.i - count) in m then Lookup(m, Index(p.i - count))
      else Lookup(m, p)
  {
    RefreshLookup(CopyUp(m, length, length, count), 0, count, trace, p);
    CopyUpLookup(m, length, length, count, p);
  }

  /** `unshift`, as corrected, puts the call's trace on the new first indices and moves the rest up. */
  lemma UnshiftColumn(m: StackMap, length: nat, count: nat, trace: Trace)
    requires Clean(m, length) && Dense(m, length)
    ensures Clean(UnshiftMap(m, length, count, trace), length + count)
    ensures Column(UnshiftMap(m, length, count, trace), length + count) == Fresh(count, trace) + Column(m, length)
    ensures SameNames(m, UnshiftMap(m, length, count, trace))
  {
    var r, col := UnshiftMap(m, length, count, trace), Fresh(count, trace) + Column(m, length);
    forall i: nat ensures Lookup(r, Index(i)) == if i < length + count then col[i] else None {
      UnshiftLookup(m, length, count, trace, Index(i));
      if count <= i < length + count {
        assert Index(i - count) in m;
        assert col[i] == Column(m, length)[i - count];
      } else if i >= length + count {
        assert Index(i) !in m;
      }
    }
    forall s ensures Lookup(r, Name(s)) == Lookup(m, Name(s)) {
      UnshiftLookup(m, length, count, trace, Name(s));
    }
    ColumnOf(r, length + count, col);
  }

  /** For arrays no longer than the number of new items the code as written agrees with the correction. */
  lemma UnshiftAsWrittenShort(m: StackMap, length: nat, count: nat, trace: Trace)
    requires Clean(m, length) && length <= count
    ensures UnshiftMapAsWritten(m, count, trace) == UnshiftMap(m, length, count, trace)
  {
    var a, b := UnshiftMapAsWritten(m, count, trace), UnshiftMap(m, length, count, trace);
    forall p ensures Lookup(a, p) == Lookup(b, p) {
      RefreshLookup(CopyUp(m, count, count, count), 0, count, trace, p);
      RefreshLookup(CopyUp(m, length, length, count), 0, count, trace, p);
      CopyUpLookup(m, count, count, count, p);
      CopyUpLookup(m, length, length, count, p);
    }
    MapsEqual(a, b);
  }

  lemma MapsEqual(a: StackMap, b: StackMap)
    requires forall p :: Lookup(a, p) == Lookup(b, p)
    ensures a == b
  {
    assert forall p :: p in a <==> Lookup(a, p).Some?;
  }

  /**
   * An array of three elements with traces {"a"}, {"b"}, {"c"}, after
   * `unshift` of one item: the code as written leaves index 2 with the
   * traces of the element that was at index 2 (now at 3), and index 3
   * without traces, where the correction has {"b"} and {"c"}.
   */
  lemma UnshiftAsWrittenLosesTraces()
    ensures var m := map[Index(0) := {"a"}, Index(1) := {"b"}, Index(2) := {"c"}];
      var w, c := UnshiftMapAsWritten(m, 1, "t"), UnshiftMap(m, 3, 1, "t");
      Lookup(w, Index(2)) == Some({"c"}) && Lookup(w, Index(3)) == None
      && Lookup(c, Index(2)) == Some({"b"}) && Lookup(c, Index(3)) == Some({"c"})
  {
    var m := map[Index(0) := {"a"}, Index(1) := {"b"}, Index(2) := {"c"}];
    for i := 2 to 4 {
      RefreshLookup(CopyUp(m, 1, 1, 1), 0, 1, "t", Index(i));
      CopyUpLookup(m, 1, 1, 1, Index(i));
      RefreshLookup(CopyUp(m, 3, 3, 1), 0, 1, "t", Index(i));
      CopyUpLookup(m, 3, 3, 1, Index(i));
    }
  }

  /**
   * `splice` on an array whose indices all have traces: the deleted
   * indices' traces are gone, the new items carry the call's trace, and
   * the tail keeps its traces at its new positions.
   */
  lemma SpliceColumn(m: StackMap, length: nat, start: nat, deleteCount: nat, newCount: nat, trace: Trace)
    requires start + deleteCount <= length && Clean(m, length) && Dense(m, length)
    ensures Clean(SpliceMap(m, length, start, deleteCount, newCount, trace), length - deleteCount + newCount)
    ensures Column(SpliceMap(m, length, start, deleteCount, newCount, trace), length - deleteCount + newCount)
      == Column(m, length)[..start] + Fresh(newCount, trace) + Column(m, length)[start + deleteCount..]
    ensures SameNames(m, SpliceMap(m, length, start, deleteCount, newCount, trace))
  {
    var r := SpliceMap(m, length, start, deleteCount, newCount, trace);
    var n' := length - deleteCount + newCount;
    var col := Column(m, length)[..start] + Fresh(newCount, trace) + Column(m, length)[start + deleteCount..];
    forall i: nat ensures Lookup(r, Index(i)) == if i < n' then col[i] else None {
      SpliceLookup(m, length, start, deleteCount, newCount, trace, Index(i));
      if i < start {
        assert col[i] == Column(m, length)[i];
      } else if start + newCount <= i < n' {
        assert Index(i - newCount + deleteCount) in m;
        assert col[i] == Column(m, length)[i - newCount + deleteCount];
      } else if i >= n' && i >= length {
        assert Index(i) !in m;
      }
    }
    forall s ensures Lookup(r, Name(s)) == Lookup(m, Name(s)) {
      SpliceLookup(m, length, start, deleteCount, newCount, trace, Name(s));
    }
    ColumnOf(r, n', col);
  }

  /**
   * `splice`, key by key: the new items' indices hold the call's trace
   * alone; the rest is as the delete and move loops leave it
   * (`MovedLookup`).
   */
  lemma SpliceLookup(m: StackMap, length: nat, start: nat, deleteCount: nat, newCount: nat, trace: Trace, p: PropertyKey)
    requires start + deleteCount <= length
    ensures Lookup(SpliceMap(m, length, start, deleteCount, newCount, trace), p) ==
      if p.Index? && start <= p.i < start + newCount then Some({trace})
      else if p.Index? && start + newCount <= p.i < length - deleteCount + newCount && Index(p.i - newCount + deleteCount) in m
      then Lookup(m, Index(p.i - newCount + deleteCount))
      else if p.Index? && start <= p.i < start + deleteCount then None
      else if p.Index? && newCount < deleteCount && length - deleteCount + newCount <= p.i < length then None
      else Lookup(m, p)
  {
    RefreshLookup(SpliceMoved(m, length, start, deleteCount, newCount), start, newCount, trace, p);
    MovedLookup(m, length, start, deleteCount, newCount, p);
  }

  /**
   * The map after the delete and move loops of `splice`, key by key: an
   * index of the moved tail takes the traces of its old position when that
   * position has any (`_copyStacks` moves only present keys) and otherwise
   * keeps its own; a deleted index that nothing moved into is cleared, and
   * so is the vacated end when the array shrinks; every other key is kept.
   */
  lemma MovedLookup(m: StackMap, length: nat, start: nat, deleteCount: nat, newCount: nat, p: PropertyKey)
    requires start + deleteCount <= length
    ensures Lookup(SpliceMoved(m, length, start, deleteCount, newCount), p) ==
      if p.Index? && start + newCount <= p.i < length - deleteCount + newCount && Index(p.i - newCount + deleteCount) in m
      then Lookup(m, Index(p.i - newCount + deleteCount))
      else if p.Index? && start <= p.i < start + deleteCount then None
      else if p.Index? && newCount < deleteCount && length - deleteCount + newCount <= p.i < length then None
      else Lookup(m, p)
  {
    var removed := RemoveRange(m, start, deleteCount);
    var tail := length - (start + deleteCount);
    RemoveRangeLookup(m, start, deleteCount, p);
    if newCount > deleteCount {
      var up := newCount - deleteCount;
      CopyUpLookup(removed, length, tail, up, p);
      if p.Index? && p.i >= up {
        RemoveRangeLookup(m, start, deleteCount, Index(p.i - up));
      }
    } else if newCount < deleteCount {
      var down := deleteCount - newCount;
      var copied := CopyDown(removed, start + deleteCount, tail, down);
      RemoveRangeLookup(copied, length - down, down, p);
      CopyDownLookup(removed, start + deleteCount, tail, down, p);
      if p.Index? {
        RemoveRangeLookup(m, start, deleteCount, Index(p.i + down));
      }
    }
  }

  // ---------------------------------------------------------------------
  // The map of one proxied object, updated in place by the wrappers
  // ---------------------------------------------------------------------

  /**
   * The stack-trace map of one proxied object. The wrapper methods take
   * the array's length before the call and the trace captured for it; they
   * run only when the receiver is a proxy, which owns such a map.
   */
  class GrowthObjectStackTraces {
    var stacks: StackMap

    constructor ()
      ensures stacks == map[]
    {
      stacks := map[];
    }

    method AddStackTrace(p: PropertyKey, trace: Trace)
      modifies this
      ensures stacks == Added(old(stacks), p, trace)
    {
      var traces := if p in stacks then stacks[p] else {};
      stacks := stacks[p := traces + {trace}];
    }

    method RemoveStacks(p: PropertyKey)
      modifies this
      ensures stacks == Removed(old(stacks), p)
    {
      if p in stacks {
        stacks := stacks - {p};
      }
    }

    method CopyStacks(from: PropertyKey, to: PropertyKey)
      modifies this
      ensures stacks == Copied(old(stacks), from, to)
    {
      if from in stacks {
        stacks := stacks[to := stacks[from]];
      }
    }

    method CombineStacks(from: PropertyKey, to: PropertyKey)
      modifies this
      ensures stacks == Combined(old(stacks), from, to)
    {
      if from in stacks && to in stacks {
        stacks := stacks[to := stacks[to] + stacks[from]];
      }
    }

    method Push(length: nat, count: nat, trace: Trace)
      modifies this
      ensures stacks == PushMap(old(stacks), length, count, trace)
    {
      for i := 0 to count
        invariant stacks == AddRange(old(stacks), length, i, trace)
      {
        AddStackTrace(Index(length + i), trace);
      }
    }

    /** `unshift`, with the copy loop running over the existing elements. */
    method Unshift(length: nat, count: nat, trace: Trace)
      modifies this
      ensures stacks == UnshiftMap(old(stacks), length, count, trace)
    {
      for i := length downto 0
        invariant stacks == CopyUp(old(stacks), length, length - i, count)
      {
        CopyStacks(Index(i), Index(i + count));
      }
      RefreshStep(0, count, trace);
    }

    /** The last loop of `unshift` and `splice`: each new item's index gets the call's trace alone. */
    method RefreshStep(start: nat, count: nat, trace: Trace)
      modifies this
      ensures stacks == Refresh(old(stacks), start, count, trace)
    {
      for i := 0 to count
        invariant stacks == Refresh(old(stacks), start, i, trace)
      {
        RemoveStacks(Index(start + i));
        AddStackTrace(Index(start + i), trace);
      }
    }

    method Pop(length: nat)
      modifies this
      ensures stacks == PopMap(old(stacks), length)
    {
      RemoveStacks(LastKey(length));
    }

    method Shift(length: nat)
      modifies this
      ensures stacks == ShiftMap(old(stacks), length)
    {
      RemoveStacks(Index(0));
      ghost var m0 := stacks;
      for i := 1 to if length > 0 then length else 1
        invariant stacks == CopyDown(m0, 1, i - 1, 1)
      {
        CopyStacks(Index(i), Index(i - 1));
      }
      RemoveStacks(LastKey(length));
    }

    method RemoveStep(start: nat, count: nat)
      modifies this
      ensures stacks == RemoveRange(old(stacks), start, count)
    {
      for i := 0 to count
        invariant stacks == RemoveRange(old(stacks), start, i)
      {
        RemoveStacks(Index(start + i));
      }
    }

    /** `splice(start, deleteCount, ...items)` with `newCount` items. */
    method Splice(length: nat, start: int, deleteCount: Option<int>, newCount: nat, trace: Trace)
      modifies this
      ensures var s := SpliceStart(length, start);
        stacks == SpliceMap(old(stacks), length, s, SpliceDeleteCount(length, s, deleteCount), newCount, trace)
    {
      var s := SpliceStart(length, start);
      var d := SpliceDeleteCount(length, s, deleteCount);
      RemoveStep(s, d);
      ghost var removed := stacks;
      if newCount > d {
        var up := newCount - d;
        for i := length downto s + d
          invariant stacks == CopyUp(removed, length, length - i, up)
        {
          CopyStacks(Index(i), Index(i + up));
        }
      } else if newCount < d {
        var down := d - newCount;
        for i := s + d to length
          invariant stacks == CopyDown(removed, s + d, i - (s + d), down)
        {
          CopyStacks(Index(i), Index(i - down));
        }
        RemoveStep(length - down, down);
      }
      RefreshStep(s, newCount, trace);
    }
  }
}
