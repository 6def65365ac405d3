/**
 * The older deuterium agent's stack-trace maps and its wrappers around
 * `push`, `unshift`, `pop`, `shift` and `splice`. They move traces along
 * with array elements exactly as the current agent's wrappers do; the
 * difference is that deuterium's `addStackTrace` captures a new stack on
 * every call, where the current agent captures one trace per wrapper call.
 * A wrapper's calls of `addStackTrace` are therefore given here as the
 * sequence of the traces they capture, in call order.
 */
module DeuteriumStacks {
  import opened Wrappers
  import opened AgentStacks

  // ---------------------------------------------------------------------
  // The loops that add traces, one captured trace per call
  // ---------------------------------------------------------------------

  /** `addStackTrace(map, `${start + i}`)` for `i` in `0 .. |traces| - 1`, the i-th call capturing `traces[i]`. */
  function AddEach(m: StackMap, start: nat, traces: seq<Trace>): StackMap
    decreases |traces|
  {
    if traces == [] then m
    else
      var k := |traces| - 1;
      Added(AddEach(m, start, traces[..k]), Index(start + k), traces[k])
  }

  /** `removeStacks` then `addStackTrace` at `start + i`, the i-th call capturing `traces[i]`. */
  function RefreshEach(m: StackMap, start: nat, traces: seq<Trace>): StackMap
    decreases |traces|
  {
    if traces == [] then m
    else
      var k := |traces| - 1;
      var key := Index(start + k);
      Added(Removed(RefreshEach(m, start, traces[..k]), key), key, traces[k])
  }

  lemma {:induction false} AddEachLookup(m: StackMap, start: nat, traces: seq<Trace>, p: PropertyKey)
    ensures Lookup(AddEach(m, start, traces), p) ==
      if p.Index? && start <= p.i < start + |traces| then Some(Lookup(m, p).GetOr({}) + {traces[p.i - start]})
      else Lookup(m, p)
    decreases |traces|
  {
    if traces != [] {
      var k := |traces| - 1;
      AddEachLookup(m, start, traces[..k], p);
    }
  }

  lemma {:induction false} RefreshEachLookup(m: StackMap, start: nat, traces: seq<Trace>, p: PropertyKey)
    ensures Lookup(RefreshEach(m, start, traces), p) ==
      if p.Index? && start <= p.i < start + |traces| then Some({traces[p.i - start]}) else Lookup(m, p)
    decreases |traces|
  {
    if traces != [] {
      var k := |traces| - 1;
      var key := Index(start + k);
      var prev := RefreshEach(m, start, traces[..k]);
      RefreshEachLookup(m, start, traces[..k], p);
      if p == key {
        assert Lookup(Removed(prev, key), key) == None;
        assert {} + {traces[k]} == {traces[k]};
      } else {
        assert Lookup(Removed(prev, key), p) == Lookup(prev, p);
      }
    }
  }

  /** Every call captures the same trace. */
  ghost predicate Uniform(traces: seq<Trace>, trace: Trace) {
    forall i :: 0 <= i < |traces| ==> traces[i] == trace
  }

  /** With the same trace on every call, deuterium's adding loop is the current agent's. */
  lemma {:induction false} AddEachUniform(m: StackMap, start: nat, traces: seq<Trace>, trace: Trace)
    requires Uniform(traces, trace)
    ensures AddEach(m, start, traces) == AddRange(m, start, |traces|, trace)
    decreases |traces|
  {
    if traces != [] {
      AddEachUniform(m, start, traces[..|traces| - 1], trace);
    }
  }

  /** With the same trace on every call, deuterium's refreshing loop is the current agent's. */
  lemma {:induction false} RefreshEachUniform(m: StackMap, start: nat, traces: seq<Trace>, trace: Trace)
    requires Uniform(traces, trace)
    ensures RefreshEach(m, start, traces) == Refresh(m, start, |traces|, trace)
    decreases |traces|
  {
    if traces != [] {
      RefreshEachUniform(m, start, traces[..|traces| - 1], trace);
    }
  }

  // ---------------------------------------------------------------------
  // The wrappers, as functions of the map and the array's length
  // ---------------------------------------------------------------------

  /** `push` of `|traces|` items. */
  function PushEach(m: StackMap, length: nat, traces: seq<Trace>): StackMap {
    AddEach(m, length, traces)
  }

  /**
   * `unshift` of `|traces|` items as corrected: every existing index moves
   * up by the number of new items, then the i-th new index gets the i-th
   * captured trace alone.
   */
  function UnshiftEach(m: StackMap, length: nat, traces: seq<Trace>): StackMap {
    RefreshEach(CopyUp(m, length, length, |traces|), 0, traces)
  }

  /** `unshift` as written: as in the current agent, only the first `|traces|` indices move. */
  function UnshiftEachAsWritten(m: StackMap, traces: seq<Trace>): StackMap {
    var count := |traces|;
    RefreshEach(CopyUp(m, count, count, count), 0, traces)
  }

  /** `splice` with a normalised start and delete count, inserting `|traces|` items. */
  function SpliceEach(m: StackMap, length: nat, start: nat, deleteCount: nat, traces: seq<Trace>): StackMap
    requires start + deleteCount <= length
  {
    RefreshEach(SpliceMoved(m, length, start, deleteCount, |traces|), start, traces)
  }

  /**
   * With the same trace on every call, each deuterium wrapper leaves the
   * map the current agent's wrapper leaves (`pop` and `shift` capture no
   * trace and are the same code in both agents).
   */
  lemma WrappersUniform(m: StackMap, length: nat, start: nat, deleteCount: nat, traces: seq<Trace>, trace: Trace)
    requires Uniform(traces, trace) && start + deleteCount <= length
    ensures PushEach(m, length, traces) == PushMap(m, length, |traces|, trace)
    ensures UnshiftEach(m, length, traces) == UnshiftMap(m, length, |traces|, trace)
    ensures UnshiftEachAsWritten(m, traces) == UnshiftMapAsWritten(m, |traces|, trace)
    ensures SpliceEach(m, length, start, deleteCount, traces) == SpliceMap(m, length, start, deleteCount, |traces|, trace)
  {
    var count := |traces|;
    AddEachUniform(m, length, traces, trace);
    RefreshEachUniform(CopyUp(m, length, length, count), 0, traces, trace);
    RefreshEachUniform(CopyUp(m, count, count, count), 0, traces, trace);
    RefreshEachUniform(SpliceMoved(m, length, start, deleteCount, count), start, traces, trace);
  }

  // ---------------------------------------------------------------------
  // What the wrappers mean for an array's indices
  // ---------------------------------------------------------------------

  /** New indices, the i-th holding only the i-th captured trace. */
  function Traced(traces: seq<Trace>): (r: seq<Option<set<Trace>>>)
    ensures |r| == |traces| && forall i :: 0 <= i < |traces| ==> r[i] == Some({traces[i]})
  {
    seq(|traces|, i requires 0 <= i < |traces| => Some({traces[i]}))
  }

  /** `push` gives each new item the trace of its own `addStackTrace` call. */
  lemma PushEachColumn(m: StackMap, length: nat, traces: seq<Trace>)
    requires Clean(m, length)
    ensures Clean(PushEach(m, length, traces), length + |traces|)
    ensures Column(PushEach(m, length, traces), length + |traces|) == Column(m, length) + Traced(traces)
    ensures SameNames(m, PushEach(m, length, traces))
  {
    var r, n', col := PushEach(m, length, traces), length + |traces|, Column(m, length) + Traced(traces);
    forall i: nat ensures Lookup(r, Index(i)) == if i < n' then col[i] else None {
      AddEachLookup(m, length, traces, Index(i));
      if length <= i < n' {
        assert Index(i) !in m;
        assert {} + {traces[i - length]} == {traces[i - length]};
      }
    }
    forall s ensures Lookup(r, Name(s)) == Lookup(m, Name(s)) {
      AddEachLookup(m, length, traces, Name(s));
    }
    ColumnOf(r, n', col);
  }

  /**
   * `unshift` as corrected, key by key: the i-th new index holds the i-th
   * captured trace alone; index `j` above them takes the traces of index
   * `j - |traces|` when that index has any, and otherwise keeps its own.
   */
  lemma UnshiftEachLookup(m: StackMap, length: nat, traces: seq<Trace>, p: PropertyKey)
    ensures Lookup(UnshiftEach(m, length, traces), p) ==
      if p.Index? && p.i < |traces| then Some({traces[p.i]})
      else if p.Index? && p.i < length + |traces| && Index(p.i - |traces|) in m then Lookup(m, Index(p.i - |traces|))
      else Lookup(m, p)
  {
    var count := |traces|;
    RefreshEachLookup(CopyUp(m, length, length, count), 0, traces, p);
    CopyUpLookup(m, length, length, count, p);
  }

  /** `unshift`, as corrected, puts each call's trace on its new index and moves the rest up. */
  lemma UnshiftEachColumn(m: StackMap, length: nat, traces: seq<Trace>)
    requires Clean(m, length) && Dense(m, length)
    ensures Clean(UnshiftEach(m, length, traces), length + |traces|)
    ensures Column(UnshiftEach(m, length, traces), length + |traces|) == Traced(traces) + Column(m, length)
    ensures SameNames(m, UnshiftEach(m, length, traces))
  {
    var count := |traces|;
    var r, n', col := UnshiftEach(m, length, traces), length + count, Traced(traces) + Column(m, length);
    forall i: nat ensures Lookup(r, Index(i)) == if i < n' then col[i] else None {
      UnshiftEachLookup(m, length, traces, Index(i));
      if count <= i < n' {
        assert Index(i - count) in m;
        assert col[i] == Column(m, length)[i - count];
      } else if i >= n' {
        assert Index(i) !in m;
      }
    }
    forall s ensures Lookup(r, Name(s)) == Lookup(m, Name(s)) {
      UnshiftEachLookup(m, length, traces, Name(s));
    }
    ColumnOf(r, n', col);
  }

  /**
   * The deuterium agent's `unshift` has the current agent's defect: on
   * an array of three elements with traces {"a"}, {"b"}, {"c"}, one new
   * item leaves index 2 with the traces of the element now at index 3,
   * and index 3 without traces.
   */
  lemma UnshiftEachAsWrittenLosesTraces()
    ensures var m := map[Index(0) := {"a"}, Index(1) := {"b"}, Index(2) := {"c"}];
      var w, c := UnshiftEachAsWritten(m, ["t"]), UnshiftEach(m, 3, ["t"]);
      Lookup(w, Index(2)) == Some({"c"}) && Lookup(w, Index(3)) == None
      && Lookup(c, Index(2)) == Some({"b"}) && Lookup(c, Index(3)) == Some({"c"})
  {
    var m := map[Index(0) := {"a"}, Index(1) := {"b"}, Index(2) := {"c"}];
    WrappersUniform(m, 3, 0, 0, ["t"], "t");
    UnshiftAsWrittenLosesTraces();
  }

  /**
   * `splice`, key by key: the i-th new index holds the i-th captured trace
   * alone; an index of the moved tail takes the traces of its old
   * position when that position has any and otherwise keeps its own; a
   * deleted index nothing moved into, and the vacated end of a shrinking
   * array, are cleared; every other key is kept.
   */
  lemma SpliceEachLookup(m: StackMap, length: nat, start: nat, deleteCount: nat, traces: seq<Trace>, p: PropertyKey)
    requires start + deleteCount <= length
    ensures var newCount := |traces|;
      Lookup(SpliceEach(m, length, start, deleteCount, traces), p) ==
      if p.Index? && start <= p.i < start + newCount then Some({traces[p.i - start]})
      else if p.Index? && start + newCount <= p.i < length - deleteCount + newCount && Index(p.i - newCount + deleteCount) in m
      then Lookup(m, Index(p.i - newCount + deleteCount))
      else if p.Index? && start <= p.i < start + deleteCount then None
      else if p.Index? && newCount < deleteCount && length - deleteCount + newCount <= p.i < length then None
      else Lookup(m, p)
  {
    RefreshEachLookup(SpliceMoved(m, length, start, deleteCount, |traces|), start, traces, p);
    MovedLookup(m, length, start, deleteCount, |traces|, p);
  }

  /** `splice` on an array whose indices all have traces keeps the head, gives each new item its own call's trace, and moves the tail. */
  lemma SpliceEachColumn(m: StackMap, length: nat, start: nat, deleteCount: nat, traces: seq<Trace>)
    requires start + deleteCount <= length && Clean(m, length) && Dense(m, length)
    ensures Clean(SpliceEach(m, length, start, deleteCount, traces), length - deleteCount + |traces|)
    ensures Column(SpliceEach(m, length, start, deleteCount, traces), length - deleteCount + |traces|)
      == Column(m, length)[..start] + Traced(traces) + Column(m, length)[start + deleteCount..]
    ensures SameNames(m, SpliceEach(m, length, start, deleteCount, traces))
  {
    var newCount := |traces|;
    var r := SpliceEach(m, length, start, deleteCount, traces);
    var n' := length - deleteCount + newCount;
    var col := Column(m, length)[..start] + Traced(traces) + Column(m, length)[start + deleteCount..];
    forall i: nat ensures Lookup(r, Index(i)) == if i < n' then col[i] else None {
      SpliceEachLookup(m, length, start, deleteCount, traces, Index(i));
      if i < start {
        assert col[i] == Column(m, length)[i];
      } else if i < start + newCount {
        assert col[i] == Traced(traces)[i - start];
      } else if i < n' {
        assert Index(i - newCount + deleteCount) in m;
        assert col[i] == Column(m, length)[i - newCount + deleteCount];
      } else if i >= length {
        assert Index(i) !in m;
      }
    }
    forall s ensures Lookup(r, Name(s)) == Lookup(m, Name(s)) {
      SpliceEachLookup(m, length, start, deleteCount, traces, Name(s));
    }
    ColumnOf(r, n', col);
  }

  // ---------------------------------------------------------------------
  // The map of one proxied object, updated in place by the wrappers
  // ---------------------------------------------------------------------

  /**
   * The map `getProxy` shares with a proxy. The wrapper methods take the
   * array's length before the call and the traces their `addStackTrace`
   * calls capture; they run only when the receiver is a proxy.
   */
  class DeuteriumStackMap {
    var stacks: StackMap

    constructor ()
      ensures stacks == map[]
    {
      stacks := map[];
    }

    /** `addStackTrace`, with the trace it captures. */
    method AddStackTrace(p: PropertyKey, trace: Trace)
      modifies this
      ensures stacks == Added(old(stacks), p, trace)
    {
      var traceSet := if p in stacks then stacks[p] else {};
      stacks := stacks[p := traceSet + {trace}];
    }

    method RemoveStacks(p: PropertyKey)
      modifies this
      ensures stacks == Removed(old(stacks), p)
    {
      if p in stacks {
        stacks := stacks - {p};
      }
    }

    method CopyStacks(from: PropertyKey, to: PropertyKey)
      modifies this
      ensures stacks == Copied(old(stacks), from, to)
    {
      if from in stacks {
        stacks := stacks[to := stacks[from]];
      }
    }

    method Push(length: nat, traces: seq<Trace>)
      modifies this
      ensures stacks == PushEach(old(stacks), length, traces)
    {
      for i := 0 to |traces|
        invariant stacks == AddEach(old(stacks), length, traces[..i])
      {
        assert traces[..i + 1][..i] == traces[..i];
        AddStackTrace(Index(length + i), traces[i]);
      }
      assert traces[..|traces|] == traces;
    }

    /** The last loop of `unshift` and `splice`: each new item's index gets its own call's trace alone. */
    method RefreshStep(start: nat, traces: seq<Trace>)
      modifies this
      ensures stacks == RefreshEach(old(stacks), start, traces)
    {
      for i := 0 to |traces|
        invariant stacks == RefreshEach(old(stacks), start, traces[..i])
      {
        assert traces[..i + 1][..i] == traces[..i];
        RemoveStacks(Index(start + i));
        AddStackTrace(Index(start + i), traces[i]);
      }
      assert traces[..|traces|] == traces;
    }

    /** `unshift`, with the copy loop running over the existing elements. */
    method Unshift(length: nat, traces: seq<Trace>)
      modifies this
      ensures stacks == UnshiftEach(old(stacks), length, traces)
    {
      var count := |traces|;
      for i := length downto 0
        invariant stacks == CopyUp(old(stacks), length, length - i, count)
      {
        CopyStacks(Index(i), Index(i + count));
      }
      RefreshStep(0, traces);
    }

    method Pop(length: nat)
      modifies this
      ensures stacks == PopMap(old(stacks), length)
    {
      RemoveStacks(LastKey(length));
    }

    method Shift(length: nat)
      modifies this
      ensures stacks == ShiftMap(old(stacks), length)
    {
      RemoveStacks(Index(0));
      ghost var m0 := stacks;
      for i := 1 to if length > 0 then length else 1
        invariant stacks == CopyDown(m0, 1, i - 1, 1)
      {
        CopyStacks(Index(i), Index(i - 1));
      }
      RemoveStacks(LastKey(length));
    }

    /** The delete and move loops of `splice`. */
    method MoveStep(length: nat, start: nat, deleteCount: nat, newCount: nat)
      requires start + deleteCount <= length
      modifies this
      ensures stacks == SpliceMoved(old(stacks), length, start, deleteCount, newCount)
    {
      ghost var m := stacks;
      for i := 0 to deleteCount
        invariant stacks == RemoveRange(m, start, i)
      {
        RemoveStacks(Index(start + i));
      }
      ghost var removed := stacks;
      if newCount > deleteCount {
        var up := newCount - deleteCount;
        for i := length downto start + deleteCount
          invariant stacks == CopyUp(removed, length, length - i, up)
        {
          CopyStacks(Index(i), Index(i + up));
        }
      } else if newCount < deleteCount {
        var down := deleteCount - newCount;
        for i := start + deleteCount to length
          invariant stacks == CopyDown(removed, start + deleteCount, i - (start + deleteCount), down)
        {
          CopyStacks(Index(i), Index(i - down));
        }
        ghost var copied := stacks;
        for i := length - down to length
          invariant stacks == RemoveRange(copied, length - down, i - (length - down))
        {
          RemoveStacks(Index(i));
        }
      }
    }

    /** `splice(start, deleteCount, ...items)`, one captured trace per new item. */
    method Splice(length: nat, start: int, deleteCount: Option<int>, traces: seq<Trace>)
      modifies this
      ensures var s := SpliceStart(length, start);
        stacks == SpliceEach(old(stacks), length, s, SpliceDeleteCount(length, s, deleteCount), traces)
    {
      var s := SpliceStart(length, start);
      var d := SpliceDeleteCount(length, s, deleteCount);
      MoveStep(length, s, d, |traces|);
      RefreshStep(s, traces);
    }
  }
}
