/**
 * Reading a constructed heap graph: nodes and edges as views on the flat
 * arrays, BLeak's edge classification, the property-count growth metric,
 * the user roots, and the serialisable form of a GC path.
 */
module GrowthTraversal {
  import opened Wrappers
  import opened JsStrings
  import opened GrowthGraph

  // ---------------------------------------------------------------------
  // Graph shape and views
  // ---------------------------------------------------------------------

  function NodeCount(g: HeapGraph): nat { |g.nodeTypes| }

  function EdgeCount(g: HeapGraph): nat { |g.edgeTypes| }

  /**
   * The arrays of `g` fit together: one entry per node and per edge, the
   * first-edge indexes ascend up to at most the number of edges, every edge
   * leads to a node and has a known type, and the root is a node.
   */
  predicate Shape(g: HeapGraph) {
    var n := |g.nodeTypes|;
    |g.nodeNames| == n && |g.nodeSizes| == n && |g.firstEdgeIndexes| == n + 1
    && |g.edgeNamesOrIndexes| == |g.edgeTypes| && |g.edgeToNodes| == |g.edgeTypes|
    && g.rootNodeIndex < n
    && (forall i, j :: 0 <= i <= j <= n ==> g.firstEdgeIndexes[i] <= g.firstEdgeIndexes[j])
    && g.firstEdgeIndexes[n] <= |g.edgeTypes|
    && (forall e :: 0 <= e < |g.edgeTypes| ==> g.edgeToNodes[e] < n && g.edgeTypes[e] <= EdgeWeak)
  }

  /** Every name id of `g` is in the string table `strs`. */
  predicate NamesResolve(g: HeapGraph, strs: seq<string>) {
    (forall i :: 0 <= i < |g.nodeNames| ==> g.nodeNames[i] < |strs|)
    && (forall e :: 0 <= e < |g.edgeTypes| && e < |g.edgeNamesOrIndexes| && HasStringName(g.edgeTypes[e]) ==>
          g.edgeNamesOrIndexes[e] < |strs|)
  }

  /**
   * What a V8 snapshot guarantees and `Construct` relies on without checking:
   * the meta edge count is the number of edge records, there is a node, the
   * root and every edge target are nodes.
   */
  predicate Consistent(s: HeapSnapshot) {
    s.edgeCount == NumEdges(s) && 0 < s.nodeCount && RootNodeIndex(s) < s.nodeCount
    && forall j :: 0 <= j < NumEdges(s) ==> ToNode(s, j) < s.nodeCount
  }

  /** A graph `Construct` built from a consistent snapshot is well shaped and its names resolve. */
  lemma BuiltShape(s: HeapSnapshot, strs: seq<string>, g: HeapGraph)
    requires Built(s, strs, g) && ConstructSucceeds(s) && Consistent(s)
    ensures Shape(g) && NamesResolve(g, strs)
  {
    var n := s.nodeCount;
    if Prefix(s, n) > NumEdges(s) {
      PastEdgesUnknown(s, Prefix(s, n));
      assert false;
    }
    forall i, j | 0 <= i <= j <= n
      ensures g.firstEdgeIndexes[i] <= g.firstEdgeIndexes[j]
    {
      BuiltFirstEdges(s, strs, g, i, j);
    }
    assert 0 < |strs| by {
      assert NodeStored(s, strs, 0, g.nodeTypes[0], g.nodeNames[0], g.nodeSizes[0]);
    }
  }

  /** The first-edge indexes of a built graph are the prefix sums of the edge counts, so they ascend. */
  lemma BuiltFirstEdges(s: HeapSnapshot, strs: seq<string>, g: HeapGraph, i: nat, j: nat)
    requires Built(s, strs, g) && Prefix(s, s.nodeCount) <= NumEdges(s) && i <= j <= s.nodeCount
    ensures g.firstEdgeIndexes[i] <= g.firstEdgeIndexes[j]
  {
    var n := s.nodeCount;
    if j < n {
      PrefixMonotone(s, i, j);
    } else if i < n {
      PrefixMonotone(s, i, n);
    }
  }

  /** `firstEdgeIndexes[n]`. */
  function FirstEdge(g: HeapGraph, n: nat): nat {
    if n < |g.firstEdgeIndexes| then g.firstEdgeIndexes[n] else 0
  }

  /** Edge `e` is one of node `n`'s children. */
  predicate ChildOf(g: HeapGraph, n: nat, e: nat) {
    FirstEdge(g, n) <= e < FirstEdge(g, n + 1)
  }

  /** `Edge.toIndex`. */
  function To(g: HeapGraph, e: nat): nat {
    if e < |g.edgeToNodes| then g.edgeToNodes[e] else 0
  }

  /** `Edge.snapshotType`. */
  function SnapshotType(g: HeapGraph, e: nat): nat {
    if e < |g.edgeTypes| then g.edgeTypes[e] else 0
  }

  /** `Node.type`. */
  function NodeType(g: HeapGraph, n: nat): nat {
    if n < |g.nodeTypes| then g.nodeTypes[n] else 0
  }

  /** `Node.size`. */
  function NodeSize(g: HeapGraph, n: nat): nat {
    if n < |g.nodeSizes| then g.nodeSizes[n] else 0
  }

  /** `stringMap.fromId(id)` on a table that holds `id`. */
  function NameOf(strs: seq<string>, id: nat): string {
    if id < |strs| then strs[id] else ""
  }

  /** `Node.name`. */
  function NodeName(g: HeapGraph, strs: seq<string>, n: nat): string {
    NameOf(strs, if n < |g.nodeNames| then g.nodeNames[n] else 0)
  }

  /** `Node.childrenLength`: the difference of adjacent first-edge indexes. */
  function ChildrenLength(g: HeapGraph, n: nat): int {
    FirstEdge(g, n + 1) - FirstEdge(g, n)
  }

  /** `Node.hasChildren`. */
  predicate HasChildren(g: HeapGraph, n: nat) {
    ChildrenLength(g, n) != 0
  }

  /** The key a JavaScript Map sees for `indexOrName`: numbers and strings never collide. */
  datatype EdgeKey = KIndex(index: nat) | KName(name: string)

  /** `Edge.indexOrName`: the raw index for INDEX edges, the interned name otherwise. */
  function IndexOrName(g: HeapGraph, strs: seq<string>, e: nat): (r: EdgeKey)
    ensures r.KIndex? <==> KindOf(SnapshotType(g, e)) == Some(Index)
  {
    var raw := if e < |g.edgeNamesOrIndexes| then g.edgeNamesOrIndexes[e] else 0;
    if KindOf(SnapshotType(g, e)) == Some(Index) then KIndex(raw) else KName(NameOf(strs, raw))
  }

  /** On a well-shaped graph `Edge.type` never throws and sorts every edge into one of the three kinds. */
  lemma EdgeTypeTotal(g: HeapGraph, e: nat)
    requires Shape(g) && e < EdgeCount(g)
    ensures KindOf(SnapshotType(g, e)).Some?
  {
  }

  // ---------------------------------------------------------------------
  // Traversal filters
  // ---------------------------------------------------------------------

  /** `nonWeakFilter`. */
  predicate NonWeak(g: HeapGraph, n: nat, e: nat) {
    SnapshotType(g, e) != EdgeWeak
  }

  /** `shouldTraverse`. */
  predicate ShouldTraverse(g: HeapGraph, strs: seq<string>, e: nat) {
    var name := IndexOrName(g, strs, e);
    var to := To(g, e);
    if name == KName("<symbol>") then false
    else if SnapshotType(g, e) == EdgeInternal then
      name in {KName("elements"), KName("table"), KName("properties"), KName("context")}
      || StartsWith(NodeName(g, strs, to), "Document DOM")
    else if NodeType(g, to) == NodeSynthetic then NodeName(g, strs, to) == "(Document DOM trees)"
    else true
  }

  /** `<symbol>` properties are never followed, whatever their type or target. */
  lemma SymbolNotTraversed(g: HeapGraph, strs: seq<string>, e: nat)
    requires IndexOrName(g, strs, e) == KName("<symbol>")
    ensures !ShouldTraverse(g, strs, e)
  {
  }

  /**
   * An ordinary (neither internal nor `<symbol>`) edge is followed exactly
   * when it does not lead to a synthetic node other than the DOM-tree group.
   */
  lemma OrdinaryEdgeTraversed(g: HeapGraph, strs: seq<string>, e: nat)
    requires IndexOrName(g, strs, e) != KName("<symbol>") && SnapshotType(g, e) != EdgeInternal
    ensures ShouldTraverse(g, strs, e) <==>
      (NodeType(g, To(g, e)) != NodeSynthetic || NodeName(g, strs, To(g, e)) == "(Document DOM trees)")
  {
  }

  /** Array elements are never `<symbol>`: an INDEX edge's key is a number. */
  lemma IndexEdgeNeverSymbol(g: HeapGraph, strs: seq<string>, e: nat)
    requires KindOf(SnapshotType(g, e)) == Some(Index)
    ensures IndexOrName(g, strs, e) != KName("<symbol>")
  {
  }

  /** `hash`: a child edge's identity under its parent, the target's name below synthetic parents. */
  function Hash(g: HeapGraph, strs: seq<string>, parent: nat, e: nat): (r: EdgeKey)
    ensures NodeType(g, parent) == NodeSynthetic ==> r == KName(NodeName(g, strs, To(g, e)))
    ensures NodeType(g, parent) != NodeSynthetic ==> r == IndexOrName(g, strs, e)
  {
    if NodeType(g, parent) == NodeSynthetic then KName(NodeName(g, strs, To(g, e))) else IndexOrName(g, strs, e)
  }

  // ---------------------------------------------------------------------
  // The property-count metric
  // ---------------------------------------------------------------------

  /** What child edge `e` adds to its parent's `numProperties`. */
  function PropertyContribution(g: HeapGraph, strs: seq<string>, e: nat): int {
    var t := SnapshotType(g, e);
    var to := To(g, e);
    if t == EdgeInternal then
      var name := IndexOrName(g, strs, e);
      if name == KName("elements") then (if HasChildren(g, to) then 0 else NodeSize(g, to) / 8)
      else if name == KName("table") || name == KName("properties") then
        (if HasChildren(g, to) then ChildrenLength(g, to) else 0)
      else 0
    else if t == EdgeHidden || t == EdgeShortcut || t == EdgeWeak then 0
    else 1
  }

  /** The sum of the contributions of edges `lo` .. `hi`-1. */
  function PropertyCountFrom(g: HeapGraph, strs: seq<string>, lo: nat, hi: nat): int
    decreases hi - lo
  {
    if lo >= hi then 0
    else PropertyContribution(g, strs, lo) + PropertyCountFrom(g, strs, lo + 1, hi)
  }

  /** `numProperties` of node `n`, as a sum over its children. */
  function PropertyCount(g: HeapGraph, strs: seq<string>, n: nat): int {
    if HasChildren(g, n) then PropertyCountFrom(g, strs, FirstEdge(g, n), FirstEdge(g, n + 1)) else 0
  }

  /** `Node.numProperties`: walks the node's children with a counter. */
  method NumProperties(g: HeapGraph, strs: seq<string>, n: nat) returns (count: int)
    ensures count == PropertyCount(g, strs, n)
  {
    count := 0;
    if HasChildren(g, n) {
      var it := FirstEdge(g, n);
      var end := FirstEdge(g, n + 1);
      while it < end
        invariant FirstEdge(g, n) <= it
        invariant count + PropertyCountFrom(g, strs, it, end) == PropertyCount(g, strs, n)
        decreases end as int - it
      {
        var t := SnapshotType(g, it);
        if t == EdgeInternal {
          var name := IndexOrName(g, strs, it);
          var to := To(g, it);
          if name == KName("elements") {
            if !HasChildren(g, to) {
              count := count + NodeSize(g, to) / 8;
            }
          } else if name == KName("table") {
            if HasChildren(g, to) {
              count := count + ChildrenLength(g, to);
            }
          } else if name == KName("properties") {
            if HasChildren(g, to) {
              count := count + ChildrenLength(g, to);
            }
          }
        } else if t == EdgeHidden || t == EdgeShortcut || t == EdgeWeak {
        } else {
          count := count + 1;
        }
        it := it + 1;
      }
    }
  }

  /** The number of edges in `lo` .. `hi`-1 that are not Hidden, Shortcut or Weak. */
  function VisibleEdges(g: HeapGraph, lo: nat, hi: nat): nat
    decreases hi - lo
  {
    if lo >= hi then 0
    else
      var t := SnapshotType(g, lo);
      (if t == EdgeHidden || t == EdgeShortcut || t == EdgeWeak then 0 else 1) + VisibleEdges(g, lo + 1, hi)
  }

  /** Without internal children the metric counts each visible child once. */
  lemma {:induction false} NoInternalCountsVisible(g: HeapGraph, strs: seq<string>, lo: nat, hi: nat)
    requires forall e :: lo <= e < hi ==> SnapshotType(g, e) != EdgeInternal
    ensures PropertyCountFrom(g, strs, lo, hi) == VisibleEdges(g, lo, hi)
    decreases hi - lo
  {
    if lo < hi {
      NoInternalCountsVisible(g, strs, lo + 1, hi);
    }
  }

  /** Hidden, shortcut and weak children add nothing. */
  lemma {:induction false} SkippedCountNothing(g: HeapGraph, strs: seq<string>, lo: nat, hi: nat)
    requires forall e :: lo <= e < hi ==>
      SnapshotType(g, e) in {EdgeHidden, EdgeShortcut, EdgeWeak}
    ensures PropertyCountFrom(g, strs, lo, hi) == 0
    decreases hi - lo
  {
    if lo < hi {
      SkippedCountNothing(g, strs, lo + 1, hi);
    }
  }

  /** The count over a range is the count over its two halves. */
  lemma {:induction false} PropertyCountSplit(g: HeapGraph, strs: seq<string>, lo: nat, mid: nat, hi: nat)
    requires lo <= mid <= hi
    ensures PropertyCountFrom(g, strs, lo, hi)
      == PropertyCountFrom(g, strs, lo, mid) + PropertyCountFrom(g, strs, mid, hi)
    decreases mid - lo
  {
    if lo < mid {
      PropertyCountSplit(g, strs, lo + 1, mid, hi);
    }
  }

  /** On a well-shaped graph the metric is never negative. */
  lemma {:induction false} PropertyCountFromNonNegative(g: HeapGraph, strs: seq<string>, lo: nat, hi: nat)
    requires Shape(g)
    ensures PropertyCountFrom(g, strs, lo, hi) >= 0
    decreases hi - lo
  {
    if lo < hi {
      var t := To(g, lo);
      if t < NodeCount(g) {
        assert FirstEdge(g, t) <= FirstEdge(g, t + 1);
      }
      PropertyCountFromNonNegative(g, strs, lo + 1, hi);
    }
  }

  // ---------------------------------------------------------------------
  // Breadth-first search over nodes
  // ---------------------------------------------------------------------

  predicate Distinct(s: seq<nat>) {
    forall i, j :: 0 <= i < j < |s| ==> s[i] != s[j]
  }

  predicate AllBelow(s: seq<nat>, n: nat) {
    forall i :: 0 <= i < |s| ==> s[i] < n
  }

  function Elems(s: seq<nat>): set<nat> {
    set x | x in s
  }

  /** The node indexes 0 .. n-1. */
  function Below(n: nat): (r: set<nat>)
    ensures forall i: nat :: i in r <==> i < n
  {
    if n == 0 then {} else Below(n - 1) + {n - 1}
  }

  lemma {:induction false} BelowSize(n: nat)
    ensures |Below(n)| == n
  {
    if n > 0 {
      BelowSize(n - 1);
    }
  }

  lemma {:induction false} DistinctElemsSize(s: seq<nat>)
    requires Distinct(s)
    ensures |Elems(s)| == |s|
  {
    if |s| > 0 {
      var t := s[..|s| - 1];
      DistinctElemsSize(t);
      assert Elems(s) == Elems(t) + {s[|s| - 1]};
    }
  }

  /** A duplicate-free sequence of node indexes has at most one entry per node. */
  lemma DistinctBound(s: seq<nat>, n: nat)
    requires Distinct(s) && AllBelow(s, n)
    ensures |s| <= n
  {
    DistinctElemsSize(s);
    BelowSize(n);
    assert Elems(s) <= Below(n);
    assert Below(n) == Elems(s) + (Below(n) - Elems(s));
  }

  /** Every accepted child edge of the first `done` entries of `q` leads to an entry of `q`. */
  ghost predicate ClosedUpTo(g: HeapGraph, accept: (nat, nat) -> bool, q: seq<nat>, done: nat) {
    forall k, e :: 0 <= k < done && k < |q| && ChildOf(g, q[k], e) && accept(q[k], e) ==> To(g, e) in q
  }

  /** Some child edge of `u` accepted by the filter leads to `v`. */
  ghost predicate Step(g: HeapGraph, accept: (nat, nat) -> bool, u: nat, v: nat) {
    exists e :: ChildOf(g, u, e) && accept(u, e) && To(g, e) == v
  }

  /** Every entry of `q` after the first `start` was reached by an accepted edge from an earlier entry. */
  ghost predicate Reached(g: HeapGraph, accept: (nat, nat) -> bool, start: nat, q: seq<nat>) {
    forall k :: start <= k < |q| ==> exists p :: 0 <= p < k && Step(g, accept, q[p], q[k])
  }

  /** A walk along accepted edges that starts at one of the initial nodes. */
  ghost predicate WalkFrom(g: HeapGraph, accept: (nat, nat) -> bool, initial: seq<nat>, w: seq<nat>) {
    |w| > 0 && w[0] in initial
    && forall k :: 0 <= k < |w| - 1 ==> Step(g, accept, w[k], w[k + 1])
  }

  ghost predicate Reachable(g: HeapGraph, accept: (nat, nat) -> bool, initial: seq<nat>, v: nat) {
    exists w :: WalkFrom(g, accept, initial, w) && w[|w| - 1] == v
  }

  /** Every entry of a queue built by reaching steps is reachable from the initial nodes. */
  lemma {:induction false} QueuedReachable(g: HeapGraph, accept: (nat, nat) -> bool, initial: seq<nat>,
                                           q: seq<nat>, k: nat)
    requires |initial| <= |q| && q[..|initial|] == initial
    requires Reached(g, accept, |initial|, q)
    requires k < |q|
    ensures Reachable(g, accept, initial, q[k])
    decreases k
  {
    if k < |initial| {
      assert q[k] == initial[k];
      assert WalkFrom(g, accept, initial, [q[k]]);
    } else {
      var p :| 0 <= p < k && Step(g, accept, q[p], q[k]);
      QueuedReachable(g, accept, initial, q, p);
      var w :| WalkFrom(g, accept, initial, w) && w[|w| - 1] == q[p];
      var w2 := w + [q[k]];
      assert forall j :: 0 <= j < |w2| - 1 ==> Step(g, accept, w2[j], w2[j + 1]) by {
        forall j | 0 <= j < |w2| - 1
          ensures Step(g, accept, w2[j], w2[j + 1])
        {
          if j < |w| - 1 {
            assert w2[j] == w[j] && w2[j + 1] == w[j + 1];
          }
        }
      }
      assert WalkFrom(g, accept, initial, w2);
    }
  }

  /** A walk from the initial nodes never leaves a queue closed under accepted edges. */
  lemma {:induction false} WalkStaysQueued(g: HeapGraph, accept: (nat, nat) -> bool, initial: seq<nat>,
                                           q: seq<nat>, w: seq<nat>)
    requires |initial| <= |q| && q[..|initial|] == initial
    requires ClosedUpTo(g, accept, q, |q|)
    requires WalkFrom(g, accept, initial, w)
    ensures w[|w| - 1] in q
    decreases |w|
  {
    if |w| == 1 {
      var i :| 0 <= i < |initial| && initial[i] == w[0];
      assert q[i] == initial[i];
    } else {
      var w1 := w[..|w| - 1];
      assert WalkFrom(g, accept, initial, w1) by {
        assert forall j :: 0 <= j < |w1| ==> w1[j] == w[j];
      }
      WalkStaysQueued(g, accept, initial, q, w1);
      var u := w[|w| - 2];
      var k :| 0 <= k < |q| && q[k] == u;
      assert Step(g, accept, u, w[|w| - 1]);
      var e :| ChildOf(g, u, e) && accept(u, e) && To(g, e) == w[|w| - 1];
      assert ChildOf(g, q[k], e) && accept(q[k], e);
    }
  }

  /** The nodes of a closed queue built by reaching steps are exactly those reachable from the initial nodes. */
  lemma QueueIsReachable(g: HeapGraph, accept: (nat, nat) -> bool, initial: seq<nat>, q: seq<nat>)
    requires |initial| <= |q| && q[..|initial|] == initial
    requires ClosedUpTo(g, accept, q, |q|) && Reached(g, accept, |initial|, q)
    ensures forall v :: v in q <==> Reachable(g, accept, initial, v)
  {
    forall v
      ensures v in q <==> Reachable(g, accept, initial, v)
    {
      if v in q {
        var k :| 0 <= k < |q| && q[k] == v;
        QueuedReachable(g, accept, initial, q, k);
      }
      if Reachable(g, accept, initial, v) {
        var w :| WalkFrom(g, accept, initial, w) && w[|w| - 1] == v;
        WalkStaysQueued(g, accept, initial, q, w);
      }
    }
  }

  /** The queue `q` and the visit bits of `bfsVisitor` after the first `done` nodes were expanded. */
  ghost predicate QueueOk(g: HeapGraph, accept: (nat, nat) -> bool, initial: seq<nat>,
                          q: seq<nat>, bits: seq<bool>, done: nat)
  {
    |bits| == NodeCount(g)
    && Distinct(q) && AllBelow(q, NodeCount(g))
    && (forall v :: 0 <= v < |bits| ==> (bits[v] <==> v in q))
    && |initial| <= |q| && q[..|initial|] == initial
    && done <= |q|
    && ClosedUpTo(g, accept, q, done)
    && Reached(g, accept, |initial|, q)
  }

  /** Enqueueing an unvisited child of the entry at `p` keeps the queue invariant. */
  lemma EnqueueChild(g: HeapGraph, accept: (nat, nat) -> bool, initial: seq<nat>,
                     q: seq<nat>, bits: seq<bool>, done: nat, p: nat, e: nat)
    requires QueueOk(g, accept, initial, q, bits, done)
    requires p < |q| && ChildOf(g, q[p], e) && accept(q[p], e)
    requires To(g, e) < |bits| && !bits[To(g, e)]
    ensures QueueOk(g, accept, initial, q + [To(g, e)], bits[To(g, e) := true], done)
  {
    var q2 := q + [To(g, e)];
    assert q2[..|initial|] == q[..|initial|];
    forall k | |initial| <= k < |q2|
      ensures exists p' :: 0 <= p' < k && Step(g, accept, q2[p'], q2[k])
    {
      if k == |q| {
        assert q2[p] == q[p] && Step(g, accept, q2[p], q2[k]);
      } else {
        var p' :| 0 <= p' < k && Step(g, accept, q[p'], q[k]);
        assert q2[p'] == q[p'];
      }
    }
  }

  /** Every accepted child edge of `u` in `lo .. hi-1` leads to an entry of `q`. */
  ghost predicate EdgesQueued(g: HeapGraph, accept: (nat, nat) -> bool, u: nat, lo: nat, hi: nat, q: seq<nat>) {
    forall e :: lo <= e < hi && accept(u, e) ==> To(g, e) in q
  }

  lemma EdgesQueuedStep(g: HeapGraph, accept: (nat, nat) -> bool, u: nat, lo: nat, hi: nat, q: seq<nat>, q': seq<nat>)
    requires EdgesQueued(g, accept, u, lo, hi, q)
    requires q <= q'
    requires accept(u, hi) ==> To(g, hi) in q'
    ensures EdgesQueued(g, accept, u, lo, hi + 1, q')
  {
    forall e | lo <= e < hi + 1 && accept(u, e)
      ensures To(g, e) in q'
    {
      if e < hi {
        var k :| 0 <= k < |q| && q[k] == To(g, e);
        assert q'[k] == q[k];
      }
    }
  }

  /** Once all accepted children of the entry at `done` are queued, that entry is expanded. */
  lemma CloseNode(g: HeapGraph, accept: (nat, nat) -> bool, initial: seq<nat>,
                  q: seq<nat>, bits: seq<bool>, done: nat)
    requires QueueOk(g, accept, initial, q, bits, done) && done < |q|
    requires EdgesQueued(g, accept, q[done], FirstEdge(g, q[done]), FirstEdge(g, q[done] + 1), q)
    ensures QueueOk(g, accept, initial, q, bits, done + 1)
  {
  }

  /**
   * The edge loop of `bfsVisitor` for the node at queue position `pos`:
   * every accepted edge to an unvisited node marks it and enqueues it.
   */
  method VisitChildren(g: HeapGraph, accept: (nat, nat) -> bool, ghost initial: seq<nat>,
                       pos: nat, nodesToVisit: array<nat>, visitBits: array<bool>, len: nat)
    returns (newLen: nat)
    requires Shape(g)
    requires nodesToVisit.Length == NodeCount(g) && pos < len <= nodesToVisit.Length
    requires QueueOk(g, accept, initial, nodesToVisit[..len], visitBits[..], pos)
    modifies nodesToVisit, visitBits
    ensures len <= newLen <= nodesToVisit.Length
    ensures nodesToVisit[..len] == old(nodesToVisit[..len])
    ensures QueueOk(g, accept, initial, nodesToVisit[..newLen], visitBits[..], pos + 1)
  {
    var nodeIndex := nodesToVisit[pos];
    var firstEdgeIndex := g.firstEdgeIndexes[nodeIndex];
    var edgesEnd := g.firstEdgeIndexes[nodeIndex + 1];
    newLen := len;
    var edgeIndex := firstEdgeIndex;
    while edgeIndex < edgesEnd
      invariant firstEdgeIndex <= edgeIndex <= edgesEnd
      invariant len <= newLen <= nodesToVisit.Length
      invariant nodesToVisit[..len] == old(nodesToVisit[..len])
      invariant QueueOk(g, accept, initial, nodesToVisit[..newLen], visitBits[..], pos)
      invariant EdgesQueued(g, accept, nodeIndex, firstEdgeIndex, edgeIndex, nodesToVisit[..newLen])
      decreases edgesEnd as int - edgeIndex
    {
      ghost var q, bits := nodesToVisit[..newLen], visitBits[..];
      var childNodeIndex := g.edgeToNodes[edgeIndex];
      if !visitBits[childNodeIndex] && accept(nodeIndex, edgeIndex) {
        assert q[pos] == nodeIndex;
        EnqueueChild(g, accept, initial, q, bits, pos, pos, edgeIndex);
        DistinctBound(q + [childNodeIndex], NodeCount(g));
        visitBits[childNodeIndex] := true;
        nodesToVisit[newLen] := childNodeIndex;
        assert nodesToVisit[..newLen + 1] == q + [childNodeIndex];
        assert visitBits[..] == bits[childNodeIndex := true];
        newLen := newLen + 1;
      }
      EdgesQueuedStep(g, accept, nodeIndex, firstEdgeIndex, edgeIndex, q, nodesToVisit[..newLen]);
      edgeIndex := edgeIndex + 1;
    }
    assert nodesToVisit[..newLen][pos] == nodeIndex;
    CloseNode(g, accept, initial, nodesToVisit[..newLen], visitBits[..], pos);
  }

  /**
   * `bfsVisitor`: the nodes handed to the visitor, in visiting order. The
   * queue is a Uint32Array with one slot per node; the visit bits mark
   * nodes as they are enqueued.
   */
  method BfsVisitor(g: HeapGraph, initial: seq<nat>, accept: (nat, nat) -> bool) returns (visited: seq<nat>)
    requires Shape(g) && Distinct(initial) && AllBelow(initial, NodeCount(g))
    ensures Distinct(visited) && AllBelow(visited, NodeCount(g))
    ensures |initial| <= |visited| && visited[..|initial|] == initial
    ensures ClosedUpTo(g, accept, visited, |visited|)
    ensures Reached(g, accept, |initial|, visited)
    ensures forall v :: v in visited <==> Reachable(g, accept, initial, v)
  {
    var n := NodeCount(g);
    var visitBits := new bool[n](_ => false);
    var nodesToVisit := new nat[n](_ => 0);
    DistinctBound(initial, n);
    var len := 0;
    while len < |initial|
      invariant len <= |initial|
      invariant nodesToVisit[..len] == initial[..len]
      modifies nodesToVisit
    {
      nodesToVisit[len] := initial[len];
      len := len + 1;
    }
    var i := 0;
    while i < |initial|
      invariant i <= |initial|
      invariant nodesToVisit[..len] == initial
      invariant forall v :: 0 <= v < n ==> (visitBits[v] <==> v in initial[..i])
      modifies visitBits
    {
      visitBits[initial[i]] := true;
      i := i + 1;
    }
    assert initial[..|initial|] == initial;
    var index := 0;
    while index < len
      invariant index <= len <= n
      invariant QueueOk(g, accept, initial, nodesToVisit[..len], visitBits[..], index)
      decreases n - index
    {
      len := VisitChildren(g, accept, initial, index, nodesToVisit, visitBits, len);
      index := index + 1;
    }
    visited := nodesToVisit[..len];
    QueueIsReachable(g, accept, initial, visited);
  }

  // ---------------------------------------------------------------------
  // Breadth-first search over edges, with back links for paths
  // ---------------------------------------------------------------------

  /** Edge `b` is a child of the node edge `a` points to, and the filter accepts it there. */
  predicate EdgeStep(g: HeapGraph, accept: (nat, nat) -> bool, a: nat, b: nat) {
    ChildOf(g, To(g, a), b) && accept(To(g, a), b)
  }

  /**
   * The entries of `bfsEdgeVisitor`'s queue: entry `i >= 1` is the pair
   * (`prevs[i]`, `edges[i]`); slot 0 is the root placeholder. The initial
   * edges come first with link 0; every later entry links back to an earlier
   * entry whose target node it is a child of; the first `done` entries are
   * expanded.
   */
  ghost predicate EdgeQueue(g: HeapGraph, accept: (nat, nat) -> bool, initial: seq<nat>,
                            edges: seq<nat>, prevs: seq<nat>, done: nat)
  {
    |edges| == |prevs| && |initial| < |edges| && 1 <= done <= |edges|
    && Distinct(edges[1..]) && AllBelow(edges[1..], EdgeCount(g))
    && edges[1..|initial| + 1] == initial
    && (forall i :: 1 <= i <= |initial| ==> prevs[i] == 0)
    && (forall i :: |initial| < i < |edges| ==> 1 <= prevs[i] < i && EdgeStep(g, accept, edges[prevs[i]], edges[i]))
    && (forall i, e :: 1 <= i < done && EdgeStep(g, accept, edges[i], e) ==> e in edges[1..])
  }

  /** The visit bits mark exactly the edges in the queue. */
  ghost predicate EdgeBits(g: HeapGraph, edges: seq<nat>, bits: seq<bool>) {
    |edges| >= 1 && |bits| == EdgeCount(g)
    && forall e :: 0 <= e < |bits| ==> (bits[e] <==> e in edges[1..])
  }

  /** Every accepted child edge of `u` in `lo .. hi-1` is in the queue. */
  ghost predicate ChildEdgesQueued(g: HeapGraph, accept: (nat, nat) -> bool, u: nat, lo: nat, hi: nat, edges: seq<nat>)
    requires |edges| >= 1
  {
    forall e :: lo <= e < hi && accept(u, e) ==> e in edges[1..]
  }

  /** Enqueueing an unvisited accepted child edge of the entry at `p` keeps the queue invariant. */
  lemma EnqueueEdge(g: HeapGraph, accept: (nat, nat) -> bool, initial: seq<nat>,
                    edges: seq<nat>, prevs: seq<nat>, bits: seq<bool>, done: nat, p: nat, e: nat)
    requires EdgeQueue(g, accept, initial, edges, prevs, done) && EdgeBits(g, edges, bits)
    requires 1 <= p < |edges| && EdgeStep(g, accept, edges[p], e)
    requires e < |bits| && !bits[e]
    ensures EdgeQueue(g, accept, initial, edges + [e], prevs + [p], done)
    ensures EdgeBits(g, edges + [e], bits[e := true])
    ensures |edges| <= EdgeCount(g)
  {
    var es, ps := edges + [e], prevs + [p];
    assert es[1..] == edges[1..] + [e];
    assert es[1..|initial| + 1] == edges[1..|initial| + 1];
    assert es[p] == edges[p];
    forall i, c | 1 <= i < done && EdgeStep(g, accept, es[i], c)
      ensures c in es[1..]
    {
      assert es[i] == edges[i];
    }
    DistinctBound(es[1..], EdgeCount(g));
  }

  lemma ChildEdgesQueuedStep(g: HeapGraph, accept: (nat, nat) -> bool, u: nat, lo: nat, hi: nat,
                             edges: seq<nat>, edges': seq<nat>)
    requires |edges| >= 1 && ChildEdgesQueued(g, accept, u, lo, hi, edges)
    requires edges <= edges'
    requires accept(u, hi) ==> hi in edges'[1..]
    ensures ChildEdgesQueued(g, accept, u, lo, hi + 1, edges')
  {
    forall e | lo <= e < hi + 1 && accept(u, e)
      ensures e in edges'[1..]
    {
      if e < hi {
        var k :| 1 <= k < |edges| && edges[k] == e;
        assert edges'[k] == edges[k];
      }
    }
  }

  /** Once all accepted children of the target of entry `done` are queued, that entry is expanded. */
  lemma CloseEdge(g: HeapGraph, accept: (nat, nat) -> bool, initial: seq<nat>,
                  edges: seq<nat>, prevs: seq<nat>, done: nat)
    requires EdgeQueue(g, accept, initial, edges, prevs, done) && done < |edges|
    requires ChildEdgesQueued(g, accept, To(g, edges[done]), FirstEdge(g, To(g, edges[done])),
                              FirstEdge(g, To(g, edges[done]) + 1), edges)
    ensures EdgeQueue(g, accept, initial, edges, prevs, done + 1)
  {
  }

  /**
   * One step of `bfsEdgeVisitor`'s child loop: the child edge `child` of the
   * node entry `pos` points to is marked and enqueued with a link back to
   * `pos` when it is unvisited and the filter accepts it.
   */
  method VisitChildEdge(g: HeapGraph, accept: (nat, nat) -> bool, ghost initial: seq<nat>, pos: nat,
                        nodeIndex: nat, ghost firstEdgeIndex: nat, child: nat,
                        edgeQ: array<nat>, prevQ: array<nat>, visitBits: array<bool>, len: nat)
    returns (newLen: nat)
    requires edgeQ != prevQ && edgeQ.Length == prevQ.Length == EdgeCount(g) + 1
    requires 1 <= pos < len <= edgeQ.Length && nodeIndex == To(g, edgeQ[pos])
    requires ChildOf(g, nodeIndex, child) && child < EdgeCount(g)
    requires EdgeQueue(g, accept, initial, edgeQ[..len], prevQ[..len], pos)
    requires EdgeBits(g, edgeQ[..len], visitBits[..])
    requires ChildEdgesQueued(g, accept, nodeIndex, firstEdgeIndex, child, edgeQ[..len])
    modifies edgeQ, prevQ, visitBits
    ensures len <= newLen <= edgeQ.Length && edgeQ[pos] == old(edgeQ[pos])
    ensures EdgeQueue(g, accept, initial, edgeQ[..newLen], prevQ[..newLen], pos)
    ensures EdgeBits(g, edgeQ[..newLen], visitBits[..])
    ensures ChildEdgesQueued(g, accept, nodeIndex, firstEdgeIndex, child + 1, edgeQ[..newLen])
  {
    ghost var es, ps, bits := edgeQ[..len], prevQ[..len], visitBits[..];
    newLen := len;
    if !visitBits[child] && accept(nodeIndex, child) {
      assert es[pos] == edgeQ[pos];
      EnqueueEdge(g, accept, initial, es, ps, bits, pos, pos, child);
      visitBits[child] := true;
      prevQ[len] := pos;
      edgeQ[len] := child;
      assert edgeQ[..len + 1] == es + [child];
      assert prevQ[..len + 1] == ps + [pos];
      assert visitBits[..] == bits[child := true];
      newLen := len + 1;
    }
    ChildEdgesQueuedStep(g, accept, nodeIndex, firstEdgeIndex, child, es, edgeQ[..newLen]);
  }

  /**
   * The child loop of `bfsEdgeVisitor` for the entry at `pos`: every
   * accepted child edge of the node it points to ends up in the queue.
   */
  method VisitChildEdges(g: HeapGraph, accept: (nat, nat) -> bool, ghost initial: seq<nat>, pos: nat,
                         edgeQ: array<nat>, prevQ: array<nat>, visitBits: array<bool>, len: nat)
    returns (newLen: nat)
    requires Shape(g) && edgeQ != prevQ
    requires edgeQ.Length == prevQ.Length == EdgeCount(g) + 1 && pos < len <= edgeQ.Length
    requires EdgeQueue(g, accept, initial, edgeQ[..len], prevQ[..len], pos)
    requires EdgeBits(g, edgeQ[..len], visitBits[..])
    modifies edgeQ, prevQ, visitBits
    ensures len <= newLen <= edgeQ.Length
    ensures EdgeQueue(g, accept, initial, edgeQ[..newLen], prevQ[..newLen], pos + 1)
    ensures EdgeBits(g, edgeQ[..newLen], visitBits[..])
  {
    assert edgeQ[pos] == edgeQ[..len][1..][pos - 1];
    var nodeIndex := g.edgeToNodes[edgeQ[pos]];
    var firstEdgeIndex := g.firstEdgeIndexes[nodeIndex];
    var edgesEnd := g.firstEdgeIndexes[nodeIndex + 1];
    newLen := len;
    var child := firstEdgeIndex;
    while child < edgesEnd
      invariant firstEdgeIndex <= child <= edgesEnd
      invariant pos < len <= newLen <= edgeQ.Length
      invariant edgeQ[pos] == old(edgeQ[pos])
      invariant EdgeQueue(g, accept, initial, edgeQ[..newLen], prevQ[..newLen], pos)
      invariant EdgeBits(g, edgeQ[..newLen], visitBits[..])
      invariant ChildEdgesQueued(g, accept, nodeIndex, firstEdgeIndex, child, edgeQ[..newLen])
      decreases edgesEnd as int - child
    {
      newLen := VisitChildEdge(g, accept, initial, pos, nodeIndex, firstEdgeIndex, child,
                               edgeQ, prevQ, visitBits, newLen);
      child := child + 1;
    }
    assert edgeQ[..newLen][pos] == edgeQ[pos];
    CloseEdge(g, accept, initial, edgeQ[..newLen], prevQ[..newLen], pos);
  }

  /**
   * `bfsEdgeVisitor`: the queue of (link, edge) entries after the search.
   * The visitor sees `edges[1..]` in order; `GetPath` on an entry gives the
   * path its callback returns, since entries are never overwritten and
   * links point only backwards.
   */
  method BfsEdgeVisitor(g: HeapGraph, initial: seq<nat>, accept: (nat, nat) -> bool)
    returns (edges: seq<nat>, prevs: seq<nat>)
    requires Shape(g) && Distinct(initial) && AllBelow(initial, EdgeCount(g))
    ensures EdgeQueue(g, accept, initial, edges, prevs, |edges|)
  {
    var m := EdgeCount(g);
    var visitBits := new bool[m](_ => false);
    var edgeQ := new nat[m + 1](_ => 0);
    var prevQ := new nat[m + 1](_ => 0);
    DistinctBound(initial, m);
    var len := 1;
    while len <= |initial|
      invariant 1 <= len <= |initial| + 1
      invariant edgeQ[1..len] == initial[..len - 1]
      invariant forall i :: 1 <= i < len ==> prevQ[i] == 0
      invariant forall e :: 0 <= e < m ==> (visitBits[e] <==> e in initial[..len - 1])
    {
      prevQ[len] := 0;
      edgeQ[len] := initial[len - 1];
      visitBits[initial[len - 1]] := true;
      assert initial[..len] == initial[..len - 1] + [initial[len - 1]];
      len := len + 1;
    }
    assert initial[..len - 1] == initial;
    assert edgeQ[..len][1..] == initial;
    var index := 1;
    while index < len
      invariant 1 <= index <= len <= m + 1
      invariant EdgeQueue(g, accept, initial, edgeQ[..len], prevQ[..len], index)
      invariant EdgeBits(g, edgeQ[..len], visitBits[..])
      decreases m + 1 - index
    {
      len := VisitChildEdges(g, accept, initial, index, edgeQ, prevQ, visitBits, len);
      index := index + 1;
    }
    edges, prevs := edgeQ[..len], prevQ[..len];
  }

  /** Consecutive edges of `path` are accepted child edges of the previous edge's target. */
  ghost predicate EdgeChain(g: HeapGraph, accept: (nat, nat) -> bool, path: seq<nat>) {
    forall k :: 0 <= k < |path| - 1 ==> EdgeStep(g, accept, path[k], path[k + 1])
  }

  function Reverse(s: seq<nat>): (r: seq<nat>)
    ensures |r| == |s| && forall i :: 0 <= i < |s| ==> r[i] == s[|s| - 1 - i]
  {
    if s == [] then [] else Reverse(s[1..]) + [s[0]]
  }

  /**
   * `getPath`: follows the links from entry `entry` back to the root
   * placeholder, then reverses. The result starts at an initial edge, ends
   * at the entry's edge, and each edge is an accepted child of the last.
   */
  method GetPath(g: HeapGraph, accept: (nat, nat) -> bool, initial: seq<nat>,
                 edges: seq<nat>, prevs: seq<nat>, entry: nat) returns (path: seq<nat>)
    requires EdgeQueue(g, accept, initial, edges, prevs, 1)
    requires 1 <= entry < |edges|
    ensures |path| > 0 && path[0] in initial && path[|path| - 1] == edges[entry]
    ensures EdgeChain(g, accept, path)
  {
    var pIndex: nat := entry;
    var rev: seq<nat> := [];
    assert |prevs| == |edges|;
    while pIndex != 0
      invariant pIndex < |edges| && |edges| == |prevs|
      invariant rev == [] ==> pIndex == entry
      invariant rev != [] ==> rev[0] == edges[entry] && EdgeChain(g, accept, Reverse(rev))
      invariant rev != [] && pIndex != 0 ==> EdgeStep(g, accept, edges[pIndex], rev[|rev| - 1])
      invariant rev != [] && pIndex == 0 ==> rev[|rev| - 1] in initial
      decreases pIndex
    {
      var prev := prevs[pIndex];
      QueueLink(g, accept, initial, edges, prevs, pIndex);
      ReverseSnoc(rev, edges[pIndex]);
      ChainPrepend(g, accept, edges[pIndex], Reverse(rev));
      rev := rev + [edges[pIndex]];
      pIndex := prev;
    }
    path := Reverse(rev);
  }

  /** Entry `p` of the queue links back to an earlier entry it extends, or to the placeholder when it is initial. */
  lemma QueueLink(g: HeapGraph, accept: (nat, nat) -> bool, initial: seq<nat>, edges: seq<nat>, prevs: seq<nat>, p: nat)
    requires EdgeQueue(g, accept, initial, edges, prevs, 1)
    requires 1 <= p < |edges|
    ensures prevs[p] < p
    ensures prevs[p] == 0 ==> edges[p] in initial
    ensures prevs[p] != 0 ==> EdgeStep(g, accept, edges[prevs[p]], edges[p])
  {
    if p <= |initial| {
      assert edges[p] == edges[1..|initial| + 1][p - 1];
    }
  }

  lemma ReverseSnoc(s: seq<nat>, x: nat)
    ensures Reverse(s + [x]) == [x] + Reverse(s)
  {
    assert |Reverse(s + [x])| == |[x] + Reverse(s)|;
  }

  lemma ChainPrepend(g: HeapGraph, accept: (nat, nat) -> bool, x: nat, rest: seq<nat>)
    requires EdgeChain(g, accept, rest) && (rest != [] ==> EdgeStep(g, accept, x, rest[0]))
    ensures EdgeChain(g, accept, [x] + rest)
  {
    var path := [x] + rest;
    forall k | 0 <= k < |path| - 1
      ensures EdgeStep(g, accept, path[k], path[k + 1])
    {
      if k > 0 {
        assert path[k] == rest[k - 1] && path[k + 1] == rest[k];
      }
    }
  }

  // ---------------------------------------------------------------------
  // User roots and the visit entry points
  // ---------------------------------------------------------------------

  /** A child of the GC root leads to a user root unless it is a synthetic node other than the DOM trees. */
  predicate IsUserRootEdge(g: HeapGraph, strs: seq<string>, e: nat) {
    NodeType(g, To(g, e)) != NodeSynthetic || NodeName(g, strs, To(g, e)) == "(Document DOM trees)"
  }

  /** The user-root edges among `lo .. hi-1`, in ascending order. */
  function UserEdgesFrom(g: HeapGraph, strs: seq<string>, lo: nat, hi: nat): seq<nat>
    decreases hi
  {
    if hi <= lo then []
    else UserEdgesFrom(g, strs, lo, hi - 1) + (if IsUserRootEdge(g, strs, hi - 1) then [hi - 1] else [])
  }

  /** The user-root edges: the root's children that pass `IsUserRootEdge`. */
  function UserEdges(g: HeapGraph, strs: seq<string>): seq<nat> {
    UserEdgesFrom(g, strs, FirstEdge(g, g.rootNodeIndex), FirstEdge(g, g.rootNodeIndex + 1))
  }

  function Targets(g: HeapGraph, es: seq<nat>): (r: seq<nat>)
    ensures |r| == |es| && forall i :: 0 <= i < |es| ==> r[i] == To(g, es[i])
  {
    seq(|es|, i requires 0 <= i < |es| => To(g, es[i]))
  }

  /** `getUserRootIndices`: the targets of the user-root edges. */
  function UserRoots(g: HeapGraph, strs: seq<string>): seq<nat> {
    Targets(g, UserEdges(g, strs))
  }

  /** The user-root edges from `lo` to `hi` are exactly the passing edges there, each once. */
  lemma {:induction false} UserEdgesFromSpec(g: HeapGraph, strs: seq<string>, lo: nat, hi: nat)
    ensures forall e :: e in UserEdgesFrom(g, strs, lo, hi) <==> lo <= e < hi && IsUserRootEdge(g, strs, e)
    ensures Distinct(UserEdgesFrom(g, strs, lo, hi))
    decreases hi
  {
    if hi > lo {
      UserEdgesFromSpec(g, strs, lo, hi - 1);
    }
  }

  /** The user-root edges are distinct edges of the graph: a valid initial set for `BfsEdgeVisitor`. */
  lemma UserEdgesSpec(g: HeapGraph, strs: seq<string>)
    requires Shape(g)
    ensures forall e :: e in UserEdges(g, strs) <==> ChildOf(g, g.rootNodeIndex, e) && IsUserRootEdge(g, strs, e)
    ensures Distinct(UserEdges(g, strs)) && AllBelow(UserEdges(g, strs), EdgeCount(g))
  {
    var es := UserEdges(g, strs);
    UserEdgesFromSpec(g, strs, FirstEdge(g, g.rootNodeIndex), FirstEdge(g, g.rootNodeIndex + 1));
    assert g.firstEdgeIndexes[g.rootNodeIndex + 1] <= g.firstEdgeIndexes[NodeCount(g)];
    assert forall i :: 0 <= i < |es| ==> es[i] in es;
  }

  /** The user roots are nodes of the graph, and each is the target of a user-root edge. */
  lemma UserRootsSpec(g: HeapGraph, strs: seq<string>)
    requires Shape(g)
    ensures AllBelow(UserRoots(g, strs), NodeCount(g))
    ensures forall v :: v in UserRoots(g, strs) <==>
      exists e :: ChildOf(g, g.rootNodeIndex, e) && IsUserRootEdge(g, strs, e) && To(g, e) == v
  {
    UserEdgesSpec(g, strs);
    var es := UserEdges(g, strs);
    forall v | v in UserRoots(g, strs)
      ensures exists e :: ChildOf(g, g.rootNodeIndex, e) && IsUserRootEdge(g, strs, e) && To(g, e) == v
    {
      var i :| 0 <= i < |es| && To(g, es[i]) == v;
      assert es[i] in es;
    }
    forall v, e | ChildOf(g, g.rootNodeIndex, e) && IsUserRootEdge(g, strs, e) && To(g, e) == v
      ensures v in UserRoots(g, strs)
    {
      var i :| 0 <= i < |es| && es[i] == e;
      assert UserRoots(g, strs)[i] == v;
    }
  }

  /** `getUserRootIndices`: the loop over the root's children. */
  method UserRootIndices(g: HeapGraph, strs: seq<string>) returns (rv: seq<nat>)
    requires Shape(g)
    ensures rv == UserRoots(g, strs)
  {
    var lo := g.firstEdgeIndexes[g.rootNodeIndex];
    var hi := g.firstEdgeIndexes[g.rootNodeIndex + 1];
    rv := [];
    var it := lo;
    assert hi <= g.firstEdgeIndexes[|g.nodeTypes|];
    while it < hi
      invariant lo <= it <= hi <= |g.edgeTypes|
      invariant rv == Targets(g, UserEdgesFrom(g, strs, lo, it))
      decreases hi - it
    {
      var subroot := g.edgeToNodes[it];
      UserEdgesFromStep(g, strs, lo, it);
      if g.nodeTypes[subroot] != NodeSynthetic || NameOf(strs, g.nodeNames[subroot]) == "(Document DOM trees)" {
        rv := rv + [subroot];
      }
      it := it + 1;
    }
  }

  /** The initial edge list of `visitUserEdges`, built by the same loop. */
  method UserRootEdges(g: HeapGraph, strs: seq<string>) returns (initial: seq<nat>)
    requires Shape(g)
    ensures initial == UserEdges(g, strs)
  {
    var lo := g.firstEdgeIndexes[g.rootNodeIndex];
    var hi := g.firstEdgeIndexes[g.rootNodeIndex + 1];
    initial := [];
    var it := lo;
    assert hi <= g.firstEdgeIndexes[|g.nodeTypes|];
    while it < hi
      invariant lo <= it <= hi <= |g.edgeTypes|
      invariant initial == UserEdgesFrom(g, strs, lo, it)
      decreases hi - it
    {
      var subroot := g.edgeToNodes[it];
      UserEdgesFromStep(g, strs, lo, it);
      if g.nodeTypes[subroot] != NodeSynthetic || NameOf(strs, g.nodeNames[subroot]) == "(Document DOM trees)" {
        initial := initial + [it];
      }
      it := it + 1;
    }
  }

  /** One more edge of the scan: it is kept exactly when its target passes the user-root test. */
  lemma UserEdgesFromStep(g: HeapGraph, strs: seq<string>, lo: nat, it: nat)
    requires Shape(g) && lo <= it < |g.edgeTypes|
    ensures UserEdgesFrom(g, strs, lo, it + 1) == UserEdgesFrom(g, strs, lo, it)
      + (if g.nodeTypes[g.edgeToNodes[it]] != NodeSynthetic || NameOf(strs, g.nodeNames[g.edgeToNodes[it]]) == "(Document DOM trees)"
         then [it] else [])
  {
  }

  /** The default filter of the visitors: every edge but weak ones. */
  function NonWeakFilter(g: HeapGraph): (nat, nat) -> bool {
    (n: nat, e: nat) => NonWeak(g, n, e)
  }

  /** `visitRoot`: the nodes reachable from the GC root through non-weak edges. */
  method VisitRoot(g: HeapGraph) returns (visited: seq<nat>)
    requires Shape(g)
    ensures Distinct(visited) && |visited| > 0 && visited[0] == g.rootNodeIndex
    ensures forall v :: v in visited <==> Reachable(g, NonWeakFilter(g), [g.rootNodeIndex], v)
  {
    visited := BfsVisitor(g, [g.rootNodeIndex], NonWeakFilter(g));
  }

  /** `visitUserRoots`, for a root whose user-root children are distinct nodes. */
  method VisitUserRoots(g: HeapGraph, strs: seq<string>) returns (visited: seq<nat>)
    requires Shape(g) && Distinct(UserRoots(g, strs))
    ensures Distinct(visited)
    ensures forall v :: v in visited <==> Reachable(g, NonWeakFilter(g), UserRoots(g, strs), v)
  {
    var initial := UserRootIndices(g, strs);
    UserRootsSpec(g, strs);
    visited := BfsVisitor(g, initial, NonWeakFilter(g));
  }

  /** `visitUserEdges`: the edge search from the user-root edges through non-weak edges. */
  method VisitUserEdges(g: HeapGraph, strs: seq<string>) returns (edges: seq<nat>, prevs: seq<nat>)
    requires Shape(g)
    ensures EdgeQueue(g, NonWeakFilter(g), UserEdges(g, strs), edges, prevs, |edges|)
  {
    var initial := UserRootEdges(g, strs);
    UserEdgesSpec(g, strs);
    edges, prevs := BfsEdgeVisitor(g, initial, NonWeakFilter(g));
  }

  // ---------------------------------------------------------------------
  // Size summary
  // ---------------------------------------------------------------------

  /** `SnapshotSizeSummary`. */
  datatype SizeSummary = SizeSummary(
    numNodes: nat, numEdges: nat, totalSize: nat,
    hiddenSize: nat, arraySize: nat, stringSize: nat, objectSize: nat, codeSize: nat,
    closureSize: nat, regexpSize: nat, heapNumberSize: nat, nativeSize: nat,
    syntheticSize: nat, consStringSize: nat, slicedStringSize: nat, symbolSize: nat,
    unknownSize: nat)

  /** The per-type size fields are numbered by node type 0 .. 12; 13 is `unknownSize`. */
  const SizeCategories: nat := 14

  /** The size field a node type is counted in. */
  function Category(nodeType: nat): nat {
    if nodeType <= NodeSymbol then nodeType else 13
  }

  function SizeIn(r: SizeSummary, c: nat): nat {
    match c
    case 0 => r.hiddenSize
    case 1 => r.arraySize
    case 2 => r.stringSize
    case 3 => r.objectSize
    case 4 => r.codeSize
    case 5 => r.closureSize
    case 6 => r.regexpSize
    case 7 => r.heapNumberSize
    case 8 => r.nativeSize
    case 9 => r.syntheticSize
    case 10 => r.consStringSize
    case 11 => r.slicedStringSize
    case 12 => r.symbolSize
    case _ => r.unknownSize
  }

  /** The sum of all per-type size fields. */
  function TypedSize(r: SizeSummary): nat {
    r.hiddenSize + r.arraySize + r.stringSize + r.objectSize + r.codeSize + r.closureSize
    + r.regexpSize + r.heapNumberSize + r.nativeSize + r.syntheticSize + r.consStringSize
    + r.slicedStringSize + r.symbolSize + r.unknownSize
  }

  /** The visitor of `calculateSize`: a node's self size goes to exactly one per-type field. */
  function AddNodeSize(r: SizeSummary, nodeType: nat, size: nat): (r': SizeSummary)
    ensures r'.numNodes == r.numNodes && r'.numEdges == r.numEdges && r'.totalSize == r.totalSize
    ensures TypedSize(r') == TypedSize(r) + size
  {
    if nodeType == NodeArray then r.(arraySize := r.arraySize + size)
    else if nodeType == NodeClosure then r.(closureSize := r.closureSize + size)
    else if nodeType == NodeCode then r.(codeSize := r.codeSize + size)
    else if nodeType == NodeConsString then r.(consStringSize := r.consStringSize + size)
    else if nodeType == NodeHeapNumber then r.(heapNumberSize := r.heapNumberSize + size)
    else if nodeType == NodeHidden then r.(hiddenSize := r.hiddenSize + size)
    else if nodeType == NodeNative then r.(nativeSize := r.nativeSize + size)
    else if nodeType == NodeObject then r.(objectSize := r.objectSize + size)
    else if nodeType == NodeRegExp then r.(regexpSize := r.regexpSize + size)
    else if nodeType == NodeSlicedString then r.(slicedStringSize := r.slicedStringSize + size)
    else if nodeType == NodeString then r.(stringSize := r.stringSize + size)
    else if nodeType == NodeSymbol then r.(symbolSize := r.symbolSize + size)
    else if nodeType == NodeSynthetic then r.(syntheticSize := r.syntheticSize + size)
    else r.(unknownSize := r.unknownSize + size)
  }

  /** Field `c` grows by the node's size exactly when it is the field of the node's type. */
  lemma AddNodeSizeIn(r: SizeSummary, nodeType: nat, size: nat, c: nat)
    requires c < SizeCategories
    ensures SizeIn(AddNodeSize(r, nodeType, size), c) == SizeIn(r, c) + (if c == Category(nodeType) then size else 0)
  {
  }

  /** The summary after the visitor has seen `nodes`, in order. */
  function Summarize(g: HeapGraph, nodes: seq<nat>): SizeSummary {
    if nodes == [] then SizeSummary(NodeCount(g), EdgeCount(g), 0, 0, 0, 0, 0, 0, 0, 0, 0, 0, 0, 0, 0, 0, 0)
    else
      var v := nodes[|nodes| - 1];
      AddNodeSize(Summarize(g, nodes[..|nodes| - 1]), NodeType(g, v), NodeSize(g, v))
  }

  /** The self sizes of `nodes`, added up. */
  function SumSizes(g: HeapGraph, nodes: seq<nat>): nat {
    if nodes == [] then 0 else SumSizes(g, nodes[..|nodes| - 1]) + NodeSize(g, nodes[|nodes| - 1])
  }

  /**
   * The per-type fields of a summary add up to the self sizes of the
   * visited nodes; `totalSize` stays 0 and the counts are the graph's.
   */
  lemma {:induction false} SummarizeTotals(g: HeapGraph, nodes: seq<nat>)
    ensures TypedSize(Summarize(g, nodes)) == SumSizes(g, nodes)
    ensures Summarize(g, nodes).totalSize == 0
    ensures Summarize(g, nodes).numNodes == NodeCount(g) && Summarize(g, nodes).numEdges == EdgeCount(g)
  {
    if nodes != [] {
      SummarizeTotals(g, nodes[..|nodes| - 1]);
    }
  }

  /** `calculateSize`: the self sizes of the nodes reachable from the user roots, by node type. */
  method CalculateSize(g: HeapGraph, strs: seq<string>) returns (r: SizeSummary, visited: seq<nat>)
    requires Shape(g) && Distinct(UserRoots(g, strs))
    ensures Distinct(visited)
    ensures forall v :: v in visited <==> Reachable(g, NonWeakFilter(g), UserRoots(g, strs), v)
    ensures r == Summarize(g, visited)
    ensures TypedSize(r) == SumSizes(g, visited) && r.totalSize == 0
    ensures r.numNodes == NodeCount(g) && r.numEdges == EdgeCount(g)
  {
    visited := VisitUserRoots(g, strs);
    r := SizeSummary(NodeCount(g), EdgeCount(g), 0, 0, 0, 0, 0, 0, 0, 0, 0, 0, 0, 0, 0, 0, 0);
    var i := 0;
    while i < |visited|
      invariant i <= |visited|
      invariant r == Summarize(g, visited[..i])
    {
      var n := visited[i];
      assert visited[..i + 1][..i] == visited[..i];
      r := AddNodeSize(r, NodeType(g, n), NodeSize(g, n));
      i := i + 1;
    }
    assert visited[..i] == visited;
    SummarizeTotals(g, visited);
  }
}
