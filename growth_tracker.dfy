/**
 * Growth tracking between successive heap snapshots: `mergeGraphs` walks
 * the old and the new graph together from their roots, matching children
 * by their hash, and marks a new node GROWING when its matched old node was
 * NEW or GROWING and had strictly fewer properties; `HeapGrowthTracker`
 * keeps the latest graph and its growth statuses.
 */
module GrowthTracker {
  import opened Wrappers
  import opened JsStrings
  import opened GrowthGraph
  import opened GrowthTraversal
  import opened SerializedPaths
  import Sequences

  /** A node's growth status (a two-bit entry of the status array). */
  datatype GrowthStatus = New | NotGrowing | Growing

  // ---------------------------------------------------------------------
  // The old node's children, keyed by hash
  // ---------------------------------------------------------------------

  /** The map `oldEdges` after setting the children `lo .. hi-1` of `u`: a later edge overwrites an earlier one. */
  function KeyMap(g: HeapGraph, strs: seq<string>, u: nat, lo: nat, hi: nat): map<EdgeKey, nat>
    decreases hi
  {
    if hi <= lo then map[] else KeyMap(g, strs, u, lo, hi - 1)[Hash(g, strs, u, hi - 1) := hi - 1]
  }

  /** `e` is the last edge in `lo .. hi-1` whose hash under `u` is `k`. */
  predicate LastWithKey(g: HeapGraph, strs: seq<string>, u: nat, lo: nat, hi: nat, k: EdgeKey, e: nat) {
    lo <= e < hi && Hash(g, strs, u, e) == k
    && forall e' :: e < e' < hi ==> Hash(g, strs, u, e') != k
  }

  /** Every child's hash is a key, and each key maps to the last child with that hash. */
  lemma {:induction false} KeyMapSpec(g: HeapGraph, strs: seq<string>, u: nat, lo: nat, hi: nat)
    ensures forall e :: lo <= e < hi ==> Hash(g, strs, u, e) in KeyMap(g, strs, u, lo, hi)
    ensures forall k :: k in KeyMap(g, strs, u, lo, hi) ==> LastWithKey(g, strs, u, lo, hi, k, KeyMap(g, strs, u, lo, hi)[k])
  {
    KeyMapKeys(g, strs, u, lo, hi);
    KeyMapLast(g, strs, u, lo, hi);
  }

  lemma {:induction false} KeyMapKeys(g: HeapGraph, strs: seq<string>, u: nat, lo: nat, hi: nat)
    ensures forall e :: lo <= e < hi ==> Hash(g, strs, u, e) in KeyMap(g, strs, u, lo, hi)
    decreases hi
  {
    if hi > lo {
      KeyMapKeys(g, strs, u, lo, hi - 1);
    }
  }

  lemma {:induction false} KeyMapLast(g: HeapGraph, strs: seq<string>, u: nat, lo: nat, hi: nat)
    ensures forall k :: k in KeyMap(g, strs, u, lo, hi) ==> LastWithKey(g, strs, u, lo, hi, k, KeyMap(g, strs, u, lo, hi)[k])
    decreases hi
  {
    if hi > lo {
      KeyMapLast(g, strs, u, lo, hi - 1);
      var prev := KeyMap(g, strs, u, lo, hi - 1);
      var h := Hash(g, strs, u, hi - 1);
      assert KeyMap(g, strs, u, lo, hi) == prev[h := hi - 1];
      forall k | k in prev && k != h
        ensures LastWithKey(g, strs, u, lo, hi, k, prev[k])
      {
        assert LastWithKey(g, strs, u, lo, hi - 1, k, prev[k]);
      }
    }
  }

  /** The `oldEdges` map of old node `u`. */
  function OldEdgeMap(g: HeapGraph, strs: seq<string>, u: nat): map<EdgeKey, nat> {
    KeyMap(g, strs, u, FirstEdge(g, u), FirstEdge(g, u + 1))
  }

  /** The first loop of a `mergeGraphs` step: every child edge of the old node, set under its hash. */
  method OldEdges(g: HeapGraph, strs: seq<string>, u: nat) returns (oldEdges: map<EdgeKey, nat>)
    requires Shape(g) && u < NodeCount(g)
    ensures oldEdges == OldEdgeMap(g, strs, u)
  {
    var lo := g.firstEdgeIndexes[u];
    var hi := g.firstEdgeIndexes[u + 1];
    oldEdges := map[];
    var it := lo;
    while it < hi
      invariant lo <= it <= hi
      invariant oldEdges == KeyMap(g, strs, u, lo, it)
      decreases hi - it
    {
      oldEdges := oldEdges[Hash(g, strs, u, it) := it];
      it := it + 1;
    }
  }

  // ---------------------------------------------------------------------
  // Matching children and the merge queue
  // ---------------------------------------------------------------------

  /**
   * The old edge that child edge `ne` of new node `nu` is matched with under
   * old node `ou`: the one `oldEdges` holds for its hash, when both edges
   * pass `shouldTraverse`.
   */
  function MatchOf(oldG: HeapGraph, newG: HeapGraph, strs: seq<string>, ou: nat, nu: nat, ne: nat): Option<nat> {
    var m := OldEdgeMap(oldG, strs, ou);
    var key := Hash(newG, strs, nu, ne);
    if key in m && ShouldTraverse(oldG, strs, m[key]) && ShouldTraverse(newG, strs, ne) then Some(m[key]) else None
  }

  /** `MatchOf` as a function value, the `matcher` of the queue predicates below. */
  function Matcher(oldG: HeapGraph, newG: HeapGraph, strs: seq<string>): (nat, nat, nat) -> Option<nat> {
    (ou: nat, nu: nat, ne: nat) => MatchOf(oldG, newG, strs, ou, nu, ne)
  }

  /** The pair (`ov`, `nv`) is the targets of a matched child edge of the pair (`ou`, `nu`). */
  ghost predicate PairStep(oldG: HeapGraph, newG: HeapGraph, matcher: (nat, nat, nat) -> Option<nat>,
                           ou: nat, nu: nat, ov: nat, nv: nat)
  {
    exists ne :: ChildOf(newG, nu, ne) && matcher(ou, nu, ne).Some?
      && nv == To(newG, ne) && ov == To(oldG, matcher(ou, nu, ne).value)
  }

  /**
   * The queue of (old, new) pairs of `mergeGraphs`: it starts at the two
   * roots, every later pair is a matched child of an earlier one, no new
   * node is queued twice, and the matched children of the first `done`
   * pairs have their new targets queued.
   */
  ghost predicate MergeQueue(oldG: HeapGraph, newG: HeapGraph, matcher: (nat, nat, nat) -> Option<nat>,
                             olds: seq<nat>, news: seq<nat>, done: nat)
  {
    |olds| == |news| && 1 <= |news| && done <= |news|
    && olds[0] == oldG.rootNodeIndex && news[0] == newG.rootNodeIndex
    && AllBelow(olds, NodeCount(oldG)) && AllBelow(news, NodeCount(newG)) && Distinct(news)
    && (forall k :: 1 <= k < |news| ==> PairReached(oldG, newG, matcher, olds, news, k))
    && (forall k :: 0 <= k < done ==> PairClosed(newG, matcher, olds, news, k))
  }

  /** The pair at `k` is a matched child of an earlier pair. */
  ghost predicate PairReached(oldG: HeapGraph, newG: HeapGraph, matcher: (nat, nat, nat) -> Option<nat>,
                              olds: seq<nat>, news: seq<nat>, k: nat)
  {
    k < |olds| && k < |news|
    && exists p :: 0 <= p < k && PairStep(oldG, newG, matcher, olds[p], news[p], olds[k], news[k])
  }

  /** The new targets of all matched children of the pair at `k` are queued. */
  ghost predicate PairClosed(newG: HeapGraph, matcher: (nat, nat, nat) -> Option<nat>,
                             olds: seq<nat>, news: seq<nat>, k: nat)
  {
    k < |olds| && k < |news|
    && forall ne :: ChildOf(newG, news[k], ne) && matcher(olds[k], news[k], ne).Some? ==> To(newG, ne) in news
  }

  /**
   * A walk of pairs from the two roots in which every pair is the targets of
   * a matched child edge of the pair before it.
   */
  ghost predicate MatchedWalk(oldG: HeapGraph, newG: HeapGraph, matcher: (nat, nat, nat) -> Option<nat>,
                              wo: seq<nat>, wn: seq<nat>)
  {
    |wo| == |wn| && 0 < |wn| && wo[0] == oldG.rootNodeIndex && wn[0] == newG.rootNodeIndex
    && forall k :: 0 <= k < |wn| - 1 ==> PairStep(oldG, newG, matcher, wo[k], wn[k], wo[k + 1], wn[k + 1])
  }

  /** Every queued pair ends a matched walk from the roots. */
  lemma {:induction false} QueuedPairWalk(oldG: HeapGraph, newG: HeapGraph, matcher: (nat, nat, nat) -> Option<nat>,
                                          olds: seq<nat>, news: seq<nat>, done: nat, k: nat)
    requires MergeQueue(oldG, newG, matcher, olds, news, done) && k < |news|
    ensures exists wo, wn :: MatchedWalk(oldG, newG, matcher, wo, wn)
                             && wo[|wo| - 1] == olds[k] && wn[|wn| - 1] == news[k]
    decreases k
  {
    if k == 0 {
      assert MatchedWalk(oldG, newG, matcher, [olds[0]], [news[0]]);
    } else {
      assert PairReached(oldG, newG, matcher, olds, news, k);
      var p :| 0 <= p < k && PairStep(oldG, newG, matcher, olds[p], news[p], olds[k], news[k]);
      QueuedPairWalk(oldG, newG, matcher, olds, news, done, p);
      var wo, wn :| MatchedWalk(oldG, newG, matcher, wo, wn) && wo[|wo| - 1] == olds[p] && wn[|wn| - 1] == news[p];
      var wo2, wn2 := wo + [olds[k]], wn + [news[k]];
      forall j | 0 <= j < |wn2| - 1
        ensures PairStep(oldG, newG, matcher, wo2[j], wn2[j], wo2[j + 1], wn2[j + 1])
      {
        if j < |wn| - 1 {
          assert wo2[j] == wo[j] && wo2[j + 1] == wo[j + 1] && wn2[j] == wn[j] && wn2[j + 1] == wn[j + 1];
        }
      }
      assert MatchedWalk(oldG, newG, matcher, wo2, wn2);
    }
  }

  /** The visit bits mark exactly the queued new nodes. */
  ghost predicate MergeBits(newG: HeapGraph, news: seq<nat>, bits: seq<bool>) {
    |bits| == NodeCount(newG) && forall v :: 0 <= v < |bits| ==> (bits[v] <==> v in news)
  }

  /** Every matched child edge of new node `nu` in `lo .. hi-1` has its target queued. */
  ghost predicate MatchesQueued(newG: HeapGraph, matcher: (nat, nat, nat) -> Option<nat>, ou: nat, nu: nat,
                                lo: nat, hi: nat, news: seq<nat>)
  {
    forall ne :: lo <= ne < hi && matcher(ou, nu, ne).Some? ==> To(newG, ne) in news
  }

  /** Enqueueing the targets of a matched child edge of the pair at `p` keeps the queue invariant. */
  lemma EnqueuePair(oldG: HeapGraph, newG: HeapGraph, matcher: (nat, nat, nat) -> Option<nat>,
                    olds: seq<nat>, news: seq<nat>, bits: seq<bool>, done: nat, p: nat, ne: nat)
    requires Shape(oldG) && Shape(newG)
    requires MergeQueue(oldG, newG, matcher, olds, news, done) && MergeBits(newG, news, bits)
    requires p < |news| && ChildOf(newG, news[p], ne) && matcher(olds[p], news[p], ne).Some?
    requires ne < EdgeCount(newG) && matcher(olds[p], news[p], ne).value < EdgeCount(oldG)
    requires !bits[To(newG, ne)]
    ensures MergeQueue(oldG, newG, matcher, olds + [To(oldG, matcher(olds[p], news[p], ne).value)],
                       news + [To(newG, ne)], done)
    ensures MergeBits(newG, news + [To(newG, ne)], bits[To(newG, ne) := true])
    ensures |news| < NodeCount(newG)
  {
    var ov := To(oldG, matcher(olds[p], news[p], ne).value);
    var nv := To(newG, ne);
    var os, ns := olds + [ov], news + [nv];
    assert os[p] == olds[p] && ns[p] == news[p];
    assert PairStep(oldG, newG, matcher, os[p], ns[p], os[|news|], ns[|news|]);
    assert PairReached(oldG, newG, matcher, os, ns, |news|);
    ReachedExtend(oldG, newG, matcher, olds, news, ov, nv);
    ClosedExtend(newG, matcher, olds, news, ov, nv, done);
    DistinctBound(ns, NodeCount(newG));
  }

  lemma ReachedExtend(oldG: HeapGraph, newG: HeapGraph, matcher: (nat, nat, nat) -> Option<nat>,
                      olds: seq<nat>, news: seq<nat>, ov: nat, nv: nat)
    requires |olds| == |news|
    requires forall k :: 1 <= k < |news| ==> PairReached(oldG, newG, matcher, olds, news, k)
    ensures forall k :: 1 <= k < |news| ==> PairReached(oldG, newG, matcher, olds + [ov], news + [nv], k)
  {
    var os, ns := olds + [ov], news + [nv];
    forall k | 1 <= k < |news|
      ensures PairReached(oldG, newG, matcher, os, ns, k)
    {
      assert PairReached(oldG, newG, matcher, olds, news, k);
      var p' :| 0 <= p' < k && PairStep(oldG, newG, matcher, olds[p'], news[p'], olds[k], news[k]);
      assert os[p'] == olds[p'] && ns[p'] == news[p'] && os[k] == olds[k] && ns[k] == news[k];
    }
  }

  lemma ClosedExtend(newG: HeapGraph, matcher: (nat, nat, nat) -> Option<nat>,
                     olds: seq<nat>, news: seq<nat>, ov: nat, nv: nat, done: nat)
    requires |olds| == |news| && done <= |news|
    requires forall k :: 0 <= k < done ==> PairClosed(newG, matcher, olds, news, k)
    ensures forall k :: 0 <= k < done ==> PairClosed(newG, matcher, olds + [ov], news + [nv], k)
  {
    var os, ns := olds + [ov], news + [nv];
    forall k | 0 <= k < done
      ensures PairClosed(newG, matcher, os, ns, k)
    {
      assert PairClosed(newG, matcher, olds, news, k);
      assert os[k] == olds[k] && ns[k] == news[k];
      forall c | ChildOf(newG, ns[k], c) && matcher(os[k], ns[k], c).Some?
        ensures To(newG, c) in ns
      {
        assert To(newG, c) in news;
      }
    }
  }

  lemma MatchesQueuedStep(newG: HeapGraph, matcher: (nat, nat, nat) -> Option<nat>, ou: nat, nu: nat,
                          lo: nat, hi: nat, news: seq<nat>, news': seq<nat>)
    requires MatchesQueued(newG, matcher, ou, nu, lo, hi, news)
    requires news <= news'
    requires matcher(ou, nu, hi).Some? ==> To(newG, hi) in news'
    ensures MatchesQueued(newG, matcher, ou, nu, lo, hi + 1, news')
  {
    forall ne | lo <= ne < hi + 1 && matcher(ou, nu, ne).Some?
      ensures To(newG, ne) in news'
    {
      if ne < hi {
        var k :| 0 <= k < |news| && news[k] == To(newG, ne);
        assert news'[k] == news[k];
      }
    }
  }

  lemma ClosePair(oldG: HeapGraph, newG: HeapGraph, matcher: (nat, nat, nat) -> Option<nat>,
                  olds: seq<nat>, news: seq<nat>, done: nat)
    requires MergeQueue(oldG, newG, matcher, olds, news, done) && done < |news|
    requires MatchesQueued(newG, matcher, olds[done], news[done],
                           FirstEdge(newG, news[done]), FirstEdge(newG, news[done] + 1), news)
    ensures MergeQueue(oldG, newG, matcher, olds, news, done + 1)
  {
  }

  /** A matched old edge is a child of the old node, so a real edge of the old graph. */
  lemma MatchIsOldChild(oldG: HeapGraph, newG: HeapGraph, strs: seq<string>, ou: nat, nu: nat, ne: nat)
    requires Shape(oldG) && ou < NodeCount(oldG)
    requires MatchOf(oldG, newG, strs, ou, nu, ne).Some?
    ensures ChildOf(oldG, ou, MatchOf(oldG, newG, strs, ou, nu, ne).value)
    ensures MatchOf(oldG, newG, strs, ou, nu, ne).value < EdgeCount(oldG)
  {
    KeyMapSpec(oldG, strs, ou, FirstEdge(oldG, ou), FirstEdge(oldG, ou + 1));
    assert oldG.firstEdgeIndexes[ou + 1] <= oldG.firstEdgeIndexes[NodeCount(oldG)];
  }

  // ---------------------------------------------------------------------
  // Growth statuses
  // ---------------------------------------------------------------------

  /** The old status of `ou`; the arrays always cover the old graph. */
  function StatusAt(growth: seq<GrowthStatus>, ou: nat): GrowthStatus {
    if ou < |growth| then growth[ou] else New
  }

  /** The growth test of a `mergeGraphs` step for the pair (`ou`, `nu`). */
  predicate Grows(oldG: HeapGraph, newG: HeapGraph, strs: seq<string>, oldGrowth: seq<GrowthStatus>, ou: nat, nu: nat) {
    (StatusAt(oldGrowth, ou) == New || StatusAt(oldGrowth, ou) == Growing)
    && PropertyCount(oldG, strs, ou) < PropertyCount(newG, strs, nu)
  }

  /** The new statuses after the first `d` pairs were processed, starting from `init`. */
  function MergedGrowth(oldG: HeapGraph, newG: HeapGraph, strs: seq<string>, oldGrowth: seq<GrowthStatus>,
                        init: seq<GrowthStatus>, olds: seq<nat>, news: seq<nat>, d: nat): (r: seq<GrowthStatus>)
    requires d <= |olds| && d <= |news|
    ensures |r| == |init|
    decreases d
  {
    if d == 0 then init
    else
      var r := MergedGrowth(oldG, newG, strs, oldGrowth, init, olds, news, d - 1);
      if Grows(oldG, newG, strs, oldGrowth, olds[d - 1], news[d - 1]) && news[d - 1] < |r|
      then r[news[d - 1] := Growing] else r
  }

  /** A node is GROWING after the merge exactly when some pair marked it, or it already was. */
  lemma {:induction false} MergedGrowthSpec(oldG: HeapGraph, newG: HeapGraph, strs: seq<string>,
                                            oldGrowth: seq<GrowthStatus>, init: seq<GrowthStatus>,
                                            olds: seq<nat>, news: seq<nat>, d: nat)
    requires d <= |olds| && d <= |news|
    ensures forall v :: 0 <= v < |init| ==>
      MergedGrowth(oldG, newG, strs, oldGrowth, init, olds, news, d)[v] ==
        if exists k :: 0 <= k < d && news[k] == v && Grows(oldG, newG, strs, oldGrowth, olds[k], v) then Growing
        else init[v]
    decreases d
  {
    if d > 0 {
      MergedGrowthSpec(oldG, newG, strs, oldGrowth, init, olds, news, d - 1);
    }
  }

  /** Processing more of a longer queue does not change what its first `d` pairs did. */
  lemma {:induction false} MergedGrowthPrefix(oldG: HeapGraph, newG: HeapGraph, strs: seq<string>,
                                              oldGrowth: seq<GrowthStatus>, init: seq<GrowthStatus>,
                                              olds: seq<nat>, news: seq<nat>, olds': seq<nat>, news': seq<nat>, d: nat)
    requires d <= |olds| && d <= |news| && olds <= olds' && news <= news'
    ensures MergedGrowth(oldG, newG, strs, oldGrowth, init, olds', news', d)
         == MergedGrowth(oldG, newG, strs, oldGrowth, init, olds, news, d)
    decreases d
  {
    if d > 0 {
      MergedGrowthPrefix(oldG, newG, strs, oldGrowth, init, olds, news, olds', news', d - 1);
      assert olds'[d - 1] == olds[d - 1] && news'[d - 1] == news[d - 1];
    }
  }

  // ---------------------------------------------------------------------
  // mergeGraphs
  // ---------------------------------------------------------------------

  /**
   * One step of the second loop of a `mergeGraphs` step: child edge `ne` of
   * the new node is looked up in `oldEdges` by its hash; when found, its
   * target is unvisited and both edges pass `shouldTraverse`, the pair of
   * targets is enqueued.
   */
  method MergeChild(oldG: HeapGraph, newG: HeapGraph, strs: seq<string>, oldEdges: map<EdgeKey, nat>,
                    pos: nat, ou: nat, nu: nat, ghost lo: nat, ne: nat,
                    oldQ: array<nat>, newQ: array<nat>, visitBits: array<bool>, len: nat)
    returns (newLen: nat)
    requires Shape(oldG) && Shape(newG) && oldQ != newQ
    requires oldQ.Length == newQ.Length >= NodeCount(newG) && pos < len <= newQ.Length
    requires ou == oldQ[pos] && nu == newQ[pos] && ou < NodeCount(oldG)
    requires oldEdges == OldEdgeMap(oldG, strs, ou)
    requires ChildOf(newG, nu, ne) && ne < EdgeCount(newG)
    requires MergeQueue(oldG, newG, Matcher(oldG, newG, strs), oldQ[..len], newQ[..len], pos)
    requires MergeBits(newG, newQ[..len], visitBits[..])
    requires MatchesQueued(newG, Matcher(oldG, newG, strs), ou, nu, lo, ne, newQ[..len])
    modifies oldQ, newQ, visitBits
    ensures len <= newLen <= newQ.Length && oldQ[pos] == ou && newQ[pos] == nu
    ensures MergeQueue(oldG, newG, Matcher(oldG, newG, strs), oldQ[..newLen], newQ[..newLen], pos)
    ensures MergeBits(newG, newQ[..newLen], visitBits[..])
    ensures MatchesQueued(newG, Matcher(oldG, newG, strs), ou, nu, lo, ne + 1, newQ[..newLen])
    ensures oldQ[..len] == old(oldQ[..len]) && newQ[..len] == old(newQ[..len])
  {
    ghost var matcher := Matcher(oldG, newG, strs);
    ghost var os, ns, bits := oldQ[..len], newQ[..len], visitBits[..];
    ghost var os', ns', bits' := os, ns, bits;
    newLen := len;
    var key := Hash(newG, strs, nu, ne);
    var target := newG.edgeToNodes[ne];
    if key in oldEdges && !visitBits[target]
       && ShouldTraverse(oldG, strs, oldEdges[key]) && ShouldTraverse(newG, strs, ne)
    {
      assert matcher(ou, nu, ne) == Some(oldEdges[key]);
      MatchIsOldChild(oldG, newG, strs, ou, nu, ne);
      assert os[pos] == ou && ns[pos] == nu;
      var oldTarget := oldG.edgeToNodes[oldEdges[key]];
      EnqueuePair(oldG, newG, matcher, os, ns, bits, pos, pos, ne);
      PushPair(oldQ, newQ, visitBits, len, oldTarget, target);
      newLen := len + 1;
      os', ns', bits' := os + [oldTarget], ns + [target], bits[target := true];
    }
    assert oldQ[..newLen] == os' && newQ[..newLen] == ns' && visitBits[..] == bits';
    assert MergeQueue(oldG, newG, matcher, os', ns', pos) && MergeBits(newG, ns', bits');
    assert oldQ[pos] == os'[pos] && newQ[pos] == ns'[pos];
    MatchesQueuedStep(newG, matcher, ou, nu, lo, ne, ns, ns');
  }

  /** Enqueues a pair of targets and marks the new one visited. */
  method PushPair(oldQ: array<nat>, newQ: array<nat>, visitBits: array<bool>, len: nat, oldTarget: nat, target: nat)
    requires oldQ != newQ && len < oldQ.Length == newQ.Length && target < visitBits.Length
    modifies oldQ, newQ, visitBits
    ensures oldQ[..len + 1] == old(oldQ[..len]) + [oldTarget]
    ensures newQ[..len + 1] == old(newQ[..len]) + [target]
    ensures visitBits[..] == old(visitBits[..])[target := true]
    ensures oldQ[..len] == old(oldQ[..len]) && newQ[..len] == old(newQ[..len])
  {
    visitBits[target] := true;
    oldQ[len] := oldTarget;
    newQ[len] := target;
    assert oldQ[..len + 1] == old(oldQ[..len]) + [oldTarget];
    assert newQ[..len + 1] == old(newQ[..len]) + [target];
  }

  /** The second loop of a `mergeGraphs` step, over the new node's children. */
  method MergeChildren(oldG: HeapGraph, newG: HeapGraph, strs: seq<string>, oldEdges: map<EdgeKey, nat>,
                       pos: nat, oldQ: array<nat>, newQ: array<nat>, visitBits: array<bool>, len: nat)
    returns (newLen: nat)
    requires Shape(oldG) && Shape(newG) && oldQ != newQ
    requires oldQ.Length == newQ.Length >= NodeCount(newG) && pos < len <= newQ.Length
    requires oldQ[pos] < NodeCount(oldG) && oldEdges == OldEdgeMap(oldG, strs, oldQ[pos])
    requires MergeQueue(oldG, newG, Matcher(oldG, newG, strs), oldQ[..len], newQ[..len], pos)
    requires MergeBits(newG, newQ[..len], visitBits[..])
    modifies oldQ, newQ, visitBits
    ensures len <= newLen <= newQ.Length
    ensures MergeQueue(oldG, newG, Matcher(oldG, newG, strs), oldQ[..newLen], newQ[..newLen], pos + 1)
    ensures MergeBits(newG, newQ[..newLen], visitBits[..])
    ensures oldQ[..len] == old(oldQ[..len]) && newQ[..len] == old(newQ[..len])
  {
    var ou, nu := oldQ[pos], newQ[pos];
    assert nu == newQ[..len][pos];
    var lo := newG.firstEdgeIndexes[nu];
    var hi := newG.firstEdgeIndexes[nu + 1];
    assert newG.firstEdgeIndexes[nu + 1] <= newG.firstEdgeIndexes[NodeCount(newG)];
    newLen := len;
    var ne := lo;
    while ne < hi
      invariant lo <= ne <= hi
      invariant len <= newLen <= newQ.Length && oldQ[pos] == ou && newQ[pos] == nu
      invariant oldQ[..len] == old(oldQ[..len]) && newQ[..len] == old(newQ[..len])
      invariant MergeQueue(oldG, newG, Matcher(oldG, newG, strs), oldQ[..newLen], newQ[..newLen], pos)
      invariant MergeBits(newG, newQ[..newLen], visitBits[..])
      invariant MatchesQueued(newG, Matcher(oldG, newG, strs), ou, nu, lo, ne, newQ[..newLen])
      decreases hi - ne
    {
      ghost var os, ns := oldQ[..len], newQ[..len];
      newLen := MergeChild(oldG, newG, strs, oldEdges, pos, ou, nu, lo, ne, oldQ, newQ, visitBits, newLen);
      assert oldQ[..len] == oldQ[..newLen][..len];
      ne := ne + 1;
    }
    assert oldQ[..newLen][pos] == ou && newQ[..newLen][pos] == nu;
    ClosePair(oldG, newG, Matcher(oldG, newG, strs), oldQ[..newLen], newQ[..newLen], pos);
  }

  /** The growth test of a `mergeGraphs` step, applied to the pair at `pos`. */
  method UpdateGrowth(oldG: HeapGraph, newG: HeapGraph, strs: seq<string>, oldGrowth: seq<GrowthStatus>,
                      ghost init: seq<GrowthStatus>, ghost olds: seq<nat>, ghost news: seq<nat>, ghost pos: nat,
                      ou: nat, nu: nat, newGrowth: array<GrowthStatus>)
    requires pos < |olds| && pos < |news| && olds[pos] == ou && news[pos] == nu && newGrowth.Length == |init|
    requires newGrowth[..] == MergedGrowth(oldG, newG, strs, oldGrowth, init, olds, news, pos)
    requires nu < newGrowth.Length
    modifies newGrowth
    ensures newGrowth[..] == MergedGrowth(oldG, newG, strs, oldGrowth, init, olds, news, pos + 1)
  {
    var status := StatusAt(oldGrowth, ou);
    if status == New || status == Growing {
      var oldCount := NumProperties(oldG, strs, ou);
      var newCount := NumProperties(newG, strs, nu);
      if oldCount < newCount {
        newGrowth[nu] := Growing;
      }
    }
  }

  /**
   * One iteration of the `mergeGraphs` loop: dequeue the pair at `pos`,
   * mark the new node Growing when `Grows` holds, then enqueue its matched
   * children.
   */
  method MergePair(oldG: HeapGraph, newG: HeapGraph, strs: seq<string>, oldGrowth: seq<GrowthStatus>,
                   ghost init: seq<GrowthStatus>, pos: nat, oldQ: array<nat>, newQ: array<nat>,
                   visitBits: array<bool>, newGrowth: array<GrowthStatus>, len: nat)
    returns (newLen: nat)
    requires Shape(oldG) && Shape(newG) && oldQ != newQ
    requires oldQ.Length == newQ.Length >= NodeCount(newG) && pos < len <= newQ.Length
    requires newGrowth.Length == |init| == NodeCount(newG)
    requires MergeQueue(oldG, newG, Matcher(oldG, newG, strs), oldQ[..len], newQ[..len], pos)
    requires MergeBits(newG, newQ[..len], visitBits[..])
    requires newGrowth[..] == MergedGrowth(oldG, newG, strs, oldGrowth, init, oldQ[..len], newQ[..len], pos)
    modifies oldQ, newQ, visitBits, newGrowth
    ensures len <= newLen <= newQ.Length
    ensures MergeQueue(oldG, newG, Matcher(oldG, newG, strs), oldQ[..newLen], newQ[..newLen], pos + 1)
    ensures MergeBits(newG, newQ[..newLen], visitBits[..])
    ensures newGrowth[..] == MergedGrowth(oldG, newG, strs, oldGrowth, init, oldQ[..newLen], newQ[..newLen], pos + 1)
  {
    ghost var os, ns := oldQ[..len], newQ[..len];
    var ou, nu := oldQ[pos], newQ[pos];
    assert ou == os[pos] && nu == ns[pos];
    UpdateGrowth(oldG, newG, strs, oldGrowth, init, os, ns, pos, ou, nu, newGrowth);
    var oldEdges := OldEdges(oldG, strs, ou);
    newLen := MergeChildren(oldG, newG, strs, oldEdges, pos, oldQ, newQ, visitBits, len);
    ghost var os', ns' := oldQ[..newLen], newQ[..newLen];
    assert os <= os' && ns <= ns' by {
      Sequences.PrefixOfPrefix(oldQ[..], len, newLen);
      Sequences.PrefixOfPrefix(newQ[..], len, newLen);
    }
    MergedGrowthPrefix(oldG, newG, strs, oldGrowth, init, os, ns, os', ns', pos + 1);
  }

  /** The queues of a `mergeGraphs` walk holding the pair of roots, the new root visited. */
  method StartMerge(oldG: HeapGraph, newG: HeapGraph, strs: seq<string>, capacity: nat)
    returns (oldQ: array<nat>, newQ: array<nat>, visitBits: array<bool>)
    requires Shape(oldG) && Shape(newG) && capacity >= NodeCount(oldG) && capacity >= NodeCount(newG)
    ensures fresh(oldQ) && fresh(newQ) && fresh(visitBits) && oldQ != newQ
    ensures oldQ.Length == newQ.Length == capacity >= 1 && visitBits.Length == NodeCount(newG)
    ensures MergeQueue(oldG, newG, Matcher(oldG, newG, strs), oldQ[..1], newQ[..1], 0)
    ensures MergeBits(newG, newQ[..1], visitBits[..])
  {
    oldQ := Zeros(capacity);
    newQ := Zeros(capacity);
    visitBits := new bool[NodeCount(newG)](_ => false);
    oldQ[0] := oldG.rootNodeIndex;
    newQ[0] := newG.rootNodeIndex;
    visitBits[newG.rootNodeIndex] := true;
    assert MergeBits(newG, newQ[..1], visitBits[..]) by {
      assert newQ[..1] == [newG.rootNodeIndex];
    }
    assert MergeQueue(oldG, newG, Matcher(oldG, newG, strs), oldQ[..1], newQ[..1], 0) by {
      assert oldQ[..1] == [oldG.rootNodeIndex] && newQ[..1] == [newG.rootNodeIndex];
    }
  }

  /**
   * `mergeGraphs`: walks the old and the new graph together from their roots,
   * following only child edges with the same hash that both pass
   * `shouldTraverse`, and marks a new node Growing when its old partner was
   * New or Growing and it has more properties now. The queue of pairs is
   * returned as ghost values `olds`/`news`; it holds every matched pair
   * reachable from the roots, each new node once.
   */
  method MergeGraphs(oldG: HeapGraph, oldGrowth: seq<GrowthStatus>, newG: HeapGraph, newGrowth: array<GrowthStatus>,
                     strs: seq<string>)
    returns (ghost olds: seq<nat>, ghost news: seq<nat>)
    requires Shape(oldG) && Shape(newG) && newGrowth.Length == NodeCount(newG)
    modifies newGrowth
    ensures MergeQueue(oldG, newG, Matcher(oldG, newG, strs), olds, news, |news|)
    ensures newGrowth[..] == MergedGrowth(oldG, newG, strs, oldGrowth, old(newGrowth[..]), olds, news, |news|)
  {
    ghost var init := newGrowth[..];
    var numOld, numNew := NodeCount(oldG), NodeCount(newG);
    var capacity := if numOld > numNew then numOld else numNew;
    var oldQ, newQ, visitBits := StartMerge(oldG, newG, strs, capacity);
    var len := 1;
    var index := 0;
    while index < len
      invariant index <= len <= capacity
      invariant MergeQueue(oldG, newG, Matcher(oldG, newG, strs), oldQ[..len], newQ[..len], index)
      invariant MergeBits(newG, newQ[..len], visitBits[..])
      invariant newGrowth[..] == MergedGrowth(oldG, newG, strs, oldGrowth, init, oldQ[..len], newQ[..len], index)
      decreases capacity - index
    {
      len := MergePair(oldG, newG, strs, oldGrowth, init, index, oldQ, newQ, visitBits, newGrowth, len);
      index := index + 1;
    }
    olds, news := oldQ[..len], newQ[..len];
  }

  /**
   * The statuses of the second and later snapshots: every node starts
   * NotGrowing, then `MergeGraphs` marks the Growing ones.
   */
  method StatusAfterMerge(oldG: HeapGraph, oldGrowth: seq<GrowthStatus>, newG: HeapGraph, strs: seq<string>)
    returns (status: array<GrowthStatus>, ghost olds: seq<nat>, ghost news: seq<nat>)
    requires Shape(oldG) && Shape(newG)
    ensures fresh(status) && status.Length == NodeCount(newG)
    ensures MergeQueue(oldG, newG, Matcher(oldG, newG, strs), olds, news, |news|)
    ensures forall v :: 0 <= v < status.Length ==>
      status[v] != New
      && (status[v] == Growing <==>
            exists k :: 0 <= k < |news| && news[k] == v && Grows(oldG, newG, strs, oldGrowth, olds[k], v))
  {
    status := new GrowthStatus[NodeCount(newG)](_ => New);
    forall v | 0 <= v < status.Length {
      status[v] := NotGrowing;
    }
    ghost var init := status[..];
    olds, news := MergeGraphs(oldG, oldGrowth, newG, status, strs);
    MergedGrowthSpec(oldG, newG, strs, oldGrowth, init, olds, news, |news|);
  }

  // ---------------------------------------------------------------------
  // HeapGrowthTracker
  // ---------------------------------------------------------------------

  /**
   * `HeapGrowthTracker`: keeps the graph of the last snapshot and the growth
   * status of each of its nodes; all graphs share one string map. The ghost
   * fields record how many snapshots were added and the pair queue of the
   * last merge.
   */
  class HeapGrowthTracker {
    var stringMap: StringMap
    var heap: Option<HeapGraph>
    var growthStatus: array<GrowthStatus>
    ghost var snapshots: nat
    ghost var lastOlds: seq<nat>
    ghost var lastNews: seq<nat>

    ghost predicate Valid()
      reads this, stringMap
    {
      stringMap.Valid()
      && (heap.Some? <==> 0 < snapshots)
      && (heap.Some? ==> Shape(heap.value) && growthStatus.Length == NodeCount(heap.value))
    }

    constructor()
      ensures Valid() && fresh(stringMap) && stringMap.strings == []
      ensures heap.None? && snapshots == 0
    {
      stringMap := new StringMap();
      heap := None;
      growthStatus := new GrowthStatus[0];
      snapshots := 0;
      lastOlds, lastNews := [], [];
    }

    /**
     * `addSnapshot`: builds the graph of `s`; on the first snapshot every
     * node is New, afterwards every node starts NotGrowing and the merge with
     * the previous graph marks the Growing ones. When `Construct` fails the
     * tracker keeps its graph and statuses (the string map may have grown).
     */
    method AddSnapshot(s: HeapSnapshot) returns (r: Result<(), ConstructError>)
      requires Valid() && WellFormed(s) && Consistent(s)
      modifies this, stringMap
      ensures Valid() && stringMap == old(stringMap) && Extends(old(stringMap.strings), stringMap.strings)
      ensures r.Ok? <==> ConstructSucceeds(s)
      ensures r.Err? ==> heap == old(heap) && growthStatus == old(growthStatus) && snapshots == old(snapshots)
      ensures r.Ok? ==> heap.Some? && Built(s, stringMap.strings, heap.value) && fresh(growthStatus)
      ensures r.Ok? ==> snapshots == old(snapshots) + 1
      ensures r.Ok? && old(heap).None? ==> forall v :: 0 <= v < growthStatus.Length ==> growthStatus[v] == New
      ensures r.Ok? && old(heap).Some? ==>
        MergeQueue(old(heap).value, heap.value, Matcher(old(heap).value, heap.value, stringMap.strings),
                   lastOlds, lastNews, |lastNews|)
      ensures r.Ok? && old(heap).Some? ==> forall v :: 0 <= v < growthStatus.Length ==>
        growthStatus[v] != New
        && (growthStatus[v] == Growing <==>
              exists k :: 0 <= k < |lastNews| && lastNews[k] == v
                && Grows(old(heap).value, heap.value, stringMap.strings, old(growthStatus[..]), lastOlds[k], v))
    {
      var c := Construct(s, stringMap);
      if c.Err? {
        r := Err(c.error);
      } else {
        var g := c.value;
        BuiltShape(s, stringMap.strings, g);
        var status;
        if heap.Some? {
          ghost var olds, news;
          status, olds, news := StatusAfterMerge(heap.value, growthStatus[..], g, stringMap.strings);
          lastOlds, lastNews := olds, news;
        } else {
          status := new GrowthStatus[NodeCount(g)](_ => New);
        }
        heap := Some(g);
        growthStatus := status;
        snapshots := snapshots + 1;
        r := Ok(());
      }
    }

    /** `getGraph`: the graph of the last snapshot, once there is one. */
    function GetGraph(): (r: Option<HeapGraph>)
      requires Valid()
      reads this, stringMap
      ensures r.Some? <==> 0 < snapshots
      ensures r.Some? ==> Shape(r.value)
    {
      heap
    }

    /** `isGrowing`. */
    function IsGrowing(nodeIndex: nat): (b: bool)
      requires Valid() && heap.Some?
      reads this, stringMap, growthStatus
      ensures b <==> nodeIndex < NodeCount(heap.value) && growthStatus[nodeIndex] == Growing
    {
      StatusAt(growthStatus[..], nodeIndex) == Growing
    }
  }

  // ---------------------------------------------------------------------
  // ToSerializeableGCPath
  // ---------------------------------------------------------------------

  /** The `filter` of `ToSerializeableGCPath`, as written with its closure test. */
  function KeepVisible(g: HeapGraph, es: seq<nat>): seq<nat>
    decreases |es|
  {
    if es == [] then []
    else
      var t := SnapshotType(g, es[0]);
      var rest := KeepVisible(g, es[1..]);
      if KindOf(t) == Some(Closure) || !IsHidden(t) then [es[0]] + rest else rest
  }

  /** The filter keeps exactly the edges that are not hidden, in order; the closure test adds nothing. */
  lemma {:induction false} KeepVisibleSpec(g: HeapGraph, es: seq<nat>)
    ensures forall e :: e in KeepVisible(g, es) <==> e in es && !IsHidden(SnapshotType(g, e))
    ensures |KeepVisible(g, es)| <= |es|
    ensures KeepVisible(g, es) == es <==> forall i :: 0 <= i < |es| ==> !IsHidden(SnapshotType(g, es[i]))
    decreases |es|
  {
    if es != [] {
      KeepVisibleSpec(g, es[1..]);
      assert es == [es[0]] + es[1..];
      if IsHidden(SnapshotType(g, es[0])) {
        assert KeepVisible(g, es) != es by {
          assert |KeepVisible(g, es)| < |es|;
        }
      } else {
        assert forall i :: 1 <= i < |es| ==> es[i] == es[1..][i - 1];
      }
    }
  }

  /** `Edge.toJSON`: the edge's kind and its index or name. */
  function EdgeToJson(g: HeapGraph, strs: seq<string>, e: nat): (r: SerializeableEdge)
    requires Shape(g) && e < EdgeCount(g)
    ensures Some(r.edgeType) == KindOf(SnapshotType(g, e))
    ensures r.indexOrName == IndexOrName(g, strs, e)
  {
    EdgeTypeTotal(g, e);
    SerializeableEdge(KindOf(SnapshotType(g, e)).value, IndexOrName(g, strs, e))
  }

  /** The serialised edges of a sequence of edges, in order. */
  function EdgesToJson(g: HeapGraph, strs: seq<string>, es: seq<nat>): (r: seq<SerializeableEdge>)
    requires Shape(g) && forall i :: 0 <= i < |es| ==> es[i] < EdgeCount(g)
    ensures |r| == |es|
    ensures forall i :: 0 <= i < |es| ==> r[i] == EdgeToJson(g, strs, es[i])
  {
    if es == [] then [] else [EdgeToJson(g, strs, es[0])] + EdgesToJson(g, strs, es[1..])
  }

  /** Whether the first link of a nonempty path leads to a "Window " object. */
  predicate RootedAtWindow(g: HeapGraph, strs: seq<string>, path: seq<nat>)
    requires path != []
  {
    StartsWith(NodeName(g, strs, To(g, path[0])), "Window ")
  }

  /** The links of a nonempty path that follow its root. */
  function AfterRoot(g: HeapGraph, strs: seq<string>, path: seq<nat>): (r: seq<nat>)
    requires path != []
    ensures forall e :: e in r ==> e in path
  {
    if RootedAtWindow(g, strs, path) then path else if |path| < 3 then [] else path[3..]
  }

  /**
   * `ToSerializeableGCPath`: a path whose first link leads to a "Window "
   * object is rooted at the global object; any other path is rooted at a DOM
   * element named by its third link (HTMLBodyElement when there is none) and
   * loses its first three links. The empty path, where the source reads a
   * missing first link, gives None.
   */
  function SerializeGCPath(g: HeapGraph, strs: seq<string>, path: seq<nat>): (r: Option<SerializeableGCPath>)
    requires Shape(g) && forall e :: e in path ==> e < EdgeCount(g)
    ensures r.None? <==> path == []
    ensures r.Some? ==> (r.value.root == Global <==> RootedAtWindow(g, strs, path))
    ensures r.Some? && !RootedAtWindow(g, strs, path) ==>
      r.value.root == Dom(if |path| < 3 then "HTMLBodyElement" else NodeName(g, strs, To(g, path[2])))
  {
    if path == [] then None
    else
      var root := if RootedAtWindow(g, strs, path) then Global
        else if |path| < 3 then Dom("HTMLBodyElement")
        else Dom(NodeName(g, strs, To(g, path[2])));
      var kept := KeepVisible(g, AfterRoot(g, strs, path));
      KeepVisibleSpec(g, AfterRoot(g, strs, path));
      assert forall i :: 0 <= i < |kept| ==> kept[i] in kept;
      Some(SerializeableGCPath(root, EdgesToJson(g, strs, kept)))
  }

  /**
   * The edges of a serialised path are the serialised forms of exactly the
   * visible links after the root, in order.
   */
  lemma SerializeGCPathSpec(g: HeapGraph, strs: seq<string>, path: seq<nat>)
    requires Shape(g) && forall e :: e in path ==> e < EdgeCount(g)
    requires path != []
    ensures var kept := KeepVisible(g, AfterRoot(g, strs, path));
      var r := SerializeGCPath(g, strs, path).value;
      (forall e :: e in kept <==> e in AfterRoot(g, strs, path) && !IsHidden(SnapshotType(g, e)))
      && |r.path| == |kept|
      && (forall i :: 0 <= i < |kept| ==> r.path[i] == EdgeToJson(g, strs, kept[i]))
  {
    KeepVisibleSpec(g, AfterRoot(g, strs, path));
  }
}
