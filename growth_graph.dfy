/**
 * The heap graph built from a V8 heap snapshot: string interning, the
 * compressed adjacency arrays, the edge and node classifications, the
 * breadth-first visitors, the property-count growth metric, the size
 * summary, growth marking between successive snapshots and the
 * serialisable form of a heap path.
 */
module GrowthGraph {
  import opened Wrappers
  import opened JsStrings

  // ---------------------------------------------------------------------
  // V8 edge and node types (the numeric codes of a heap snapshot)
  // ---------------------------------------------------------------------

  const EdgeContextVariable: nat := 0
  const EdgeElement: nat := 1
  const EdgeProperty: nat := 2
  const EdgeInternal: nat := 3
  const EdgeHidden: nat := 4
  const EdgeShortcut: nat := 5
  const EdgeWeak: nat := 6

  const NodeHidden: nat := 0
  const NodeArray: nat := 1
  const NodeString: nat := 2
  const NodeObject: nat := 3
  const NodeCode: nat := 4
  const NodeClosure: nat := 5
  const NodeRegExp: nat := 6
  const NodeHeapNumber: nat := 7
  const NodeNative: nat := 8
  const NodeSynthetic: nat := 9
  const NodeConsString: nat := 10
  const NodeSlicedString: nat := 11
  const NodeSymbol: nat := 12
  const NodeUnresolved: nat := 15

  /** BLeak's own classification of an edge. */
  datatype EdgeType = Index | Closure | Named

  /** Edges hidden from the developer. */
  predicate IsHidden(t: nat) {
    t == EdgeInternal || t == EdgeHidden || t == EdgeShortcut
  }

  /** `Edge.type`; None where the source throws "Unrecognized edge type". */
  function KindOf(t: nat): (r: Option<EdgeType>)
    ensures r.Some? <==> t <= EdgeWeak
    ensures r == Some(Index) <==> t == EdgeElement || t == EdgeHidden
    ensures r == Some(Closure) <==> t == EdgeContextVariable
  {
    if t == EdgeElement || t == EdgeHidden then Some(Index)
    else if t == EdgeContextVariable then Some(Closure)
    else if t == EdgeInternal || t == EdgeShortcut || t == EdgeWeak || t == EdgeProperty then Some(Named)
    else None
  }

  /** Edge types whose name field is a string-table index. */
  predicate HasStringName(t: nat) {
    t <= EdgeWeak && t != EdgeElement && t != EdgeHidden
  }

  /** A value stored into a Uint32Array. */
  function U32(x: nat): nat { x % 0x1_0000_0000 }

  /** A value stored into a Uint8Array. */
  function U8(x: nat): nat { x % 0x100 }

  // ---------------------------------------------------------------------
  // String interning
  // ---------------------------------------------------------------------

  predicate NoDuplicates(s: seq<string>) {
    forall i, j :: 0 <= i < j < |s| ==> s[i] != s[j]
  }

  /** `Array.prototype.indexOf`, with |strs| standing for "absent". */
  function FirstIndex(strs: seq<string>, s: string): (r: nat)
    ensures r <= |strs|
    ensures r < |strs| ==> strs[r] == s
    ensures forall k :: 0 <= k < r ==> strs[k] != s
    decreases |strs|
  {
    if |strs| == 0 then 0
    else if strs[0] == s then 0
    else 1 + FirstIndex(strs[1..], s)
  }

  /** The string table after interning `s`. */
  function Interned(strs: seq<string>, s: string): seq<string>
  {
    if s in strs then strs else strs + [s]
  }

  /** `strs[id]` is the string `x`. */
  predicate Resolves(strs: seq<string>, id: nat, x: string) {
    id < |strs| && strs[id] == x
  }

  /** The id handed out for `s` names `s`; a new string gets the next dense id. */
  lemma InternedIdResolves(strs: seq<string>, s: string)
    ensures Resolves(Interned(strs, s), FirstIndex(strs, s), s)
    ensures s !in strs ==> FirstIndex(strs, s) == |strs|
  {
  }

  /** Interning never changes what an earlier id names. */
  lemma InternedKeepsIds(strs: seq<string>, s: string, id: nat, x: string)
    requires Resolves(strs, id, x)
    ensures Resolves(Interned(strs, s), id, x)
  {
  }

  /** Interning an already interned string gives it the same id again. */
  lemma {:induction false} InternedIdStable(strs: seq<string>, s: string, t: string)
    requires t in strs
    ensures FirstIndex(Interned(strs, s), t) == FirstIndex(strs, t)
  {
    if s !in strs {
      var i := FirstIndex(strs, t);
      var j := FirstIndex(strs + [s], t);
      assert (strs + [s])[i] == t;
      assert j <= i;
    }
  }

  /** The table never holds a string twice, so distinct strings get distinct ids. */
  lemma InternedNoDuplicates(strs: seq<string>, s: string)
    requires NoDuplicates(strs)
    ensures NoDuplicates(Interned(strs, s))
  {
  }

  /** Equal ids name equal strings. */
  lemma IdsInjective(strs: seq<string>, s: string, t: string)
    requires s in strs && FirstIndex(strs, s) == FirstIndex(strs, t)
    ensures s == t
  {
  }

  /** `StringMap`: a string table and the map from string to id. */
  class StringMap {
    var ids: map<string, nat>
    var strings: seq<string>

    ghost predicate Valid()
      reads this
    {
      NoDuplicates(strings) &&
      (forall s :: s in ids <==> s in strings) &&
      (forall s :: s in ids ==> ids[s] == FirstIndex(strings, s))
    }

    constructor()
      ensures Valid() && strings == [] && ids == map[]
    {
      ids := map[];
      strings := [];
    }

    /** `get`: the id of `s`, appending it to the table when it is new. */
    method Get(s: string) returns (id: nat)
      requires Valid()
      modifies this
      ensures Valid()
      ensures id == FirstIndex(old(strings), s)
      ensures strings == Interned(old(strings), s)
      ensures Resolves(strings, id, s)
    {
      InternedIdResolves(strings, s);
      if s in ids {
        id := ids[s];
      } else {
        id := |strings|;
        forall t | t in strings
          ensures FirstIndex(strings + [s], t) == FirstIndex(strings, t)
        {
          InternedIdStable(strings, s, t);
        }
        strings := strings + [s];
        ids := ids[s := id];
      }
    }

    /** `fromId`: the string with id `i`, or None (`undefined`) past the table. */
    function FromId(i: nat): (r: Option<string>)
      reads this
      ensures r.Some? <==> i < |strings|
      ensures r.Some? ==> Resolves(strings, i, r.value)
    {
      if i < |strings| then Some(strings[i]) else None
    }
  }

  // ---------------------------------------------------------------------
  // Snapshots and graphs
  // ---------------------------------------------------------------------

  /** The parts of a V8 heap snapshot that graph construction reads. */
  datatype HeapSnapshot = HeapSnapshot(
    nodeFields: seq<string>,
    edgeFields: seq<string>,
    rootIndex: Option<nat>,
    nodeCount: nat,
    edgeCount: nat,
    nodes: seq<nat>,
    edges: seq<nat>,
    strings: seq<string>)

  /** The flat arrays of a heap graph. */
  datatype HeapGraph = HeapGraph(
    nodeTypes: seq<nat>,
    nodeNames: seq<nat>,
    nodeSizes: seq<nat>,
    firstEdgeIndexes: seq<nat>,
    edgeTypes: seq<nat>,
    edgeNamesOrIndexes: seq<nat>,
    edgeToNodes: seq<nat>,
    rootNodeIndex: nat)

  datatype ConstructError =
    | UnrecognizedEdgeType(edgeType: Option<nat>)
    | ReadPastEdgeArray(lastEdgeIndex: nat, numEdges: nat)

  /** The field layout and string references are those V8 writes. */
  predicate LayoutOk(s: HeapSnapshot) {
    "type" in s.nodeFields && "name" in s.nodeFields && "self_size" in s.nodeFields
    && "edge_count" in s.nodeFields
    && "type" in s.edgeFields && "name_or_index" in s.edgeFields && "to_node" in s.edgeFields
    && |s.nodes| >= s.nodeCount * |s.nodeFields|
    && |s.edges| % |s.edgeFields| == 0
  }

  /** The entry of a flat array at record `i`, field `f`; 0 outside the array. */
  function Field(flat: seq<nat>, fields: seq<string>, i: nat, f: string): nat {
    var k := i * |fields| + FirstIndex(fields, f);
    if k < |flat| then flat[k] else 0
  }

  function NodeField(s: HeapSnapshot, i: nat, f: string): nat {
    Field(s.nodes, s.nodeFields, i, f)
  }

  /** The string with index `k` of the snapshot's string table. */
  function StringAt(s: HeapSnapshot, k: nat): string {
    if k < |s.strings| then s.strings[k] else ""
  }

  /** `edges.length / edgeFields.length`, a whole number for a V8 snapshot. */
  function NumEdges(s: HeapSnapshot): nat {
    if |s.edgeFields| == 0 then 0 else |s.edges| / |s.edgeFields|
  }

  function EdgeField(s: HeapSnapshot, j: nat, f: string): nat {
    Field(s.edges, s.edgeFields, j, f)
  }

  /** `edges[base + to_node] / nodeLength` as stored into the Uint32Array `edgeToNodes`. */
  function ToNode(s: HeapSnapshot, j: nat): nat {
    if |s.nodeFields| == 0 then 0 else U32(EdgeField(s, j, "to_node") / |s.nodeFields|)
  }

  /** The type field of edge `j`; None (`undefined`) past the end of the edge array. */
  function EdgeTypeAt(s: HeapSnapshot, j: nat): Option<nat> {
    if j < NumEdges(s) then Some(EdgeField(s, j, "type")) else None
  }

  predicate KnownType(t: Option<nat>) {
    t.Some? && t.value <= EdgeWeak
  }

  predicate WellFormed(s: HeapSnapshot) {
    LayoutOk(s)
    && (forall i :: 0 <= i < s.nodeCount ==> NodeField(s, i, "name") < |s.strings|)
    && (forall j :: 0 <= j < NumEdges(s) && HasStringName(EdgeField(s, j, "type")) ==>
          EdgeField(s, j, "name_or_index") < |s.strings|)
  }

  /** The first edge index of node `k`: the sum of the edge counts of the nodes before it. */
  function Prefix(s: HeapSnapshot, k: nat): nat {
    if k == 0 then 0 else Prefix(s, k - 1) + NodeField(s, k - 1, "edge_count")
  }

  lemma {:induction false} PrefixMonotone(s: HeapSnapshot, a: nat, b: nat)
    requires a <= b
    ensures Prefix(s, a) <= Prefix(s, b)
    decreases b - a
  {
    if a < b {
      PrefixMonotone(s, a, b - 1);
    }
  }

  /** `Construct` returns a graph exactly when every edge it reads has a known type. */
  predicate ConstructSucceeds(s: HeapSnapshot) {
    forall j :: 0 <= j < Prefix(s, s.nodeCount) ==> KnownType(EdgeTypeAt(s, j))
  }

  function RootNodeIndex(s: HeapSnapshot): nat {
    if s.rootIndex.Some? && s.rootIndex.value != 0 && |s.nodeFields| != 0
    then s.rootIndex.value / |s.nodeFields| else 0
  }

  /** Node `i` of the snapshot as stored in the graph's node arrays. */
  predicate NodeStored(s: HeapSnapshot, strs: seq<string>, i: nat, t: nat, name: nat, size: nat) {
    t == U8(NodeField(s, i, "type"))
    && size == U32(NodeField(s, i, "self_size"))
    && Resolves(strs, name, StringAt(s, NodeField(s, i, "name")))
  }

  /** Nodes 0 .. i-1 are stored, with their first-edge prefix sums. */
  predicate NodesStored(s: HeapSnapshot, strs: seq<string>, i: nat,
                        types: seq<nat>, names: seq<nat>, sizes: seq<nat>, fei: seq<nat>)
  {
    i <= |types| && i <= |names| && i <= |sizes| && i <= |fei|
    && forall k :: 0 <= k < i ==>
         NodeStored(s, strs, k, types[k], names[k], sizes[k]) && fei[k] == Prefix(s, k)
  }

  /** Edge `j` of the snapshot as stored in the graph's edge arrays. */
  predicate EdgeStored(s: HeapSnapshot, strs: seq<string>, j: nat, t: nat, nameOrIndex: nat, to: nat) {
    j < NumEdges(s)
    && t == EdgeField(s, j, "type") && t <= EdgeWeak
    && to == ToNode(s, j)
    && (if HasStringName(t) then Resolves(strs, nameOrIndex, StringAt(s, EdgeField(s, j, "name_or_index")))
        else nameOrIndex == U32(EdgeField(s, j, "name_or_index")))
  }

  /** Edges below `upTo` are stored; the typed arrays are still zero from there on. */
  predicate EdgesStored(s: HeapSnapshot, strs: seq<string>, upTo: nat,
                        ets: seq<nat>, ens: seq<nat>, etn: seq<nat>)
  {
    |ens| == |ets| && |etn| == |ets|
    && forall k :: 0 <= k < |ets| ==>
         if k < upTo then EdgeStored(s, strs, k, ets[k], ens[k], etn[k])
         else ets[k] == 0 && ens[k] == 0 && etn[k] == 0
  }

  /** `b` extends the string table `a`. */
  predicate Extends(a: seq<string>, b: seq<string>) {
    |a| <= |b| && b[..|a|] == a
  }

  /** Every string the old table named, the extended table names too. */
  lemma ExtendsResolves(a: seq<string>, b: seq<string>, id: nat, x: string)
    requires Extends(a, b) && Resolves(a, id, x)
    ensures Resolves(b, id, x)
  {
    assert b[id] == b[..|a|][id];
  }

  lemma ExtendsTransitive(a: seq<string>, b: seq<string>, c: seq<string>)
    requires Extends(a, b) && Extends(b, c)
    ensures Extends(a, c)
  {
    assert c[..|a|] == c[..|b|][..|a|];
  }

  lemma InternedExtends(a: seq<string>, x: string)
    ensures Extends(a, Interned(a, x))
  {
    assert (a + [x])[..|a|] == a;
  }

  lemma NodesStoredExtends(s: HeapSnapshot, a: seq<string>, b: seq<string>, i: nat,
                           types: seq<nat>, names: seq<nat>, sizes: seq<nat>, fei: seq<nat>)
    requires Extends(a, b)
    requires NodesStored(s, a, i, types, names, sizes, fei)
    ensures NodesStored(s, b, i, types, names, sizes, fei)
  {
    forall k | 0 <= k < i
      ensures Resolves(b, names[k], StringAt(s, NodeField(s, k, "name")))
    {
      ExtendsResolves(a, b, names[k], StringAt(s, NodeField(s, k, "name")));
    }
  }

  lemma EdgesStoredExtends(s: HeapSnapshot, a: seq<string>, b: seq<string>, upTo: nat,
                           ets: seq<nat>, ens: seq<nat>, etn: seq<nat>)
    requires Extends(a, b)
    requires EdgesStored(s, a, upTo, ets, ens, etn)
    ensures EdgesStored(s, b, upTo, ets, ens, etn)
  {
    forall k | 0 <= k < |ets| && k < upTo && HasStringName(ets[k])
      ensures Resolves(b, ens[k], StringAt(s, EdgeField(s, k, "name_or_index")))
    {
      ExtendsResolves(a, b, ens[k], StringAt(s, EdgeField(s, k, "name_or_index")));
    }
  }

  /** Writing past the stored nodes' entries keeps them stored. */
  lemma NodesStoredUpdate(s: HeapSnapshot, strs: seq<string>, i: nat,
                          types: seq<nat>, names: seq<nat>, sizes: seq<nat>, fei: seq<nat>, v: nat)
    requires NodesStored(s, strs, i, types, names, sizes, fei) && i < |fei|
    ensures NodesStored(s, strs, i, types, names, sizes, fei[i := v])
  {
  }

  /** The graph `g` is what `Construct` builds from `s` with the string table `strs`. */
  predicate Built(s: HeapSnapshot, strs: seq<string>, g: HeapGraph) {
    var n := s.nodeCount;
    |g.nodeTypes| == n && |g.nodeNames| == n && |g.nodeSizes| == n
    && |g.firstEdgeIndexes| == n + 1 && |g.edgeTypes| == s.edgeCount
    && NodesStored(s, strs, n, g.nodeTypes, g.nodeNames, g.nodeSizes, g.firstEdgeIndexes)
    && g.firstEdgeIndexes[n] == NumEdges(s)
    && EdgesStored(s, strs, Prefix(s, n), g.edgeTypes, g.edgeNamesOrIndexes, g.edgeToNodes)
    && g.rootNodeIndex == RootNodeIndex(s)
  }

  lemma BuiltIntro(s: HeapSnapshot, strs: seq<string>, g: HeapGraph, m: nat)
    requires m == Prefix(s, s.nodeCount)
    requires |g.nodeTypes| == s.nodeCount && |g.nodeNames| == s.nodeCount && |g.nodeSizes| == s.nodeCount
    requires |g.firstEdgeIndexes| == s.nodeCount + 1 && |g.edgeTypes| == s.edgeCount
    requires NodesStored(s, strs, s.nodeCount, g.nodeTypes, g.nodeNames, g.nodeSizes, g.firstEdgeIndexes)
    requires g.firstEdgeIndexes[s.nodeCount] == NumEdges(s)
    requires EdgesStored(s, strs, m, g.edgeTypes, g.edgeNamesOrIndexes, g.edgeToNodes)
    requires g.rootNodeIndex == RootNodeIndex(s)
    ensures Built(s, strs, g)
  {
  }

  lemma SucceedsIntro(s: HeapSnapshot, m: nat)
    requires m == Prefix(s, s.nodeCount)
    requires forall j :: 0 <= j < m ==> KnownType(EdgeTypeAt(s, j))
    ensures ConstructSucceeds(s)
  {
  }

  /** Storing edge `j` (or dropping the write past the end) extends the stored range by one. */
  lemma EdgesStoredStep(s: HeapSnapshot, strs: seq<string>, j: nat,
                        ets: seq<nat>, ens: seq<nat>, etn: seq<nat>, t: nat, n: nat, to: nat)
    requires EdgesStored(s, strs, j, ets, ens, etn)
    requires EdgeStored(s, strs, j, t, n, to)
    ensures j < |ets| ==> EdgesStored(s, strs, j + 1, ets[j := t], ens[j := n], etn[j := to])
    ensures j >= |ets| ==> EdgesStored(s, strs, j + 1, ets, ens, etn)
  {
  }

  /** Reading past the edge array meets an edge without a type. */
  lemma PastEdgesUnknown(s: HeapSnapshot, m: nat)
    requires m > NumEdges(s)
    ensures exists j :: 0 <= j < m && !KnownType(EdgeTypeAt(s, j))
  {
    assert !KnownType(EdgeTypeAt(s, NumEdges(s)));
  }

  /** An unknown edge type among the first `i` nodes' edges makes `Construct` fail. */
  lemma UnknownTypeFails(s: HeapSnapshot, i: nat, k: nat)
    requires i <= s.nodeCount && k < Prefix(s, i) && !KnownType(EdgeTypeAt(s, k))
    ensures !ConstructSucceeds(s)
  {
    PrefixMonotone(s, i, s.nodeCount);
  }

  /** A new typed array of `n` zeros. */
  method Zeros(n: nat) returns (a: array<nat>)
    ensures fresh(a) && a[..] == seq(n, _ => 0)
  {
    a := new nat[n](_ => 0);
  }

  /**
   * One iteration of the inner loop of `Construct`: edge `j` is type-checked,
   * its name interned and its fields stored. Writes past the end of a typed
   * array are dropped, as in JavaScript.
   */
  method StoreEdge(s: HeapSnapshot, sm: StringMap, j: nat,
                   edgeTypes: array<nat>, edgeNamesOrIndexes: array<nat>, edgeToNodes: array<nat>)
    returns (err: Option<ConstructError>)
    requires sm.Valid()
    requires edgeTypes != edgeNamesOrIndexes && edgeTypes != edgeToNodes && edgeNamesOrIndexes != edgeToNodes
    requires EdgesStored(s, sm.strings, j, edgeTypes[..], edgeNamesOrIndexes[..], edgeToNodes[..])
    modifies sm, edgeTypes, edgeNamesOrIndexes, edgeToNodes
    ensures sm.Valid() && Extends(old(sm.strings), sm.strings)
    ensures err.None? <==> KnownType(EdgeTypeAt(s, j))
    ensures err.Some? ==> err.value == UnrecognizedEdgeType(EdgeTypeAt(s, j))
    ensures err.None? ==> EdgesStored(s, sm.strings, j + 1, edgeTypes[..], edgeNamesOrIndexes[..], edgeToNodes[..])
  {
    var edgeType := EdgeTypeAt(s, j);
    if !KnownType(edgeType) {
      return Some(UnrecognizedEdgeType(edgeType));
    }
    ghost var strs0 := sm.strings;
    var edgeNameOrIndex := U32(EdgeField(s, j, "name_or_index"));
    if HasStringName(edgeType.value) {
      edgeNameOrIndex := sm.Get(StringAt(s, EdgeField(s, j, "name_or_index")));
      InternedExtends(strs0, StringAt(s, EdgeField(s, j, "name_or_index")));
    }
    var edgeToNode := ToNode(s, j);
    assert EdgeStored(s, sm.strings, j, edgeType.value, edgeNameOrIndex, edgeToNode);
    EdgesStoredExtends(s, strs0, sm.strings, j, edgeTypes[..], edgeNamesOrIndexes[..], edgeToNodes[..]);
    ghost var ets, ens, etn := edgeTypes[..], edgeNamesOrIndexes[..], edgeToNodes[..];
    if j < edgeTypes.Length {
      edgeTypes[j] := edgeType.value;
      edgeNamesOrIndexes[j] := edgeNameOrIndex;
      edgeToNodes[j] := edgeToNode;
      assert edgeTypes[..] == ets[j := edgeType.value];
      assert edgeNamesOrIndexes[..] == ens[j := edgeNameOrIndex];
      assert edgeToNodes[..] == etn[j := edgeToNode];
    }
    EdgesStoredStep(s, sm.strings, j, ets, ens, etn, edgeType.value, edgeNameOrIndex, edgeToNode);
    err := None;
  }

  /** The inner loop of `Construct` for one node: edges `from` .. `to`-1. */
  method FillEdges(s: HeapSnapshot, sm: StringMap, from: nat, to: nat,
                   edgeTypes: array<nat>, edgeNamesOrIndexes: array<nat>, edgeToNodes: array<nat>)
    returns (err: Option<ConstructError>)
    requires sm.Valid() && from <= to
    requires edgeTypes != edgeNamesOrIndexes && edgeTypes != edgeToNodes && edgeNamesOrIndexes != edgeToNodes
    requires forall k :: 0 <= k < from ==> KnownType(EdgeTypeAt(s, k))
    requires EdgesStored(s, sm.strings, from, edgeTypes[..], edgeNamesOrIndexes[..], edgeToNodes[..])
    modifies sm, edgeTypes, edgeNamesOrIndexes, edgeToNodes
    ensures sm.Valid() && Extends(old(sm.strings), sm.strings)
    ensures err.None? ==> forall k :: 0 <= k < to ==> KnownType(EdgeTypeAt(s, k))
    ensures err.None? ==> EdgesStored(s, sm.strings, to, edgeTypes[..], edgeNamesOrIndexes[..], edgeToNodes[..])
    ensures err.Some? ==> err.value.UnrecognizedEdgeType?
    ensures err.Some? ==> exists k :: from <= k < to && !KnownType(EdgeTypeAt(s, k))
  {
    ghost var strs0 := sm.strings;
    var j := from;
    while j < to
      invariant from <= j <= to
      invariant forall k :: 0 <= k < j ==> KnownType(EdgeTypeAt(s, k))
      invariant sm.Valid() && Extends(strs0, sm.strings)
      invariant EdgesStored(s, sm.strings, j, edgeTypes[..], edgeNamesOrIndexes[..], edgeToNodes[..])
    {
      ghost var strs1 := sm.strings;
      err := StoreEdge(s, sm, j, edgeTypes, edgeNamesOrIndexes, edgeToNodes);
      ExtendsTransitive(strs0, strs1, sm.strings);
      if err.Some? {
        return;
      }
      j := j + 1;
    }
    err := None;
  }

  /** The node part of one iteration of `Construct`: node `i`'s name id, size, type and first edge. */
  method StoreNode(s: HeapSnapshot, ghost strs: seq<string>, i: nat, name: nat, nextEdge: nat,
                   nodeTypes: array<nat>, nodeNames: array<nat>, nodeSizes: array<nat>,
                   firstEdgeIndexes: array<nat>)
    requires i < nodeTypes.Length && i < nodeNames.Length && i < nodeSizes.Length && i < firstEdgeIndexes.Length
    requires nodeTypes != nodeNames && nodeTypes != nodeSizes && nodeTypes != firstEdgeIndexes
    requires nodeNames != nodeSizes && nodeNames != firstEdgeIndexes && nodeSizes != firstEdgeIndexes
    requires NodesStored(s, strs, i, nodeTypes[..], nodeNames[..], nodeSizes[..], firstEdgeIndexes[..])
    requires Resolves(strs, name, StringAt(s, NodeField(s, i, "name"))) && nextEdge == Prefix(s, i)
    modifies nodeTypes, nodeNames, nodeSizes, firstEdgeIndexes
    ensures NodesStored(s, strs, i + 1, nodeTypes[..], nodeNames[..], nodeSizes[..], firstEdgeIndexes[..])
  {
    nodeNames[i] := name;
    nodeSizes[i] := U32(NodeField(s, i, "self_size"));
    nodeTypes[i] := U8(NodeField(s, i, "type"));
    firstEdgeIndexes[i] := nextEdge;
  }

  /** One iteration of the node loop of `Construct`: node `i` and its edges. */
  method ConstructNode(s: HeapSnapshot, sm: StringMap, i: nat, nextEdge: nat,
                       nodeTypes: array<nat>, nodeNames: array<nat>, nodeSizes: array<nat>,
                       firstEdgeIndexes: array<nat>,
                       edgeTypes: array<nat>, edgeNamesOrIndexes: array<nat>, edgeToNodes: array<nat>)
    returns (lastEdgeIndex: nat, err: Option<ConstructError>)
    requires sm.Valid() && i < s.nodeCount
    requires i < nodeTypes.Length && i < nodeNames.Length && i < nodeSizes.Length && i < firstEdgeIndexes.Length
    requires nodeTypes != nodeNames && nodeTypes != nodeSizes && nodeTypes != firstEdgeIndexes
    requires nodeNames != nodeSizes && nodeNames != firstEdgeIndexes && nodeSizes != firstEdgeIndexes
    requires edgeTypes != edgeNamesOrIndexes && edgeTypes != edgeToNodes && edgeNamesOrIndexes != edgeToNodes
    requires {nodeTypes, nodeNames, nodeSizes, firstEdgeIndexes} !! {edgeTypes, edgeNamesOrIndexes, edgeToNodes}
    requires nextEdge == Prefix(s, i)
    requires forall j :: 0 <= j < nextEdge ==> KnownType(EdgeTypeAt(s, j))
    requires NodesStored(s, sm.strings, i, nodeTypes[..], nodeNames[..], nodeSizes[..], firstEdgeIndexes[..])
    requires EdgesStored(s, sm.strings, nextEdge, edgeTypes[..], edgeNamesOrIndexes[..], edgeToNodes[..])
    modifies sm, nodeTypes, nodeNames, nodeSizes, firstEdgeIndexes, edgeTypes, edgeNamesOrIndexes, edgeToNodes
    ensures sm.Valid() && Extends(old(sm.strings), sm.strings)
    ensures lastEdgeIndex == Prefix(s, i + 1)
    ensures err.None? ==> forall j :: 0 <= j < lastEdgeIndex ==> KnownType(EdgeTypeAt(s, j))
    ensures err.None? ==>
      NodesStored(s, sm.strings, i + 1, nodeTypes[..], nodeNames[..], nodeSizes[..], firstEdgeIndexes[..])
    ensures err.None? ==>
      EdgesStored(s, sm.strings, lastEdgeIndex, edgeTypes[..], edgeNamesOrIndexes[..], edgeToNodes[..])
    ensures err.None? ==> lastEdgeIndex <= NumEdges(s)
    ensures err.Some? ==> err.value.UnrecognizedEdgeType?
    ensures err.Some? ==> exists k :: nextEdge <= k < lastEdgeIndex && !KnownType(EdgeTypeAt(s, k))
  {
    ghost var strs0 := sm.strings;
    var name := sm.Get(StringAt(s, NodeField(s, i, "name")));
    InternedExtends(strs0, StringAt(s, NodeField(s, i, "name")));
    NodesStoredExtends(s, strs0, sm.strings, i, nodeTypes[..], nodeNames[..], nodeSizes[..], firstEdgeIndexes[..]);
    EdgesStoredExtends(s, strs0, sm.strings, nextEdge, edgeTypes[..], edgeNamesOrIndexes[..], edgeToNodes[..]);
    StoreNode(s, sm.strings, i, name, nextEdge, nodeTypes, nodeNames, nodeSizes, firstEdgeIndexes);

    lastEdgeIndex := nextEdge + NodeField(s, i, "edge_count");
    assert lastEdgeIndex == Prefix(s, i + 1);
    ghost var strs1 := sm.strings;
    ghost var nt, nn, ns, fe := nodeTypes[..], nodeNames[..], nodeSizes[..], firstEdgeIndexes[..];
    err := FillEdges(s, sm, nextEdge, lastEdgeIndex, edgeTypes, edgeNamesOrIndexes, edgeToNodes);
    assert nodeTypes[..] == nt && nodeNames[..] == nn && nodeSizes[..] == ns && firstEdgeIndexes[..] == fe;
    ExtendsTransitive(strs0, strs1, sm.strings);
    if err.None? {
      NodesStoredExtends(s, strs1, sm.strings, i + 1, nt, nn, ns, fe);
      if lastEdgeIndex > NumEdges(s) {
        PastEdgesUnknown(s, lastEdgeIndex);
        assert false;
      }
    }
  }

  /**
   * The node loop of `Construct`: every node and its edges are stored,
   * unless an edge with an unknown type stops the loop.
   */
  method FillGraph(s: HeapSnapshot, sm: StringMap,
                   nodeTypes: array<nat>, nodeNames: array<nat>, nodeSizes: array<nat>,
                   firstEdgeIndexes: array<nat>,
                   edgeTypes: array<nat>, edgeNamesOrIndexes: array<nat>, edgeToNodes: array<nat>)
    returns (err: Option<ConstructError>)
    requires sm.Valid()
    requires s.nodeCount <= nodeTypes.Length && s.nodeCount <= nodeNames.Length
    requires s.nodeCount <= nodeSizes.Length && s.nodeCount <= firstEdgeIndexes.Length
    requires nodeTypes != nodeNames && nodeTypes != nodeSizes && nodeTypes != firstEdgeIndexes
    requires nodeNames != nodeSizes && nodeNames != firstEdgeIndexes && nodeSizes != firstEdgeIndexes
    requires edgeTypes != edgeNamesOrIndexes && edgeTypes != edgeToNodes && edgeNamesOrIndexes != edgeToNodes
    requires {nodeTypes, nodeNames, nodeSizes, firstEdgeIndexes} !! {edgeTypes, edgeNamesOrIndexes, edgeToNodes}
    requires EdgesStored(s, sm.strings, 0, edgeTypes[..], edgeNamesOrIndexes[..], edgeToNodes[..])
    modifies sm, nodeTypes, nodeNames, nodeSizes, firstEdgeIndexes, edgeTypes, edgeNamesOrIndexes, edgeToNodes
    ensures sm.Valid() && Extends(old(sm.strings), sm.strings)
    ensures err.None? <==> ConstructSucceeds(s)
    ensures err.Some? ==> err.value.UnrecognizedEdgeType?
    ensures err.None? ==>
      NodesStored(s, sm.strings, s.nodeCount, nodeTypes[..], nodeNames[..], nodeSizes[..], firstEdgeIndexes[..])
    ensures err.None? ==>
      EdgesStored(s, sm.strings, Prefix(s, s.nodeCount), edgeTypes[..], edgeNamesOrIndexes[..], edgeToNodes[..])
  {
    var n := s.nodeCount;
    ghost var strs0 := sm.strings;
    var nextEdge: nat := 0;
    var i: nat := 0;
    err := None;
    while i < n
      invariant err.None? && i <= n
      invariant nextEdge == Prefix(s, i)
      invariant nextEdge <= NumEdges(s)
      invariant forall j :: 0 <= j < nextEdge ==> KnownType(EdgeTypeAt(s, j))
      invariant sm.Valid() && Extends(strs0, sm.strings)
      invariant NodesStored(s, sm.strings, i, nodeTypes[..], nodeNames[..], nodeSizes[..], firstEdgeIndexes[..])
      invariant EdgesStored(s, sm.strings, nextEdge, edgeTypes[..], edgeNamesOrIndexes[..], edgeToNodes[..])
    {
      ghost var strs1 := sm.strings;
      var lastEdgeIndex: nat;
      lastEdgeIndex, err := ConstructNode(s, sm, i, nextEdge, nodeTypes, nodeNames, nodeSizes, firstEdgeIndexes,
                                          edgeTypes, edgeNamesOrIndexes, edgeToNodes);
      ExtendsTransitive(strs0, strs1, sm.strings);
      if err.Some? {
        var k :| nextEdge <= k < lastEdgeIndex && !KnownType(EdgeTypeAt(s, k));
        UnknownTypeFails(s, i + 1, k);
        break;
      }
      nextEdge := lastEdgeIndex;

      if lastEdgeIndex > NumEdges(s) {
        assert false;
        return Some(ReadPastEdgeArray(lastEdgeIndex, NumEdges(s)));
      }
      i := i + 1;
    }
    if err.None? {
      SucceedsIntro(s, nextEdge);
    }
  }

  /**
   * `HeapGraph.Construct`: fills the node arrays, the first-edge prefix sums
   * and the edge arrays record by record, interning names into `sm`.
   */
  method Construct(s: HeapSnapshot, sm: StringMap) returns (r: Result<HeapGraph, ConstructError>)
    requires WellFormed(s) && sm.Valid()
    modifies sm
    ensures sm.Valid() && Extends(old(sm.strings), sm.strings)
    ensures r.Ok? <==> ConstructSucceeds(s)
    ensures r.Err? ==> r.error.UnrecognizedEdgeType?
    ensures r.Ok? ==> Built(s, sm.strings, r.value)
  {
    var n := s.nodeCount;
    var ec := s.edgeCount;
    var nodeTypes := Zeros(n);
    var nodeNames := Zeros(n);
    var nodeSizes := Zeros(n);
    var firstEdgeIndexes := Zeros(n + 1);
    var edgeTypes := Zeros(ec);
    var edgeNamesOrIndexes := Zeros(ec);
    var edgeToNodes := Zeros(ec);
    assert EdgesStored(s, sm.strings, 0, edgeTypes[..], edgeNamesOrIndexes[..], edgeToNodes[..]);
    var err := FillGraph(s, sm, nodeTypes, nodeNames, nodeSizes, firstEdgeIndexes,
                         edgeTypes, edgeNamesOrIndexes, edgeToNodes);
    if err.Some? {
      return Err(err.value);
    }
    ghost var fei0 := firstEdgeIndexes[..];
    firstEdgeIndexes[n] := NumEdges(s);
    assert firstEdgeIndexes[..] == fei0[n := NumEdges(s)];
    NodesStoredUpdate(s, sm.strings, n, nodeTypes[..], nodeNames[..], nodeSizes[..], fei0, NumEdges(s));
    var g := HeapGraph(nodeTypes[..], nodeNames[..], nodeSizes[..], firstEdgeIndexes[..],
                       edgeTypes[..], edgeNamesOrIndexes[..], edgeToNodes[..], RootNodeIndex(s));
    BuiltIntro(s, sm.strings, g, Prefix(s, n));
    r := Ok(g);
  }
}
