/**
 * The serialised form of a retaining path, shared by the heap-graph code
 * that produces it and the printers that consume it.
 */
module SerializedPaths {
  import opened GrowthGraph
  import opened GrowthTraversal

  /** `RootType`: the global object, or a DOM element of a given type. */
  datatype GCRoot = Global | Dom(elementType: string)

  /** `SerializeableEdge`: the edge's kind and its index or name. */
  datatype SerializeableEdge = SerializeableEdge(edgeType: EdgeType, indexOrName: EdgeKey)

  /** `SerializeableGCPath`: a root and the edges followed from it. */
  datatype SerializeableGCPath = SerializeableGCPath(root: GCRoot, path: seq<SerializeableEdge>)
}
