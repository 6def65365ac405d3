/**
 * The older deuterium agent's path instrumentation: the JavaScript
 * expressions that reach the object at the end of a retaining path (and its
 * parent) from a root, the roots a path may start from, and the one stack
 * map shared by all paths of a leak.
 */
module DeuteriumAgent {
  import opened Wrappers
  import opened JsStrings
  import opened GrowthGraph
  import opened GrowthTraversal
  import opened SerializedPaths
  import opened CommonUtil
  import Sequences

  // ---------------------------------------------------------------------
  // safeString
  // ---------------------------------------------------------------------

  /** `s.replace(/c/g, replacement)`: every occurrence of `c` becomes `replacement`. */
  function ReplaceAll(s: string, c: char, replacement: string): (r: string)
    ensures (forall i :: 0 <= i < |s| ==> s[i] != c) ==> r == s
    decreases |s|
  {
    if s == [] then ""
    else (if s[0] == c then replacement else [s[0]]) + ReplaceAll(s[1..], c, replacement)
  }

  /** Replacing a character by itself changes nothing. */
  lemma {:induction false} ReplaceBySelf(s: string, c: char)
    ensures ReplaceAll(s, c, [c]) == s
    decreases |s|
  {
    if s != [] {
      ReplaceBySelf(s[1..], c);
      assert s == [s[0]] + s[1..];
    }
  }

  /**
   * `safeString`: the replacement text `"\'"` is a JavaScript string holding
   * a plain quote, so quotes are replaced by quotes.
   */
  function SafeString(s: string): string {
    ReplaceAll(s, '\'', "'")
  }

  /** `safeString` returns its input unchanged: it escapes nothing. */
  lemma SafeStringIdentity(s: string)
    ensures SafeString(s) == s
  {
    ReplaceBySelf(s, '\'');
  }

  // ---------------------------------------------------------------------
  // getAccessString
  // ---------------------------------------------------------------------

  /** A bracketed property access: `['name']`. */
  function Property(name: string): string {
    "['" + name + "']"
  }

  /** The text one edge appends to the access expression. */
  function Segment(e: SerializeableEdge): string {
    match e.edgeType
    case Closure => ".__scope__" + Property(KeyString(e.indexOrName))
    case Index => Property(SafeString(KeyString(e.indexOrName)))
    case Named => Property(SafeString(KeyString(e.indexOrName)))
  }

  /** `getAccessString(p, false)`: the expression for the object at the end of the path. */
  function AccessString(path: seq<SerializeableEdge>): string {
    if path == [] then "root" else AccessString(path[..|path| - 1]) + Segment(path[|path| - 1])
  }

  /**
   * `getAccessString(p, true)`: the expression for the object holding the
   * last edge; for a closure edge, the closure's scope object.
   */
  function ParentAccessString(path: seq<SerializeableEdge>): string {
    if path == [] then "root"
    else if path[|path| - 1].edgeType == Closure then AccessString(path[..|path| - 1]) + ".__scope__"
    else AccessString(path[..|path| - 1])
  }

  /** Each further edge extends the access expression, so a prefix of a path gives a prefix of its expression. */
  lemma {:induction false} AccessStringPrefix(path: seq<SerializeableEdge>, n: nat)
    requires n <= |path|
    ensures StartsWith(AccessString(path), AccessString(path[..n]))
    decreases |path|
  {
    if n < |path| {
      var init := path[..|path| - 1];
      assert init[..n] == path[..n];
      AccessStringPrefix(init, n);
      var a := AccessString(init);
      assert AccessString(path)[..|a|] == a;
    } else {
      assert path[..n] == path;
    }
  }

  /** Both expressions begin at the root; with no edges both are the root itself. */
  lemma AccessStringsStartAtRoot(path: seq<SerializeableEdge>)
    ensures StartsWith(AccessString(path), "root") && StartsWith(ParentAccessString(path), "root")
    ensures path == [] ==> AccessString(path) == "root" == ParentAccessString(path)
  {
    AccessStringPrefix(path, 0);
    if path != [] {
      var init := path[..|path| - 1];
      AccessStringPrefix(init, 0);
      assert init[..0] == path[..0] == [];
    }
  }

  /**
   * The object at the end of a path is the property named by the last edge
   * of the parent expression's object: the parent expression followed by
   * `['name']` is the full expression.
   */
  lemma AccessIsParentThenProperty(path: seq<SerializeableEdge>)
    requires path != []
    ensures AccessString(path) == ParentAccessString(path) + Property(KeyString(path[|path| - 1].indexOrName))
  {
    var last := path[|path| - 1];
    AccessStep(path);
    ParentStep(path);
    SegmentIsProperty(last);
    if last.edgeType == Closure {
      Sequences.AppendAssoc(AccessString(path[..|path| - 1]), ".__scope__", Property(KeyString(last.indexOrName)));
    }
  }

  /** The last edge's text ends the access expression. */
  lemma AccessStep(path: seq<SerializeableEdge>)
    requires path != []
    ensures AccessString(path) == AccessString(path[..|path| - 1]) + Segment(path[|path| - 1])
  {
  }

  /** The parent expression stops before the last edge, after `.__scope__` for a closure edge. */
  lemma ParentStep(path: seq<SerializeableEdge>)
    requires path != []
    ensures path[|path| - 1].edgeType == Closure ==>
      ParentAccessString(path) == AccessString(path[..|path| - 1]) + ".__scope__"
    ensures path[|path| - 1].edgeType != Closure ==> ParentAccessString(path) == AccessString(path[..|path| - 1])
  {
  }

  /** An edge's text is its name as a property access, after `.__scope__` for a closure edge. */
  lemma SegmentIsProperty(e: SerializeableEdge)
    ensures e.edgeType == Closure ==> Segment(e) == ".__scope__" + Property(KeyString(e.indexOrName))
    ensures e.edgeType != Closure ==> Segment(e) == Property(KeyString(e.indexOrName))
  {
    if e.edgeType != Closure {
      SafeStringIdentity(KeyString(e.indexOrName));
    }
  }

  /** The loop of `getAccessString`: appends each edge's text, stopping at the last edge when `parent` is set. */
  method GetAccessString(p: SerializeableGCPath, parent: bool) returns (s: string)
    ensures s == if parent then ParentAccessString(p.path) else AccessString(p.path)
  {
    s := "root";
    var path := p.path;
    for i := 0 to |path|
      invariant s == AccessString(path[..i])
      invariant parent && path != [] ==> i < |path|
    {
      var l := path[i];
      assert path[..i + 1][..i] == path[..i];
      if parent && i == |path| - 1 {
        assert path[..i] == path[..|path| - 1];
        if l.edgeType == Closure {
          return s + ".__scope__";
        } else {
          return s;
        }
      }
      match l.edgeType {
        case Closure =>
          s := s + (".__scope__" + Property(KeyString(l.indexOrName)));
        case Index =>
          s := s + Property(SafeString(KeyString(l.indexOrName)));
        case Named =>
          s := s + Property(SafeString(KeyString(l.indexOrName)));
      }
    }
    assert path[..|path|] == path;
  }

  // ---------------------------------------------------------------------
  // getPossibleRoots
  // ---------------------------------------------------------------------

  /** What the roots of a path are looked up as: the window, the elements of one tag, or nothing. */
  datatype RootQuery = Window | ElementsByTag(tag: string) | NoRoots

  /** `getPossibleRoots`, up to the DOM lookup `document.getElementsByTagName(tag)`. */
  function PossibleRoots(root: GCRoot): (r: RootQuery)
    ensures r.Window? <==> root.Global?
    ensures r.ElementsByTag? <==> root.Dom? && StartsWith(root.elementType, "HTML") && EndsWith(root.elementType, "Element")
  {
    match root
    case Global => Window
    case Dom(elementType) =>
      if StartsWith(elementType, "HTML") && EndsWith(elementType, "Element") then
        ElementsByTag(ToLower(JsSlice(elementType, 4, -7)))
      else NoRoots
  }

  /** The element type `HTML<X>Element` is looked up by the tag lowercase(X). */
  lemma DomRootTag(x: string)
    ensures PossibleRoots(Dom("HTML" + x + "Element")) == ElementsByTag(ToLower(x))
  {
    var t := "HTML" + x + "Element";
    assert t[..4] == "HTML";
    assert t[|t| - 7..] == "Element";
    assert t[4..4 + |x|] == x;
  }

  /** The prefix and suffix cannot overlap, so every matching element type has that form. */
  lemma DomRootShape(t: string)
    requires StartsWith(t, "HTML") && EndsWith(t, "Element")
    ensures |t| >= 11 && t == "HTML" + t[4..|t| - 7] + "Element"
    ensures PossibleRoots(Dom(t)) == ElementsByTag(ToLower(t[4..|t| - 7]))
  {
    assert t[3] == t[..4][3] == 'L';
    assert t == t[..4] + t[4..|t| - 7] + t[|t| - 7..];
    DomRootTag(t[4..|t| - 7]);
  }

  // ---------------------------------------------------------------------
  // instrumentPath
  // ---------------------------------------------------------------------

  /** A path as the agent receives it: an object, compared by identity (`ref`). */
  datatype PathObject = PathObject(ref: nat, value: SerializeableGCPath)

  /** What `instrumentPath` hands to `replaceObjectsWithProxies` for one path. */
  datatype Instrumentation = Instrumentation(roots: RootQuery, propName: EdgeKey, access: string, parentAccess: string)

  function PlanFor(p: SerializeableGCPath): Instrumentation
    requires p.path != []
  {
    Instrumentation(PossibleRoots(p.root), p.path[|p.path| - 1].indexOrName,
                    AccessString(p.path), ParentAccessString(p.path))
  }

  /** The key `stackTraces` is consulted with: `paths[0]`, or `undefined` for no paths. */
  function FirstRef(paths: seq<PathObject>): Option<nat> {
    if paths == [] then None else Some(paths[0].ref)
  }

  /** `stackTraces` maps a canonical path to its stack map; maps are numbered as they are created. */
  type TraceMaps = map<Option<nat>, nat>

  /** The stack map for `key` (reused, or created as map number `next`), and the table and counter after. */
  function MapFor(traces: TraceMaps, next: nat, key: Option<nat>): (nat, TraceMaps, nat) {
    if key in traces then (traces[key], traces, next)
    else (next, traces[key := next], next + 1)
  }

  /** Every stored map was created before the counter. */
  ghost predicate Numbered(traces: TraceMaps, next: nat) {
    forall k :: k in traces ==> traces[k] < next
  }

  /**
   * The map for a key is stored under it; an existing one is reused and
   * nothing changes; a new one differs from every stored map and only that
   * key is added.
   */
  lemma MapForReuses(traces: TraceMaps, next: nat, key: Option<nat>)
    requires Numbered(traces, next)
    ensures var (id, traces', next') := MapFor(traces, next, key);
      Numbered(traces', next') && key in traces' && traces'[key] == id
      && (key in traces ==> id == traces[key] && traces' == traces && next' == next)
      && (key !in traces ==> (forall k :: k in traces ==> traces[k] != id) && traces' - {key} == traces)
  {
  }

  /** Instrumenting again from the same first path finds the same map and changes nothing. */
  lemma MapForIdempotent(traces: TraceMaps, next: nat, key: Option<nat>)
    requires Numbered(traces, next)
    ensures var (id, traces', next') := MapFor(traces, next, key);
      MapFor(traces', next', key) == (id, traces', next')
  {
  }

  /** The agent's table of stack maps. */
  class StackTraceTable {
    var stackTraces: TraceMaps
    var nextMap: nat

    ghost predicate Valid()
      reads this
    {
      Numbered(stackTraces, nextMap)
    }

    constructor ()
      ensures Valid() && stackTraces == map[] && nextMap == 0
    {
      stackTraces := map[];
      nextMap := 0;
    }

    /**
     * `instrumentPath`: fetches or creates the map of the first path, then
     * computes each path's roots, property name and access expressions.
     * A path without edges makes the source throw when it reads the last
     * edge; the paths before it have been handled and the map stays stored.
     */
    method InstrumentPath(paths: seq<PathObject>) returns (mapId: nat, plan: seq<Instrumentation>, threw: bool)
      requires Valid()
      modifies this
      ensures Valid()
      ensures (mapId, stackTraces, nextMap) == MapFor(old(stackTraces), old(nextMap), FirstRef(paths))
      ensures Planned(paths, plan, threw)
    {
      var key := FirstRef(paths);
      if key in stackTraces {
        mapId := stackTraces[key];
      } else {
        mapId := nextMap;
        stackTraces := stackTraces[key := mapId];
        nextMap := nextMap + 1;
      }
      MapForReuses(old(stackTraces), old(nextMap), key);
      plan, threw := PlanPaths(paths);
    }
  }

  /**
   * The outcome of the loop of `instrumentPath`: one entry per path up to
   * the first path without edges, where it throws; every entry when there
   * is none.
   */
  ghost predicate Planned(paths: seq<PathObject>, plan: seq<Instrumentation>, threw: bool) {
    |plan| <= |paths|
    && (forall j :: 0 <= j < |plan| ==> paths[j].value.path != [] && plan[j] == PlanFor(paths[j].value))
    && (threw <==> exists i :: 0 <= i < |paths| && paths[i].value.path == [])
    && (threw ==> |plan| < |paths| && paths[|plan|].value.path == [])
    && (!threw ==> |plan| == |paths|)
  }

  /** The loop of `instrumentPath` over the paths: each one's roots, property name and access expressions. */
  method PlanPaths(paths: seq<PathObject>) returns (plan: seq<Instrumentation>, threw: bool)
    ensures Planned(paths, plan, threw)
  {
    plan := [];
    for i := 0 to |paths|
      invariant |plan| == i
      invariant forall j :: 0 <= j < i ==> paths[j].value.path != [] && plan[j] == PlanFor(paths[j].value)
    {
      var p := paths[i].value;
      var accessString := GetAccessString(p, false);
      var parentAccessString := GetAccessString(p, true);
      if p.path == [] {
        threw := true;
        return;
      }
      var step := Instrumentation(PossibleRoots(p.root), p.path[|p.path| - 1].indexOrName, accessString, parentAccessString);
      assert step == PlanFor(paths[i].value);
      PlanExtend(paths, plan, step);
      plan := plan + [step];
    }
    threw := false;
  }

  lemma PlanExtend(paths: seq<PathObject>, plan: seq<Instrumentation>, step: Instrumentation)
    requires |plan| < |paths| && paths[|plan|].value.path != []
    requires forall j :: 0 <= j < |plan| ==> paths[j].value.path != [] && plan[j] == PlanFor(paths[j].value)
    requires step == PlanFor(paths[|plan|].value)
    ensures forall j :: 0 <= j < |plan| + 1 ==> paths[j].value.path != [] && (plan + [step])[j] == PlanFor(paths[j].value)
  {
    forall j | 0 <= j < |plan| + 1
      ensures paths[j].value.path != [] && (plan + [step])[j] == PlanFor(paths[j].value)
    {
      if j < |plan| {
        assert (plan + [step])[j] == plan[j];
      }
    }
  }
}
