/**
 * `injectIntoHead`: parses a page, finds its head (or else its html
 * element) and its inline scripts by a post-order search, prepends the
 * agent's nodes to the head, passes each inline script's text through the
 * JavaScript transform, and prints the page again. Parsing and printing are
 * parameters; the tree is a value and nodes are addressed by their path of
 * child indices.
 */
module HeadInjection {
  import opened Wrappers
  import opened JsStrings

  /** A parsed node: an element with its attributes in source order, or a text (or other data) node. */
  datatype HtmlNode = Element(name: string, attribs: seq<(string, string)>, children: seq<HtmlNode>) | Data(data: string)

  /** The child indices leading from the list of top-level nodes to a node. */
  type Path = seq<nat>

  // ---------------------------------------------------------------------
  // Addressing nodes
  // ---------------------------------------------------------------------

  /** The node at a path, if the path leads to one. */
  function NodeAt(nodes: seq<HtmlNode>, p: Path): Option<HtmlNode>
    decreases p
  {
    if p == [] || p[0] >= |nodes| then None
    else if |p| == 1 then Some(nodes[p[0]])
    else if nodes[p[0]].Element? then NodeAt(nodes[p[0]].children, p[1..])
    else None
  }

  /** A change applied to one node: prepend nodes to its children, or transform a script's text. */
  datatype Edit = Prepend(injection: seq<HtmlNode>) | RunScript(filename: string, transform: (string, string) -> string)

  /** A script's text is its first child; a script without children is left alone. */
  function ApplyEdit(n: HtmlNode, e: Edit): HtmlNode {
    match e
    case Prepend(injection) =>
      if n.Element? then n.(children := injection + n.children) else n
    case RunScript(filename, transform) =>
      if n.Element? && |n.children| > 0 && n.children[0].Data? then
        n.(children := n.children[0 := Data(transform(filename, n.children[0].data))])
      else n
  }

  /** The forest with the node at `p` edited; unchanged when `p` leads nowhere. */
  function UpdateAt(nodes: seq<HtmlNode>, p: Path, e: Edit): (r: seq<HtmlNode>)
    ensures |r| == |nodes|
    decreases p
  {
    if p == [] || p[0] >= |nodes| then nodes
    else if |p| == 1 then nodes[p[0] := ApplyEdit(nodes[p[0]], e)]
    else if nodes[p[0]].Element? then
      nodes[p[0] := nodes[p[0]].(children := UpdateAt(nodes[p[0]].children, p[1..], e))]
    else nodes
  }

  /** The edited node is where it was, edited. */
  lemma {:induction false} UpdateAtNode(nodes: seq<HtmlNode>, p: Path, e: Edit)
    requires NodeAt(nodes, p).Some?
    ensures NodeAt(UpdateAt(nodes, p, e), p) == Some(ApplyEdit(NodeAt(nodes, p).value, e))
    decreases p
  {
    if |p| > 1 {
      UpdateAtNode(nodes[p[0]].children, p[1..], e);
    }
  }

  /** Neither path extends the other. */
  predicate Apart(p: Path, q: Path) {
    exists i :: 0 <= i < |p| && i < |q| && p[i] != q[i]
  }

  /** Nodes off the edited node's line of ancestors and descendants do not change. */
  lemma {:induction false} UpdateAtElsewhere(nodes: seq<HtmlNode>, p: Path, q: Path, e: Edit)
    requires Apart(p, q)
    ensures NodeAt(UpdateAt(nodes, p, e), q) == NodeAt(nodes, q)
    decreases p
  {
    var i :| 0 <= i < |p| && i < |q| && p[i] != q[i];
    if p[0] < |nodes| && |p| > 1 && nodes[p[0]].Element? && q[0] == p[0] && |q| > 1 {
      assert p[1..][i - 1] != q[1..][i - 1];
      UpdateAtElsewhere(nodes[p[0]].children, p[1..], q[1..], e);
    }
  }

  // ---------------------------------------------------------------------
  // The post-order search
  // ---------------------------------------------------------------------

  function Prefixed(i: nat, v: seq<(Path, HtmlNode)>): (r: seq<(Path, HtmlNode)>)
    ensures |r| == |v| && forall k :: 0 <= k < |v| ==> r[k] == ([i] + v[k].0, v[k].1)
  {
    seq(|v|, k requires 0 <= k < |v| => ([i] + v[k].0, v[k].1))
  }

  /** The nodes with their paths in the order `search` reaches them: each node after its children. */
  function Visit(nodes: seq<HtmlNode>): seq<(Path, HtmlNode)>
    decreases nodes
  {
    if nodes == [] then []
    else
      var k := |nodes| - 1;
      var n := nodes[k];
      Visit(nodes[..k]) + Prefixed(k, if n.Element? then Visit(n.children) else []) + [([k], n)]
  }

  lemma NodeAtPrefixForest(nodes: seq<HtmlNode>, k: nat, p: Path)
    requires k <= |nodes| && p != [] && p[0] < k
    ensures NodeAt(nodes[..k], p) == NodeAt(nodes, p)
  {
  }

  /** Every node the search reaches is the node at the path it is listed with, and its path starts below `k`. */
  lemma {:induction false} VisitSound(nodes: seq<HtmlNode>)
    ensures forall j :: 0 <= j < |Visit(nodes)| ==>
      NodeAt(nodes, Visit(nodes)[j].0) == Some(Visit(nodes)[j].1) && Visit(nodes)[j].0[0] < |nodes|
    decreases nodes
  {
    if nodes != [] {
      var k := |nodes| - 1;
      var n := nodes[k];
      var front := Visit(nodes[..k]);
      var inner := if n.Element? then Visit(n.children) else [];
      var mid := Prefixed(k, inner);
      VisitSound(nodes[..k]);
      if n.Element? {
        VisitSound(n.children);
      }
      var v := Visit(nodes);
      assert v == front + mid + [([k], n)];
      forall j | 0 <= j < |v|
        ensures NodeAt(nodes, v[j].0) == Some(v[j].1) && v[j].0[0] < |nodes|
      {
        if j < |front| {
          assert v[j] == front[j];
          NodeAtPrefixForest(nodes, k, front[j].0);
          assert nodes[..k][..] == nodes[..k];
        } else if j < |front| + |mid| {
          var m := j - |front|;
          assert v[j] == mid[m] == ([k] + inner[m].0, inner[m].1);
          assert inner[m].0 != [];
          assert ([k] + inner[m].0)[1..] == inner[m].0;
        }
      }
    }
  }

  /** The search lists a node's descendants before the node itself. */
  lemma {:induction false} VisitPostOrder(nodes: seq<HtmlNode>, i: nat, j: nat)
    requires i < |Visit(nodes)| && j < |Visit(nodes)|
    requires |Visit(nodes)[j].0| < |Visit(nodes)[i].0| && Visit(nodes)[i].0[..|Visit(nodes)[j].0|] == Visit(nodes)[j].0
    ensures i < j
    decreases nodes
  {
    var k := |nodes| - 1;
    var n := nodes[k];
    var front := Visit(nodes[..k]);
    var inner := if n.Element? then Visit(n.children) else [];
    var mid := Prefixed(k, inner);
    var v := Visit(nodes);
    assert v == front + mid + [([k], n)];
    VisitSound(nodes[..k]);
    var p, q := v[i].0, v[j].0;
    assert q != [] by {
      VisitSound(nodes);
    }
    assert p[0] == q[0];
    if j < |front| {
      assert v[j] == front[j];
      if i >= |front| {
        // Every later path starts with k, but the front's paths start below k.
        assert false;
      }
      assert v[i] == front[i];
      VisitPostOrder(nodes[..k], i, j);
    } else if j < |front| + |mid| {
      var m := j - |front|;
      assert v[j] == mid[m];
      if i < |front| {
      } else if i < |front| + |mid| {
        var l := i - |front|;
        assert v[i] == mid[l];
        assert n.Element?;
        assert inner[l].0 == p[1..] && inner[m].0 == q[1..];
        assert inner[l].0[..|inner[m].0|] == inner[m].0;
        VisitPostOrder(n.children, l, m);
      } else {
        assert false;
      }
    } else {
      assert q == [k];
    }
  }

  // ---------------------------------------------------------------------
  // What the search finds
  // ---------------------------------------------------------------------

  /** Tag names are compared lower-cased. */
  predicate HasTag(n: HtmlNode, tag: string) {
    n.Element? && ToLower(n.name) == tag
  }

  /** The position of the first listed node with the tag. */
  function FirstTagged(v: seq<(Path, HtmlNode)>, tag: string): (r: Option<nat>)
    ensures r.Some? ==> r.value < |v| && HasTag(v[r.value].1, tag)
    ensures forall j :: 0 <= j < |v| && (r.None? || j < r.value) ==> !HasTag(v[j].1, tag)
  {
    if v == [] then None
    else if HasTag(v[0].1, tag) then Some(0)
    else match FirstTagged(v[1..], tag)
      case None => None
      case Some(i) => Some(i + 1)
  }

  /** Where the agent goes: the first head, else the first html element, in search order. */
  function Target(v: seq<(Path, HtmlNode)>): Option<Path> {
    match FirstTagged(v, "head")
    case Some(i) => Some(v[i].0)
    case None =>
      match FirstTagged(v, "html")
      case Some(i) => Some(v[i].0)
      case None => None
  }

  /**
   * Entry `i` is the first head, or there is no head and it is the first
   * html element.
   */
  predicate FirstWith(v: seq<(Path, HtmlNode)>, i: nat)
    requires i < |v|
  {
    (HasTag(v[i].1, "head") && forall j :: 0 <= j < i ==> !HasTag(v[j].1, "head"))
    || (HasTag(v[i].1, "html") && (forall j :: 0 <= j < |v| ==> !HasTag(v[j].1, "head"))
        && forall j :: 0 <= j < i ==> !HasTag(v[j].1, "html"))
  }

  /** The target is a head if the page has one, else an html element, and it is the first such node the search reaches. */
  lemma TargetChoice(roots: seq<HtmlNode>)
    ensures var v := Visit(roots);
      match Target(v)
      case None => forall j :: 0 <= j < |v| ==> !HasTag(v[j].1, "head") && !HasTag(v[j].1, "html")
      case Some(p) =>
        (exists i :: 0 <= i < |v| && v[i].0 == p && NodeAt(roots, p) == Some(v[i].1) && FirstWith(v, i))
  {
    VisitSound(roots);
  }

  /** The first attribute whose name, lower-cased, is `key`, or -1 (attribute order is source order). */
  function FirstKey(attribs: seq<(string, string)>, key: string): (r: int)
    ensures -1 <= r < |attribs|
    ensures r >= 0 ==> ToLower(attribs[r].0) == key
    ensures forall j :: 0 <= j < |attribs| && (r == -1 || j < r) ==> ToLower(attribs[j].0) != key
  {
    if attribs == [] then -1
    else if ToLower(attribs[0].0) == key then 0
    else
      var k := FirstKey(attribs[1..], key);
      if k == -1 then -1 else k + 1
  }

  /** The `type` values an inline script may have (`text/x-javascript` is listed twice in the source). */
  const ScriptTypes: set<string> := {"application/javascript", "text/javascript", "text/x-javascript"}

  /** A script element without `src` whose `type` is absent or one of the JavaScript types. */
  predicate IsInlineScript(n: HtmlNode) {
    HasTag(n, "script") && FirstKey(n.attribs, "src") == -1
    && (var t := FirstKey(n.attribs, "type"); t == -1 || ToLower(n.attribs[t].1) in ScriptTypes)
  }

  /** Scripts with a source, and scripts of another type (templates), are never rewritten; untyped ones are. */
  lemma InlineScriptKinds(name: string, attribs: seq<(string, string)>, children: seq<HtmlNode>)
    requires ToLower(name) == "script"
    ensures (exists j :: 0 <= j < |attribs| && ToLower(attribs[j].0) == "src") ==> !IsInlineScript(Element(name, attribs, children))
    ensures (forall j :: 0 <= j < |attribs| ==> ToLower(attribs[j].0) !in {"src", "type"}) ==> IsInlineScript(Element(name, attribs, children))
    ensures FirstKey(attribs, "type") >= 0 && ToLower(attribs[FirstKey(attribs, "type")].1) !in ScriptTypes ==> !IsInlineScript(Element(name, attribs, children))
  {
  }

  /** The paths of the inline scripts, in search order. */
  function InlineScripts(v: seq<(Path, HtmlNode)>): (r: seq<Path>)
    ensures |r| <= |v|
    ensures forall p :: p in r ==> exists j :: 0 <= j < |v| && v[j].0 == p && IsInlineScript(v[j].1)
  {
    if v == [] then []
    else (if IsInlineScript(v[0].1) then [v[0].0] else []) + InlineScripts(v[1..])
  }

  /** The file name the i-th inline script is transformed under. */
  function InlineName(filename: string, i: nat): string {
    filename + "-inline" + NatToString(i) + ".js"
  }

  /** Different inline scripts of a page get different file names. */
  lemma InlineNamesDistinct(filename: string, i: nat, j: nat)
    requires i != j
    ensures InlineName(filename, i) != InlineName(filename, j)
  {
    var a := filename + "-inline";
    if InlineName(filename, i) == InlineName(filename, j) {
      var x, y := NatToString(i), NatToString(j);
      assert a + x + ".js" == a + y + ".js";
      assert |x| == |y|;
      assert x == (a + x + ".js")[|a|..|a| + |x|];
      assert y == (a + y + ".js")[|a|..|a| + |y|];
      NatToStringInjective(i, j);
    }
  }

  // ---------------------------------------------------------------------
  // injectIntoHead
  // ---------------------------------------------------------------------

  /** The forest after the first `n` inline scripts have been transformed. */
  function RewriteScripts(roots: seq<HtmlNode>, scripts: seq<Path>, filename: string, transform: (string, string) -> string, n: nat): seq<HtmlNode>
    requires n <= |scripts|
  {
    if n == 0 then roots
    else UpdateAt(RewriteScripts(roots, scripts, filename, transform, n - 1), scripts[n - 1],
                  RunScript(InlineName(filename, n - 1), transform))
  }

  /** The page `injectIntoHead` returns. */
  function InjectedPage(filename: string, source: string, parse: string -> Option<seq<HtmlNode>>,
                        serialize: seq<HtmlNode> -> string, injection: seq<HtmlNode>,
                        transform: (string, string) -> string): string
  {
    match parse(source)
    case None => source
    case Some(roots) =>
      var v := Visit(roots);
      match Target(v)
      case None => source
      case Some(target) =>
        var scripts := InlineScripts(v);
        serialize(UpdateAt(RewriteScripts(roots, scripts, filename, transform, |scripts|), target, Prepend(injection)))
  }

  /** A page that does not parse, or that has neither head nor html element, is returned unchanged. */
  lemma UnchangedWithoutTarget(filename: string, source: string, parse: string -> Option<seq<HtmlNode>>,
                               serialize: seq<HtmlNode> -> string, injection: seq<HtmlNode>,
                               transform: (string, string) -> string)
    requires parse(source).Some? ==> Target(Visit(parse(source).value)).None?
    ensures InjectedPage(filename, source, parse, serialize, injection, transform) == source
  {
  }

  /**
   * The agent's nodes come first, in order, among the target's children,
   * followed by its own children; the target keeps its name and attributes.
   */
  lemma InjectionPlaced(nodes: seq<HtmlNode>, target: Path, injection: seq<HtmlNode>)
    requires NodeAt(nodes, target).Some? && NodeAt(nodes, target).value.Element?
    ensures var before := NodeAt(nodes, target).value;
      NodeAt(UpdateAt(nodes, target, Prepend(injection)), target)
        == Some(Element(before.name, before.attribs, injection + before.children))
  {
    UpdateAtNode(nodes, target, Prepend(injection));
  }

  /** A script's text is replaced by the transform of it, under the script's file name; its other children stay. */
  lemma ScriptTransformed(nodes: seq<HtmlNode>, p: Path, filename: string, i: nat, transform: (string, string) -> string)
    requires NodeAt(nodes, p).Some? && NodeAt(nodes, p).value.Element?
    requires |NodeAt(nodes, p).value.children| > 0 && NodeAt(nodes, p).value.children[0].Data?
    ensures var before := NodeAt(nodes, p).value;
      var r := NodeAt(UpdateAt(nodes, p, RunScript(InlineName(filename, i), transform)), p);
      r.Some? && r.value.Element? && r.value.name == before.name && |r.value.children| == |before.children|
      && r.value.children[0] == Data(transform(InlineName(filename, i), before.children[0].data))
      && r.value.children[1..] == before.children[1..]
  {
    UpdateAtNode(nodes, p, RunScript(InlineName(filename, i), transform));
  }

  /**
   * The script step as written: `n.children[0].data = …` throws a
   * TypeError when the script has no children (`<script></script>`).
   */
  function RewriteScriptsAsWritten(roots: seq<HtmlNode>, scripts: seq<Path>, filename: string, transform: (string, string) -> string, n: nat): Option<seq<HtmlNode>>
    requires n <= |scripts|
  {
    if n == 0 then Some(roots)
    else match RewriteScriptsAsWritten(roots, scripts, filename, transform, n - 1)
      case None => None
      case Some(page) =>
        var node := NodeAt(page, scripts[n - 1]);
        if node.Some? && node.value.Element? && node.value.children == [] then None
        else Some(UpdateAt(page, scripts[n - 1], RunScript(InlineName(filename, n - 1), transform)))
  }

  /** `injectIntoHead` as written: `None` when it throws. */
  function InjectedPageAsWritten(filename: string, source: string, parse: string -> Option<seq<HtmlNode>>,
                                 serialize: seq<HtmlNode> -> string, injection: seq<HtmlNode>,
                                 transform: (string, string) -> string): Option<string>
  {
    match parse(source)
    case None => Some(source)
    case Some(roots) =>
      var v := Visit(roots);
      match Target(v)
      case None => Some(source)
      case Some(target) =>
        var scripts := InlineScripts(v);
        match RewriteScriptsAsWritten(roots, scripts, filename, transform, |scripts|)
        case None => None
        case Some(page) => Some(serialize(UpdateAt(page, target, Prepend(injection))))
  }

  /** `<html><head><script></script></head></html>`. */
  function EmptyScriptPage(): seq<HtmlNode> {
    [Element("html", [], [Element("head", [], [Element("script", [], [])])])]
  }

  /** Lower-casing a string without capitals changes nothing. */
  lemma NoCapitals(s: string)
    requires forall i :: 0 <= i < |s| ==> !('A' <= s[i] <= 'Z')
    ensures ToLower(s) == s
  {
  }

  lemma LowerTagNames()
    ensures ToLower("script") == "script" && ToLower("head") == "head"
  {
    NoCapitals("script");
    NoCapitals("head");
  }

  /** The search on that page: the script, then the head, then the html element. */
  lemma EmptyScriptPageVisit()
    ensures var script := Element("script", [], []);
      var head := Element("head", [], [script]);
      Visit(EmptyScriptPage()) == [([0, 0, 0], script), ([0, 0], head), ([0], Element("html", [], [head]))]
  {
    var script := Element("script", [], []);
    var head := Element("head", [], [script]);
    var roots := EmptyScriptPage();
    assert [script][..0] == [head][..0] == roots[..0] == [];
    assert Visit([script]) == [([0], script)];
    assert [0] + [0] == [0, 0] && [0] + [0, 0] == [0, 0, 0];
    assert Prefixed(0, [([0], script)]) == [([0, 0], script)];
    assert Visit([head]) == [([0, 0], script), ([0], head)];
    assert Prefixed(0, [([0, 0], script), ([0], head)]) == [([0, 0, 0], script), ([0, 0], head)];
  }

  /** What the search finds on that page: the head as target and the empty script as the one inline script. */
  lemma EmptyScriptPageFinds()
    ensures var v := Visit(EmptyScriptPage());
      Target(v) == Some([0, 0]) && InlineScripts(v) == [[0, 0, 0]]
  {
    EmptyScriptPageVisit();
    var script := Element("script", [], []);
    var head := Element("head", [], [script]);
    var v := [([0, 0, 0], script), ([0, 0], head), ([0], Element("html", [], [head]))];
    LowerTagNames();
    EmptyScriptPageTarget(v);
    EmptyScriptPageScripts(v);
  }

  lemma EmptyScriptPageTarget(v: seq<(Path, HtmlNode)>)
    requires |v| == 3 && v[1].0 == [0, 0]
    requires !HasTag(v[0].1, "head") && HasTag(v[1].1, "head")
    ensures Target(v) == Some([0, 0])
  {
    assert FirstTagged(v[1..], "head") == Some(0);
  }

  lemma EmptyScriptPageScripts(v: seq<(Path, HtmlNode)>)
    requires |v| == 3 && v[0].0 == [0, 0, 0]
    requires IsInlineScript(v[0].1) && !IsInlineScript(v[1].1) && !IsInlineScript(v[2].1)
    ensures InlineScripts(v) == [[0, 0, 0]]
  {
    assert InlineScripts(v[2..][1..]) == [];
    assert InlineScripts(v[1..][1..]) == [];
    assert v[1..][1..] == v[2..];
  }

  /** An edit that leaves its node as it is leaves the forest as it is. */
  lemma {:induction false} UpdateAtNoChange(nodes: seq<HtmlNode>, p: Path, e: Edit)
    requires NodeAt(nodes, p).Some? && ApplyEdit(NodeAt(nodes, p).value, e) == NodeAt(nodes, p).value
    ensures UpdateAt(nodes, p, e) == nodes
    decreases p
  {
    if |p| > 1 {
      UpdateAtNoChange(nodes[p[0]].children, p[1..], e);
    }
  }

  /**
   * On a page whose only inline script is empty, the function as written
   * throws, while the model (which leaves an empty script alone) injects
   * the agent into the head.
   */
  lemma EmptyScriptThrows(filename: string, serialize: seq<HtmlNode> -> string, injection: seq<HtmlNode>, transform: (string, string) -> string)
    ensures InjectedPageAsWritten(filename, "", _ => Some(EmptyScriptPage()), serialize, injection, transform) == None
    ensures InjectedPage(filename, "", _ => Some(EmptyScriptPage()), serialize, injection, transform)
      == serialize([Element("html", [], [Element("head", [], injection + [Element("script", [], [])])])])
  {
    EmptyScriptPageFinds();
    EmptyScriptRewrites(filename, transform);
    EmptyScriptInjected(injection);
  }

  /** The empty script sits at path [0, 0, 0]. */
  lemma EmptyScriptNode()
    ensures NodeAt(EmptyScriptPage(), [0, 0, 0]) == Some(Element("script", [], []))
  {
    var script := Element("script", [], []);
    var head := Element("head", [], [script]);
    assert [0, 0, 0][1..] == [0, 0] && [0, 0][1..] == [0];
    assert NodeAt([script], [0]) == Some(script);
    assert NodeAt([head], [0, 0]) == Some(script);
  }

  /** Rewriting the one empty script: the source throws, the model leaves the page as it is. */
  lemma EmptyScriptRewrites(filename: string, transform: (string, string) -> string)
    ensures RewriteScriptsAsWritten(EmptyScriptPage(), [[0, 0, 0]], filename, transform, 1) == None
    ensures RewriteScripts(EmptyScriptPage(), [[0, 0, 0]], filename, transform, 1) == EmptyScriptPage()
  {
    var roots := EmptyScriptPage();
    EmptyScriptNode();
    assert RewriteScriptsAsWritten(roots, [[0, 0, 0]], filename, transform, 0) == Some(roots);
    UpdateAtNoChange(roots, [0, 0, 0], RunScript(InlineName(filename, 0), transform));
  }

  /** Prepending the injection to the head of that page. */
  lemma EmptyScriptInjected(injection: seq<HtmlNode>)
    ensures UpdateAt(EmptyScriptPage(), [0, 0], Prepend(injection))
      == [Element("html", [], [Element("head", [], injection + [Element("script", [], [])])])]
  {
    var script := Element("script", [], []);
    var head := Element("head", [], [script]);
    assert [0, 0][1..] == [0];
    assert UpdateAt([head], [0], Prepend(injection)) == [Element("head", [], injection + [script])];
  }

  /**
   * The model edits the scripts before injecting: nodes are addressed by
   * path, and prepending to the target shifts the paths below it. The
   * source edits the same node objects in the other order; the two edits
   * touch different nodes, so the page is the same.
   */
  method InjectIntoHead(filename: string, source: string, parse: string -> Option<seq<HtmlNode>>,
                        serialize: seq<HtmlNode> -> string, injection: seq<HtmlNode>,
                        transform: (string, string) -> string) returns (r: string)
    ensures r == InjectedPage(filename, source, parse, serialize, injection, transform)
  {
    var parsed := parse(source);
    if parsed.None? {
      return source;
    }
    var roots := parsed.value;
    var v := Visit(roots);
    var target := Target(v);
    if target.None? {
      return source;
    }
    var scripts := InlineScripts(v);
    var page := roots;
    for i := 0 to |scripts|
      invariant page == RewriteScripts(roots, scripts, filename, transform, i)
    {
      page := UpdateAt(page, scripts[i], RunScript(InlineName(filename, i), transform));
    }
    page := UpdateAt(page, target.value, Prepend(injection));
    r := serialize(page);
  }
}
