/**
 * `path2string`: the compact, single-line rendering of a serialised
 * retaining path used in logs and reports.
 */
module CommonUtil {
  import opened JsStrings
  import opened GrowthGraph
  import opened GrowthTraversal
  import opened SerializedPaths

  /** An `indexOrName` in a template string: a number prints in decimal. */
  function KeyString(k: EdgeKey): string {
    match k
    case KIndex(n) => NatToString(n)
    case KName(s) => s
  }

  /** The text a root starts with. */
  function RootPrefix(root: GCRoot): string {
    match root
    case Dom(t) => "<" + t + ">"
    case Global => "window"
  }

  /** The text one edge appends. */
  function Fragment(e: SerializeableEdge): string {
    match e.edgeType
    case Closure => ".__closure__(" + KeyString(e.indexOrName) + ")"
    case Index => "['" + KeyString(e.indexOrName) + "']"
    case Named => "." + KeyString(e.indexOrName)
  }

  /** The texts `f` gives the first `n` edges, concatenated in order. */
  function ConcatUpTo(f: SerializeableEdge -> string, es: seq<SerializeableEdge>, n: nat): string
    requires n <= |es|
  {
    if n == 0 then "" else ConcatUpTo(f, es, n - 1) + f(es[n - 1])
  }

  /** The fragments of a sequence of edges, in order. */
  function Fragments(es: seq<SerializeableEdge>): string {
    ConcatUpTo(Fragment, es, |es|)
  }

  /** The rendering of a whole path. */
  function PathString(p: SerializeableGCPath): string {
    RootPrefix(p.root) + Fragments(p.path)
  }

  /** `path2string`: the root prefix, then one fragment per edge appended in path order. */
  method Path2String(p: SerializeableGCPath) returns (rv: string)
    ensures rv == PathString(p)
  {
    rv := RootPrefix(p.root);
    var i := 0;
    while i < |p.path|
      invariant 0 <= i <= |p.path|
      invariant rv == RootPrefix(p.root) + ConcatUpTo(Fragment, p.path, i)
    {
      rv := rv + Fragment(p.path[i]);
      i := i + 1;
    }
  }

  /** The concatenation over the first `k` edges depends only on those edges. */
  lemma {:induction false} ConcatUpToAgree(f: SerializeableEdge -> string, a: seq<SerializeableEdge>,
                                           b: seq<SerializeableEdge>, k: nat)
    requires k <= |a| && k <= |b| && a[..k] == b[..k]
    ensures ConcatUpTo(f, a, k) == ConcatUpTo(f, b, k)
    decreases k
  {
    if k > 0 {
      assert a[..k - 1] == a[..k][..k - 1] && b[..k - 1] == b[..k][..k - 1];
      assert a[k - 1] == a[..k][k - 1] && b[k - 1] == b[..k][k - 1];
      ConcatUpToAgree(f, a, b, k - 1);
    }
  }

  /** The concatenation over `a + b` up to `|a| + j` is that over `a`, then that over `b` up to `j`. */
  lemma {:induction false} ConcatUpToAppend(f: SerializeableEdge -> string, a: seq<SerializeableEdge>,
                                            b: seq<SerializeableEdge>, j: nat)
    requires j <= |b|
    ensures ConcatUpTo(f, a + b, |a| + j) == ConcatUpTo(f, a, |a|) + ConcatUpTo(f, b, j)
    decreases j
  {
    if j == 0 {
      assert (a + b)[..|a|] == a[..|a|];
      ConcatUpToAgree(f, a + b, a, |a|);
      assert ConcatUpTo(f, a, |a|) + "" == ConcatUpTo(f, a, |a|);
    } else {
      ConcatUpToAppend(f, a, b, j - 1);
      assert (a + b)[|a| + j - 1] == b[j - 1];
      assert (ConcatUpTo(f, a, |a|) + ConcatUpTo(f, b, j - 1)) + f(b[j - 1])
          == ConcatUpTo(f, a, |a|) + (ConcatUpTo(f, b, j - 1) + f(b[j - 1]));
    }
  }

  /** Rendering distributes over concatenation of edge sequences. */
  lemma FragmentsAppend(a: seq<SerializeableEdge>, b: seq<SerializeableEdge>)
    ensures Fragments(a + b) == Fragments(a) + Fragments(b)
  {
    ConcatUpToAppend(Fragment, a, b, |b|);
  }

  /**
   * The output of a path is the output of its root alone followed by the
   * fragment of each edge: extending a path by an edge appends exactly
   * that edge's fragment.
   */
  lemma PathStringExtend(p: SerializeableGCPath, e: SerializeableEdge)
    ensures PathString(SerializeableGCPath(p.root, p.path + [e])) == PathString(p) + Fragment(e)
    ensures PathString(SerializeableGCPath(p.root, [])) == RootPrefix(p.root)
  {
    FragmentsAppend(p.path, [e]);
    assert Fragments([e]) == ConcatUpTo(Fragment, [e], 0) + Fragment(e) == "" + Fragment(e);
    assert RootPrefix(p.root) + (Fragments(p.path) + Fragment(e)) == PathString(p) + Fragment(e);
  }

  /** The text of a path begins with its root's prefix and the fragments of any prefix of its edges. */
  lemma PathStringPrefix(p: SerializeableGCPath, i: nat)
    requires i <= |p.path|
    ensures var s := PathString(p); var q := RootPrefix(p.root) + Fragments(p.path[..i]);
      |q| <= |s| && s[..|q|] == q
  {
    FragmentsAppend(p.path[..i], p.path[i..]);
    assert p.path[..i] + p.path[i..] == p.path;
  }

  /** Every fragment starts with `.` or `[`, so a root prefix is never extended in the middle of a word. */
  lemma FragmentStart(e: SerializeableEdge)
    ensures |Fragment(e)| > 0 && (Fragment(e)[0] == '.' <==> e.edgeType != Index)
    ensures Fragment(e)[0] == '[' <==> e.edgeType == Index
  {
  }
}
