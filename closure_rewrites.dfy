/**
 * The statement-level rewrites of the closure-exposing transformation:
 * splicing statements that a visit turned into several, rewriting
 * equality so that an object and its proxy compare equal, turning the
 * declarations of moved variables into stores into scope objects, and
 * placing the scope object's creation at the top of its block.
 */
module ClosureRewrites {
  import opened Wrappers
  import BleakAgent
  import ClosureScopes

  /** `var`, `let` or `const`. */
  datatype DeclKind = VarKind | LetKind | ConstKind

  /** One declarator: the declared name and its initializer, an expression named by a number. */
  datatype Declarator = Declarator(name: string, init: Option<nat>)

  /** The statements of the program prelude: load the agent, and the polyfill when there is one. */
  datatype Insertion = AgentInsertion(url: string) | PolyfillInsertion(url: string)

  /**
   * A statement, as far as these rewrites look at it. `Assignment` is the
   * statement `scope.name = value` (`undefined` when there is no value);
   * `MultipleStatements` is the transformation's own node for several
   * statements standing in for one; `Statement` is any other statement,
   * with its directive if it is a directive prologue entry.
   */
  datatype Node =
    | Declaration(kind: DeclKind, declarators: seq<Declarator>)
    | Assignment(scope: string, name: string, value: Option<nat>)
    | MultipleStatements(body: seq<Node>)
    | Prelude(insertions: seq<Insertion>)
    | ScopeCreation(scopeObject: ClosureScopes.ScopeObject)
    | ScopeAssignment(assignment: ClosureScopes.FunctionScope)
    | Statement(id: nat, directive: Option<string>)

  // ---------------------------------------------------------------------
  // Splicing statements

  /** What one visited statement contributes to the list. */
  function Piece(n: Node): seq<Node> {
    if n.MultipleStatements? then n.body else [n]
  }

  /** The list with every `MultipleStatements` replaced by its body. */
  function Flatten(s: seq<Node>): seq<Node>
    decreases |s|
  {
    if s == [] then [] else Flatten(s[..|s| - 1]) + Piece(s[|s| - 1])
  }

  predicate NoMultiple(s: seq<Node>) {
    forall i :: 0 <= i < |s| ==> !s[i].MultipleStatements?
  }

  lemma NoMultipleSnoc(s: seq<Node>, x: Node)
    ensures NoMultiple(s + [x]) <==> NoMultiple(s) && !x.MultipleStatements?
  {
    if NoMultiple(s) && !x.MultipleStatements? {
      forall i | 0 <= i < |s + [x]|
        ensures !(s + [x])[i].MultipleStatements?
      {
        if i < |s| {
          assert (s + [x])[i] == s[i];
        }
      }
    }
    if NoMultiple(s + [x]) {
      forall i | 0 <= i < |s|
        ensures !s[i].MultipleStatements?
      {
        assert (s + [x])[i] == s[i];
      }
      assert (s + [x])[|s|] == x;
    }
  }

  /** A list without `MultipleStatements` is its own flattening. */
  lemma {:induction false} FlattenIdentity(s: seq<Node>)
    requires NoMultiple(s)
    ensures Flatten(s) == s
    decreases |s|
  {
    if s != [] {
      FlattenIdentity(s[..|s| - 1]);
    }
  }

  lemma {:induction false} FlattenConcat(a: seq<Node>, b: seq<Node>)
    ensures Flatten(a + b) == Flatten(a) + Flatten(b)
    decreases |b|
  {
    if b != [] {
      var b' := b[..|b| - 1];
      assert (a + b)[..|a + b| - 1] == a + b';
      assert (a + b)[|a + b| - 1] == b[|b| - 1];
      FlattenConcat(a, b');
    } else {
      assert a + b == a;
    }
  }

  lemma FlattenOne(n: Node)
    ensures Flatten([n]) == Piece(n)
  {
    assert [n][..0] == [];
  }

  lemma SplitAt<T>(s: seq<T>, i: nat)
    requires i < |s|
    ensures s == s[..i] + ([s[i]] + s[i + 1..])
  {
    assert s[i..] == [s[i]] + s[i + 1..];
    assert s == s[..i] + s[i..];
  }

  /** Each statement's piece lands in place, between the pieces of the statements around it. */
  lemma FlattenSplices(s: seq<Node>, i: nat)
    requires i < |s|
    ensures Flatten(s) == Flatten(s[..i]) + Piece(s[i]) + Flatten(s[i + 1..])
  {
    var front, n, back := s[..i], s[i], s[i + 1..];
    SplitAt(s, i);
    calc {
      Flatten(s);
      { FlattenConcat(front, [n] + back); }
      Flatten(front) + Flatten([n] + back);
      { FlattenConcat([n], back); }
      Flatten(front) + (Flatten([n]) + Flatten(back));
      { FlattenOne(n); }
      Flatten(front) + Piece(n) + Flatten(back);
    }
  }

  /** When no body holds a `MultipleStatements` itself, the flattening holds none. */
  lemma {:induction false} FlattenLeavesNone(s: seq<Node>)
    requires forall i :: 0 <= i < |s| && s[i].MultipleStatements? ==> NoMultiple(s[i].body)
    ensures NoMultiple(Flatten(s))
    decreases |s|
  {
    if s != [] {
      FlattenLeavesNone(s[..|s| - 1]);
    }
  }

  function Visited(s: seq<Node>, visit: Node -> Node): (r: seq<Node>)
    ensures |r| == |s| && forall i :: 0 <= i < |s| ==> r[i] == visit(s[i])
  {
    seq(|s|, i requires 0 <= i < |s| => visit(s[i]))
  }

  /**
   * `NodeArray`: visit each statement in place, then, if any became a
   * `MultipleStatements`, build a new list with their bodies spliced in;
   * otherwise the visited list itself is the result.
   */
  method NodeArray(st: array<Node>, visit: Node -> Node) returns (r: seq<Node>)
    modifies st
    ensures st[..] == Visited(old(st[..]), visit)
    ensures r == Flatten(st[..])
  {
    ghost var original := st[..];
    var multiple := false;
    for i := 0 to st.Length
      invariant st[i..] == original[i..]
      invariant st[..i] == Visited(original[..i], visit)
      invariant multiple <==> !NoMultiple(st[..i])
    {
      ghost var before := st[..i];
      st[i] := visit(st[i]);
      assert st[..i + 1] == before + [st[i]];
      NoMultipleSnoc(before, st[i]);
      if st[i].MultipleStatements? {
        multiple := true;
      }
    }
    assert original[..st.Length] == original;
    if multiple {
      var n := [];
      for i := 0 to st.Length
        invariant n == Flatten(st[..i])
      {
        assert st[..i + 1][..i] == st[..i];
        if st[i].MultipleStatements? {
          n := n + st[i].body;
        } else {
          n := n + [st[i]];
        }
      }
      assert st[..st.Length] == st[..];
      r := n;
    } else {
      FlattenIdentity(st[..]);
      r := st[..];
    }
  }

  // ---------------------------------------------------------------------
  // Equality

  /** An expression, as far as equality rewriting looks at it; an operand is named by a number. */
  datatype Expr = Binary(op: string, left: Expr, right: Expr) | Call(callee: string, args: seq<Expr>)
                | Unary(op: string, argument: Expr) | Operand(id: nat)

  const EqualityOperators: set<string> := {"===", "==", "!==", "!="}

  /**
   * The scanning pass's `BinaryExpression`: a strict comparison becomes a
   * call to `$$$SEQ$$$`, a loose one a call to `$$$EQ$$$`, the negated
   * forms are wrapped in `!`, and every other operator stays.
   */
  function RewriteBinary(op: string, left: Expr, right: Expr): (r: Expr)
    ensures op == "===" ==> r == Call("$$$SEQ$$$", [left, right])
    ensures op == "!==" ==> r == Unary("!", Call("$$$SEQ$$$", [left, right]))
    ensures op == "==" ==> r == Call("$$$EQ$$$", [left, right])
    ensures op == "!=" ==> r == Unary("!", Call("$$$EQ$$$", [left, right]))
    ensures op !in EqualityOperators ==> r == Binary(op, left, right)
  {
    if op in EqualityOperators then
      var strict := |op| == 3;
      var call := Call(if strict then "$$$SEQ$$$" else "$$$EQ$$$", [left, right]);
      if op[0] == '!' then Unary("!", call) else call
    else Binary(op, left, right)
  }

  /** The engine's comparison; `loose` is the outcome of `==` on the two values. */
  predicate Compare(op: string, a: BleakAgent.JsValue, b: BleakAgent.JsValue, loose: bool)
    requires op in EqualityOperators
  {
    if op == "===" then BleakAgent.StrictEquals(a, b)
    else if op == "!==" then !BleakAgent.StrictEquals(a, b)
    else if op == "==" then loose
    else !loose
  }

  /**
   * The truth value of a comparison over operands, before or after the
   * rewrite: `value` gives each operand's value, `loose` the engine's
   * `==`, and the agent's `$$$SEQ$$$`/`$$$EQ$$$` see the proxy table.
   */
  function Truth(e: Expr, value: nat -> BleakAgent.JsValue, proxies: BleakAgent.ProxyTable,
                 loose: (BleakAgent.JsValue, BleakAgent.JsValue) -> bool): Option<bool>
    decreases e
  {
    match e
    case Binary(op, Operand(x), Operand(y)) =>
      if op in EqualityOperators then Some(Compare(op, value(x), value(y), loose(value(x), value(y)))) else None
    case Call(callee, args) =>
      if |args| == 2 && args[0].Operand? && args[1].Operand? then
        var a, b := value(args[0].id), value(args[1].id);
        if callee == "$$$SEQ$$$" then Some(BleakAgent.ProxyStrictEquals(proxies, a, b))
        else if callee == "$$$EQ$$$" then Some(BleakAgent.ProxyLooseEquals(proxies, a, b, loose(a, b)))
        else None
      else None
    case Unary(op, x) =>
      if op == "!" then
        match Truth(x, value, proxies, loose)
        case Some(t) => Some(!t)
        case None => None
      else None
    case _ => None
  }

  /** Values that no proxy stands for. */
  predicate Unproxied(proxies: BleakAgent.ProxyTable, a: BleakAgent.JsValue) {
    !(BleakAgent.IsProxyable(a) && a.ref in proxies)
  }

  /**
   * Where neither operand has a proxy, and `==` holds of values that are
   * `===` (as it does in JavaScript), the rewritten comparison has the
   * truth value of the original.
   */
  lemma RewriteKeepsMeaning(op: string, x: nat, y: nat, value: nat -> BleakAgent.JsValue, proxies: BleakAgent.ProxyTable,
                            loose: (BleakAgent.JsValue, BleakAgent.JsValue) -> bool)
    requires op in EqualityOperators
    requires Unproxied(proxies, value(x)) && Unproxied(proxies, value(y))
    requires BleakAgent.StrictEquals(value(x), value(y)) ==> loose(value(x), value(y))
    ensures Truth(RewriteBinary(op, Operand(x), Operand(y)), value, proxies, loose)
         == Truth(Binary(op, Operand(x), Operand(y)), value, proxies, loose)
  {
    BleakAgent.ProxyStrictEqualsWithoutProxies(proxies, value(x), value(y));
  }

  /**
   * An object and its proxy are different values to the engine, but the
   * rewritten `===` and `==` find them equal and `!==` and `!=` find them
   * not different.
   */
  lemma RewriteEquatesProxy(op: string, x: nat, y: nat, value: nat -> BleakAgent.JsValue, proxies: BleakAgent.ProxyTable,
                            loose: (BleakAgent.JsValue, BleakAgent.JsValue) -> bool)
    requires op in EqualityOperators
    requires BleakAgent.IsProxyable(value(x)) && value(x).ref in proxies && proxies[value(x).ref] == value(y)
    requires BleakAgent.IsProxyable(value(y)) && value(y) != value(x)
    ensures Truth(Binary("===", Operand(x), Operand(y)), value, proxies, loose) == Some(false)
    ensures Truth(RewriteBinary(op, Operand(x), Operand(y)), value, proxies, loose) == Some(op == "===" || op == "==")
  {
    BleakAgent.ProxyStrictEqualsOwnProxy(proxies, value(x));
  }

  // ---------------------------------------------------------------------
  // Declarations of moved variables

  /**
   * What the creation pass's `VariableDeclarator` returns: the declarator
   * itself, a bare member expression, or an assignment statement.
   */
  datatype DeclaratorResult = KeptDeclarator(declarator: Declarator) | MemberTarget | AssignmentStatement(statement: Node)

  /**
   * `VariableDeclarator`: a declarator whose name moves becomes the store
   * `to.name = init`, with `undefined` when there is no initializer; the
   * bare member expression is never returned.
   */
  function VisitDeclarator(d: Declarator, moveTo: Option<string>): (r: DeclaratorResult)
    ensures !r.MemberTarget?
    ensures r.KeptDeclarator? <==> moveTo.None?
  {
    match moveTo
    case None => KeptDeclarator(d)
    case Some(to) => AssignmentStatement(Assignment(to, d.name, d.init))
  }

  function Results(decls: seq<Declarator>, moveTo: string -> Option<string>): (r: seq<DeclaratorResult>)
    ensures |r| == |decls| && forall i :: 0 <= i < |decls| ==> r[i] == VisitDeclarator(decls[i], moveTo(decls[i].name))
  {
    seq(|decls|, i requires 0 <= i < |decls| => VisitDeclarator(decls[i], moveTo(decls[i].name)))
  }

  /**
   * The state of the grouping loop of `VariableDeclaration`: the
   * statements emitted so far, and the declarators waiting to be emitted
   * together.
   */
  datatype Pending = Pending(emitted: seq<Node>, current: seq<Declarator>)

  /** One turn of the loop: an assignment closes the pending group and follows it. */
  function Step(kind: DeclKind, p: Pending, r: DeclaratorResult): Pending {
    match r
    case KeptDeclarator(d) => p.(current := p.current + [d])
    case MemberTarget => p
    case AssignmentStatement(st) =>
      Pending(p.emitted + (if |p.current| > 0 then [Declaration(kind, p.current)] else []) + [st], [])
  }

  function GroupState(kind: DeclKind, results: seq<DeclaratorResult>): Pending
    decreases |results|
  {
    if results == [] then Pending([], [])
    else Step(kind, GroupState(kind, results[..|results| - 1]), results[|results| - 1])
  }

  /** The statements `VariableDeclaration` emits: the original declaration when every declarator was kept. */
  function Grouped(kind: DeclKind, decls: seq<Declarator>, results: seq<DeclaratorResult>): seq<Node> {
    var p := GroupState(kind, results);
    if |p.current| == |decls| then p.emitted + [Declaration(kind, decls)]
    else if |p.current| > 0 then p.emitted + [Declaration(kind, p.current)]
    else p.emitted
  }

  /** A store the statement performs: into a scope object's property, or (no scope) into a plain variable. */
  datatype Store = Store(scope: Option<string>, name: string, value: Option<nat>)

  function DeclStores(decls: seq<Declarator>): seq<Store>
    decreases |decls|
  {
    if decls == [] then []
    else
      var d := decls[|decls| - 1];
      DeclStores(decls[..|decls| - 1]) + if d.init.Some? then [Store(None, d.name, d.init)] else []
  }

  function StoresOf(nodes: seq<Node>): seq<Store>
    decreases nodes, |nodes|
  {
    if nodes == [] then []
    else
      var n := nodes[|nodes| - 1];
      StoresOf(nodes[..|nodes| - 1]) +
        match n
        case Declaration(_, ds) => DeclStores(ds)
        case Assignment(to, name, v) => [Store(Some(to), name, v)]
        case MultipleStatements(body) => StoresOf(body)
        case _ => []
  }

  /**
   * The store one declarator should perform once rewritten: its
   * initializer stored where its name lives, and a moved name without
   * initializer set to `undefined` in its scope object.
   */
  function ExpectedOne(d: Declarator, moveTo: string -> Option<string>): seq<Store> {
    match moveTo(d.name)
    case Some(to) => [Store(Some(to), d.name, d.init)]
    case None => if d.init.Some? then [Store(None, d.name, d.init)] else []
  }

  function Expected(decls: seq<Declarator>, moveTo: string -> Option<string>): seq<Store>
    decreases |decls|
  {
    if decls == [] then [] else Expected(decls[..|decls| - 1], moveTo) + ExpectedOne(decls[|decls| - 1], moveTo)
  }

  lemma {:induction false} DeclStoresConcat(a: seq<Declarator>, b: seq<Declarator>)
    ensures DeclStores(a + b) == DeclStores(a) + DeclStores(b)
    decreases |b|
  {
    if b != [] {
      var b' := b[..|b| - 1];
      assert (a + b)[..|a + b| - 1] == a + b';
      assert (a + b)[|a + b| - 1] == b[|b| - 1];
      DeclStoresConcat(a, b');
    } else {
      assert a + b == a;
    }
  }

  lemma {:induction false} StoresOfConcat(a: seq<Node>, b: seq<Node>)
    ensures StoresOf(a + b) == StoresOf(a) + StoresOf(b)
    decreases |b|
  {
    if b != [] {
      var b' := b[..|b| - 1];
      assert (a + b)[..|a + b| - 1] == a + b';
      assert (a + b)[|a + b| - 1] == b[|b| - 1];
      StoresOfConcat(a, b');
    } else {
      assert a + b == a;
    }
  }

  lemma StoresOfOne(n: Node)
    ensures StoresOf([n]) == match n
      case Declaration(_, ds) => DeclStores(ds)
      case Assignment(to, name, v) => [Store(Some(to), name, v)]
      case MultipleStatements(body) => StoresOf(body)
      case _ => []
  {
    assert [n][..0] == [];
  }

  /** One turn of the loop adds the declarator's expected store to what is emitted or pending. */
  lemma StepStores(kind: DeclKind, p: Pending, d: Declarator, moveTo: string -> Option<string>)
    ensures var q := Step(kind, p, VisitDeclarator(d, moveTo(d.name)));
      StoresOf(q.emitted) + DeclStores(q.current) == StoresOf(p.emitted) + DeclStores(p.current) + ExpectedOne(d, moveTo)
  {
    match moveTo(d.name)
    case None =>
      DeclStoresConcat(p.current, [d]);
      assert [d][..0] == [];
    case Some(to) =>
      var pending := if |p.current| > 0 then [Declaration(kind, p.current)] else [];
      var st := Assignment(to, d.name, d.init);
      StoresOfConcat(p.emitted + pending, [st]);
      StoresOfConcat(p.emitted, pending);
      StoresOfOne(st);
      if |p.current| > 0 {
        StoresOfOne(Declaration(kind, p.current));
      }
  }

  lemma {:induction false} GroupStateStores(kind: DeclKind, decls: seq<Declarator>, moveTo: string -> Option<string>)
    ensures var p := GroupState(kind, Results(decls, moveTo));
      StoresOf(p.emitted) + DeclStores(p.current) == Expected(decls, moveTo)
    decreases |decls|
  {
    if decls != [] {
      var init := decls[..|decls| - 1];
      assert Results(decls, moveTo)[..|decls| - 1] == Results(init, moveTo);
      GroupStateStores(kind, init, moveTo);
      StepStores(kind, GroupState(kind, Results(init, moveTo)), decls[|decls| - 1], moveTo);
    }
  }

  /**
   * Nothing is emitted until a declarator moves, and the pending group is
   * the whole declaration exactly when none has.
   */
  lemma {:induction false} GroupStateShape(kind: DeclKind, decls: seq<Declarator>, moveTo: string -> Option<string>)
    ensures var p := GroupState(kind, Results(decls, moveTo));
      |p.current| <= |decls| && (|p.current| == |decls| ==> p.current == decls)
      && (p.emitted == [] <==> p.current == decls)
    decreases |decls|
  {
    if decls != [] {
      var init := decls[..|decls| - 1];
      assert Results(decls, moveTo)[..|decls| - 1] == Results(init, moveTo);
      GroupStateShape(kind, init, moveTo);
      assert decls == init + [decls[|decls| - 1]];
    }
  }

  /**
   * The statements a declaration becomes perform, in order, the stores the
   * original declaration performs, each redirected into the scope object
   * its name moved to; a moved name without initializer is set to
   * `undefined`.
   */
  lemma GroupedStores(kind: DeclKind, decls: seq<Declarator>, moveTo: string -> Option<string>)
    ensures StoresOf(Grouped(kind, decls, Results(decls, moveTo))) == Expected(decls, moveTo)
  {
    GroupStateStores(kind, decls, moveTo);
    GroupStateShape(kind, decls, moveTo);
    var p := GroupState(kind, Results(decls, moveTo));
    if |p.current| == |decls| {
      StoresOfOne(Declaration(kind, decls));
    } else if |p.current| > 0 {
      StoresOfConcat(p.emitted, [Declaration(kind, p.current)]);
      StoresOfOne(Declaration(kind, p.current));
    }
  }

  /** A declaration always yields at least one statement, so the fallback declaration of a fresh name is never needed. */
  lemma GroupedNonEmpty(kind: DeclKind, decls: seq<Declarator>, moveTo: string -> Option<string>)
    ensures Grouped(kind, decls, Results(decls, moveTo)) != []
  {
    GroupStateShape(kind, decls, moveTo);
  }

  /**
   * The creation pass's `VariableDeclaration`, given `newDecls`, the
   * declarators as `VariableDeclarator` returned them (`Results` with the
   * current scope's `shouldMoveTo`): the grouped statements, one as
   * itself, several as a `MultipleStatements`, none as a declaration of a
   * fresh unused name.
   */
  method VariableDeclaration(kind: DeclKind, decls: seq<Declarator>, newDecls: seq<DeclaratorResult>,
                             namer: ClosureScopes.ScopeNamer) returns (n: Node)
    requires |newDecls| == |decls| && namer.Valid()
    modifies namer
    ensures namer.Valid()
    ensures var s := Grouped(kind, decls, newDecls);
      if s == [] then n == Declaration(VarKind, [Declarator(ClosureScopes.NextScopeName(old(namer.symbols), old(namer.nextScope)), None)])
      else unchanged(namer) && n == if |s| == 1 then s[0] else MultipleStatements(s)
  {
    var s: seq<Node> := [];
    var current: seq<Declarator> := [];
    for i := 0 to |newDecls|
      invariant Pending(s, current) == GroupState(kind, newDecls[..i])
    {
      assert newDecls[..i + 1][..i] == newDecls[..i];
      match newDecls[i]
      case KeptDeclarator(d) =>
        current := current + [d];
      case MemberTarget =>
      case AssignmentStatement(st) =>
        if |current| > 0 {
          s := s + [Declaration(kind, current)];
          current := [];
        }
        s := s + [st];
    }
    assert newDecls[..|newDecls|] == newDecls;
    if |current| == |decls| {
      s := s + [Declaration(kind, decls)];
    } else if |current| > 0 {
      s := s + [Declaration(kind, current)];
    }
    if s == [] {
      var name := namer.GetNextScope();
      n := Declaration(VarKind, [Declarator(name, None)]);
    } else if |s| != 1 {
      n := MultipleStatements(s);
    } else {
      n := s[0];
    }
  }

  // ---------------------------------------------------------------------
  // Placing the scope object

  /** The block starts with the `"use strict"` directive. */
  predicate IsStrict(body: seq<Node>) {
    |body| > 0 && body[0].Statement? && body[0].directive == Some("use strict")
  }

  /**
   * The statements a scope puts at the top of its block: in a program the
   * prelude first, then the scope object's creation when the scope is a
   * block with closed-over variables, then the `__scope__` assignments of
   * its declared functions.
   */
  function Mods(scopes: seq<ClosureScopes.Scope>, s: nat, isProgram: bool, agentUrl: string, polyfillUrl: Option<string>): seq<Node>
    requires ClosureScopes.Linked(scopes) && s < |scopes|
  {
    PreludePart(isProgram, agentUrl, polyfillUrl) + CreationPart(scopes, s) + Assignments(ClosureScopes.AssignmentsOf(scopes, s))
  }

  function PreludePart(isProgram: bool, agentUrl: string, polyfillUrl: Option<string>): seq<Node> {
    if isProgram then [Prelude([AgentInsertion(agentUrl)] + if polyfillUrl.Some? then [PolyfillInsertion(polyfillUrl.value)] else [])]
    else []
  }

  function CreationPart(scopes: seq<ClosureScopes.Scope>, s: nat): seq<Node>
    requires ClosureScopes.Linked(scopes) && s < |scopes|
  {
    if scopes[s].kind.BlockScope? && scopes[s].closedOver then [ScopeCreation(ClosureScopes.ScopeObjectOf(scopes, s))] else []
  }

  function Assignments(a: seq<ClosureScopes.FunctionScope>): (r: seq<Node>)
    ensures |r| == |a| && forall i :: 0 <= i < |a| ==> r[i] == ScopeAssignment(a[i])
  {
    seq(|a|, i requires 0 <= i < |a| => ScopeAssignment(a[i]))
  }

  /**
   * The block with `mods` inserted after its `"use strict"` directive (or
   * at the top): the directive stays first, and taking the inserted
   * statements out again gives back the block.
   */
  function Inserted(body: seq<Node>, mods: seq<Node>): (r: seq<Node>)
    ensures var k := if IsStrict(body) then 1 else 0;
      |r| == |body| + |mods| && r[..k] == body[..k] && r[k..k + |mods|] == mods && r[k + |mods|..] == body[k..]
    ensures IsStrict(body) ==> IsStrict(r)
    ensures mods == [] ==> r == body
  {
    if mods == [] then body
    else
      var k := if IsStrict(body) then 1 else 0;
      body[..k] + mods + body[k..]
  }

  /**
   * A block that is neither a program nor has closed-over variables nor
   * declares functions is left as it is; a program always gets its
   * prelude first, right after any `"use strict"`.
   */
  lemma InsertionCases(scopes: seq<ClosureScopes.Scope>, s: nat, body: seq<Node>, isProgram: bool, agentUrl: string,
                       polyfillUrl: Option<string>)
    requires ClosureScopes.Linked(scopes) && s < |scopes|
    ensures !isProgram && !(scopes[s].kind.BlockScope? && scopes[s].closedOver)
      && ClosureScopes.Names(scopes[s].order, scopes[s].vars, ClosureScopes.FunctionDeclarations) == []
      ==> Inserted(body, Mods(scopes, s, isProgram, agentUrl, polyfillUrl)) == body
    ensures isProgram ==> Inserted(body, Mods(scopes, s, isProgram, agentUrl, polyfillUrl))[if IsStrict(body) then 1 else 0].Prelude?
  {
  }

  /**
   * `_insertScopeCreationAndFunctionScopeAssignments` for the current
   * scope `s` of `table` and the visited statements of its block.
   */
  method InsertScopeCreation(table: ClosureScopes.ScopeTable, s: nat, body: seq<Node>, isProgram: bool,
                             agentUrl: string, polyfillUrl: Option<string>) returns (r: seq<Node>)
    requires table.Valid() && s < |table.scopes|
    ensures r == Inserted(body, Mods(table.scopes, s, isProgram, agentUrl, polyfillUrl))
  {
    var sc := table.scopes[s];
    var mods: seq<Node> := [];
    if sc.kind.BlockScope? && sc.closedOver {
      var creation := table.ScopeCreationStatement(s);
      mods := [ScopeCreation(creation)];
    }
    assert mods == CreationPart(table.scopes, s);
    if isProgram {
      var polyfill := if polyfillUrl.Some? then [PolyfillInsertion(polyfillUrl.value)] else [];
      var insertions := [AgentInsertion(agentUrl)] + polyfill;
      mods := [Prelude(insertions)] + mods;
    } else {
      assert [] + mods == mods;
    }
    assert mods == PreludePart(isProgram, agentUrl, polyfillUrl) + CreationPart(table.scopes, s);
    var assignments := table.ScopeAssignments(s);
    mods := mods + Assignments(assignments);
    assert mods == Mods(table.scopes, s, isProgram, agentUrl, polyfillUrl);
    if mods == [] {
      return body;
    }
    var offset := if IsStrict(body) then 1 else 0;
    r := body[..offset] + mods + body[offset..];
  }
}
