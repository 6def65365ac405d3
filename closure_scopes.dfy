/**
 * The scope analysis of the closure-exposing transformation. Every block
 * of the program gets a scope that records its declared names; a name
 * that an inner function (or a call to `eval`) can see is "closed over",
 * and the transformation moves it into a scope object so that the heap
 * snapshot shows it.
 *
 * The source links scope objects by parent references. Here they live in a
 * table: a scope is named by its index, and a block's parent always has
 * a smaller index than the block, because a parent exists before its
 * children are made. Walking up the chain therefore terminates.
 */
module ClosureScopes {
  import opened Wrappers
  import opened JsStrings

  /** `VarType`: how a name was declared; `Unknown` answers queries for names that were not. */
  datatype VarType = Arg | Var | Const | FunctionDecl | Let | Unknown

  /** `Variable`: its kind of declaration and whether it must live in a scope object. */
  datatype Variable = Variable(varType: VarType, closedOver: bool)

  /**
   * A global scope (by default named `$$$GLOBAL$$$`) and a proxy scope
   * (the stand-in for a `with` object or for the caller of `eval`) have
   * no parent; a block scope's parent is a table index.
   */
  datatype ScopeKind = GlobalScope | ProxyScope | BlockScope(parent: nat, isFunctionScope: bool)

  /**
   * One scope. `order` lists the declared names in the order they were
   * first declared, which is the order in which the source's `Map`
   * enumerates them; `vars` holds their records. `closedOver` and
   * `evalSeen` are a block's `_closedOver` and `_evalFound` flags.
   * `identifier` names the scope object: fixed for global and proxy
   * scopes, given to a block by `finalize`.
   */
  datatype Scope = Scope(kind: ScopeKind, order: seq<string>, vars: map<string, Variable>,
                         closedOver: bool, evalSeen: bool, identifier: Option<string>)

  /** Every block's parent comes before it in the table. */
  ghost predicate Linked(scopes: seq<Scope>) {
    forall i :: 0 <= i < |scopes| && scopes[i].kind.BlockScope? ==> scopes[i].kind.parent < i
  }

  /**
   * `order` and `vars` name the same distinct names; global and proxy
   * scopes have their identifier; a block with a closed-over variable,
   * or one that has seen `eval`, has its `closedOver` flag set.
   */
  ghost predicate WellFormedScope(sc: Scope) {
    (forall n :: n in sc.order <==> n in sc.vars)
    && (forall i, j :: 0 <= i < j < |sc.order| ==> sc.order[i] != sc.order[j])
    && (!sc.kind.BlockScope? ==> sc.identifier.Some?)
    && (sc.kind.BlockScope? ==> (sc.evalSeen ==> sc.closedOver)
                                && forall n :: n in sc.vars && sc.vars[n].closedOver ==> sc.closedOver)
  }

  ghost predicate WellFormed(scopes: seq<Scope>) {
    Linked(scopes) && forall i :: 0 <= i < |scopes| ==> WellFormedScope(scopes[i])
  }

  /** `a` is `s` or one of the scopes above it. */
  predicate AncestorOrSelf(scopes: seq<Scope>, a: nat, s: nat)
    requires Linked(scopes) && s < |scopes|
    ensures AncestorOrSelf(scopes, a, s) ==> a <= s
    decreases s
  {
    a == s || (scopes[s].kind.BlockScope? && AncestorOrSelf(scopes, a, scopes[s].kind.parent))
  }

  /** Two tables whose scopes have the same kinds, so the same parents. */
  predicate SameKinds(a: seq<Scope>, b: seq<Scope>) {
    |a| == |b| && forall i :: 0 <= i < |a| ==> a[i].kind == b[i].kind
  }

  lemma {:induction false} SameKindsAncestors(a: seq<Scope>, b: seq<Scope>, x: nat, s: nat)
    requires Linked(a) && SameKinds(a, b) && s < |a|
    ensures Linked(b) && (AncestorOrSelf(a, x, s) <==> AncestorOrSelf(b, x, s))
    decreases s
  {
    if x != s && a[s].kind.BlockScope? {
      SameKindsAncestors(a, b, x, a[s].kind.parent);
    }
  }

  /** `_vars.set(name, v)`: a new name goes to the end of the order, a known one keeps its place. */
  function Record(sc: Scope, name: string, v: Variable): (r: Scope)
    ensures r.kind == sc.kind && r.vars == sc.vars[name := v]
    ensures WellFormedScope(sc) && (sc.kind.BlockScope? && v.closedOver ==> sc.closedOver) ==> WellFormedScope(r)
  {
    sc.(order := if name in sc.vars then sc.order else sc.order + [name], vars := sc.vars[name := v])
  }

  /** `closeOver(v)` on one variable, with the scope's `_closedOver` flag. */
  function MarkClosed(sc: Scope, name: string): (r: Scope)
    requires name in sc.vars
    ensures r.kind == sc.kind && r.order == sc.order && r.vars.Keys == sc.vars.Keys
    ensures r.vars[name] == Variable(sc.vars[name].varType, true)
    ensures forall n :: n in sc.vars && n != name ==> r.vars[n] == sc.vars[n]
    ensures WellFormedScope(sc) ==> WellFormedScope(r)
  {
    sc.(vars := sc.vars[name := sc.vars[name].(closedOver := true)], closedOver := true)
  }

  /** What `evalFound` does to one block: every variable closed over, both flags set. */
  function MarkEval(sc: Scope): (r: Scope)
    ensures r.kind == sc.kind && r.order == sc.order && r.vars.Keys == sc.vars.Keys
    ensures forall n :: n in r.vars ==> r.vars[n] == Variable(sc.vars[n].varType, true)
    ensures r.closedOver && r.evalSeen
    ensures WellFormedScope(sc) ==> WellFormedScope(r)
  {
    sc.(vars := map n | n in sc.vars :: sc.vars[n].(closedOver := true), closedOver := true, evalSeen := true)
  }

  // ---------------------------------------------------------------------
  // Resolving a name

  /**
   * The scope a name resolves to from `s`: the nearest block on the
   * chain that declares it, or else the first scope that is not a block.
   */
  function Resolver(scopes: seq<Scope>, s: nat, name: string): (w: nat)
    requires Linked(scopes) && s < |scopes|
    ensures w < |scopes| && AncestorOrSelf(scopes, w, s)
    ensures !scopes[w].kind.BlockScope? || name in scopes[w].vars
    ensures forall b: nat :: AncestorOrSelf(scopes, b, s) && w < b ==> scopes[b].kind.BlockScope? && name !in scopes[b].vars
    decreases s
  {
    var sc := scopes[s];
    if sc.kind.BlockScope? && name !in sc.vars then
      Resolver(scopes, sc.kind.parent, name)
    else s
  }

  /**
   * The `scopeIdentifier` getter: a block without closed-over variables
   * uses its parent's object. `None` is the unset identifier of a block
   * that was not finalized; the source tests it against `null`, but an
   * unset field is `undefined`, so that getter returns `undefined`
   * rather than throwing.
   */
  function ScopeIdentifier(scopes: seq<Scope>, s: nat): Option<string>
    requires Linked(scopes) && s < |scopes|
    decreases s
  {
    var sc := scopes[s];
    match sc.kind
    case BlockScope(p, _) => if !sc.closedOver then ScopeIdentifier(scopes, p) else sc.identifier
    case _ => sc.identifier
  }

  /**
   * `shouldMoveTo`: the scope object a name is moved into, or `None`
   * when it stays a plain variable.
   */
  function ShouldMoveTo(scopes: seq<Scope>, s: nat, name: string): Option<string>
    requires Linked(scopes) && s < |scopes|
    decreases s
  {
    var sc := scopes[s];
    match sc.kind
    case GlobalScope => if name in sc.vars then sc.identifier else None
    case ProxyScope => sc.identifier
    case BlockScope(p, _) =>
      if name in sc.vars then (if sc.vars[name].closedOver then ScopeIdentifier(scopes, s) else None)
      else ShouldMoveTo(scopes, p, name)
  }

  /**
   * A name moves into the object of the block that declares it exactly
   * when it is closed over there. A name that no block on the chain
   * declares is moved by a proxy scope whatever it is, and by a global
   * scope exactly when the global scope declares it.
   */
  lemma {:induction false} ShouldMoveToResolves(scopes: seq<Scope>, s: nat, name: string)
    requires WellFormed(scopes) && s < |scopes|
    ensures var w := Resolver(scopes, s, name); var sc := scopes[w];
      ShouldMoveTo(scopes, s, name) ==
        match sc.kind
        case GlobalScope => if name in sc.vars then sc.identifier else None
        case ProxyScope => sc.identifier
        case BlockScope(_, _) => if sc.vars[name].closedOver then sc.identifier else None
    decreases s
  {
    var sc := scopes[s];
    if sc.kind.BlockScope? && name !in sc.vars {
      ShouldMoveToResolves(scopes, sc.kind.parent, name);
    }
  }

  /** `getType`: a block answers for its own names and its enclosing blocks'; it never consults a global or proxy scope above it. */
  function GetType(scopes: seq<Scope>, s: nat, name: string): VarType
    requires Linked(scopes) && s < |scopes|
    decreases s
  {
    var sc := scopes[s];
    if name in sc.vars then sc.vars[name].varType
    else match sc.kind
      case BlockScope(p, _) => if scopes[p].kind.BlockScope? then GetType(scopes, p, name) else Unknown
      case _ => Unknown
  }

  /** `getType` reports the type recorded where the name resolves, unless that is a global or proxy scope above a block. */
  lemma {:induction false} GetTypeResolves(scopes: seq<Scope>, s: nat, name: string)
    requires Linked(scopes) && s < |scopes|
    ensures var w := Resolver(scopes, s, name);
      GetType(scopes, s, name) ==
        if name in scopes[w].vars && (scopes[w].kind.BlockScope? || w == s) then scopes[w].vars[name].varType else Unknown
    decreases s
  {
    var sc := scopes[s];
    if sc.kind.BlockScope? && name !in sc.vars {
      var p := sc.kind.parent;
      if scopes[p].kind.BlockScope? {
        GetTypeResolves(scopes, p, name);
      }
    }
  }

  // ---------------------------------------------------------------------
  // Defining a name

  /**
   * The scope that receives a definition made in `s`: `s` itself, except
   * that a `var` in a block that is not a function's top block goes to
   * the nearest enclosing function (or global) scope.
   */
  function DefinitionScope(scopes: seq<Scope>, s: nat, t: VarType): (d: nat)
    requires Linked(scopes) && s < |scopes|
    ensures d < |scopes| && AncestorOrSelf(scopes, d, s)
    ensures t != Var ==> d == s
    ensures scopes[d].kind.BlockScope? && !scopes[d].kind.isFunctionScope ==> d == s && t != Var
    ensures t == Var ==> forall a: nat :: AncestorOrSelf(scopes, a, s) && !(scopes[a].kind.BlockScope? && !scopes[a].kind.isFunctionScope) ==> AncestorOrSelf(scopes, a, d)
    decreases s
  {
    match scopes[s].kind
    case BlockScope(p, isFunction) => if t == Var && !isFunction then DefinitionScope(scopes, p, t) else s
    case _ => s
  }

  /**
   * The table after `defineVariable(name, t)` in `s`: the receiving scope
   * records the name; in a global or proxy scope it is closed over, in a
   * block exactly when that block has already seen `eval`.
   */
  function Defined(scopes: seq<Scope>, s: nat, name: string, t: VarType): (r: seq<Scope>)
    requires Linked(scopes) && s < |scopes|
    ensures SameKinds(scopes, r)
  {
    var d := DefinitionScope(scopes, s, t);
    var sc := scopes[d];
    scopes[d := Record(sc, name, Variable(t, !sc.kind.BlockScope? || sc.evalSeen))]
  }

  lemma DefinedWellFormed(scopes: seq<Scope>, s: nat, name: string, t: VarType)
    requires WellFormed(scopes) && s < |scopes|
    ensures WellFormed(Defined(scopes, s, name, t))
  {
    var r := Defined(scopes, s, name, t);
    forall i | 0 <= i < |r|
      ensures (r[i].kind.BlockScope? ==> r[i].kind.parent < i) && WellFormedScope(r[i])
    {
      assert r[i].kind == scopes[i].kind;
    }
  }

  /**
   * After a definition the receiving scope reports the declared type, and
   * moves the name exactly when it is a global or proxy scope or a block
   * that has seen `eval`.
   */
  lemma DefinedVisible(scopes: seq<Scope>, s: nat, name: string, t: VarType)
    requires WellFormed(scopes) && s < |scopes|
    ensures var d := DefinitionScope(scopes, s, t); var r := Defined(scopes, s, name, t);
      GetType(r, d, name) == t
      && (scopes[d].kind.ProxyScope? || (scopes[d].kind.GlobalScope? ==> ShouldMoveTo(r, d, name) == scopes[d].identifier))
      && (scopes[d].kind.BlockScope? ==> ShouldMoveTo(r, d, name) == if scopes[d].evalSeen then scopes[d].identifier else None)
  {
  }

  /** A later definition in a block that has seen `eval` is closed over from the start. */
  lemma EvalThenDefine(scopes: seq<Scope>, s: nat, name: string, t: VarType)
    requires WellFormed(scopes) && s < |scopes| && scopes[s].kind.BlockScope?
    requires t != Var || scopes[s].kind.isFunctionScope
    ensures var r := Defined(EvalFoundAt(scopes, s), s, name, t);
      name in r[s].vars && r[s].vars[name] == Variable(t, true)
  {
    var e := EvalFoundAt(scopes, s);
    SameKindsAncestors(scopes, e, s, s);
    assert DefinitionScope(e, s, t) == s;
  }

  // ---------------------------------------------------------------------
  // Closing over a name

  /**
   * The scope whose variable `maybeCloseOverVariable(name)` in `s` marks,
   * if any: the search goes up through the blocks of the current function
   * without marking anything and, once it leaves a function for an
   * enclosing block, marks the first declaration it meets.
   */
  function MaybeCloseTarget(scopes: seq<Scope>, s: nat, name: string): (r: Option<nat>)
    requires Linked(scopes) && s < |scopes|
    ensures r.Some? ==> r.value < s && scopes[r.value].kind.BlockScope? && name in scopes[r.value].vars
    decreases s, 1
  {
    var sc := scopes[s];
    match sc.kind
    case BlockScope(p, isFunction) =>
      if name in sc.vars then None
      else if isFunction && scopes[p].kind.BlockScope? then CloseTarget(scopes, p, name)
      else MaybeCloseTarget(scopes, p, name)
    case _ => None
  }

  /** The scope whose variable `_closeOverVariable(name)` in block `s` marks, if any. */
  function CloseTarget(scopes: seq<Scope>, s: nat, name: string): (r: Option<nat>)
    requires Linked(scopes) && s < |scopes| && scopes[s].kind.BlockScope?
    ensures r.Some? ==> r.value <= s && scopes[r.value].kind.BlockScope? && name in scopes[r.value].vars
    decreases s, 0
  {
    var sc := scopes[s];
    var p := sc.kind.parent;
    if name in sc.vars then Some(s)
    else if scopes[p].kind.BlockScope? then CloseTarget(scopes, p, name)
    else MaybeCloseTarget(scopes, p, name)
  }

  /** The table with the variable at `target` (if any) marked closed over. */
  function ClosedOver(scopes: seq<Scope>, target: Option<nat>, name: string): (r: seq<Scope>)
    requires target.Some? ==> target.value < |scopes| && name in scopes[target.value].vars
    ensures SameKinds(scopes, r)
  {
    match target
    case None => scopes
    case Some(t) => scopes[t := MarkClosed(scopes[t], name)]
  }

  lemma ClosedOverWellFormed(scopes: seq<Scope>, target: Option<nat>, name: string)
    requires WellFormed(scopes)
    requires target.Some? ==> target.value < |scopes| && name in scopes[target.value].vars
    ensures WellFormed(ClosedOver(scopes, target, name))
  {
    var r := ClosedOver(scopes, target, name);
    forall i | 0 <= i < |r|
      ensures (r[i].kind.BlockScope? ==> r[i].kind.parent < i) && WellFormedScope(r[i])
    {
      assert r[i].kind == scopes[i].kind;
    }
  }

  /** Between block `s` and its ancestor `w` a function is left for an enclosing block. */
  predicate FunctionBoundary(scopes: seq<Scope>, s: nat, w: nat)
    requires Linked(scopes) && s < |scopes|
    decreases s
  {
    var sc := scopes[s];
    s != w && sc.kind.BlockScope? &&
      ((sc.kind.isFunctionScope && scopes[sc.kind.parent].kind.BlockScope?) || FunctionBoundary(scopes, sc.kind.parent, w))
  }

  lemma {:induction false} CloseTargetResolves(scopes: seq<Scope>, s: nat, name: string)
    requires Linked(scopes) && s < |scopes| && scopes[s].kind.BlockScope?
    ensures var w := Resolver(scopes, s, name);
      CloseTarget(scopes, s, name) == if scopes[w].kind.BlockScope? then Some(w) else None
    decreases s
  {
    var sc := scopes[s];
    var p := sc.kind.parent;
    if name !in sc.vars {
      if scopes[p].kind.BlockScope? {
        CloseTargetResolves(scopes, p, name);
      }
    }
  }

  /**
   * Referencing a name from `s` marks the nearest block declaring it
   * exactly when that block belongs to an enclosing function; a
   * reference inside the declaring function, or to a name no block
   * declares, marks nothing.
   */
  lemma {:induction false} MaybeCloseTargetResolves(scopes: seq<Scope>, s: nat, name: string)
    requires Linked(scopes) && s < |scopes|
    ensures var w := Resolver(scopes, s, name);
      MaybeCloseTarget(scopes, s, name) ==
        if scopes[w].kind.BlockScope? && FunctionBoundary(scopes, s, w) then Some(w) else None
    decreases s
  {
    var sc := scopes[s];
    if sc.kind.BlockScope? && name !in sc.vars {
      var p := sc.kind.parent;
      if sc.kind.isFunctionScope && scopes[p].kind.BlockScope? {
        CloseTargetResolves(scopes, p, name);
      } else {
        MaybeCloseTargetResolves(scopes, p, name);
      }
    }
  }

  // ---------------------------------------------------------------------
  // eval

  /** The table after `evalFound()` in `s`: `s` and every block above it marked. */
  function EvalFoundAt(scopes: seq<Scope>, s: nat): (r: seq<Scope>)
    requires Linked(scopes) && s < |scopes|
    ensures SameKinds(scopes, r)
  {
    seq(|scopes|, i requires 0 <= i < |scopes| =>
      if scopes[i].kind.BlockScope? && AncestorOrSelf(scopes, i, s) then MarkEval(scopes[i]) else scopes[i])
  }

  /**
   * After `evalFound()` every variable of `s` and of every block above it
   * is closed over, so every name those blocks declare moves into their
   * objects; the scopes elsewhere are untouched.
   */
  lemma EvalClosesChain(scopes: seq<Scope>, s: nat, b: nat, name: string)
    requires WellFormed(scopes) && s < |scopes| && b < |scopes|
    ensures scopes[b].kind.BlockScope? && AncestorOrSelf(scopes, b, s) && name in scopes[b].vars ==>
      EvalFoundAt(scopes, s)[b].vars[name].closedOver && ShouldMoveTo(EvalFoundAt(scopes, s), b, name) == scopes[b].identifier
    ensures !AncestorOrSelf(scopes, b, s) ==> EvalFoundAt(scopes, s)[b] == scopes[b]
  {
  }

  // ---------------------------------------------------------------------
  // The scope object's parent

  /**
   * `_getEffectiveParent` from `p` on: blocks without closed-over
   * variables get no object, so they are skipped. The scope found
   * names the same object as `p` does.
   */
  function EffectiveParentOf(scopes: seq<Scope>, p: nat): (r: nat)
    requires Linked(scopes) && p < |scopes|
    ensures r < |scopes| && AncestorOrSelf(scopes, r, p)
    ensures !scopes[r].kind.BlockScope? || scopes[r].closedOver
    ensures ScopeIdentifier(scopes, r) == ScopeIdentifier(scopes, p)
    decreases p
  {
    if scopes[p].kind.BlockScope? && !scopes[p].closedOver then EffectiveParentOf(scopes, scopes[p].kind.parent) else p
  }

  /** Every block with closed-over variables has been given its identifier. */
  ghost predicate Finalized(scopes: seq<Scope>) {
    forall i :: 0 <= i < |scopes| && scopes[i].kind.BlockScope? && scopes[i].closedOver ==> scopes[i].identifier.Some?
  }

  /** Once every scope is finalized, every scope names an object. */
  lemma {:induction false} FinalizedIdentifiers(scopes: seq<Scope>, s: nat)
    requires WellFormed(scopes) && Finalized(scopes) && s < |scopes|
    ensures ScopeIdentifier(scopes, s).Some?
    decreases s
  {
    if scopes[s].kind.BlockScope? && !scopes[s].closedOver {
      FinalizedIdentifiers(scopes, scopes[s].kind.parent);
    }
  }

  // ---------------------------------------------------------------------
  // What the scope object holds

  /** The lists `getScopeCreationStatement` and `getScopeAssignments` build. */
  datatype Slot = Params | Unmoved | Moved | FunctionDeclarations

  predicate InSlot(v: Variable, slot: Slot) {
    match slot
    case Params => v.closedOver && v.varType == Arg
    case Unmoved => v.closedOver && (v.varType == Const || v.varType == FunctionDecl)
    case Moved => v.closedOver && (v.varType == Let || v.varType == Var)
    case FunctionDeclarations => v.varType == FunctionDecl
  }

  /** The names of `order` whose variables belong in `slot`, in order. */
  function Names(order: seq<string>, vars: map<string, Variable>, slot: Slot): seq<string>
    decreases |order|
  {
    if order == [] then []
    else
      var last := order[|order| - 1];
      Names(order[..|order| - 1], vars, slot) + if last in vars && InSlot(vars[last], slot) then [last] else []
  }

  /** One more name of `order` is appended when its variable belongs in `slot`. */
  lemma NamesStep(order: seq<string>, i: nat, vars: map<string, Variable>, slot: Slot)
    requires i < |order|
    ensures Names(order[..i + 1], vars, slot)
      == Names(order[..i], vars, slot) + if order[i] in vars && InSlot(vars[order[i]], slot) then [order[i]] else []
  {
    assert order[..i + 1][..i] == order[..i];
  }

  lemma {:induction false} NamesMembers(order: seq<string>, vars: map<string, Variable>, slot: Slot, name: string)
    ensures name in Names(order, vars, slot) <==> name in order && name in vars && InSlot(vars[name], slot)
    decreases |order|
  {
    if order != [] {
      var init := order[..|order| - 1];
      NamesMembers(init, vars, slot, name);
      assert order == init + [order[|order| - 1]];
    }
  }

  /**
   * The scope object's lists partition the closed-over variables: an
   * argument goes to the parameters, a `const` or function declaration
   * to the accessor properties, a `let` or `var` to the moved names, and
   * a variable that is not closed over to none of them.
   */
  lemma ScopeCreationPartition(sc: Scope, name: string)
    requires WellFormedScope(sc) && name in sc.vars
    ensures var v := sc.vars[name];
      && (name in Names(sc.order, sc.vars, Params) <==> v.closedOver && v.varType == Arg)
      && (name in Names(sc.order, sc.vars, Unmoved) <==> v.closedOver && (v.varType == Const || v.varType == FunctionDecl))
      && (name in Names(sc.order, sc.vars, Moved) <==> v.closedOver && (v.varType == Let || v.varType == Var))
  {
    NamesMembers(sc.order, sc.vars, Params, name);
    NamesMembers(sc.order, sc.vars, Unmoved, name);
    NamesMembers(sc.order, sc.vars, Moved, name);
  }

  /** `$$$CREATE_SCOPE_OBJECT$$$(parent, moved, unmoved accessors, param names, param values)` bound to the block's identifier. */
  datatype ScopeObject = ScopeObject(identifier: Option<string>, parentIdentifier: Option<string>,
                                     moved: seq<string>, unmoved: seq<string>, params: seq<string>)

  /** `getScopeAssignment`: a declared function's `__scope__` is set to the scope object. */
  datatype FunctionScope = FunctionScope(functionName: string, scopeIdentifier: Option<string>)

  /** The scope object `getScopeCreationStatement` builds for block `s`. */
  function ScopeObjectOf(scopes: seq<Scope>, s: nat): ScopeObject
    requires Linked(scopes) && s < |scopes| && scopes[s].kind.BlockScope?
  {
    var sc := scopes[s];
    ScopeObject(ScopeIdentifier(scopes, s), ScopeIdentifier(scopes, EffectiveParentOf(scopes, sc.kind.parent)),
                Names(sc.order, sc.vars, Moved), Names(sc.order, sc.vars, Unmoved), Names(sc.order, sc.vars, Params))
  }

  /** The assignments `getScopeAssignments` builds for scope `s`. */
  function AssignmentsOf(scopes: seq<Scope>, s: nat): seq<FunctionScope>
    requires Linked(scopes) && s < |scopes|
  {
    AssignmentsFor(Names(scopes[s].order, scopes[s].vars, FunctionDeclarations), ScopeIdentifier(scopes, s))
  }

  function AssignmentsFor(names: seq<string>, identifier: Option<string>): (r: seq<FunctionScope>)
    ensures |r| == |names| && forall i :: 0 <= i < |r| ==> r[i] == FunctionScope(names[i], identifier)
  {
    seq(|names|, i requires 0 <= i < |names| => FunctionScope(names[i], identifier))
  }

  // ---------------------------------------------------------------------
  // Fresh scope names

  /** `s<k>`, the k-th candidate name for a scope object. */
  function ScopeName(k: nat): string {
    "s" + NatToString(k)
  }

  lemma ScopeNameInjective(j: nat, k: nat)
    requires ScopeName(j) == ScopeName(k)
    ensures j == k
  {
    assert NatToString(j) == ScopeName(j)[1..];
    NatToStringInjective(j, k);
  }

  /** The names `s<from>` .. `s<from + n - 1>`. */
  function ScopeNames(from: nat, n: nat): (r: set<string>)
    ensures forall k: nat :: from <= k < from + n ==> ScopeName(k) in r
    decreases n
  {
    if n == 0 then {} else ScopeNames(from, n - 1) + {ScopeName(from + n - 1)}
  }

  lemma {:induction false} ScopeNamesCount(from: nat, n: nat)
    ensures |ScopeNames(from, n)| == n
    ensures forall k: nat :: ScopeName(k) in ScopeNames(from, n) ==> from <= k < from + n
    decreases n
  {
    if n > 0 {
      ScopeNamesCount(from, n - 1);
      forall k: nat | ScopeName(k) in ScopeNames(from, n)
        ensures from <= k < from + n
      {
        if ScopeName(k) == ScopeName(from + n - 1) {
          ScopeNameInjective(k, from + n - 1);
        }
      }
    }
  }

  /**
   * The first `k >= at` whose name `s<k>` is not in `symbols`, given that
   * the names from `from` up to `at` all are; there is one, because
   * `symbols` is finite and the names are distinct.
   */
  function FirstFree(symbols: set<string>, from: nat, at: nat): (k: nat)
    requires from <= at && ScopeNames(from, at - from) <= symbols
    ensures at <= k && ScopeName(k) !in symbols
    ensures forall j :: at <= j < k ==> ScopeName(j) in symbols
    decreases |symbols| - (at - from)
  {
    ScopeNamesCount(from, at - from);
    if ScopeName(at) !in symbols then at
    else
      ScopeNamesCount(from, at + 1 - from);
      SubsetCount(ScopeNames(from, at + 1 - from), symbols);
      FirstFree(symbols, from, at + 1)
  }

  lemma SubsetCount<T>(a: set<T>, b: set<T>)
    requires a <= b
    ensures |a| <= |b|
  {
    assert b == a + (b - a);
  }

  /** The name `_getNextScope` returns for the given counter and symbols. */
  function NextScopeName(symbols: set<string>, next: nat): string {
    ScopeName(FirstFree(symbols, next, next))
  }

  /** The loop of `_getNextScope`: count up from `next` past every `s<k>` already taken. */
  method FirstFreeIndex(taken: set<string>, next: nat) returns (k: nat)
    ensures k == FirstFree(taken, next, next)
  {
    k := next;
    var name := ScopeName(k);
    k := k + 1;
    while name in taken
      invariant next < k && name == ScopeName(k - 1)
      invariant ScopeNames(next, k - 1 - next) <= taken
      invariant FirstFree(taken, next, k - 1) == FirstFree(taken, next, next)
      decreases |taken| - (k - 1 - next)
    {
      ScopeNamesCount(next, k - next);
      SubsetCount(ScopeNames(next, k - next), taken);
      name := ScopeName(k);
      k := k + 1;
    }
    k := k - 1;
  }

  /**
   * The fresh-name generator of the scope creation pass: `symbols` is the
   * set of every identifier of the program, shared with the scanning
   * pass; `issued` (ghost) records the names handed out.
   */
  class ScopeNamer {
    var nextScope: nat
    var symbols: set<string>
    ghost var issued: seq<string>

    /** Every issued name is taken and no two are the same. */
    ghost predicate Valid()
      reads this
    {
      (forall i :: 0 <= i < |issued| ==> issued[i] in symbols)
      && (forall i, j :: 0 <= i < j < |issued| ==> issued[i] != issued[j])
    }

    constructor (symbols: set<string>)
      ensures this.symbols == symbols && nextScope == 0 && issued == [] && Valid()
    {
      this.symbols := symbols;
      nextScope := 0;
      issued := [];
    }

    /** `_getNextScope`: the first `s<k>` from the counter on that no identifier uses, now taken. */
    method GetNextScope() returns (name: string)
      requires Valid()
      modifies this
      ensures Valid()
      ensures name == NextScopeName(old(symbols), old(nextScope)) && name !in old(symbols)
      ensures nextScope == FirstFree(old(symbols), old(nextScope), old(nextScope)) + 1
      ensures symbols == old(symbols) + {name} && issued == old(issued) + [name]
    {
      var k := FirstFreeIndex(symbols, nextScope);
      name := ScopeName(k);
      nextScope := k + 1;
      symbols := symbols + {name};
      issued := issued + [name];
    }
  }

  // ---------------------------------------------------------------------
  // The scopes as objects

  /** The scopes of one program, by index. */
  class ScopeTable {
    var scopes: seq<Scope>

    ghost predicate Valid()
      reads this
    {
      WellFormed(scopes)
    }

    constructor ()
      ensures scopes == [] && Valid()
    {
      scopes := [];
    }

    /** `new GlobalScope(identifier)` and `new ProxyScope(identifier)`. */
    method NewRootScope(proxy: bool, identifier: string) returns (index: nat)
      requires Valid()
      modifies this
      ensures Valid() && index == |old(scopes)|
      ensures scopes == old(scopes) + [Scope(if proxy then ProxyScope else GlobalScope, [], map[], false, false, Some(identifier))]
    {
      index := |scopes|;
      scopes := scopes + [Scope(if proxy then ProxyScope else GlobalScope, [], map[], false, false, Some(identifier))];
    }

    /** `new BlockScope(parent, isFunctionScope)`. */
    method NewBlockScope(parent: nat, isFunctionScope: bool) returns (index: nat)
      requires Valid() && parent < |scopes|
      modifies this
      ensures Valid() && index == |old(scopes)|
      ensures scopes == old(scopes) + [Scope(BlockScope(parent, isFunctionScope), [], map[], false, false, None)]
    {
      index := |scopes|;
      scopes := scopes + [Scope(BlockScope(parent, isFunctionScope), [], map[], false, false, None)];
    }

    /** `defineVariable(name, t)` on scope `s`. */
    method DefineVariable(s: nat, name: string, t: VarType)
      requires Valid() && s < |scopes|
      modifies this
      ensures Valid() && scopes == Defined(old(scopes), s, name, t)
      decreases s
    {
      DefinedWellFormed(scopes, s, name, t);
      var sc := scopes[s];
      if sc.kind.BlockScope? && t == Var && !sc.kind.isFunctionScope {
        DefineVariable(sc.kind.parent, name, t);
      } else {
        scopes := scopes[s := Record(sc, name, Variable(t, !sc.kind.BlockScope? || sc.evalSeen))];
      }
    }

    /** `maybeCloseOverVariable(name)` on scope `s` (a no-op on global and proxy scopes). */
    method MaybeCloseOverVariable(s: nat, name: string)
      requires Valid() && s < |scopes|
      modifies this
      ensures Valid() && scopes == ClosedOver(old(scopes), MaybeCloseTarget(old(scopes), s, name), name)
      decreases s, 1
    {
      var sc := scopes[s];
      if sc.kind.BlockScope? && name !in sc.vars {
        var p := sc.kind.parent;
        if sc.kind.isFunctionScope && scopes[p].kind.BlockScope? {
          CloseOverVariable(p, name);
        } else {
          MaybeCloseOverVariable(p, name);
        }
      }
    }

    /** `_closeOverVariable(name)` on block `s`. */
    method CloseOverVariable(s: nat, name: string)
      requires Valid() && s < |scopes| && scopes[s].kind.BlockScope?
      modifies this
      ensures Valid() && scopes == ClosedOver(old(scopes), CloseTarget(old(scopes), s, name), name)
      decreases s, 0
    {
      var sc := scopes[s];
      var p := sc.kind.parent;
      if name in sc.vars {
        ClosedOverWellFormed(scopes, Some(s), name);
        scopes := scopes[s := MarkClosed(sc, name)];
      } else if scopes[p].kind.BlockScope? {
        CloseOverVariable(p, name);
      } else {
        MaybeCloseOverVariable(p, name);
      }
    }

    /** `evalFound()` on scope `s` (a no-op on global and proxy scopes). */
    method EvalFound(s: nat)
      requires Valid() && s < |scopes|
      modifies this
      ensures Valid() && scopes == EvalFoundAt(old(scopes), s)
      decreases s
    {
      var sc := scopes[s];
      if sc.kind.BlockScope? {
        ghost var before := scopes;
        scopes := scopes[s := MarkEval(sc)];
        assert Valid() by {
          forall i | 0 <= i < |scopes|
            ensures (scopes[i].kind.BlockScope? ==> scopes[i].kind.parent < i) && WellFormedScope(scopes[i])
          {
            assert scopes[i].kind == before[i].kind;
          }
        }
        ghost var marked := scopes;
        EvalFound(sc.kind.parent);
        forall i | 0 <= i < |before|
          ensures scopes[i] == EvalFoundAt(before, s)[i]
        {
          SameKindsAncestors(before, marked, i, sc.kind.parent);
        }
      } else {
        assert forall i :: 0 <= i < |scopes| && AncestorOrSelf(scopes, i, s) ==> i == s;
      }
    }

    /** `finalize(getId)`: a block with closed-over variables and no identifier yet takes a fresh name. */
    method Finalize(s: nat, namer: ScopeNamer)
      requires Valid() && s < |scopes| && namer.Valid()
      modifies this, namer
      ensures Valid() && namer.Valid() && |scopes| == |old(scopes)|
      ensures scopes[s].kind.BlockScope? && scopes[s].closedOver ==> scopes[s].identifier.Some?
      ensures var sc := old(scopes[s]);
        if sc.kind.BlockScope? && sc.closedOver && sc.identifier.None? then
          scopes == old(scopes)[s := sc.(identifier := Some(NextScopeName(old(namer.symbols), old(namer.nextScope))))]
        else scopes == old(scopes) && unchanged(namer)
    {
      var sc := scopes[s];
      if sc.kind.BlockScope? && sc.closedOver && sc.identifier.None? {
        var id := namer.GetNextScope();
        scopes := scopes[s := sc.(identifier := Some(id))];
      }
    }

    /** `_getEffectiveParent()` of block `s`. */
    method EffectiveParent(s: nat) returns (p: nat)
      requires Valid() && s < |scopes| && scopes[s].kind.BlockScope?
      ensures p == EffectiveParentOf(scopes, scopes[s].kind.parent)
    {
      p := scopes[s].kind.parent;
      while scopes[p].kind.BlockScope? && !scopes[p].closedOver
        invariant p < |scopes| && EffectiveParentOf(scopes, p) == EffectiveParentOf(scopes, scopes[s].kind.parent)
        decreases p
      {
        p := scopes[p].kind.parent;
      }
    }

    /** `getScopeAssignments()`: each declared function of `s`, in order, with the scope object it is to see. */
    method ScopeAssignments(s: nat) returns (r: seq<FunctionScope>)
      requires Valid() && s < |scopes|
      ensures r == AssignmentsOf(scopes, s)
    {
      var sc := scopes[s];
      var id := ScopeIdentifier(scopes, s);
      r := [];
      for i := 0 to |sc.order|
        invariant r == AssignmentsFor(Names(sc.order[..i], sc.vars, FunctionDeclarations), id)
      {
        var name := sc.order[i];
        assert sc.order[..i + 1][..i] == sc.order[..i];
        if sc.vars[name].varType == FunctionDecl {
          r := r + [FunctionScope(name, id)];
        }
      }
      assert sc.order[..|sc.order|] == sc.order;
    }

    /** `getScopeCreationStatement()` of block `s`. */
    method ScopeCreationStatement(s: nat) returns (c: ScopeObject)
      requires Valid() && s < |scopes| && scopes[s].kind.BlockScope?
      ensures c == ScopeObjectOf(scopes, s)
    {
      var parent := EffectiveParent(s);
      var sc := scopes[s];
      var moved, unmoved, params := [], [], [];
      for i := 0 to |sc.order|
        invariant moved == Names(sc.order[..i], sc.vars, Moved)
        invariant unmoved == Names(sc.order[..i], sc.vars, Unmoved)
        invariant params == Names(sc.order[..i], sc.vars, Params)
      {
        var name := sc.order[i];
        NamesStep(sc.order, i, sc.vars, Moved);
        NamesStep(sc.order, i, sc.vars, Unmoved);
        NamesStep(sc.order, i, sc.vars, Params);
        var v := sc.vars[name];
        if v.closedOver {
          match v.varType
          case Arg => params := params + [name];
          case Const | FunctionDecl => unmoved := unmoved + [name];
          case Let | Var => moved := moved + [name];
          case Unknown =>
        }
      }
      assert sc.order[..|sc.order|] == sc.order;
      c := ScopeObject(ScopeIdentifier(scopes, s), ScopeIdentifier(scopes, parent), moved, unmoved, params);
    }
  }
}
