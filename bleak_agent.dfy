/**
 * The value-level helpers of the agent injected into the page: equality
 * that sees through the agent's proxies, the `indexOf` override built on
 * it, the switch that turns fixes on and off, writes through a chain of
 * scope objects, and the creation of scope objects.
 */
module BleakAgent {
  import opened Wrappers

  /**
   * A JavaScript value. Objects and functions are named by a reference
   * into the heap; numbers are integers, with NaN apart.
   */
  datatype JsValue = Undefined | Null | Bool(b: bool) | Num(n: int) | NaN | Str(s: string) | Obj(ref: nat) | Fn(ref: nat)

  /** The own `$$$PROXY$$$` property of every object or function that has one, by reference. */
  type ProxyTable = map<nat, JsValue>

  /** `===`: the same value, except that NaN is equal to nothing. */
  predicate StrictEquals(a: JsValue, b: JsValue) {
    a == b && !a.NaN?
  }

  /** `isProxyable`: a non-null object or a function. */
  predicate IsProxyable(a: JsValue) {
    a.Obj? || a.Fn?
  }

  /** `a.hasOwnProperty('$$$PROXY$$$') && a.$$$PROXY$$$ === b`. */
  predicate ProxyIs(proxies: ProxyTable, a: JsValue, b: JsValue)
    requires IsProxyable(a)
  {
    a.ref in proxies && StrictEquals(proxies[a.ref], b)
  }

  /** `$$$SEQ$$$`: `===` that also equates an object with its proxy. */
  predicate ProxyStrictEquals(proxies: ProxyTable, a: JsValue, b: JsValue) {
    if StrictEquals(a, b) then true
    else if IsProxyable(a) && IsProxyable(b) then ProxyIs(proxies, a, b) || ProxyIs(proxies, b, a)
    else false
  }

  /**
   * `$$$EQ$$$`: true when `$$$SEQ$$$` is, and otherwise the engine's `==`,
   * whose outcome (`looseEquals`) is given.
   */
  predicate ProxyLooseEquals(proxies: ProxyTable, a: JsValue, b: JsValue, looseEquals: bool) {
    if ProxyStrictEquals(proxies, a, b) then true else looseEquals
  }

  lemma ProxyStrictEqualsSymmetric(proxies: ProxyTable, a: JsValue, b: JsValue)
    ensures ProxyStrictEquals(proxies, a, b) == ProxyStrictEquals(proxies, b, a)
  {
  }

  /** An object equals its proxy, in both directions. */
  lemma ProxyStrictEqualsOwnProxy(proxies: ProxyTable, a: JsValue)
    requires IsProxyable(a) && a.ref in proxies && IsProxyable(proxies[a.ref])
    ensures ProxyStrictEquals(proxies, a, proxies[a.ref]) && ProxyStrictEquals(proxies, proxies[a.ref], a)
  {
  }

  /** Where neither value has a `$$$PROXY$$$` property, `$$$SEQ$$$` is `===`. */
  lemma ProxyStrictEqualsWithoutProxies(proxies: ProxyTable, a: JsValue, b: JsValue)
    requires !(IsProxyable(a) && a.ref in proxies) && !(IsProxyable(b) && b.ref in proxies)
    ensures ProxyStrictEquals(proxies, a, b) == StrictEquals(a, b)
  {
  }

  /** Values other than objects and functions are compared by `===` alone. */
  lemma ProxyStrictEqualsPrimitives(proxies: ProxyTable, a: JsValue, b: JsValue)
    requires !IsProxyable(a) || !IsProxyable(b)
    ensures ProxyStrictEquals(proxies, a, b) == StrictEquals(a, b)
    ensures !ProxyStrictEquals(proxies, NaN, b)
  {
  }

  /** `$$$EQ$$$` holds whenever `$$$SEQ$$$` does, and otherwise agrees with `==`. */
  lemma ProxyLooseEqualsExtendsStrict(proxies: ProxyTable, a: JsValue, b: JsValue, looseEquals: bool)
    ensures ProxyStrictEquals(proxies, a, b) ==> ProxyLooseEquals(proxies, a, b, looseEquals)
    ensures !ProxyStrictEquals(proxies, a, b) ==> ProxyLooseEquals(proxies, a, b, looseEquals) == looseEquals
  {
  }

  /** `ProxyStatus`. */
  datatype ProxyStatus = IsProxy | HasProxy | NoProxy

  /** `getProxyStatus`: a proxy's `$$$PROXY$$$` is itself; an original's is its proxy. */
  function GetProxyStatus(proxies: ProxyTable, a: JsValue): (r: ProxyStatus)
    ensures r == NoProxy <==> !(IsProxyable(a) && a.ref in proxies)
    ensures r == IsProxy <==> IsProxyable(a) && ProxyIs(proxies, a, a)
  {
    if IsProxyable(a) && a.ref in proxies then
      if StrictEquals(proxies[a.ref], a) then IsProxy else HasProxy
    else NoProxy
  }

  /** An original object with a proxy is `$$$SEQ$$$`-equal to that proxy. */
  lemma HasProxyEqualsItsProxy(proxies: ProxyTable, a: JsValue)
    requires GetProxyStatus(proxies, a) == HasProxy && IsProxyable(proxies[a.ref])
    ensures ProxyStrictEquals(proxies, a, proxies[a.ref]) && !StrictEquals(a, proxies[a.ref])
  {
  }

  // ---------------------------------------------------------------------
  // indexOf
  // ---------------------------------------------------------------------

  /**
   * The normalised `fromIndex` of `indexOf`: `fromIndexArg || 0`, then a
   * negative value counts from the end, clamped at 0.
   */
  function IndexOfStart(length: nat, fromIndex: Option<int>): (r: nat)
    ensures fromIndex.Some? && fromIndex.value >= 0 ==> r == fromIndex.value
  {
    var f := if fromIndex.Some? then fromIndex.value else 0;
    var f' := if f < 0 then length + f else f;
    if f' < 0 then 0 else f'
  }

  /** A negative `fromIndex` of at most the length searches exactly that many last elements; a larger one searches all. */
  lemma IndexOfStartFromEnd(length: nat, offset: int)
    requires offset < 0
    ensures -offset <= length ==> length - IndexOfStart(length, Some(offset)) == -offset
    ensures -offset > length ==> IndexOfStart(length, Some(offset)) == 0
  {
  }

  /**
   * `Array.prototype.indexOf` as overridden: the first index at or after
   * the normalised start whose element is `$$$SEQ$$$`-equal to the
   * searched value, or -1.
   */
  method IndexOf(proxies: ProxyTable, a: seq<JsValue>, searchElement: JsValue, fromIndex: Option<int>) returns (r: int)
    ensures var start := IndexOfStart(|a|, fromIndex);
      (r == -1 || (start <= r < |a| && ProxyStrictEquals(proxies, a[r], searchElement)))
      && (forall k :: start <= k < |a| && (r == -1 || k < r) ==> !ProxyStrictEquals(proxies, a[k], searchElement))
  {
    var i := IndexOfStart(|a|, fromIndex);
    if i >= |a| {
      return -1;
    }
    ghost var start := i;
    while i < |a|
      invariant start <= i <= |a|
      invariant forall k :: start <= k < i ==> !ProxyStrictEquals(proxies, a[k], searchElement)
    {
      if ProxyStrictEquals(proxies, a[i], searchElement) {
        return i;
      }
      i := i + 1;
    }
    return -1;
  }

  // ---------------------------------------------------------------------
  // $$$SHOULDFIX$$$
  // ---------------------------------------------------------------------

  /** The fix set after `$$$SHOULDFIX$$$(n, value)` with `value` given. */
  function SetFix(fixes: set<int>, n: int, value: bool): set<int> {
    if value then fixes + {n} else fixes - {n}
  }

  /** Setting a fix and then asking for it answers the value set, and other fixes are untouched. */
  lemma SetFixThenQuery(fixes: set<int>, n: int, m: int, value: bool)
    ensures (n in SetFix(fixes, n, value)) == value
    ensures m != n ==> (m in SetFix(fixes, n, value)) == (m in fixes)
  {
  }

  /** `fixSet`: the ids of the leaks whose fixes are switched on. */
  class FixSet {
    var fixes: set<int>

    constructor ()
      ensures fixes == {}
    {
      fixes := {};
    }

    /**
     * `$$$SHOULDFIX$$$(n, value?)`: with a value, switches fix `n` on or
     * off and returns nothing; without one, reports whether it is on.
     */
    method ShouldFix(n: int, value: Option<bool>) returns (r: Option<bool>)
      modifies this
      ensures value.Some? ==> r.None? && fixes == SetFix(old(fixes), n, value.value)
      ensures value.None? ==> r == Some(n in fixes) && fixes == old(fixes)
    {
      if value.Some? {
        fixes := SetFix(fixes, n, value.value);
        r := None;
      } else {
        r := Some(n in fixes);
      }
    }
  }

  // ---------------------------------------------------------------------
  // applyWrite
  // ---------------------------------------------------------------------

  /** A scope object: its own properties. Its prototypes are given as the rest of a chain. */
  class ScopeObject {
    var props: map<string, JsValue>

    constructor (props: map<string, JsValue>)
      ensures this.props == props
    {
      this.props := props;
    }
  }

  /** The position of the first scope in the chain that owns `key`, or the chain's length. */
  function Owner(chain: seq<ScopeObject>, key: string): (r: nat)
    reads chain
    ensures r <= |chain|
    ensures r < |chain| ==> key in chain[r].props
    ensures forall i :: 0 <= i < r ==> key !in chain[i].props
  {
    if |chain| == 0 then 0
    else if key in chain[0].props then 0
    else 1 + Owner(chain[1..], key)
  }

  /**
   * `applyWrite(target, key, value)` on `target` and its prototype
   * chain: the first scope that owns `key` gets the value and the call
   * returns true; when none does, nothing changes and it returns false.
   */
  method ApplyWrite(chain: seq<ScopeObject>, key: string, value: JsValue) returns (found: bool)
    requires forall i, j :: 0 <= i < j < |chain| ==> chain[i] != chain[j]
    modifies chain
    ensures var o := old(Owner(chain, key));
      found == (o < |chain|)
      && forall i :: 0 <= i < |chain| ==>
        chain[i].props == if i == o then old(chain[i].props)[key := value] else old(chain[i].props)
    decreases |chain|
  {
    if |chain| == 0 {
      return false;
    } else if key in chain[0].props {
      chain[0].props := chain[0].props[key := value];
      return true;
    } else {
      ghost var rest := chain[1..];
      assert forall i :: 0 <= i < |rest| ==> rest[i] == chain[i + 1];
      found := ApplyWrite(chain[1..], key, value);
    }
  }

  // ---------------------------------------------------------------------
  // $$$CREATE_SCOPE_OBJECT$$$
  // ---------------------------------------------------------------------

  /** A property descriptor: a data property, or a getter/setter pair. */
  datatype PropertyDescriptor =
    | DataProperty(value: JsValue, enumerable: bool, writable: bool, configurable: bool)
    | AccessorProperty(getter: JsValue, setter: JsValue)

  /** `Object.create(proto, descriptors)`, as the prototype and the own property descriptors. */
  datatype ScopeRecord = ScopeRecord(proto: JsValue, props: map<string, PropertyDescriptor>)

  /** The descriptor given to each moved variable and argument before arguments get their values. */
  const Variable := DataProperty(Undefined, true, true, true)

  /** `argValues[i]`: undefined past the end. */
  function ArgValue(argValues: seq<JsValue>, i: nat): JsValue {
    if i < |argValues| then argValues[i] else Undefined
  }

  /** No later argument has the same name as argument `i`: its value is the one the scope keeps. */
  predicate LastBefore(args: seq<string>, i: nat, n: nat)
    requires i < n <= |args|
  {
    forall m :: i < m < n ==> args[m] != args[i]
  }

  /**
   * `$$$CREATE_SCOPE_OBJECT$$$`: every moved variable and argument becomes
   * a writable, enumerable, configurable data property; each argument
   * holds the value at its last position; the other descriptors are the
   * caller's; the prototype is the parent scope.
   */
  method CreateScopeObject(parent: JsValue, moved: seq<string>, unmoved: map<string, PropertyDescriptor>, args: seq<string>, argValues: seq<JsValue>)
    returns (scope: ScopeRecord)
    ensures scope.proto == parent
    ensures forall k :: k in scope.props <==> k in unmoved || k in moved || k in args
    ensures forall k :: k in moved && k !in args ==> scope.props[k] == Variable
    ensures forall i :: 0 <= i < |args| && LastBefore(args, i, |args|) ==>
      scope.props[args[i]] == DataProperty(ArgValue(argValues, i), true, true, true)
    ensures forall k :: k in unmoved && k !in moved && k !in args ==> scope.props[k] == unmoved[k]
  {
    var declared := DeclareVariables(unmoved, moved + args);
    assert forall k :: k in moved + args <==> k in moved || k in args;
    var descriptors := AssignArguments(declared, args, argValues);
    assert args[..|args|] == args;
    AssignedDomain(declared, args, argValues, |args|);
    forall k | k !in args && k in declared {
      AssignedOther(declared, args, argValues, |args|, k);
    }
    forall i | 0 <= i < |args| && LastBefore(args, i, |args|) {
      AssignedLast(declared, args, argValues, |args|, i);
    }
    scope := ScopeRecord(parent, descriptors);
  }

  /** The first loop: each name gets a fresh writable data property holding undefined. */
  method DeclareVariables(unmoved: map<string, PropertyDescriptor>, names: seq<string>) returns (d: map<string, PropertyDescriptor>)
    ensures forall k :: k in d <==> k in unmoved || k in names
    ensures forall k :: k in names ==> d[k] == Variable
    ensures forall k :: k in unmoved && k !in names ==> d[k] == unmoved[k]
  {
    d := unmoved;
    for i := 0 to |names|
      invariant forall k :: k in d <==> k in unmoved || k in names[..i]
      invariant forall k :: k in names[..i] ==> d[k] == Variable
      invariant forall k :: k in unmoved && k !in names[..i] ==> d[k] == unmoved[k]
    {
      assert names[..i + 1] == names[..i] + [names[i]];
      d := d[names[i] := Variable];
    }
    assert names[..|names|] == names;
  }

  /**
   * The descriptors after the first `n` rounds of the second loop: round
   * `i` sets argument `i`'s value. The first loop made every argument's
   * descriptor a writable data property, so setting its value gives the
   * data property below.
   */
  function Assigned(d0: map<string, PropertyDescriptor>, args: seq<string>, argValues: seq<JsValue>, n: nat): map<string, PropertyDescriptor>
    requires n <= |args|
  {
    if n == 0 then d0
    else Assigned(d0, args, argValues, n - 1)[args[n - 1] := DataProperty(ArgValue(argValues, n - 1), true, true, true)]
  }

  /** The second loop: argument `i`'s descriptor takes `argValues[i]`. */
  method AssignArguments(d0: map<string, PropertyDescriptor>, args: seq<string>, argValues: seq<JsValue>) returns (d: map<string, PropertyDescriptor>)
    ensures d == Assigned(d0, args, argValues, |args|)
  {
    d := d0;
    for n := 0 to |args|
      invariant d == Assigned(d0, args, argValues, n)
    {
      d := d[args[n] := DataProperty(ArgValue(argValues, n), true, true, true)];
    }
  }

  lemma {:induction false} AssignedDomain(d0: map<string, PropertyDescriptor>, args: seq<string>, argValues: seq<JsValue>, n: nat)
    requires n <= |args|
    ensures forall k :: k in Assigned(d0, args, argValues, n) <==> k in d0 || k in args[..n]
  {
    if n > 0 {
      AssignedDomain(d0, args, argValues, n - 1);
      assert args[..n] == args[..n - 1] + [args[n - 1]];
    }
  }

  lemma {:induction false} AssignedOther(d0: map<string, PropertyDescriptor>, args: seq<string>, argValues: seq<JsValue>, n: nat, k: string)
    requires n <= |args| && k !in args && k in d0
    ensures k in Assigned(d0, args, argValues, n) && Assigned(d0, args, argValues, n)[k] == d0[k]
  {
    if n > 0 {
      AssignedOther(d0, args, argValues, n - 1, k);
    }
  }

  /** A repeated argument name keeps the value of its last position. */
  lemma {:induction false} AssignedLast(d0: map<string, PropertyDescriptor>, args: seq<string>, argValues: seq<JsValue>, n: nat, i: nat)
    requires i < n <= |args| && LastBefore(args, i, n)
    ensures args[i] in Assigned(d0, args, argValues, n)
    ensures Assigned(d0, args, argValues, n)[args[i]] == DataProperty(ArgValue(argValues, i), true, true, true)
  {
    if i < n - 1 {
      assert args[n - 1] != args[i];
      AssignedLast(d0, args, argValues, n - 1, i);
    }
  }
}
