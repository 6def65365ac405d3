/**
 * The agents' record of the event listeners on an event target
 * (`$$listeners`): per event type, the registered (listener, useCapture)
 * pairs, each at most once, so that the heap snapshot shows them.
 */
module AgentListeners {
  /** `useCapture`: a boolean, or an options object (by reference). */
  datatype Capture = Flag(b: bool) | Options(ref: nat)

  /** `ListenerInfo`: the listener (by reference) and the `useCapture` it was registered with. */
  datatype ListenerInfo = ListenerInfo(listener: nat, useCapture: Capture)

  /**
   * How a recorded pair is matched. The current agent compares the stored
   * `useCapture` only when it is a boolean; the older deuterium agent
   * compares it exactly.
   */
  datatype MatchRule = BleakRule | DeuteriumRule

  predicate Matches(rule: MatchRule, info: ListenerInfo, listener: nat, useCapture: Capture) {
    info.listener == listener &&
    match rule
    case BleakRule => info.useCapture.Flag? ==> info.useCapture == useCapture
    case DeuteriumRule => info.useCapture == useCapture
  }

  /** An exact match is a match under either rule, and a recorded pair matches its own call. */
  lemma MatchRules(info: ListenerInfo, listener: nat, useCapture: Capture)
    ensures Matches(DeuteriumRule, info, listener, useCapture) ==> Matches(BleakRule, info, listener, useCapture)
    ensures Matches(BleakRule, ListenerInfo(listener, useCapture), listener, useCapture)
    ensures Matches(DeuteriumRule, ListenerInfo(listener, useCapture), listener, useCapture)
  {
  }

  /** A pair recorded with an options object matches any later `useCapture` for the same listener in the current agent. */
  lemma OptionsMatchAnyCapture(ref: nat, listener: nat, useCapture: Capture)
    ensures Matches(BleakRule, ListenerInfo(listener, Options(ref)), listener, useCapture)
    ensures Matches(DeuteriumRule, ListenerInfo(listener, Options(ref)), listener, useCapture) <==> useCapture == Options(ref)
  {
  }

  /** `$$listeners`: event type to its recorded pairs. */
  type Registry = map<string, seq<ListenerInfo>>

  /** The position of the first recorded pair matching the call, or the list's length. */
  function FirstMatch(rule: MatchRule, list: seq<ListenerInfo>, listener: nat, useCapture: Capture): (r: nat)
    ensures r <= |list|
    ensures r < |list| ==> Matches(rule, list[r], listener, useCapture)
    ensures forall i :: 0 <= i < r ==> !Matches(rule, list[i], listener, useCapture)
  {
    if |list| == 0 then 0
    else if Matches(rule, list[0], listener, useCapture) then 0
    else 1 + FirstMatch(rule, list[1..], listener, useCapture)
  }

  function ListOf(reg: Registry, eventType: string): seq<ListenerInfo> {
    if eventType in reg then reg[eventType] else []
  }

  /** The registry after `addEventListener(type, listener, useCapture)`. */
  function WithListener(rule: MatchRule, reg: Registry, eventType: string, listener: nat, useCapture: Capture): Registry {
    var list := ListOf(reg, eventType);
    if FirstMatch(rule, list, listener, useCapture) < |list| then reg
    else reg[eventType := list + [ListenerInfo(listener, useCapture)]]
  }

  /** The registry after `removeEventListener(type, listener, useCapture)`. */
  function WithoutListener(rule: MatchRule, reg: Registry, eventType: string, listener: nat, useCapture: Capture): Registry {
    var list := ListOf(reg, eventType);
    var i := FirstMatch(rule, list, listener, useCapture);
    if i == |list| then reg
    else
      var rest := list[..i] + list[i + 1..];
      if |rest| == 0 then reg - {eventType} else reg[eventType := rest]
  }

  /** Every recorded type has at least one pair. */
  ghost predicate NoEmptyLists(reg: Registry) {
    forall t :: t in reg ==> |reg[t]| > 0
  }

  /** Adding records the call, changes no other type, and keeps every list non-empty. */
  lemma WithListenerRecords(rule: MatchRule, reg: Registry, eventType: string, listener: nat, useCapture: Capture)
    requires NoEmptyLists(reg)
    ensures var r := WithListener(rule, reg, eventType, listener, useCapture);
      NoEmptyLists(r) && eventType in r && FirstMatch(rule, r[eventType], listener, useCapture) < |r[eventType]|
      && forall t :: t != eventType ==> ListOf(r, t) == ListOf(reg, t)
  {
    var list := ListOf(reg, eventType);
    if FirstMatch(rule, list, listener, useCapture) == |list| {
      MatchRules(ListenerInfo(listener, useCapture), listener, useCapture);
      FirstMatchAppend(rule, list, ListenerInfo(listener, useCapture), listener, useCapture);
    }
  }

  /** A pair is recorded at most once: adding it again changes nothing. */
  lemma WithListenerIdempotent(rule: MatchRule, reg: Registry, eventType: string, listener: nat, useCapture: Capture)
    requires NoEmptyLists(reg)
    ensures WithListener(rule, WithListener(rule, reg, eventType, listener, useCapture), eventType, listener, useCapture)
      == WithListener(rule, reg, eventType, listener, useCapture)
  {
    WithListenerRecords(rule, reg, eventType, listener, useCapture);
  }

  /** Removing keeps every list non-empty and changes no other type. */
  lemma WithoutListenerKeepsOthers(rule: MatchRule, reg: Registry, eventType: string, listener: nat, useCapture: Capture)
    requires NoEmptyLists(reg)
    ensures var r := WithoutListener(rule, reg, eventType, listener, useCapture);
      NoEmptyLists(r) && forall t :: t != eventType ==> ListOf(r, t) == ListOf(reg, t)
  {
  }

  /** Removing a pair that was just added to a type where it had no match restores the registry. */
  lemma AddThenRemove(rule: MatchRule, reg: Registry, eventType: string, listener: nat, useCapture: Capture)
    requires NoEmptyLists(reg)
    requires FirstMatch(rule, ListOf(reg, eventType), listener, useCapture) == |ListOf(reg, eventType)|
    ensures WithoutListener(rule, WithListener(rule, reg, eventType, listener, useCapture), eventType, listener, useCapture) == reg
  {
    var list := ListOf(reg, eventType);
    var info := ListenerInfo(listener, useCapture);
    MatchRules(info, listener, useCapture);
    FirstMatchAppend(rule, list, info, listener, useCapture);
    var list' := list + [info];
    assert list'[..|list|] + list'[|list| + 1..] == list;
  }

  lemma {:induction false} FirstMatchAppend(rule: MatchRule, list: seq<ListenerInfo>, info: ListenerInfo, listener: nat, useCapture: Capture)
    requires FirstMatch(rule, list, listener, useCapture) == |list| && Matches(rule, info, listener, useCapture)
    ensures FirstMatch(rule, list + [info], listener, useCapture) == |list|
  {
    if |list| > 0 {
      assert (list + [info])[1..] == list[1..] + [info];
      FirstMatchAppend(rule, list[1..], info, listener, useCapture);
    }
  }

  /** The listener record of one event target. */
  class EventTargetListeners {
    var listeners: Registry

    constructor ()
      ensures listeners == map[]
    {
      listeners := map[];
    }

    /** The bookkeeping of the `addEventListener` override (the native call is not modelled). */
    method AddEventListener(rule: MatchRule, eventType: string, listener: nat, useCapture: Capture)
      modifies this
      ensures listeners == WithListener(rule, old(listeners), eventType, listener, useCapture)
    {
      var list := ListOf(listeners, eventType);
      for i := 0 to |list|
        invariant forall j :: 0 <= j < i ==> !Matches(rule, list[j], listener, useCapture)
      {
        if Matches(rule, list[i], listener, useCapture) {
          FirstMatchBound(rule, list, listener, useCapture, i);
          return;
        }
      }
      FirstMatchNone(rule, list, listener, useCapture);
      listeners := listeners[eventType := list + [ListenerInfo(listener, useCapture)]];
    }

    /** The bookkeeping of the `removeEventListener` override. */
    method RemoveEventListener(rule: MatchRule, eventType: string, listener: nat, useCapture: Capture)
      modifies this
      ensures listeners == WithoutListener(rule, old(listeners), eventType, listener, useCapture)
    {
      if eventType in listeners {
        var list := listeners[eventType];
        for i := 0 to |list|
          invariant forall j :: 0 <= j < i ==> !Matches(rule, list[j], listener, useCapture)
        {
          if Matches(rule, list[i], listener, useCapture) {
            FirstMatchBound(rule, list, listener, useCapture, i);
            var rest := list[..i] + list[i + 1..];
            if |rest| == 0 {
              listeners := listeners - {eventType};
            } else {
              listeners := listeners[eventType := rest];
            }
            return;
          }
        }
        FirstMatchNone(rule, list, listener, useCapture);
      }
    }
  }

  lemma FirstMatchBound(rule: MatchRule, list: seq<ListenerInfo>, listener: nat, useCapture: Capture, i: nat)
    requires i < |list| && Matches(rule, list[i], listener, useCapture)
    requires forall j :: 0 <= j < i ==> !Matches(rule, list[j], listener, useCapture)
    ensures FirstMatch(rule, list, listener, useCapture) == i
  {
  }

  lemma FirstMatchNone(rule: MatchRule, list: seq<ListenerInfo>, listener: nat, useCapture: Capture)
    requires forall j :: 0 <= j < |list| ==> !Matches(rule, list[j], listener, useCapture)
    ensures FirstMatch(rule, list, listener, useCapture) == |list|
  {
  }
}
