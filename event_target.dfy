// The listener registry of src/event-target.ts.  Callbacks are opaque: a
// listener is an identity, and calling it is recorded as an invocation.
module EventTarget {

  /** A listener callback, identified by reference as a JavaScript Set does. */
  type Listener = nat

  /** One call of a listener: which callback ran, for which event, with what. */
  datatype Invocation<K, P> = Invocation(listener: Listener, eventType: K, payload: P)

  predicate Distinct(s: seq<Listener>)
  {
    forall i, j :: 0 <= i < j < |s| ==> s[i] != s[j]
  }

  /** `Set.prototype.add` on a set kept in insertion order. */
  function SetAdd(s: seq<Listener>, x: Listener): (r: seq<Listener>)
    ensures forall y :: y in r <==> y in s || y == x
    ensures |r| == if x in s then |s| else |s| + 1
    ensures r[..|s|] == s
    ensures Distinct(s) ==> Distinct(r)
  {
    if x in s then s else s + [x]
  }

  /** `Set.prototype.delete`: the others keep their order. */
  function SetDelete(s: seq<Listener>, x: Listener): (r: seq<Listener>)
    ensures forall y :: y in r <==> y in s && y != x
    ensures Distinct(s) ==> Distinct(r) && |r| == if x in s then |s| - 1 else |s|
    ensures x !in s ==> r == s
    decreases |s|
  {
    if s == [] then []
    else if s[0] == x then
      assert Distinct(s) ==> Distinct(s[1..]) && x !in s[1..];
      SetDelete(s[1..], x)
    else
      assert Distinct(s) ==> Distinct(s[1..]) && s[0] !in s[1..];
      [s[0]] + SetDelete(s[1..], x)
  }

  /** The calls `listeners.forEach((x) => x(event))` makes, in order. */
  function Calls<K, P>(listeners: seq<Listener>, eventType: K, payload: P): (r: seq<Invocation<K, P>>)
    ensures |r| == |listeners|
    ensures forall i :: 0 <= i < |r| ==> r[i] == Invocation(listeners[i], eventType, payload)
  {
    if listeners == [] then []
    else Calls(listeners[..|listeners| - 1], eventType, payload)
         + [Invocation(listeners[|listeners| - 1], eventType, payload)]
  }

  /** The listeners registered for a type; none when it was never registered. */
  function ListenersOf<K>(events: map<K, seq<Listener>>, eventType: K): (r: seq<Listener>)
    ensures eventType !in events ==> r == []
  {
    if eventType in events then events[eventType] else []
  }

  class CustomEventTarget<K(==), P> {
    /** `events`: the listener set of every type that has ever had one. */
    var events: map<K, seq<Listener>>
    /** Every listener call made so far. */
    var invocations: seq<Invocation<K, P>>

    ghost predicate Valid()
      reads this
    {
      forall k :: k in events ==> Distinct(events[k])
    }

    constructor ()
      ensures Valid() && events == map[] && invocations == []
    {
      events := map[];
      invocations := [];
    }

    function Listeners(eventType: K): seq<Listener>
      reads this
    {
      ListenersOf(events, eventType)
    }

    method AddEventListener(eventType: K, callback: Listener)
      requires Valid()
      modifies this
      ensures Valid()
      ensures events == old(events)[eventType := SetAdd(old(Listeners(eventType)), callback)]
      ensures invocations == old(invocations)
    {
      var listeners := Listeners(eventType);
      events := events[eventType := SetAdd(listeners, callback)];
    }

    method GetListenerCount(eventType: K) returns (n: nat)
      ensures n == |Listeners(eventType)|
      ensures eventType !in events ==> n == 0
    {
      n := if eventType in events then |events[eventType]| else 0;
    }

    method DispatchEvent(eventType: K, payload: P)
      modifies this
      ensures events == old(events)
      ensures invocations == old(invocations) + Calls(old(Listeners(eventType)), eventType, payload)
    {
      if eventType !in events {
        return;
      }
      var listeners := events[eventType];
      var i := 0;
      while i < |listeners|
        invariant 0 <= i <= |listeners| && events == old(events)
        invariant invocations == old(invocations) + Calls(listeners[..i], eventType, payload)
      {
        assert listeners[..i + 1][..i] == listeners[..i];
        invocations := invocations + [Invocation(listeners[i], eventType, payload)];
        i := i + 1;
      }
      assert listeners[..i] == listeners;
    }

    method RemoveEventListener(eventType: K, callback: Listener)
      requires Valid()
      modifies this
      ensures Valid()
      ensures eventType in old(events) ==> events == old(events)[eventType := SetDelete(old(events)[eventType], callback)]
      ensures eventType !in old(events) ==> events == old(events)
      ensures invocations == old(invocations)
    {
      if eventType !in events {
        return;
      }
      events := events[eventType := SetDelete(events[eventType], callback)];
    }
  }

  /**
   * Adding a callback that is already registered leaves the count alone; any
   * other callback raises it by one.  Removing a registered one lowers it by
   * one and removing an unknown one changes nothing.
   */
  lemma {:induction false} AddThenRemoveCount(s: seq<Listener>, x: Listener)
    requires Distinct(s)
    ensures |SetAdd(s, x)| == |s| + (if x in s then 0 else 1)
    ensures x !in s ==> SetDelete(SetAdd(s, x), x) == s
  {
    if x !in s {
      DeleteAppended(s, x);
    }
  }

  lemma {:induction false} DeleteAppended(s: seq<Listener>, x: Listener)
    requires x !in s
    ensures SetDelete(s + [x], x) == s
    decreases |s|
  {
    if s == [] {
      assert SetDelete([x], x) == SetDelete([x][1..], x);
    } else {
      assert (s + [x])[1..] == s[1..] + [x];
      DeleteAppended(s[1..], x);
    }
  }
}
