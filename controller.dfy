/** The Controller of dash.js: the events it fires and handles, and its
    listener table with `fire`, `addListener`, `containsListener` and
    `removeListener`. Listeners are compared by identity (`===`), so they are
    object references here. A handler invocation is not executed but
    recorded as a `Call`, and `fire` returns them in order. */
module Controllers {
  import Arrays
  import Registry

  /** One handler invocation `target[handler](args, source)`. */
  datatype Call<A> = Call(target: object, handler: string, args: A, source: object)

  /** The handler method an event is delivered to: "on" followed by its name. */
  function HandlerName(name: string): string
  {
    "on" + name
  }

  class Controller {
    /** Events this controller fires; what `c.events()` stands for. */
    const events: seq<string>
    /** Events this controller handles; what `c.handles()` stands for. */
    const handles: seq<string>
    /** The `Listeners` table: event name to listeners in registration order. */
    var listeners: map<string, seq<object>>

    /** Removal deletes an event's entry as soon as its list empties. */
    ghost predicate Valid()
      reads this
    {
      Registry.NoEmptyLists(listeners)
    }

    constructor (events: seq<string>, handles: seq<string>)
      ensures this.events == events && this.handles == handles
      ensures listeners == map[] && Valid()
    {
      this.events := events;
      this.handles := handles;
      listeners := map[];
    }

    /** `fire`: every listener registered for `name` gets its "on" + name
        handler called once, in registration order, with the arguments and
        the firing `self`; no entry, no calls. */
    method Fire<A>(self: object, name: string, args: A) returns (calls: seq<Call<A>>)
      ensures |calls| == |Registry.Entry(listeners, name)|
      ensures forall k :: 0 <= k < |calls| ==>
                calls[k] == Call(listeners[name][k], HandlerName(name), args, self)
    {
      calls := [];
      if name !in listeners {
        return;
      }
      var L := listeners[name];
      var e := HandlerName(name);
      var i, k := 0, |L|;
      while i < k
        invariant 0 <= i <= k == |L|
        invariant |calls| == i
        invariant forall j :: 0 <= j < i ==> calls[j] == Call(L[j], e, args, self)
      {
        calls := calls + [Call(L[i], e, args, self)];
        i := i + 1;
      }
    }

    /** `addListener`: `listener` goes at the end of the list for `name`,
        which is created when absent; every other entry is left as it was. */
    method AddListener(name: string, listener: object)
      modifies this
      ensures listeners == Registry.Added(old(listeners), name, listener)
      ensures listeners.Keys == old(listeners).Keys + {name}
      ensures listeners[name] == Registry.Entry(old(listeners), name) + [listener]
      ensures forall n :: n in old(listeners) && n != name ==> listeners[n] == old(listeners)[n]
      ensures old(Valid()) ==> Valid()
    {
      var L := if name in listeners then listeners[name] else [];
      listeners := listeners[name := L + [listener]];
    }

    /** `containsListener`: whether `listener` is registered for `name`;
        false when `name` has no entry. */
    method ContainsListener(name: string, listener: object) returns (b: bool)
      ensures b <==> name in listeners && listener in listeners[name]
      ensures b <==> Registry.Count(listeners, name, listener) > 0
    {
      if name in listeners {
        var L := listeners[name];
        var i, j := 0, |L|;
        while i < j
          invariant 0 <= i <= j == |L|
          invariant listener !in L[..i]
        {
          if L[i] == listener {
            return true;
          }
          i := i + 1;
        }
        assert L[..i] == L;
      }
      return false;
    }

    /** `removeListener`: no entry, no change; otherwise the first occurrence
        of `listener` is spliced out and the entry is deleted once its list
        is empty. Every other entry is left as it was. */
    method RemoveListener(name: string, listener: object)
      modifies this
      ensures listeners == Registry.Removed(old(listeners), name, listener)
      ensures name !in old(listeners) ==> listeners == old(listeners)
      ensures forall n :: n != name ==> (n in listeners <==> n in old(listeners))
      ensures forall n :: n in listeners && n != name ==> listeners[n] == old(listeners)[n]
      ensures old(Valid()) ==> Valid()
    {
      if name !in listeners {
        return;
      }
      var L := Arrays.Remove(listeners[name], listener);
      if |L| == 0 {
        listeners := listeners - {name};
      } else {
        listeners := listeners[name := L];
      }
      Registry.RemovedDeletesEmptied(old(listeners), name, listener);
    }
  }

  /** A widget, reduced to the controller it composes (what
      `widget.controller()` stands for). */
  class Widget {
    const controller: Controller

    constructor (controller: Controller)
      ensures this.controller == controller
    {
      this.controller := controller;
    }
  }
}
