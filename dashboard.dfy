/** The Dashboard of dash.js: a list of widgets and one table `_listeners`
    from event name to the controllers subscribed to it. The first time an
    event is seen, its list is created and a relay method named "on" + event
    is installed on the dashboard; the relay forwards to every controller in
    that list, in order. Fired and handled events share the one table. */
module Dashboards {
  import Arrays
  import Registry
  import opened Controllers

  /** What `_registerEvents` calls back with for each event: for fired
      events `c.addListener(e, this)`, for handled events `a.push(c)`. */
  datatype Callback = ListenTo(c: Controller) | Subscribe(c: Controller)

  /** The table after the lists of `events` are created where absent. */
  function Opened<L>(m: Registry.Table<L>, events: seq<string>): Registry.Table<L>
  {
    if events == [] then m
    else
      var before := Opened(m, events[..|events| - 1]);
      var e := events[|events| - 1];
      if e in before then before else before[e := []]
  }

  /** `l` appended once to the list of each of `events`, in order (a list is
      created where absent). */
  function AddedAll<L>(m: Registry.Table<L>, events: seq<string>, l: L): Registry.Table<L>
  {
    if events == [] then m
    else Registry.Added(AddedAll(m, events[..|events| - 1], l), events[|events| - 1], l)
  }

  /** `removeListener(e, l)` for each of `events`, in order. */
  function RemovedAll<L(==)>(m: Registry.Table<L>, events: seq<string>, l: L): Registry.Table<L>
  {
    if events == [] then m
    else Registry.Removed(RemovedAll(m, events[..|events| - 1], l), events[|events| - 1], l)
  }

  /** `Arrays.remove.call(L[e], c)` for each of `events`, in order; lists are
      never deleted, even when they become empty. */
  function UnsubscribedAll<L(==)>(m: Registry.Table<L>, events: seq<string>, l: L): Registry.Table<L>
  {
    if events == [] then m
    else
      var before := UnsubscribedAll(m, events[..|events| - 1], l);
      var e := events[|events| - 1];
      if e in before then before[e := Arrays.RemoveFirst(before[e], l)] else before
  }

  /** Index of the first of `events` without a list in `m`; `|events|` when
      all have one. */
  function FirstMissing<L>(m: Registry.Table<L>, events: seq<string>): (f: nat)
    ensures f <= |events|
    ensures forall j :: 0 <= j < f ==> events[j] in m
    ensures f < |events| ==> events[f] !in m
  {
    if events == [] || events[0] !in m then 0
    else 1 + FirstMissing(m, events[1..])
  }

  /** Creating lists only adds the events not seen before, with empty lists;
      a list already there is kept as it is. */
  lemma {:induction false} OpenedEntries<L>(m: Registry.Table<L>, events: seq<string>, e: string)
    ensures e in Opened(m, events) <==> e in m || e in events
    ensures Registry.Entry(Opened(m, events), e) == Registry.Entry(m, e)
  {
    if events != [] {
      var init := events[..|events| - 1];
      assert events == init + [events[|events| - 1]];
      OpenedEntries(m, init, e);
    }
  }

  /** Each event's list gains one `l` per time the event is listed, at its
      end; a list exists afterwards exactly for the events seen before or
      listed now. */
  lemma {:induction false} AddedAllEntries<L>(m: Registry.Table<L>, events: seq<string>, l: L, e: string)
    ensures e in AddedAll(m, events, l) <==> e in m || e in events
    ensures Registry.Entry(AddedAll(m, events, l), e) ==
            Registry.Entry(m, e) + Arrays.Repeat(l, multiset(events)[e])
  {
    if events == [] {
      assert Registry.Entry(m, e) + [] == Registry.Entry(m, e);
    } else {
      AddedAllEntries(m, events[..|events| - 1], l, e);
      AddedAllStep(m, events, l, e);
    }
  }

  lemma AddedAllStep<L>(m: Registry.Table<L>, events: seq<string>, l: L, e: string)
    requires events != []
    requires var init := events[..|events| - 1];
             (e in AddedAll(m, init, l) <==> e in m || e in init) &&
             Registry.Entry(AddedAll(m, init, l), e) == Registry.Entry(m, e) + Arrays.Repeat(l, multiset(init)[e])
    ensures e in AddedAll(m, events, l) <==> e in m || e in events
    ensures Registry.Entry(AddedAll(m, events, l), e) ==
            Registry.Entry(m, e) + Arrays.Repeat(l, multiset(events)[e])
  {
    var init, last := events[..|events| - 1], events[|events| - 1];
    var n := multiset(init)[e];
    CountSnoc(events, e);
    assert e in events <==> e in init || e == last by {
      assert events == init + [last];
    }
    if last == e {
      var s := Registry.Entry(m, e);
      assert Arrays.Repeat(l, n + 1) == Arrays.Repeat(l, n) + [l];
      assert (s + Arrays.Repeat(l, n)) + [l] == s + (Arrays.Repeat(l, n) + [l]);
    }
  }

  /** How often `e` is listed, counting the last event separately. */
  lemma CountSnoc(events: seq<string>, e: string)
    requires events != []
    ensures multiset(events)[e] ==
            multiset(events[..|events| - 1])[e] + (if events[|events| - 1] == e then 1 else 0)
  {
    assert events == events[..|events| - 1] + [events[|events| - 1]];
  }

  /** `removeListener(e, l)` for other events than `e` leaves every count
      for `e` as it was. */
  lemma {:induction false} RemovedAllElsewhere<L>(m: Registry.Table<L>, events: seq<string>, l: L, e: string, l': L)
    requires e !in events
    ensures Registry.Count(RemovedAll(m, events, l), e, l') == Registry.Count(m, e, l')
  {
    if events != [] {
      var init, last := events[..|events| - 1], events[|events| - 1];
      assert events == init + [last];
      RemovedAllElsewhere(m, init, l, e, l');
      Registry.RemovedCounts(RemovedAll(m, init, l), last, l, e, l');
    }
  }

  /** Each event's list loses its first `c` once per time the event is
      listed; no list is created or deleted. */
  lemma {:induction false} UnsubscribedAllEntries<L>(m: Registry.Table<L>, events: seq<string>, l: L, e: string)
    ensures e in UnsubscribedAll(m, events, l) <==> e in m
    ensures Registry.Entry(UnsubscribedAll(m, events, l), e) ==
            Arrays.RemoveFirstTimes(Registry.Entry(m, e), l, multiset(events)[e])
  {
    if events != [] {
      var init, last := events[..|events| - 1], events[|events| - 1];
      UnsubscribedAllEntries(m, init, l, e);
      CountSnoc(events, e);
      if last == e && e !in m {
        RemoveFromEmpty(l, multiset(init)[e]);
        RemoveFromEmpty(l, multiset(init)[e] + 1);
      }
    }
  }

  lemma {:induction false} RemoveFromEmpty<L>(l: L, k: nat)
    ensures Arrays.RemoveFirstTimes([], l, k) == []
  {
    if k > 0 {
      RemoveFromEmpty(l, k - 1);
    }
  }

  /** Removing a controller after adding it, with the as-written rules, gives
      back every list it was not on before; the lists created for it stay,
      empty. */
  lemma AddThenRemoveRestoresLists<L>(m: Registry.Table<L>, fired: seq<string>, handled: seq<string>, c: L, e: string)
    requires c !in Registry.Entry(m, e)
    ensures var after := UnsubscribedAll(AddedAll(Opened(m, fired), handled, c), handled, c);
            (e in after <==> e in m || e in fired || e in handled) &&
            Registry.Entry(after, e) == Registry.Entry(m, e)
  {
    var prepared := Opened(m, fired);
    OpenedEntries(m, fired, e);
    AddedAllEntries(prepared, handled, c, e);
    var added := AddedAll(prepared, handled, c);
    UnsubscribedAllEntries(added, handled, c, e);
    Arrays.RemoveFirstTimesOfCopies(Registry.Entry(m, e), c, multiset(handled)[e], multiset(handled)[e]);
    assert Registry.Entry(m, e) + Arrays.Repeat(c, 0) == Registry.Entry(m, e);
  }

  /** The asymmetric removal: the dashboard is registered on the controller
      for its fired events but taken off only for its handled events, so for
      an event fired and not handled the registration outlives the removal. */
  lemma RegistrationOutlivesRemoval<L>(reg: Registry.Table<L>, fired: seq<string>, handled: seq<string>, d: L, e: string)
    requires e in fired && e !in handled
    ensures Registry.Count(RemovedAll(AddedAll(reg, fired, d), handled, d), e, d) ==
            Registry.Count(reg, e, d) + multiset(fired)[e]
    ensures Registry.Count(RemovedAll(AddedAll(reg, fired, d), handled, d), e, d) > 0
  {
    RemovedAllElsewhere(AddedAll(reg, fired, d), handled, d, e, d);
    AddedAllEntries(reg, fired, d, e);
    CountAppendRepeat(Registry.Entry(reg, e), d, multiset(fired)[e]);
  }

  lemma {:induction false} CountAppendRepeat<L>(s: seq<L>, l: L, k: nat)
    ensures multiset(s + Arrays.Repeat(l, k))[l] == multiset(s)[l] + k
  {
    if k > 0 {
      CountAppendRepeat(s, l, k - 1);
      assert s + Arrays.Repeat(l, k) == (s + Arrays.Repeat(l, k - 1)) + [l];
    }
  }

  /** In a valid dashboard every event with a list has its relay "on" + e,
      and that relay forwards to that event's list. */
  lemma RelayFor(d: Dashboard, e: string)
    requires d.Valid() && e in d.listeners
    ensures HandlerName(e) in d.relays && d.relays[HandlerName(e)] == e
  {
    var n := HandlerName(e);
    assert n in d.relays;
    var e' := d.relays[n];
    assert n == "on" + e';
    assert e == n[2..] == e';
  }

  /** `UnsubscribedAll` over one more event of `events`. */
  lemma UnsubscribedAllNext<L>(m: Registry.Table<L>, events: seq<string>, i: nat, l: L)
    requires i < |events|
    ensures var before := UnsubscribedAll(m, events[..i], l);
            var e := events[i];
            UnsubscribedAll(m, events[..i + 1], l) ==
              if e in before then before[e := Arrays.RemoveFirst(before[e], l)] else before
  {
    assert events[..i + 1][..i] == events[..i];
  }

  /** `RemovedAll` over one more event of `events`. */
  lemma RemovedAllNext<L>(m: Registry.Table<L>, events: seq<string>, i: nat, l: L)
    requires i < |events|
    ensures RemovedAll(m, events[..i + 1], l) == Registry.Removed(RemovedAll(m, events[..i], l), events[i], l)
  {
    assert events[..i + 1][..i] == events[..i];
  }

  /** Appending to a list just created empty is appending to no list. */
  lemma AddedToOpened<L>(m: Registry.Table<L>, e: string, l: L)
    ensures Registry.Added(if e in m then m else m[e := []], e, l) == Registry.Added(m, e, l)
  {
    if e !in m {
      assert Registry.Entry(m[e := []], e) == Registry.Entry(m, e);
    }
  }

  class Dashboard {
    /** `_widgets`: the widgets added, in order. */
    var widgets: seq<Widget>
    /** `_listeners`: event name to the controllers subscribed to it. */
    var listeners: map<string, seq<Controller>>
    /** Relay methods installed on the dashboard: name to the event whose
        list the relay forwards to. */
    var relays: map<string, string>

    /** There is a relay "on" + e exactly for the events with a list, and it
        forwards to that event's list. */
    ghost predicate Valid()
      reads this
    {
      (forall n :: n in relays ==> relays[n] in listeners && n == "on" + relays[n]) &&
      (forall e :: e in listeners ==> "on" + e in relays)
    }

    constructor ()
      ensures widgets == [] && listeners == map[] && relays == map[] && Valid()
    {
      widgets := [];
      listeners := map[];
      relays := map[];
    }

    /** `_addHandler(a, n)`: installs the relay method `n` over the list of
        event `e`. */
    method AddHandler(n: string, e: string)
      modifies this
      ensures relays == old(relays)[n := e]
      ensures listeners == old(listeners) && widgets == old(widgets)
    {
      relays := relays[n := e];
    }

    /** The relay method `n`: the handler `n` of every controller in the
        list, once each, in list order, with the arguments and the firer it
        was given. */
    method Relay<A>(n: string, args: A, source: object) returns (calls: seq<Call<A>>)
      requires Valid() && n in relays
      ensures |calls| == |listeners[relays[n]]|
      ensures forall k :: 0 <= k < |calls| ==>
                calls[k] == Call(listeners[relays[n]][k], n, args, source)
    {
      var a := listeners[relays[n]];
      calls := [];
      var i, k := 0, |a|;
      while i < k
        invariant 0 <= i <= k == |a|
        invariant |calls| == i
        invariant forall j :: 0 <= j < i ==> calls[j] == Call(a[j], n, args, source)
      {
        calls := calls + [Call(a[i], n, args, source)];
        i := i + 1;
      }
    }

    /** The first half of a `_registerEvents` round: when `e` has no list
        yet, an empty one is created and the relay "on" + e installed over
        it. */
    method OpenEvent(e: string)
      requires Valid()
      modifies this
      ensures Valid() && e in listeners && widgets == old(widgets)
      ensures listeners == if e in old(listeners) then old(listeners) else old(listeners)[e := []]
    {
      if e !in listeners {
        listeners := listeners[e := []];
        AddHandler(HandlerName(e), e);
      }
    }

    /** One round of `_registerEvents` for event `e`: its list and relay
        created if it has no list yet, then the callback run. */
    method RegisterEvent(e: string, f: Callback)
      requires Valid()
      modifies this, f.c
      ensures Valid() && widgets == old(widgets)
      ensures f.ListenTo? ==> listeners == (if e in old(listeners) then old(listeners) else old(listeners)[e := []])
      ensures f.ListenTo? ==> f.c.listeners == Registry.Added(old(f.c.listeners), e, this)
      ensures f.Subscribe? ==> listeners == Registry.Added(old(listeners), e, f.c)
      ensures f.Subscribe? ==> f.c.listeners == old(f.c.listeners)
    {
      if f.ListenTo? {
        ListenEvent(e, f.c);
      } else {
        SubscribeEvent(e, f.c);
      }
    }

    /** A `_registerEvents` round with the fired-event callback. */
    method ListenEvent(e: string, c: Controller)
      requires Valid()
      modifies this, c
      ensures Valid() && widgets == old(widgets)
      ensures listeners == if e in old(listeners) then old(listeners) else old(listeners)[e := []]
      ensures c.listeners == Registry.Added(old(c.listeners), e, this)
    {
      OpenEvent(e);
      Listen(e, c);
    }

    /** A `_registerEvents` round with the handled-event callback. */
    method SubscribeEvent(e: string, c: Controller)
      requires Valid()
      modifies this
      ensures Valid() && widgets == old(widgets)
      ensures listeners == Registry.Added(old(listeners), e, c)
    {
      ghost var start := listeners;
      OpenEvent(e);
      AddedToOpened(start, e, c);
      Append(e, c);
    }

    /** The fired-event callback `c.addListener(e, this)`: the dashboard
        registers itself on `c` for `e`. */
    method Listen(e: string, c: Controller)
      modifies c
      ensures c.listeners == Registry.Added(old(c.listeners), e, this)
    {
      c.AddListener(e, this);
    }

    /** The handled-event callback `a.push(c)`: `c` goes at the end of the
        existing list of `e`. */
    method Append(e: string, c: Controller)
      requires Valid() && e in listeners
      modifies this
      ensures Valid() && widgets == old(widgets)
      ensures listeners == Registry.Added(old(listeners), e, c)
    {
      listeners := listeners[e := listeners[e] + [c]];
      assert listeners.Keys == old(listeners).Keys;
    }

    /** `_registerEvents(E, L, f)`: `RegisterEvent` for each event, in order. */
    method RegisterEvents(events: seq<string>, f: Callback)
      requires Valid()
      modifies this, f.c
      ensures Valid() && widgets == old(widgets)
      ensures f.ListenTo? ==> listeners == Opened(old(listeners), events)
      ensures f.ListenTo? ==> f.c.listeners == AddedAll(old(f.c.listeners), events, this)
      ensures f.Subscribe? ==> listeners == AddedAll(old(listeners), events, f.c)
      ensures f.Subscribe? ==> f.c.listeners == old(f.c.listeners)
    {
      var i := 0;
      while i < |events|
        invariant 0 <= i <= |events|
        invariant Valid() && widgets == old(widgets)
        invariant f.ListenTo? ==> listeners == Opened(old(listeners), events[..i])
        invariant f.ListenTo? ==> f.c.listeners == AddedAll(old(f.c.listeners), events[..i], this)
        invariant f.Subscribe? ==> listeners == AddedAll(old(listeners), events[..i], f.c)
        invariant f.Subscribe? ==> f.c.listeners == old(f.c.listeners)
      {
        assert events[..i + 1][..i] == events[..i];
        RegisterEvent(events[i], f);
        i := i + 1;
      }
      assert events[..i] == events;
    }

    /** `addWidget`: lists and relays for the controller's fired and handled
        events; the dashboard registered on the controller once per fired
        event; the controller appended once per handled event; the widget
        appended to `_widgets`. */
    method AddWidget(w: Widget)
      requires Valid()
      modifies this, w.controller
      ensures Valid()
      ensures listeners == AddedAll(Opened(old(listeners), w.controller.events), w.controller.handles, w.controller)
      ensures w.controller.listeners == AddedAll(old(w.controller.listeners), w.controller.events, this)
      ensures widgets == old(widgets) + [w]
    {
      var c := w.controller;
      RegisterEvents(c.events, ListenTo(c));
      RegisterEvents(c.handles, Subscribe(c));
      widgets := widgets + [w];
    }

    /** One round of the loop in `removeWiget` for handled event `e`: the
        dashboard's registration on `c` for `e` is removed, then `c` is taken
        off `e`'s list; without a list, `Arrays.remove` fails on `undefined`
        (`ok` false) after the first step. */
    method UnregisterEvent(c: Controller, e: string) returns (ok: bool)
      requires Valid()
      modifies this, c
      ensures Valid() && relays == old(relays) && widgets == old(widgets)
      ensures listeners.Keys == old(listeners).Keys
      ensures c.listeners == Registry.Removed(old(c.listeners), e, this)
      ensures ok == (e in old(listeners))
      ensures listeners == if ok then old(listeners)[e := Arrays.RemoveFirst(old(listeners)[e], c)]
                           else old(listeners)
    {
      c.RemoveListener(e, this);
      if e !in listeners {
        return false;
      }
      var a := Arrays.Remove(listeners[e], c);
      listeners := listeners[e := a];
      assert listeners.Keys == old(listeners).Keys;
      return true;
    }

    /** `removeWiget`: for each handled event, in order, the dashboard's
        registration on the controller is removed and the controller is taken
        off the event's list once; then the widget leaves `_widgets`. A
        handled event without a list makes `Arrays.remove` fail on
        `undefined`: `ok` is false and the work done up to there stays. */
    method RemoveWidget(w: Widget) returns (ok: bool)
      requires Valid()
      modifies this, w.controller
      ensures Valid() && relays == old(relays) && listeners.Keys == old(listeners).Keys
      ensures var H := w.controller.handles;
              var f := FirstMissing(old(listeners), H);
              ok == (f == |H|) &&
              listeners == UnsubscribedAll(old(listeners), H[..f], w.controller) &&
              w.controller.listeners ==
                RemovedAll(old(w.controller.listeners), H[..if ok then f else f + 1], this)
      ensures widgets == if ok then Arrays.RemoveFirst(old(widgets), w) else old(widgets)
    {
      var c := w.controller;
      var H := c.handles;
      ghost var f := FirstMissing(listeners, H);
      var i, k := 0, |H|;
      while i < k
        invariant 0 <= i <= k == |H| && i <= f
        invariant Valid() && relays == old(relays) && listeners.Keys == old(listeners).Keys
        invariant listeners == UnsubscribedAll(old(listeners), H[..i], c)
        invariant c.listeners == RemovedAll(old(c.listeners), H[..i], this)
        invariant widgets == old(widgets)
      {
        UnsubscribedAllNext(old(listeners), H, i, c);
        RemovedAllNext(old(c.listeners), H, i, this);
        var present := UnregisterEvent(c, H[i]);
        if !present {
          assert H[i] !in old(listeners);
          assert f == i;
          return false;
        }
        i := i + 1;
      }
      assert H[..i] == H;
      widgets := Arrays.Remove(widgets, w);
      return true;
    }

    /** A `_registerEvents` round with the fired-event callback as written:
        the list and relay for `e` are created, then `c.addListener(e, this)`
        throws on `self.get` (`self` is the string `e`) and registers
        nothing, so the round fails (`ok` false). */
    method ListenEventAsWritten(e: string, c: Controller) returns (ok: bool)
      requires Valid()
      modifies this
      ensures Valid() && widgets == old(widgets) && !ok
      ensures listeners == if e in old(listeners) then old(listeners) else old(listeners)[e := []]
    {
      OpenEvent(e);
      ok := false;
    }

    /** `addWidget` as written: `c.addListener(e, this)` passes the event
        name `e` in the `self` position of `addListener`, so `self.get` is
        undefined and the call throws a TypeError. With a fired event the
        first round stops there: its list and relay exist, nothing is
        registered on `c`, the handled events are never reached and the
        widget is not added (`ok` false). */
    method AddWidgetAsWritten(w: Widget) returns (ok: bool)
      requires Valid()
      modifies this, w.controller
      ensures Valid() && w.controller.listeners == old(w.controller.listeners)
      ensures ok == (w.controller.events == [])
      ensures !ok ==> var e := w.controller.events[0];
                      listeners == (if e in old(listeners) then old(listeners) else old(listeners)[e := []]) &&
                      widgets == old(widgets)
      ensures ok ==> listeners == AddedAll(old(listeners), w.controller.handles, w.controller) &&
                     widgets == old(widgets) + [w]
    {
      var c := w.controller;
      if c.events != [] {
        ok := ListenEventAsWritten(c.events[0], c);
        return;
      }
      RegisterEvents(c.handles, Subscribe(c));
      widgets := widgets + [w];
      return true;
    }

    /** `removeWiget` as written: the first handled event's
        `c.removeListener(e, this)` throws on `self.get` before anything has
        changed (`ok` false); only a widget that handles nothing leaves
        `_widgets`. */
    method RemoveWidgetAsWritten(w: Widget) returns (ok: bool)
      modifies this
      ensures ok == (w.controller.handles == [])
      ensures listeners == old(listeners) && relays == old(relays)
      ensures widgets == if ok then Arrays.RemoveFirst(old(widgets), w) else old(widgets)
    {
      if w.controller.handles != [] {
        return false;
      }
      widgets := Arrays.Remove(widgets, w);
      return true;
    }
  }
}
