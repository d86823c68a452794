/** Whole-system runs of the dashboard wiring: a controller fires, the
    dashboard's relay receives the call and forwards it to the subscribed
    controllers. Each method builds its own widgets and states what reaches
    whom. */
module Scenarios {
  import Arrays
  import Registry
  import opened Controllers
  import opened Dashboards

  /** Widget `a` fires "Ping" and handles nothing; widget `b` fires nothing
      and handles "Ping"; both are added to a new dashboard, `a` first. */
  method PingSetup() returns (d: Dashboard, a: Widget, b: Widget)
    ensures d.Valid() && a.controller != b.controller
    ensures a.controller.listeners == map["Ping" := [d]]
    ensures d.listeners == map["Ping" := [b.controller]]
    ensures "onPing" in d.relays && d.relays["onPing"] == "Ping"
    ensures a.controller.events == ["Ping"] && a.controller.handles == []
    ensures b.controller.events == [] && b.controller.handles == ["Ping"]
    ensures b.controller.listeners == map[]
    ensures d.widgets == [a, b]
    ensures fresh(d) && fresh(a.controller) && fresh(b.controller)
  {
    var ca := new Controller(["Ping"], []);
    var cb := new Controller([], ["Ping"]);
    a := new Widget(ca);
    b := new Widget(cb);
    d := new Dashboard();

    d.AddWidget(a);
    FiredOnce(d, ca);
    assert ca.listeners == map["Ping" := [d]];
    assert d.listeners == map["Ping" := []];
    d.AddWidget(b);
    HandledOnce(cb);
    assert d.listeners == map["Ping" := [cb]];
    RelayFor(d, "Ping");
    assert HandlerName("Ping") == "onPing";
  }

  /** The folds for a controller `c` firing only "Ping", added to an empty
      dashboard `d`. */
  lemma FiredOnce(d: object, c: Controller)
    ensures AddedAll<object>(map[], ["Ping"], d) == map["Ping" := [d]]
    ensures AddedAll<Controller>(Opened(map[], ["Ping"]), [], c) == map["Ping" := []]
  {
    Single<object>(map[], "Ping", d);
    Single<Controller>(map[], "Ping", c);
    assert Registry.Entry<object>(map[], "Ping") + [d] == [d];
  }

  /** The folds for a controller handling only "Ping", added when "Ping"
      already has an empty list. */
  lemma HandledOnce(c: Controller)
    ensures AddedAll(Opened(map["Ping" := []], []), ["Ping"], c) == map["Ping" := [c]]
  {
    Single(map["Ping" := []], "Ping", c);
    assert Registry.Entry(map["Ping" := []], "Ping") + [c] == [c];
  }

  /** When `a` fires "Ping", the dashboard's relay calls `b`'s onPing once,
      with the arguments and `a`. */
  method PingReachesHandler<A>(args: A) returns (a: Widget, b: Widget, delivered: seq<Call<A>>)
    ensures a.controller.events == ["Ping"] && a.controller.handles == []
    ensures b.controller.events == [] && b.controller.handles == ["Ping"]
    ensures delivered == [Call(b.controller, "onPing", args, a)]
  {
    var d;
    d, a, b := PingSetup();
    var fired := a.controller.Fire(a, "Ping", args);
    assert fired == [Call(d, "onPing", args, a)];
    delivered := d.Relay(fired[0].handler, fired[0].args, fired[0].source);
  }

  /** After `b` is removed, `a` firing "Ping" still reaches the dashboard's
      relay, which now calls nobody. */
  method RemovedHandlerHearsNothing<A>(args: A) returns (a: Widget, b: Widget, delivered: seq<Call<A>>)
    ensures a.controller.events == ["Ping"] && a.controller.handles == []
    ensures b.controller.events == [] && b.controller.handles == ["Ping"]
    ensures delivered == []
  {
    var d;
    d, a, b := PingSetup();
    var ok := d.RemoveWidget(b);
    assert b.controller.handles[..1] == ["Ping"];
    assert d.listeners == map["Ping" := []];
    var fired := a.controller.Fire(a, "Ping", args);
    assert fired == [Call(d, "onPing", args, a)];
    delivered := d.Relay(fired[0].handler, fired[0].args, fired[0].source);
  }

  /** Fired and handled events share one table: a controller that both fires
      and handles "Ping" gets its own event back through the relay. */
  method FirerHearsItself<A>(args: A) returns (w: Widget, delivered: seq<Call<A>>)
    ensures w.controller.events == ["Ping"] && w.controller.handles == ["Ping"]
    ensures delivered == [Call(w.controller, "onPing", args, w)]
  {
    var c := new Controller(["Ping"], ["Ping"]);
    w := new Widget(c);
    var d := new Dashboard();
    d.AddWidget(w);
    Single<object>(map[], "Ping", d);
    Single(map["Ping" := []], "Ping", c);
    assert c.events == ["Ping"] && c.handles == ["Ping"];
    assert Registry.Entry<object>(map[], "Ping") + [d] == [d];
    assert Registry.Entry(map["Ping" := []], "Ping") + [c] == [c];
    assert c.listeners == map["Ping" := [d]];
    assert d.listeners == map["Ping" := [c]];
    assert "on" + "Ping" == "onPing";
    assert "onPing" in d.relays && d.relays["onPing"] == "Ping";

    var fired := c.Fire(w, "Ping", args);
    assert fired == [Call(d, "onPing", args, w)];
    delivered := d.Relay(fired[0].handler, fired[0].args, fired[0].source);
  }

  /** `removeWiget` unregisters the dashboard by the handled events only: a
      widget that fires "Ping" and handles nothing keeps the dashboard as its
      "Ping" listener after it is removed, while it leaves `_widgets`. */
  method RemovedFirerKeepsDashboard() returns (d: Dashboard, a: Widget)
    ensures a.controller.events == ["Ping"] && a.controller.handles == []
    ensures a.controller.listeners == map["Ping" := [d]]
    ensures d.widgets == []
  {
    var ca := new Controller(["Ping"], []);
    a := new Widget(ca);
    d := new Dashboard();
    d.AddWidget(a);
    Single<object>(map[], "Ping", d);
    assert ca.events == ["Ping"];
    assert Registry.Entry<object>(map[], "Ping") + [d] == [d];
    assert ca.listeners == map["Ping" := [d]];
    var ok := d.RemoveWidget(a);
    assert ca.handles[..0] == [];
    assert d.widgets == Arrays.RemoveFirst([a], a);
  }

  /** As written, adding `a` (fires "Ping") fails right after the "Ping"
      list and relay are created: the dashboard is never registered on `a`'s
      controller. `b` is still subscribed to "Ping", but `a` firing "Ping"
      calls nobody. */
  method PingAsWrittenDeliversNothing<A>(args: A) returns (d: Dashboard, a: Widget, b: Widget, fired: seq<Call<A>>)
    ensures a.controller.events == ["Ping"] && a.controller.handles == []
    ensures b.controller.events == [] && b.controller.handles == ["Ping"]
    ensures d.listeners == map["Ping" := [b.controller]] && d.widgets == [b]
    ensures fired == []
  {
    var ca := new Controller(["Ping"], []);
    var cb := new Controller([], ["Ping"]);
    a := new Widget(ca);
    b := new Widget(cb);
    d := new Dashboard();

    var addedA := d.AddWidgetAsWritten(a);
    assert d.listeners == map["Ping" := []] && ca.listeners == map[];
    var addedB := d.AddWidgetAsWritten(b);
    HandledOnce(cb);
    assert d.listeners == map["Ping" := [cb]];
    fired := ca.Fire(a, "Ping", args);
  }

  /** As written, removing `b` (handles "Ping") fails before anything
      changes: `b` stays subscribed to "Ping" and stays in `_widgets`. */
  method RemovedHandlerAsWrittenStays() returns (d: Dashboard, b: Widget, ok: bool)
    ensures b.controller.events == [] && b.controller.handles == ["Ping"]
    ensures !ok && d.listeners == map["Ping" := [b.controller]] && d.widgets == [b]
  {
    var cb := new Controller([], ["Ping"]);
    b := new Widget(cb);
    d := new Dashboard();
    var added := d.AddWidgetAsWritten(b);
    Single<Controller>(map[], "Ping", cb);
    assert Registry.Entry<Controller>(map[], "Ping") + [cb] == [cb];
    assert d.listeners == map["Ping" := [cb]];
    ok := d.RemoveWidgetAsWritten(b);
  }

  /** The folds over a one-event list. */
  lemma Single<L>(m: Registry.Table<L>, e: string, l: L)
    ensures Opened(m, [e]) == if e in m then m else m[e := []]
    ensures AddedAll(m, [e], l) == m[e := Registry.Entry(m, e) + [l]]
    ensures AddedAll(m, [], l) == m && Opened(m, []) == m
  {
    assert [e][..0] == [];
  }
}
