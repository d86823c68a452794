/** Accessor synthesis of dash.js (`checkGet`, `checkSet`, `parseProps`): for
    each property declared with mode 'r', 'w' or 'rw', the prototype gets a
    `get<P>` and/or `set<P>` method unless one is already visible on it
    (own or inherited, and truthy); other modes are ignored. */
module Accessors {

  datatype Option<T> = None | Some(value: T)

  /** The JavaScript values a prototype member can hold, as far as the
      synthesis can tell them apart. */
  datatype Value =
    | Undefined
    | Null
    | Bool(b: bool)
    | Num(n: int)
    | Str(s: string)
    | Obj
    | Method(name: string)
    | Getter(prop: string)   // the synthesized `function (self, model) { return model[prop]; }`
    | Setter(prop: string)   // the synthesized `function (self, model, value) { model[prop] = value; }`

  /** JavaScript truthiness, which `!proto[getter]` tests. */
  predicate Truthy(v: Value)
  {
    match v
    case Undefined => false
    case Null => false
    case Bool(b) => b
    case Num(n) => n != 0
    case Str(s) => s != ""
    case _ => true
  }

  /** `proto[k]`: the own member, else the inherited one, else undefined. */
  function Lookup(own: map<string, Value>, inherited: map<string, Value>, k: string): Value
  {
    if k in own then own[k] else if k in inherited then inherited[k] else Undefined
  }

  /** The own member named `k`, if any. */
  function Own(own: map<string, Value>, k: string): Option<Value>
  {
    if k in own then Some(own[k]) else None
  }

  /** The own members after `checkGet(proto, prop)`. */
  function GetterFilled(own: map<string, Value>, inherited: map<string, Value>, prop: string): map<string, Value>
  {
    var getter := "get" + prop;
    if Truthy(Lookup(own, inherited, getter)) then own else own[getter := Getter(prop)]
  }

  /** The own members after `checkSet(proto, prop)`. */
  function SetterFilled(own: map<string, Value>, inherited: map<string, Value>, prop: string): map<string, Value>
  {
    var setter := "set" + prop;
    if Truthy(Lookup(own, inherited, setter)) then own else own[setter := Setter(prop)]
  }

  /** One case of the `switch` in `parseProps`. */
  function Step(own: map<string, Value>, inherited: map<string, Value>, prop: string, mode: Value): map<string, Value>
  {
    if mode == Str("r") then GetterFilled(own, inherited, prop)
    else if mode == Str("w") then SetterFilled(own, inherited, prop)
    else if mode == Str("rw") then SetterFilled(GetterFilled(own, inherited, prop), inherited, prop)
    else own
  }

  /** The prototype's own members after the synthesis runs over the declared
      `(property, mode)` pairs in order. */
  function Synthesize(own: map<string, Value>, inherited: map<string, Value>, props: seq<(string, Value)>): map<string, Value>
  {
    if props == [] then own
    else
      var last := props[|props| - 1];
      Step(Synthesize(own, inherited, props[..|props| - 1]), inherited, last.0, last.1)
  }

  /** Some declaration asks for a getter of `p`. */
  predicate WantsGetter(props: seq<(string, Value)>, p: string)
  {
    (p, Str("r")) in props || (p, Str("rw")) in props
  }

  /** Some declaration asks for a setter of `p`. */
  predicate WantsSetter(props: seq<(string, Value)>, p: string)
  {
    (p, Str("w")) in props || (p, Str("rw")) in props
  }

  /** `k` is `prefix` followed by a property name. */
  predicate Named(prefix: string, k: string)
  {
    |k| >= 3 && k[..3] == prefix
  }

  /** What the synthesis should leave under `k`, member by member: a visible
      truthy member is never replaced; otherwise a requested getter or setter
      is installed; anything else is left as it was. */
  function Expected(own: map<string, Value>, inherited: map<string, Value>, props: seq<(string, Value)>, k: string): Option<Value>
  {
    if Truthy(Lookup(own, inherited, k)) then Own(own, k)
    else if Named("get", k) && WantsGetter(props, k[3..]) then Some(Getter(k[3..]))
    else if Named("set", k) && WantsSetter(props, k[3..]) then Some(Setter(k[3..]))
    else Own(own, k)
  }

  lemma AccessorName(prefix: string, p: string, k: string)
    requires |prefix| == 3
    ensures prefix + p == k <==> Named(prefix, k) && k[..3] == prefix && k[3..] == p
  {
    if Named(prefix, k) && k[3..] == p {
      assert k == k[..3] + k[3..];
    }
    if prefix + p == k {
      assert k[..3] == prefix && k[3..] == p;
    }
  }

  /** The member `k` after one `switch` case: only the getter or setter that
      the case asks for can appear, and only where nothing truthy is visible. */
  lemma StepOwn(before: map<string, Value>, inherited: map<string, Value>, p: string, m: Value, k: string)
    ensures Own(Step(before, inherited, p, m), k) ==
            if !Truthy(Lookup(before, inherited, k)) && "get" + p == k && (m == Str("r") || m == Str("rw"))
            then Some(Getter(p))
            else if !Truthy(Lookup(before, inherited, k)) && "set" + p == k && (m == Str("w") || m == Str("rw"))
            then Some(Setter(p))
            else Own(before, k)
  {
    assert ("get" + p)[0] == 'g' && ("set" + p)[0] == 's';
  }

  /** What is visible under `k` is the own member when there is one. */
  function Shown(o: Option<Value>, inherited: map<string, Value>, k: string): Value
  {
    match o
    case Some(v) => v
    case None => if k in inherited then inherited[k] else Undefined
  }

  /** The synthesis agrees with `Expected` on every member name: it only
      fills gaps, 'r' gives only a getter, 'w' only a setter, 'rw' both, and
      any other mode adds nothing. */
  lemma {:induction false} SynthesizeMeetsExpected(own: map<string, Value>, inherited: map<string, Value>, props: seq<(string, Value)>, k: string)
    ensures Own(Synthesize(own, inherited, props), k) == Expected(own, inherited, props, k)
  {
    if props != [] {
      var init, last := props[..|props| - 1], props[|props| - 1];
      var (p, m) := last;
      assert props == init + [last];
      SynthesizeMeetsExpected(own, inherited, init, k);
      var before := Synthesize(own, inherited, init);
      assert Lookup(before, inherited, k) == Shown(Own(before, k), inherited, k);
      assert Lookup(own, inherited, k) == Shown(Own(own, k), inherited, k);
      StepOwn(before, inherited, p, m, k);
      AccessorName("get", p, k);
      AccessorName("set", p, k);
      if Named("get", k) {
        var q := k[3..];
        assert WantsGetter(props, q) <==> WantsGetter(init, q) || (p == q && (m == Str("r") || m == Str("rw")));
      }
      if Named("set", k) {
        var q := k[3..];
        assert WantsSetter(props, q) <==> WantsSetter(init, q) || (p == q && (m == Str("w") || m == Str("rw")));
      }
    }
  }

  /** Once visible and truthy, a member is never replaced by the synthesis. */
  lemma NeverOverwrites(own: map<string, Value>, inherited: map<string, Value>, props: seq<(string, Value)>, k: string)
    requires k in own && Truthy(own[k])
    ensures k in Synthesize(own, inherited, props) && Synthesize(own, inherited, props)[k] == own[k]
  {
    SynthesizeMeetsExpected(own, inherited, props, k);
  }

  /** `parseProps` as written at dash.js:213-230: it walks the own members of
      the prototype itself (in their order `keys`) and takes each member's
      current value as the mode, instead of walking the `__PROPERTIES__` map. */
  function SynthesizeAsWritten(own: map<string, Value>, inherited: map<string, Value>, keys: seq<string>): (r: map<string, Value>)
    ensures own.Keys <= r.Keys
    ensures (forall i :: 0 <= i < |keys| && keys[i] in own ==> !IsMode(own[keys[i]])) ==> r == own
  {
    if keys == [] then own
    else
      var before := SynthesizeAsWritten(own, inherited, keys[..|keys| - 1]);
      var k := keys[|keys| - 1];
      if k in before then Step(before, inherited, k, before[k]) else before
  }

  /** `v` is one of the modes the `switch` in `parseProps` acts on. */
  predicate IsMode(v: Value)
  {
    v == Str("r") || v == Str("w") || v == Str("rw")
  }

  /** The own members of Controller's prototype (dash.js:316-455) when
      `parseProps` runs: the `__PROPERTIES__` map and four methods. */
  function ControllerMembers(): map<string, Value>
  {
    map["__PROPERTIES__" := Obj, "fire" := Method("fire"), "addListener" := Method("addListener"),
        "containsListener" := Method("containsListener"), "removeListener" := Method("removeListener")]
  }

  function ControllerKeys(): seq<string>
  {
    ["__PROPERTIES__", "fire", "addListener", "containsListener", "removeListener"]
  }

  /** Controller's `__PROPERTIES__`: EventsFired, EventsHandled, Listeners, all 'r'. */
  function ControllerModes(): seq<(string, Value)>
  {
    [("EventsFired", Str("r")), ("EventsHandled", Str("r")), ("Listeners", Str("r"))]
  }

  /** As written, Controller's prototype gets no `getListeners` (nor any other
      accessor), so `Widget.get('Listeners')` finds no method to call. */
  lemma ControllerGetsNoAccessorsAsWritten()
    ensures SynthesizeAsWritten(ControllerMembers(), map[], ControllerKeys()) == ControllerMembers()
    ensures "getListeners" !in SynthesizeAsWritten(ControllerMembers(), map[], ControllerKeys())
  {
    var own := ControllerMembers();
    var keys := ControllerKeys();
    assert forall i :: 0 <= i < |keys| ==> keys[i] in own && !IsMode(own[keys[i]]);
    ControllerHasNoGetters();
  }

  /** Walking the declared modes instead gives Controller its three getters
      and no setter. */
  lemma ControllerGetsGettersCorrected()
    ensures var r := Synthesize(ControllerMembers(), map[], ControllerModes());
            r == ControllerMembers()["getEventsFired" := Getter("EventsFired")]
                                    ["getEventsHandled" := Getter("EventsHandled")]
                                    ["getListeners" := Getter("Listeners")]
  {
    ControllerThirdGetter();
    assert ControllerModes()[..3] == ControllerModes();
  }

  lemma ControllerFirstGetter()
    ensures Synthesize(ControllerMembers(), map[], ControllerModes()[..1]) ==
            ControllerMembers()["getEventsFired" := Getter("EventsFired")]
  {
    var modes := ControllerModes();
    assert modes[..0] == [];
    SynthesizeNext(ControllerMembers(), map[], modes, 0);
    ControllerGetterNames();
    ControllerHasNoGetters();
    ReadOnlyStep(ControllerMembers(), "EventsFired", "getEventsFired");
  }

  lemma ControllerSecondGetter()
    ensures Synthesize(ControllerMembers(), map[], ControllerModes()[..2]) ==
            ControllerMembers()["getEventsFired" := Getter("EventsFired")]
                               ["getEventsHandled" := Getter("EventsHandled")]
  {
    ControllerFirstGetter();
    SynthesizeNext(ControllerMembers(), map[], ControllerModes(), 1);
    ControllerGetterNames();
    ControllerHasNoGetters();
    var r1 := ControllerMembers()["getEventsFired" := Getter("EventsFired")];
    ReadOnlyStep(r1, "EventsHandled", "getEventsHandled");
  }

  lemma ControllerThirdGetter()
    ensures Synthesize(ControllerMembers(), map[], ControllerModes()[..3]) ==
            ControllerMembers()["getEventsFired" := Getter("EventsFired")]
                               ["getEventsHandled" := Getter("EventsHandled")]
                               ["getListeners" := Getter("Listeners")]
  {
    ControllerSecondGetter();
    SynthesizeNext(ControllerMembers(), map[], ControllerModes(), 2);
    ControllerGetterNames();
    ControllerHasNoGetters();
    var r2 := ControllerMembers()["getEventsFired" := Getter("EventsFired")]
                                 ["getEventsHandled" := Getter("EventsHandled")];
    ReadOnlyStep(r2, "Listeners", "getListeners");
  }

  lemma ControllerGetterNames()
    ensures "get" + "EventsFired" == "getEventsFired"
    ensures "get" + "EventsHandled" == "getEventsHandled"
    ensures "get" + "Listeners" == "getListeners"
  {
  }

  lemma ControllerHasNoGetters()
    ensures "getEventsFired" !in ControllerMembers()
    ensures "getEventsHandled" !in ControllerMembers() && "getEventsHandled" != "getEventsFired"
    ensures "getListeners" !in ControllerMembers()
    ensures "getListeners" != "getEventsFired" && "getListeners" != "getEventsHandled"
  {
    assert "getEventsHandled"[9] != "getEventsFired"[9];
  }

  /** The synthesis over one more declaration of `props`. */
  lemma SynthesizeNext(own: map<string, Value>, inherited: map<string, Value>, props: seq<(string, Value)>, i: nat)
    requires i < |props|
    ensures Synthesize(own, inherited, props[..i + 1]) ==
            Step(Synthesize(own, inherited, props[..i]), inherited, props[i].0, props[i].1)
  {
    assert props[..i + 1][..i] == props[..i];
  }

  /** A read-only declaration with no getter visible, and nothing inherited,
      installs the getter. */
  lemma ReadOnlyStep(own: map<string, Value>, prop: string, getter: string)
    requires getter == "get" + prop && getter !in own
    ensures Step(own, map[], prop, Str("r")) == own[getter := Getter(prop)]
  {
  }

  /** A prototype under construction: its own members, which the synthesis
      adds to, and the members it inherits from its base. */
  class Prototype {
    var own: map<string, Value>
    const inherited: map<string, Value>

    constructor (own: map<string, Value>, inherited: map<string, Value>)
      ensures this.own == own && this.inherited == inherited
    {
      this.own := own;
      this.inherited := inherited;
    }

    /** `checkGet`: installs the getter for `prop` unless a truthy one is
        visible (own or inherited). */
    method CheckGet(prop: string)
      modifies this
      ensures own == GetterFilled(old(own), inherited, prop)
      ensures Truthy(Lookup(old(own), inherited, "get" + prop)) ==> own == old(own)
      ensures !Truthy(Lookup(old(own), inherited, "get" + prop)) ==>
                own == old(own)["get" + prop := Getter(prop)]
    {
      var getter := "get" + prop;
      var current := if getter in own then own[getter] else if getter in inherited then inherited[getter] else Undefined;
      if !Truthy(current) {
        own := own[getter := Getter(prop)];
      }
    }

    /** `checkSet`: installs the setter for `prop` unless a truthy one is
        visible (own or inherited). */
    method CheckSet(prop: string)
      modifies this
      ensures own == SetterFilled(old(own), inherited, prop)
      ensures Truthy(Lookup(old(own), inherited, "set" + prop)) ==> own == old(own)
      ensures !Truthy(Lookup(old(own), inherited, "set" + prop)) ==>
                own == old(own)["set" + prop := Setter(prop)]
    {
      var setter := "set" + prop;
      var current := if setter in own then own[setter] else if setter in inherited then inherited[setter] else Undefined;
      if !Truthy(current) {
        own := own[setter := Setter(prop)];
      }
    }

    /** `parseProps` over the declared `(property, mode)` pairs in their
        order, with the evident intent of dash.js:213-230. */
    method ParseProps(props: seq<(string, Value)>)
      modifies this
      ensures own == Synthesize(old(own), inherited, props)
      ensures forall k :: Own(own, k) == Expected(old(own), inherited, props, k)
    {
      var i := 0;
      while i < |props|
        invariant 0 <= i <= |props|
        invariant own == Synthesize(old(own), inherited, props[..i])
      {
        var (p, m) := props[i];
        assert props[..i + 1][..i] == props[..i];
        if m == Str("r") {
          CheckGet(p);
        } else if m == Str("w") {
          CheckSet(p);
        } else if m == Str("rw") {
          CheckGet(p);
          CheckSet(p);
        }
        i := i + 1;
      }
      assert props[..i] == props;
      forall k ensures Own(own, k) == Expected(old(own), inherited, props, k) {
        SynthesizeMeetsExpected(old(own), inherited, props, k);
      }
    }
  }
}
