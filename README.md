# DashJS event bookkeeping, modelled in Dafny

DashJS (`dash.js`) is a small MVC widget scaffold. Controllers fire and handle
named events, and a Dashboard routes events between the widgets added to it.
This project models the in-memory bookkeeping behind that routing, and proves
what it guarantees:

- **`Arrays.remove`** (module `Arrays`): removes the first element strictly equal
  to a given one and keeps the rest in order. It is a no-op when no element
  matches.
- **The Controller's listener registry** (modules `Registry`, `Controllers`):
  - `fire`, `addListener`, `containsListener` and `removeListener` over a map
    from event name to an ordered list of listeners.
  - The same listener may be registered several times.
  - Removal takes out the first match only.
  - An event's entry is deleted once its list is empty.
  - `fire` records one `Call(listener, "on" + name, args, firer)` per
    registered listener, in list order.
- **Accessor synthesis** (module `Accessors`): `checkGet`, `checkSet` and
  `parseProps` give a prototype a `get<P>` and/or `set<P>` method for each
  property declared `'r'`, `'w'` or `'rw'`. A visible truthy member, own or
  inherited, is never replaced. Other modes are silently ignored.
- **Dashboard wiring** (module `Dashboards`): `_addHandler`, `_registerEvents`,
  `addWidget`, `removeWiget`.
  - The dashboard keeps a widget list and one table `_listeners` from event
    name to controllers.
  - The first time an event is seen, its list and an `"on" + e` relay over
    that list are created.
  - Fired and handled events share the table, so a controller that both fires
    and handles an event gets its own event back.
  - Removal works from the handled events only. It never deletes lists or
    relays.
- **Scenarios** (module `Scenarios`): whole runs in which a controller fires,
  the dashboard relays the event, and the results are stated for widgets
  added and then removed.

The source calls several methods that `Controller` and `Widget` do not define:
`widget.controller()`, `c.events()` and `c.handles()`. Its dashboard also calls
`c.addListener(e, this)` and `c.removeListener(e, this)`, whose argument lists
differ from `addListener(self, args)`. The model reads these calls by their
evident meaning, and it models what they do as written separately (see
Findings):

- The widget's controller is `Widget.controller`.
- A controller's fired and handled events are the inputs `Controller.events`
  and `Controller.handles`.
- The two calls register or unregister the dashboard as a listener for `e` on
  `c`.

Listener identity (`===`) is object identity.

The source names the removal method `removeWiget`. The model calls it
`RemoveWidget`.

`parseProps`'s `switch` has no default case, so an unknown mode is ignored
(`Accessors.Step`, `Accessors.Expected`).

## Model

| member | source | states |
|---|---|---|
| `Arrays.Remove` | dash.js:134-143 | The result is the input with its first strictly-equal element removed (`RemoveFirst`). |
| `Arrays.FirstIndex` | dash.js:137-138 | The index the scan stops at holds `e`, and no earlier element is `e`. |
| `Arrays.RemoveFirstSplices` | dash.js:134-143 | Removal splices out exactly the first match and keeps everything before and after it in order. With no match the array is unchanged. |
| `Arrays.RemoveFirstCounts` | dash.js:134-143 | Exactly one occurrence goes when there is one (multiset minus `{e}`). The length drops by one iff `e` occurs. |
| `Arrays.RemoveFirstAfterPrefix` | dash.js:137-141 | A prefix free of `e` is untouched: the removal happens behind it. |
| `Arrays.RemoveFirstTimesOfCopies` | dash.js:416-420 | `j` removals of `e` from `s` followed by `k` copies of `e` (`e` not in `s`) leave `s` followed by `k - j` copies. |
| `Registry.AddedCounts` | dash.js:367-381 | Adding raises the count of (`name`, `l`) by one and no other count. It keeps the table free of empty lists. |
| `Registry.RemovedCounts` | dash.js:429-447 | Removing lowers the count of (`name`, `l`) by one when it is positive and leaves it at 0 otherwise. No other count changes. The list shrinks by exactly one iff `l` was present. |
| `Registry.RemovedDeletesEmptied` | dash.js:449-453 | The entry is deleted exactly when the list was `[l]` or already empty, so no empty list is ever kept. |
| `Registry.EntryIffRegistered` | dash.js:449-453 | With no empty lists kept, an event has an entry iff some listener is registered for it. |
| `Registry.AddThenRemoveTimes` | dash.js:416-420 | A listener added `k` times is still registered after `j < k` removals, with count `k - j`. The `k`th removal restores the table exactly. |
| `Controllers.Controller.Fire` | dash.js:339-355 | One call per registered listener, in list order, to `"on" + name` with `(args, self)`. No entry means no calls. |
| `Controllers.Controller.AddListener` | dash.js:367-381 | The listener is appended at the end of `name`'s list, which is created if absent. Every other entry is unchanged. The no-empty-list invariant is kept. |
| `Controllers.Controller.ContainsListener` | dash.js:397-414 | True iff the listener occurs in `name`'s list, that is, iff its count is positive. False when there is no entry. |
| `Controllers.Controller.RemoveListener` | dash.js:429-454 | With no entry the table is unchanged. Otherwise the first occurrence is spliced out and the entry is deleted once empty. Every other entry is unchanged. |
| `Accessors.StepOwn` | dash.js:223-227 | One `switch` case adds only the getter (`'r'`), only the setter (`'w'`) or both (`'rw'`), and only where nothing truthy is visible. Any other mode adds nothing. |
| `Accessors.SynthesizeMeetsExpected` | dash.js:171-229 | After synthesis, every member name holds what `Expected` says. Visible truthy members stay as they were. Requested gaps get `Getter(P)`/`Setter(P)`. Nothing else changes. |
| `Accessors.NeverOverwrites` | dash.js:171-198 | An own truthy member survives synthesis unchanged. |
| `Accessors.Prototype.CheckGet` | dash.js:171-179 | Installs `get<P>` iff no truthy `get<P>` is visible, own or inherited. Otherwise the prototype is unchanged. |
| `Accessors.Prototype.CheckSet` | dash.js:190-198 | Installs `set<P>` iff no truthy `set<P>` is visible, own or inherited. Otherwise the prototype is unchanged. |
| `Accessors.Prototype.ParseProps` | dash.js:213-230 | The prototype's own members become `Synthesize(old, inherited, props)`, agreeing with `Expected` on every name. This is the corrected reading; see Findings. |
| `Accessors.SynthesizeAsWritten` | dash.js:213-230 | The as-written walk over the prototype's own members never drops a member. It changes nothing when no member it visits holds `'r'`, `'w'` or `'rw'`. |
| `Accessors.ControllerGetsNoAccessorsAsWritten` | dash.js:213-230 | As written, Controller's prototype comes out of `parseProps` unchanged, with no `getListeners`. |
| `Accessors.ControllerGetsGettersCorrected` | dash.js:316-328 | Reading the declared modes gives Controller `getEventsFired`, `getEventsHandled` and `getListeners`, and no setter. |
| `Dashboards.Dashboard.AddHandler` | dash.js:513-523 | Installs relay `n` over event `e`'s list. Nothing else changes. |
| `Dashboards.Dashboard.Relay` | dash.js:514-522 | The relay calls handler `n` on each controller in its event's list, once each, in list order, with `(args, controller)` as given. |
| `Dashboards.Dashboard.RegisterEvent` | dash.js:543-557 | The list and relay are created only if the event has no list yet. Then the callback either registers the dashboard on `c` or appends `c`. The relay invariant is kept. |
| `Dashboards.Dashboard.OpenEvent` | dash.js:546-555 | An event without a list gets an empty one and its relay. An event with a list keeps it. The relay invariant holds afterwards. |
| `Dashboards.Dashboard.Listen` | dash.js:577-579 | The fired-event callback appends the dashboard to `c`'s listeners for `e`. |
| `Dashboards.Dashboard.Append` | dash.js:581-583 | The handled-event callback appends `c` to the end of `e`'s existing list. Nothing else changes. |
| `Dashboards.Dashboard.ListenEvent` | dash.js:577-579 | A round with the fired-event callback leaves the dashboard's table as the list creation made it. The dashboard is registered on `c` once more for `e`. |
| `Dashboards.Dashboard.SubscribeEvent` | dash.js:581-583 | A round with the handled-event callback leaves `c` appended to `e`'s list, whether or not the list existed before. |
| `Dashboards.RelayFor` | dash.js:546-555 | In a valid dashboard, every event with a list has its relay `"on" + e`, and that relay forwards to that event's list. |
| `Dashboards.Dashboard.RegisterEvents` | dash.js:539-559 | Each event is processed in order, as the folds `Opened`/`AddedAll` over the event list. |
| `Dashboards.Dashboard.AddWidget` | dash.js:568-586 | Lists and relays are made for fired and handled events. The dashboard is registered on the controller once per fired event. The controller is appended once per handled event. The widget is appended to `_widgets`. |
| `Dashboards.Dashboard.UnregisterEvent` | dash.js:605-610 | The dashboard's registration on `c` for `e` is removed. Then `c` is removed once from `e`'s list. With no list, `ok` is false after the first step. |
| `Dashboards.Dashboard.RemoveWidget` | dash.js:595-614 | Handled events are processed in order up to the first one without a list. `ok` says whether there was none. No list or relay is deleted. `_widgets` loses the widget only on success. |
| `Dashboards.Dashboard.ListenEventAsWritten` | dash.js:577-579 | As written, a fired-event round creates the list and relay for `e` and then fails. Nothing is registered on `c`. |
| `Dashboards.Dashboard.AddWidgetAsWritten` | dash.js:568-586 | As written, a controller with a fired event stops after its first round: the list and relay exist, nothing is registered, the widget is not added, and `ok` is false. A controller with no fired event is subscribed to its handled events and added. |
| `Dashboards.Dashboard.RemoveWidgetAsWritten` | dash.js:595-614 | As written, a controller with a handled event makes removal fail before anything changes. A controller with none only leaves `_widgets`. |
| `Dashboards.FirstMissing` | dash.js:605-607 | The index of the first handled event without a list. All earlier ones have a list. |
| `Dashboards.OpenedEntries` | dash.js:546-555 | Lists are created only for events not seen before, and they start empty. Existing lists are kept. |
| `Dashboards.AddedAllEntries` | dash.js:581-583 | Each event's list gains the controller at its end, once per time the event is listed. A list exists afterwards exactly for old and listed events. |
| `Dashboards.RemovedAllElsewhere` | dash.js:605-610 | Unregistering for other events leaves every count for `e` unchanged. |
| `Dashboards.UnsubscribedAllEntries` | dash.js:605-611 | Each list loses its first occurrence of the controller once per listing of its event. No list is created or deleted. |
| `Dashboards.AddThenRemoveRestoresLists` | dash.js:568-614 | Adding and then removing a controller that was on no list restores every list. The lists created for it remain, empty. |
| `Dashboards.RegistrationOutlivesRemoval` | dash.js:577-610 | For an event the controller fires but does not handle, the dashboard's registration survives `removeWiget`. |
| `Scenarios.PingSetup` | dash.js:568-586 | A fires Ping and B handles it. After adding both, A's table is `{Ping: [dashboard]}`, the dashboard's is `{Ping: [B's controller]}`, and relay `onPing` exists. |
| `Scenarios.PingReachesHandler` | dash.js:513-523 | A firing Ping results in exactly one call: B's controller's `onPing` with `(args, A)`. |
| `Scenarios.RemovedHandlerHearsNothing` | dash.js:595-614 | After B is removed, A firing Ping reaches the relay, which calls nobody. |
| `Scenarios.FirerHearsItself` | dash.js:575-583 | A controller that fires and handles Ping receives its own event through the shared table. |
| `Scenarios.PingAsWrittenDeliversNothing` | dash.js:568-586 | As written, after a Ping firer and then a Ping handler are added, the handler is subscribed, but Ping fired by the firer calls nobody. Only the handler is in `_widgets`. |
| `Scenarios.RemovedHandlerAsWrittenStays` | dash.js:595-614 | As written, removing a Ping handler fails. It stays subscribed to Ping and stays in `_widgets`. |
| `Scenarios.RemovedFirerKeepsDashboard` | dash.js:605-613 | A widget that fires Ping and handles nothing keeps the dashboard as its Ping listener after removal, while it leaves `_widgets`. |

## Findings

| source | as written | input that shows it | evidently intended | confidence | as-written member | corrected member |
|---|---|---|---|---|---|---|
| dash.js:213-230 | `parseProps(p)` is called with the prototype itself (dash.js:267-269). It walks the prototype's own members and reads each member's value as a mode. | Controller's prototype (dash.js:316-328). Its modes sit under `__PROPERTIES__`, so no member's value is `'r'`/`'w'`/`'rw'` and no accessor is made. `Widget.get('Listeners')` (dash.js:483-486) then has no `getListeners` to call. | Walk `p.__PROPERTIES__` and install the accessors on `p`. | high; not executed | `Accessors.ControllerGetsNoAccessorsAsWritten` (on `Accessors.SynthesizeAsWritten`) | `Accessors.Prototype.ParseProps` (with `Accessors.ControllerGetsGettersCorrected`) |
| dash.js:577-579 | `addWidget` calls `c.addListener(e, this)`. Against `addListener(self, args)` (dash.js:367-373), the event name becomes `self` and the dashboard becomes `args`. `self.get('Listeners')` is undefined on a string, so the call throws a TypeError. | A widget firing Ping, then a widget handling Ping, are added. The first `addWidget` throws once the Ping list and relay exist. It registers nothing and never reaches `_widgets.push`. Ping fired by the first widget then reaches nobody. | Register the dashboard on `c` for `e`, passing the widget as `self`: `widget.call('addListener', [e, this])` (dash.js:479-481). | high; not executed | `Dashboards.Dashboard.AddWidgetAsWritten` (with `Dashboards.Dashboard.ListenEventAsWritten` and `Scenarios.PingAsWrittenDeliversNothing`) | `Dashboards.Dashboard.AddWidget` (with `Dashboards.Dashboard.ListenEvent` and `Scenarios.PingReachesHandler`) |
| dash.js:605-611 | `removeWiget` calls `c.removeListener(e, this)`, again with the event name as `self` (dash.js:429-435). `self.get('Listeners')` throws a TypeError before `Arrays.remove` runs. | Removing a widget that handles Ping. The first round throws before anything changes, so the controller stays on the Ping list and the widget stays in `_widgets`. | Unregister the dashboard from `c` for `e` with `widget.call('removeListener', [e, this])`, then take `c` off the list. | high; not executed | `Dashboards.Dashboard.RemoveWidgetAsWritten` (with `Scenarios.RemovedHandlerAsWrittenStays`) | `Dashboards.Dashboard.RemoveWidget` (with `Dashboards.Dashboard.UnregisterEvent` and `Scenarios.RemovedHandlerHearsNothing`) |

## Left out

- `construct`'s object machinery (dash.js:232-277) is not modelled. This covers self-instantiation through `instanceof`, prototype chaining through `new Base()`, `extend`, and the `__BASE__`/`__PROTOTYPE__`/`__CONSTRUCTOR__` metadata. Its only effect this model uses is the set of members a prototype inherits (`Accessors.Prototype.inherited`).
- `Widget.call`, `Widget.get` and `Widget.set` (dash.js:479-491) are not modelled. They forward to the controller by method name and are reduced to `Widget.controller`.
- `View`, the `Model` placeholder (dash.js:283-292), the `window.Dash` export and the surrounding function (dash.js:617-627) are glue and are not modelled.
- Missing handlers are not modelled. Every listener is taken to have its `"on" + name` method, and `Relay` requires its relay to exist. In the source a missing method throws (dash.js:353, dash.js:520).
- Handlers are recorded as `Call`s, not run. A handler that changes the list while `fire` or a relay walks it is not modelled. Such a handler could make the source skip or repeat entries.
- In the source, `fire`, `addListener`, `containsListener` and `removeListener` reach the table through `self.get('Listeners')`. That is the widget's model, and the `Listeners` object sits on `Model`'s shared prototype. The model gives each Controller its own table.
- `_widgets`, `_events` and `_listeners` sit on Dashboard's prototype (dash.js:500-502), so in the source every dashboard shares them. The model holds one dashboard's state. `_events` is never used and is not modelled.
- JavaScript arrays spliced or pushed in place are modelled by their contents, a `seq`, which the operation stores back into its map or field. The relay closure captures the array object `L[e]`. The model's relay reads `listeners[e]` at call time instead. The two agree because that entry is never replaced or deleted.
- Event names that clash with `Object.prototype` members (`toString`, `__proto__`) are not modelled. In the source they would read inherited values from the plain-object tables.
- `Accessors.Truthy` does not model `NaN`, because numbers are modelled as integers.
- `Dashboards.Dashboard.RemoveWidget` reports a missing list through `ok == false` and keeps the changes made up to that point. In the source this is a `TypeError` from `Arrays.remove` on `undefined`.
- `Dashboards.Dashboard.Listen`, `Dashboards.Dashboard.ListenEvent`, `Dashboards.Dashboard.RegisterEvent`, `Dashboards.Dashboard.AddWidget`, `Dashboards.Dashboard.UnregisterEvent` and `Dashboards.Dashboard.RemoveWidget` give `c.addListener(e, this)` and `c.removeListener(e, this)` their intended meaning: register or unregister the dashboard for `e` on `c`. As written, both calls throw a TypeError (see Findings). That behaviour is modelled by `Dashboards.Dashboard.AddWidgetAsWritten` and `Dashboards.Dashboard.RemoveWidgetAsWritten`.
