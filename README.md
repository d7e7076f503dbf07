# superposition — a verified model of the reactive core

superposition is a small push-based reactive toolkit in TypeScript. This
project models its core in Dafny and proves what the code promises:

- `Shared<T>`: an observable cell. It holds a value and a subscriptions map
  `id -> callback`, keyed by an id counter that only grows.
- `Subscribable<T>` and `SubscriptionManager<T>`: the same registry without
  a stored value.
- `SubscribableCollection`: fuses named source cells into one cell whose
  value is the snapshot `{name -> source.get()}`.
- `SharedMap` and `SubscribableMap`: keyed collections of child cells that
  are created lazily by `at(key)`.
- `DerivedObject`: a cell recomputed by a handler on every broadcast of a
  collection of dependencies.

## How the model is built

- **Modules.** One Dafny module per source file, except that `Subscribable`
  and `SubscriptionManager` share the `Notifiers` module (the latter is a
  type synonym of the former there), plus `Subscriptions` for the registry
  bookkeeping they all share. Every stateful class is a Dafny
  `class`. Its methods carry field-granular `modifies` frames
  (`` `value ``, `` `log ``, `` `subs ``, …).
- **The registry.** A subscriptions map is a `seq<Entry>` kept in insertion
  order, which is the iteration order of a JavaScript `Map`. Its invariant
  (`Valid`) has three parts:
  - ids strictly ascend;
  - every id is below the counter;
  - no id at or above the counter has received anything.
- **Callbacks.** Callbacks are opaque tokens (`Listener`):
  - `Client(tag)` is a plain recorder.
  - `Forward(owner)` is the callback a composite object registers on a cell
    it depends on.
- **The log.** Every invocation made by a broadcast is appended to a
  `log` of `Call(id, listener, value)`. `Received(log, id)` is what one
  subscriber has been called with, in order.
- **Composites.** A collection, map or derived object owns a `cell: Shared<…>`
  for its own value and subscribers. This replaces TypeScript inheritance.
- **Driver methods.** The model has no dynamic dispatch. Instead, each
  composite has a driver method (`SetSource`, `SetChild`, `SetDependency`).
  It calls the dependency's `Set`, then runs the composite's own callback
  once for every call that the broadcast addressed to it. Its contract
  counts those runs exactly:
  - a collection rebroadcasts its full snapshot once per name the source
    has;
  - a map rebroadcasts its record once per key of the child;
  - a derived object runs its handler once per collection broadcast.
- **Aliasing.** A cell may be stored under several names. The predicate
  `Linked(m, owner)` says `owner` holds exactly one callback on each cell per
  name of it. It is established by `SubscribeAll` and preserved by the
  constructors, `At` and the driver methods (`SetSource`, `SetChild`,
  `SetDependency`); the inherited `set` and `update` of a map are not
  modelled (see "## Left out").
- **Base class.** In this revision, `src/subscribable/subscribable.ts` has
  no stored value and no `get()`. `subscribable-collection.ts`, `subscribable-map.ts` and the derived
  object test nevertheless call `super(value)` and `get()`. The model follows
  those callers: the base of every composite is a cell whose
  `notify(v)` stores `v` and broadcasts it, i.e. `Shared.set`.
- **`SharedMap` signature.** `map.test.ts` builds `new SharedMap(elementManager,
  mapManager)` and calls `at(key)` without an initial value. `map.ts` takes
  `(initialElements, elementManager, manager)` and `at(key, initial)`. The
  model follows `map.ts`.

## Model

| member | source | states |
|---|---|---|
| Subscriptions.RegisteredAppend | src/subscribable/subscribable.ts:16-20 | an id above every registered id is not registered yet, and adding it extends the map by exactly `id -> callback` |
| Subscriptions.Without | src/subscribable/subscribable.ts:21 | `delete(id)` keeps only entries that were already there and removes every entry for `id` |
| Subscriptions.WithoutRemoves | src/shared/shared.ts:38 | after `delete(id)` the registry is the old one minus `id`; every other entry is untouched |
| Subscriptions.WithoutAscending | src/subscribable/subscribable.ts:21 | deleting keeps the remaining entries in insertion (ascending id) order |
| Subscriptions.WithoutAbsent | src/subscribable/subscribable.ts:21 | deleting an id that is not registered leaves the registry exactly as it was |
| Subscriptions.WithoutIdempotent | src/subscription-manager/subscription-manager.ts:21 | calling an unsubscriber a second time is a no-op |
| Subscriptions.SubscribeUnsubscribe | src/shared/shared.ts:33-38 | subscribing and then calling the returned unsubscriber gives back the registry as it was |
| Subscriptions.Broadcast | src/subscribable/subscribable.ts:25-27 | the `forEach` loop makes exactly the calls `Calls(s, v)`: one per entry, in insertion order, each with `v` |
| Subscriptions.ReceivedCalls | src/subscription-manager/subscription-manager.ts:25-27 | one broadcast reaches every registered callback exactly once, with `v`, and no unregistered id |
| Subscriptions.ReceivedRounds | src/shared/shared.ts:43-46 | `n` sequential broadcasts give each registered callback exactly the `n` values, in call order, and nothing to others |
| Subscriptions.ReceivedAppend | src/shared/shared.ts:62-64 | what a subscriber received over two stretches of the log is what it received in each, concatenated |
| Subscriptions.CallCountCalls | src/subscribable/subscribable-collection.ts:23-24 | one broadcast runs an owner's callbacks exactly as often as the registry holds them |
| Subscriptions.CallCountRounds | src/subscribable/subscribable-collection.ts:24 | `n` broadcasts run an owner's callbacks `n` times per entry it holds: no coalescing |
| Subscriptions.RoundsCarry | src/shared/shared.ts:62-64 | every call made by `n` broadcasts of `x` carries `x` |
| Cells.Shared.constructor | src/shared/shared.ts:23-28 | the cell holds `initial`, has no subscriptions, counter 0, and its manager (if any) has run exactly once |
| Cells.Shared.Get | src/shared/shared.ts:49-51 | `get()` returns the stored value, the one the constructor, `Set` or `Update` last stored |
| Cells.Shared.Subscribe | src/shared/shared.ts:33-39 | the id is the old counter and was not registered, the counter grows by 1, the registry gains exactly `id -> callback` at the end, and the new subscriber has received nothing |
| Cells.Shared.Unsubscribe | src/shared/shared.ts:38 | the unsubscriber removes exactly its id and nothing else, and is a no-op when the id is gone |
| Cells.Shared.Notify | src/shared/shared.ts:62-64 | the log grows by one call per registered callback, in insertion order, each with the current value; the registry and counter are untouched |
| Cells.Shared.Set | src/shared/shared.ts:43-46 | `get()` then returns `v`, and `v` is broadcast once to every registered callback |
| Cells.Shared.Update | src/shared/shared.ts:56-59 | `get()` then returns `updator(old value)`, and that one value is broadcast once |
| Cells.SubscribeAll | src/subscribable/subscribable-collection.ts:23-25 | after the loop the owner holds exactly one callback on each cell per name of it (`Linked`); each registry only grew by the owner's callbacks appended at its end, and every cell stays well formed |
| Cells.LinkedOnce | src/subscribable/subscribable-collection.ts:23-25 | a source stored under one name carries exactly one callback of the collection |
| Cells.LinkedInsert | src/map/map.ts:43-44 | storing a freshly subscribed child under a new key keeps the map linked to its children |
| Cells.NotifyPerCall | src/map/map.ts:49-51 | the element callback `() => this.notify(this.get())` run once per delivered call: the parent broadcasts its current value exactly once per call addressed to it |
| Cells.ReadsBackInitialAndSet | src/shared/object/shared-object.test.ts:3-12 | a new cell reads back "foo"; after `set("bar")` it reads "bar" |
| Cells.NotifiesEverySubscriber | src/shared/object/shared-object.test.ts:14-29 | two subscribers each receive exactly ["bar"] |
| Cells.NotifiesMultipleTimes | src/shared/object/shared-object.test.ts:31-49 | four sets reach the subscriber as exactly ["bar", "bar2", "bar3", "bar4"] |
| Cells.UpdatesAfterSet | src/shared/object/shared-object.test.ts:51-58 | `update(v => v + "123")` after `set("bar")` leaves "bar123" |
| Cells.NotifiesOnUpdate | src/shared/object/shared-object.test.ts:60-70 | an update of "foo" leaves "foo123" and the subscriber receives exactly ["foo123"] |
| Cells.RunsManagerOnce | src/shared/object/shared-object.test.ts:72-81 | the manager has run once after construction and three sets |
| Notifiers.Subscribable.constructor | src/subscribable/subscribable.ts:9-12 | an empty registry with counter 0 and no calls made |
| Notifiers.Subscribable.Subscribe | src/subscribable/subscribable.ts:16-22 | the id is the old counter, the counter grows by 1, the registry is the old one plus `id -> callback`, and the new subscriber has received nothing |
| Notifiers.Subscribable.Unsubscribe | src/subscription-manager/subscription-manager.ts:21 | removes exactly its own id, leaves the others, and is idempotent |
| Notifiers.Subscribable.Notify | src/subscription-manager/subscription-manager.ts:25-27 | one call per registered callback with `v`, in insertion order; registry and counter unchanged |
| Notifiers.NotifiesEachOnce | src/subscription-manager/subscription-manager.ts:16-27 | two subscriptions get ids 0 and 1, and one `notify("bar")` gives each exactly ["bar"] |
| Collections.GetAll | src/subscribable/subscribable-collection.ts:32-44 | the record has exactly the sources' names as keys, and each entry is that source's `get()` |
| Collections.SubscribableCollection.constructor | src/subscribable/subscribable-collection.ts:17-26 | the collection's value is the snapshot of exactly the given sources, it has no subscribers yet, it is subscribed once per name to each source, and earlier subscriptions of the sources are untouched |
| Collections.SubscribableCollection.Subscribe | src/subscribable/subscribable.ts:16-22 | inherited `subscribe`: appends `id -> callback` to the collection's own registry with the old counter as id |
| Collections.SubscribableCollection.Notify | src/subscribable/subscribable-collection.ts:47-51 | the collection's value becomes the fresh snapshot of all sources, and that snapshot is broadcast once |
| Collections.SubscribableCollection.Relay | src/subscribable/subscribable-collection.ts:24 | the collection's callback run once per call addressed to it: exactly that many broadcasts of the current snapshot; with no such call the value is untouched |
| Collections.SubscribableCollection.SetSource | src/subscribable/subscribable-collection.ts:47-51 | a source `set(v)` stores `v`, and the collection's value becomes the full snapshot, with the other sources' values unchanged; the snapshot is broadcast once per name the source has |
| Collections.BroadcastsFullSnapshot | src/subscribable/subscribable-collection.ts:47-51 | setting `x` to 2 over `{x: 0, y: 0}` makes a subscriber receive exactly one snapshot, `{x: 2, y: 0}` |
| SharedMaps.SharedMap.constructor | src/map/map.ts:17-29 | the map holds exactly `initialElements`, its manager ran once if given, no element manager has been called, and the map is subscribed once per key to every initial element |
| SharedMaps.SharedMap.At | src/map/map.ts:34-47 | on a present key: the stored child, with map and manager calls unchanged. On an absent key: a fresh child holding `initial`, whose manager ran if `elementManager(key)` gives one; it is stored under `key` only, and `elementManager` was called once with `key`. No broadcast either way |
| SharedMaps.SharedMap.SetChild | src/map/map.ts:49-51 | the child stores and broadcasts `v`; the map's record is unchanged and rebroadcast once per key the child is stored under |
| SharedMaps.AccessesDistinctElements | src/map/map.test.ts:4-17 | `at("0")` and `at("1")` return different children |
| SharedMaps.CreatesManagersPerElement | src/map/map.test.ts:19-48 | the map's manager ran once, `elementManager` was called with "0" then "1", and each child's manager ran once |
| SharedMaps.ReturnsSameElement | src/map/map.test.ts:50-61 | three accesses to "0" return the same child |
| SharedMaps.NotifiesWhenChildrenChange | src/map/map.test.ts:63-78 | creating two children broadcasts nothing; two sets on one child make the map subscriber receive exactly 2 calls |
| SubscribableMaps.SubscribableMap.constructor | src/subscribable/subscribable-map.ts:16-22 | the map holds exactly `initialElements`, with no factory calls, and is subscribed once per key to each of them |
| SubscribableMaps.SubscribableMap.At | src/subscribable/subscribable-map.ts:29-39 | on a present key: the stored child and no factory call. On an absent key: `makeElement(key)` is called once, and its child is stored under `key` only and returned. No broadcast either way |
| SubscribableMaps.SubscribableMap.SetChild | src/subscribable/subscribable-map.ts:41-43 | a child broadcast makes the map rebroadcast its unchanged record once per key the child is stored under |
| SubscribableMaps.MakesEachElementOnce | src/subscribable/subscribable-map.ts:29-39 | two accesses to "0" return the same child and call the factory once |
| Derived.DerivedObject.constructor | src/derived/derived-object.ts:22-39 | the derived cell holds `initial`, the handler has not run, the collection is built over exactly the given dependencies, and it carries exactly one callback of the derived object; each dependency's earlier subscriptions survive, with only the collection's callbacks appended |
| Derived.DerivedObject.Recompute | src/derived/derived-object.ts:35-38 | one callback run: the handler runs once on the snapshot and its result is stored and broadcast once |
| Derived.DerivedObject.Relay | src/derived/derived-object.ts:35-38 | the callback run once per collection call addressed to it: that many handler runs on the carried snapshot, and as many broadcasts of the result; with no such call the value is untouched |
| Derived.DerivedObject.SetDependency | src/derived/derived-object.ts:34-38 | a dependency `set(v)` makes the handler run once per collection broadcast, on the full new snapshot; the derived value becomes `handler(snapshot)` and is broadcast once per handler run; the dependency's own subscribers each receive `v` once, and the collection's log grows by one snapshot broadcast per name of the dependency |
| Derived.UpdatesBasedOnDependencies | src/derived/derived-object.test.ts:4-27 | with handler `x * y ** 2` over `x = y = 0` and initial 0, the value reads 0, and reads 50 after `x.set(2); y.set(5)` |

## Left out

- Asynchrony: `update` awaits its updator, and the derived object awaits its
  handler. Both are modelled as pure synchronous functions, so overlapping
  computations and last-writer-wins races are not modelled.
- Re-entrancy: no callback sets, subscribes or unsubscribes in the middle of
  a broadcast. `Shared.notify` re-reading `this.value` for each callback
  therefore always sees one value.
- Exceptions thrown by callbacks are not modelled; the code has no handling
  for them.
- Managers are opaque hooks, modelled as a count of runs:
  - a `bool` says whether a cell has a manager;
  - `elementManager` is a `string -> bool` plus the list of keys it was
    called with.
- `makeElement` is modelled as giving the initial value of a fresh child
  cell. A subclass returning an existing object or a cell of another class is
  not modelled.
- Record payloads are modelled as homogeneous maps. A collection's sources
  share one value type, so the TypeScript-level link between the `D` and `V`
  type parameters is not modelled.
- The record a map broadcasts is a value (a Dafny `map`). In the code it is
  the live `elements` object that `at` later mutates, so aliasing of a
  broadcast payload is not modelled. Likewise a map's `initialElements`
  becomes that live record by reference (`map.ts:25` into `shared.ts:24`,
  `subscribable-map.ts:20`); the model copies it, so a caller that keeps
  and mutates the object it passed in is not modelled.
- Collections.SubscribableCollection: the code keeps the caller's record of
  sources by reference (`subscribable-collection.ts:20`) and re-reads its
  entries on every `notify`. The model fixes `sources` as a value at
  construction. The fixed key set, `Linked` and the snapshot contracts hold
  only while the caller leaves that record alone: a key added later appears
  in snapshots but is never subscribed, and a key deleted later vanishes
  from snapshots while its subscription stays. `DerivedObject` passes its
  `dependencies` record straight through, so it shares this gap.
- SharedMaps.SharedMap: the `set` and `update` it inherits from `Shared`
  are not modelled on the map. `sm.set(r)` would replace the record, so keys
  could disappear; children of `r` would never be subscribed, and dropped
  children would stay subscribed and keep triggering broadcasts. The
  "record only grows" contract of `At` and the `Linked` invariant hold only
  while the record changes through `at`.
- Driver methods replace dynamic dispatch. `SetSource`, `SetChild` and
  `SetDependency` run only the callbacks of the composite they belong to.
  Any further composites subscribed to the same cells are not run within
  that step.
- `src/derived/derived.ts` is not part of this model. It goes through
  `collate`, whose source is not part of this model either.
- SharedMaps.SharedMap.At: keys inherited from `Object.prototype`
  (`"constructor"`, `"toString"`, `"__proto__"`, …) are not modelled. The
  code's `key in elements` test finds them on an empty record and returns
  the inherited member without creating a child; the model treats every key
  as an own key, so such a key gets a fresh child.
- SubscribableMaps.SubscribableMap.At: the same gap. For a key inherited
  from `Object.prototype` the code calls no `makeElement` and returns the
  inherited member; the model creates a fresh child.
- The id counter `NEXT_ID` is modelled as an unbounded `nat`. In the code
  it is a JavaScript number, which stops increasing at 2^53, after which
  ids repeat and a new subscription can overwrite a live one. The fresh-id
  contracts of `Cells.Shared.Subscribe` and `Notifiers.Subscribable.Subscribe`
  hold of the code only below 2^53 subscriptions.
- `SharedObject`, the class the tests construct, is not part of this
  model. The scenarios modelled on those tests use `Shared` in its place.
