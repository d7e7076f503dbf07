/**
 * `Subscribable<T>` (also exported as `SubscriptionManager<T>`): a registry of
 * callbacks keyed by increasing ids, with no stored value. `subscribe` adds a
 * callback and hands back its unsubscriber, `notify(v)` calls every registered
 * callback with `v`.
 */
module Notifiers {
  import opened Subscriptions

  class Subscribable<T> {
    /** Next id to hand out to a subscription. */
    var nextId: nat
    /** The subscriptions map, in insertion order. */
    var subs: seq<Entry>
    /** Every callback invocation made by `Notify`, in order. */
    var log: seq<Call<T>>

    ghost predicate Valid()
      reads this
    {
      && Ascending(subs)
      && Below(subs, nextId)
      && forall id :: nextId <= id ==> Received(log, id) == []
    }

    /** An empty registry whose first id is 0. */
    constructor ()
      ensures Valid()
      ensures nextId == 0 && subs == [] && log == []
    {
      nextId := 0;
      subs := [];
      log := [];
    }

    /** Registers `listener` under a fresh id and returns that id, the handle of its unsubscriber. */
    method Subscribe(listener: Listener) returns (id: nat)
      requires Valid()
      modifies `nextId, `subs
      ensures Valid()
      ensures id == old(nextId) && nextId == old(nextId) + 1
      ensures id !in old(Registered(subs))
      ensures subs == old(subs) + [Entry(id, listener)]
      ensures Registered(subs) == old(Registered(subs))[id := listener]
      ensures Received(log, id) == []
    {
      id := nextId;
      nextId := nextId + 1;
      RegisteredAppend(subs, Entry(id, listener));
      AscendingAppend(subs, Entry(id, listener));
      subs := subs + [Entry(id, listener)];
    }

    /** The unsubscriber returned for `id`: deletes that one entry, and is a no-op once it is gone. */
    method Unsubscribe(id: nat)
      requires Valid()
      modifies `subs
      ensures Valid()
      ensures subs == Without(old(subs), id)
      ensures Registered(subs) == old(Registered(subs)) - {id}
      ensures id !in old(Registered(subs)) ==> subs == old(subs)
    {
      WithoutRemoves(subs, id);
      WithoutAscending(subs, id);
      if id !in Registered(subs) {
        WithoutAbsent(subs, id);
      }
      subs := Without(subs, id);
    }

    /** Calls every registered callback with `v`, in insertion order; the registry is left as it was. */
    method Notify(v: T)
      requires Valid()
      modifies `log
      ensures Valid()
      ensures log == old(log) + Calls(subs, v)
    {
      var calls := Broadcast(subs, v);
      forall id | nextId <= id
        ensures Received(log + calls, id) == []
      {
        ReceivedAppend(log, calls, id);
        ReceivedNone(calls, id);
      }
      log := log + calls;
    }
  }

  /** `SubscriptionManager` is the same registry under another name. */
  type SubscriptionManager<T> = Subscribable<T>

  /**
   * Two callbacks subscribed to a fresh registry, one `notify`: each is called
   * exactly once, with the broadcast value, and the ids are 0 and 1.
   */
  method NotifiesEachOnce() returns (first: nat, second: nat, toFirst: seq<string>, toSecond: seq<string>)
    ensures first == 0 && second == 1
    ensures toFirst == ["bar"] && toSecond == ["bar"]
  {
    var manager: SubscriptionManager<string> := new Subscribable();
    first := manager.Subscribe(Client(1));
    second := manager.Subscribe(Client(2));
    manager.Notify("bar");
    assert manager.log == Calls(manager.subs, "bar");
    assert first in Registered(manager.subs) && second in Registered(manager.subs);
    ReceivedCalls(manager.subs, "bar", first);
    ReceivedCalls(manager.subs, "bar", second);
    toFirst := Received(manager.log, first);
    toSecond := Received(manager.log, second);
  }
}
