/**
 * `Shared<T>`: an observable cell, a current value plus its own subscriptions
 * map. `set` stores a value and broadcasts it, `get` reads it, `update` applies
 * an updator to it and sets the result.
 */
module Cells {
  import opened Subscriptions

  class Shared<T> {
    /** Current value of the cell. */
    var value: T
    /** Next id to hand out to a subscription. */
    var nextId: nat
    /** The subscriptions map, in insertion order. */
    var subs: seq<Entry>
    /** Every callback invocation this cell's broadcasts have made, in order. */
    var log: seq<Call<T>>
    /** How many times the manager hook has run. */
    var managerRuns: nat

    ghost predicate Valid()
      reads this
    {
      && Ascending(subs)
      && Below(subs, nextId)
      && forall id :: nextId <= id ==> Received(log, id) == []
    }

    /** A new cell holding `initial`; the manager, when there is one, runs once. */
    constructor (initial: T, manager: bool)
      ensures Valid()
      ensures value == initial
      ensures nextId == 0 && subs == [] && log == []
      ensures managerRuns == if manager then 1 else 0
    {
      value := initial;
      nextId := 0;
      subs := [];
      log := [];
      managerRuns := if manager then 1 else 0;
    }

    /** The current value: the one the constructor, `Set` or `Update` last stored. */
    function Get(): (r: T)
      reads this
      ensures r == value
    {
      value
    }

    /** Registers `listener` under a fresh id and returns that id, the handle of its unsubscriber. */
    method Subscribe(listener: Listener) returns (id: nat)
      requires Valid()
      modifies `nextId, `subs
      ensures Valid()
      ensures id == old(nextId) && nextId == old(nextId) + 1
      ensures id !in old(Registered(subs))
      ensures subs == old(subs) + [Entry(id, listener)]
      ensures Registered(subs) == old(Registered(subs))[id := listener]
      ensures Received(log, id) == []
    {
      id := nextId;
      nextId := nextId + 1;
      RegisteredAppend(subs, Entry(id, listener));
      AscendingAppend(subs, Entry(id, listener));
      subs := subs + [Entry(id, listener)];
    }

    /** The unsubscriber returned for `id`: deletes that one entry, and is a no-op once it is gone. */
    method Unsubscribe(id: nat)
      requires Valid()
      modifies `subs
      ensures Valid()
      ensures subs == Without(old(subs), id)
      ensures Registered(subs) == old(Registered(subs)) - {id}
      ensures id !in old(Registered(subs)) ==> subs == old(subs)
    {
      WithoutRemoves(subs, id);
      WithoutAscending(subs, id);
      if id !in Registered(subs) {
        WithoutAbsent(subs, id);
      }
      subs := Without(subs, id);
    }

    /** Calls every registered callback with the current value, in insertion order. */
    method Notify()
      requires Valid()
      modifies `log
      ensures Valid()
      ensures log == old(log) + Calls(subs, value)
    {
      var calls := Broadcast(subs, value);
      forall id | nextId <= id
        ensures Received(log + calls, id) == []
      {
        ReceivedAppend(log, calls, id);
        ReceivedNone(calls, id);
      }
      log := log + calls;
    }

    /** Stores `v`, then broadcasts it. */
    method Set(v: T)
      requires Valid()
      modifies `value, `log
      ensures Valid()
      ensures Get() == v
      ensures log == old(log) + Calls(subs, v)
    {
      value := v;
      Notify();
    }

    /** Applies `updator` to the current value and sets the result: one broadcast, of the new value. */
    method Update(updator: T -> T)
      requires Valid()
      modifies `value, `log
      ensures Valid()
      ensures Get() == updator(old(value))
      ensures log == old(log) + Calls(subs, updator(old(value)))
    {
      var newValue := updator(value);
      Set(newValue);
    }
  }

  /** The names under which `m` holds the cell `s`. */
  ghost function NamesOf<X>(m: map<string, Shared<X>>, s: Shared<X>): set<string> {
    set k | k in m && m[k] == s
  }

  /**
   * `owner` is subscribed to every cell of `m` once per name the cell has in `m`
   * (once per cell when the cells are distinct).
   */
  ghost predicate Linked<X>(m: map<string, Shared<X>>, owner: object)
    reads m.Values
  {
    forall k :: k in m ==> LinkCount(m[k].subs, owner) == |NamesOf(m, m[k])|
  }

  /** `after` is `before` followed only by callbacks of `owner`: nothing registered earlier is touched. */
  ghost predicate GrownBy(before: seq<Entry>, after: seq<Entry>, owner: object) {
    && |before| <= |after|
    && after[..|before|] == before
    && forall i :: |before| <= i < |after| ==> after[i].listener == Forward(owner)
  }

  lemma GrownByTrans(a: seq<Entry>, b: seq<Entry>, c: seq<Entry>, owner: object)
    requires GrownBy(a, b, owner) && GrownBy(b, c, owner)
    ensures GrownBy(a, c, owner)
  {
    assert c[..|a|] == c[..|b|][..|a|];
  }

  /** The names of `s` in `m` that are no longer in `todo`. */
  ghost function Done<X>(m: map<string, Shared<X>>, s: Shared<X>, todo: set<string>): set<string> {
    set k | k in m && m[k] == s && k !in todo
  }

  /** Taking `k` out of `todo` adds one name to the cell stored under `k` and none to any other. */
  lemma DoneStep<X>(m: map<string, Shared<X>>, s: Shared<X>, todo: set<string>, k: string)
    requires k in todo && k in m
    ensures |Done(m, s, todo - {k})| == |Done(m, s, todo)| + if m[k] == s then 1 else 0
  {
    if m[k] == s {
      assert Done(m, s, todo - {k}) == Done(m, s, todo) + {k};
    } else {
      assert Done(m, s, todo - {k}) == Done(m, s, todo);
    }
  }

  /** One step of `SubscribeAll`: subscribes `owner` to the cell named `k`. */
  method SubscribeName<X>(m: map<string, Shared<X>>, owner: object, k: string, target: Shared<X>, ghost todo: set<string>)
    requires k in m && m[k] == target && k in todo
    requires forall s :: s in m.Values ==> s.Valid() && LinkCount(s.subs, owner) == |Done(m, s, todo)|
    modifies target`nextId, target`subs
    ensures forall s :: s in m.Values ==> s.Valid() && LinkCount(s.subs, owner) == |Done(m, s, todo - {k})|
    ensures forall s :: s in m.Values ==> GrownBy(old(s.subs), s.subs, owner)
  {
    ghost var before := target.subs;
    LinkCountAppend(target.subs, Entry(target.nextId, Forward(owner)), owner);
    var _ := target.Subscribe(Forward(owner));
    assert target.subs[..|before|] == before;
    forall s | s in m.Values
      ensures |Done(m, s, todo - {k})| == |Done(m, s, todo)| + if s == target then 1 else 0
      ensures GrownBy(old(s.subs), s.subs, owner)
    {
      DoneStep(m, s, todo, k);
      assert s.subs[..|old(s.subs)|] == old(s.subs);
    }
  }

  /**
   * `Object.values(m).forEach(e => e.subscribe(...))`: subscribes a callback of
   * `owner` to each cell of `m`, once per name; it touches no value, log or
   * earlier subscription.
   */
  method SubscribeAll<X>(m: map<string, Shared<X>>, owner: object)
    requires forall s :: s in m.Values ==> s.Valid() && LinkCount(s.subs, owner) == 0
    modifies m.Values`nextId, m.Values`subs
    ensures Linked(m, owner)
    ensures forall s :: s in m.Values ==> s.Valid() && GrownBy(old(s.subs), s.subs, owner)
  {
    var todo := m.Keys;
    forall s | s in m.Values
      ensures Done(m, s, todo) == {}
    {
    }
    while todo != {}
      invariant todo <= m.Keys
      invariant forall s :: s in m.Values ==> s.Valid() && LinkCount(s.subs, owner) == |Done(m, s, todo)|
      invariant forall s :: s in m.Values ==> GrownBy(old(s.subs), s.subs, owner)
      decreases todo
    {
      var k :| k in todo;
      label Before:
      SubscribeName(m, owner, k, m[k], todo);
      forall s | s in m.Values
        ensures GrownBy(old(s.subs), s.subs, owner)
      {
        GrownByTrans(old(s.subs), old@Before(s.subs), s.subs, owner);
      }
      todo := todo - {k};
    }
    forall k | k in m
      ensures LinkCount(m[k].subs, owner) == |NamesOf(m, m[k])|
    {
      assert Done(m, m[k], {}) == NamesOf(m, m[k]);
    }
  }

  /** `owner` has no callback in a registry none of whose entries point at it. */
  lemma {:induction false} LinkCountNone(s: seq<Entry>, owner: object)
    requires forall i :: 0 <= i < |s| ==> s[i].listener != Forward(owner)
    ensures LinkCount(s, owner) == 0
  {
    if s != [] {
      LinkCountNone(s[1..], owner);
    }
  }

  /** A cell held under one name only carries exactly one callback of a linked `owner`. */
  lemma LinkedOnce<X>(m: map<string, Shared<X>>, owner: object, k: string)
    requires Linked(m, owner) && k in m
    requires forall j :: j in m && j != k ==> m[j] != m[k]
    ensures LinkCount(m[k].subs, owner) == 1
  {
    assert NamesOf(m, m[k]) == {k};
  }

  /** Storing a new cell `e` under a new name keeps `owner` linked once `e` carries one callback of it. */
  lemma LinkedInsert<X>(m: map<string, Shared<X>>, key: string, e: Shared<X>, owner: object)
    requires Linked(m, owner)
    requires key !in m && e !in m.Values
    requires LinkCount(e.subs, owner) == 1
    ensures Linked(m[key := e], owner)
  {
    var m' := m[key := e];
    forall k | k in m'
      ensures LinkCount(m'[k].subs, owner) == |NamesOf(m', m'[k])|
    {
      if k == key {
        assert NamesOf(m', e) == {key};
      } else {
        assert NamesOf(m', m[k]) == NamesOf(m, m[k]);
      }
    }
  }

  /** One run of the keyed collections' element callback: the `n + 1`-th rebroadcast of `parent`'s value. */
  method NotifyAgain<X>(parent: Shared<X>, ghost start: seq<Call<X>>, ghost n: nat)
    requires parent.Valid()
    requires parent.log == start + Rounds(parent.subs, Repeat(parent.value, n))
    modifies parent`log
    ensures parent.Valid()
    ensures parent.log == start + Rounds(parent.subs, Repeat(parent.value, n + 1))
  {
    ghost var done := Rounds(parent.subs, Repeat(parent.value, n));
    RoundsRepeatStep(parent.subs, parent.value, n);
    parent.Notify();
    AppendAssoc(start, done, Calls(parent.subs, parent.value));
  }

  /**
   * The keyed collections' element callback, `() => this.notify(this.get())`,
   * run once for every call in `delivered` that addresses a callback of `owner`:
   * each run is one broadcast of `parent`'s current value.
   */
  method NotifyPerCall<X, Y>(parent: Shared<X>, delivered: seq<Call<Y>>, owner: object)
    requires parent.Valid()
    modifies parent`log
    ensures parent.Valid()
    ensures parent.log == old(parent.log) + Rounds(parent.subs, Repeat(parent.value, CallCount(delivered, owner)))
  {
    var i := 0;
    ghost var count := 0;
    while i < |delivered|
      invariant 0 <= i <= |delivered|
      invariant count == CallCount(delivered[..i], owner)
      invariant parent.Valid()
      invariant parent.log == old(parent.log) + Rounds(parent.subs, Repeat(parent.value, count))
    {
      CallCountPrefix(delivered, i, owner);
      if delivered[i].listener == Forward(owner) {
        NotifyAgain(parent, old(parent.log), count);
        count := count + 1;
      }
      i := i + 1;
    }
    assert delivered[..|delivered|] == delivered;
  }

  /** A fresh cell returns its initial value; after `set` it returns the value set. */
  method ReadsBackInitialAndSet() returns (initial: string, afterSet: string)
    ensures initial == "foo" && afterSet == "bar"
  {
    var s := new Shared("foo", false);
    initial := s.Get();
    s.Set("bar");
    afterSet := s.Get();
  }

  /** One `set` reaches each of two subscribers exactly once, with the value set. */
  method NotifiesEverySubscriber() returns (toFirst: seq<string>, toSecond: seq<string>)
    ensures toFirst == ["bar"] && toSecond == ["bar"]
  {
    var s := new Shared("foo", false);
    var first := s.Subscribe(Client(1));
    var second := s.Subscribe(Client(2));
    s.Set("bar");
    assert s.log == Calls(s.subs, "bar");
    assert first in Registered(s.subs) && second in Registered(s.subs);
    ReceivedCalls(s.subs, "bar", first);
    ReceivedCalls(s.subs, "bar", second);
    toFirst := Received(s.log, first);
    toSecond := Received(s.log, second);
  }

  /** `set(v)` seen as one more broadcast after those of `vs`. */
  method SetRound<X>(s: Shared<X>, ghost vs: seq<X>, v: X)
    requires s.Valid() && s.log == Rounds(s.subs, vs)
    modifies s`value, s`log
    ensures s.Valid() && s.value == v
    ensures s.log == Rounds(s.subs, vs + [v])
  {
    RoundsSnoc(s.subs, vs, v);
    s.Set(v);
  }

  /** Four `set`s in a row reach a subscriber four times, with the values in call order. */
  method NotifiesMultipleTimes() returns (received: seq<string>)
    ensures received == ["bar", "bar2", "bar3", "bar4"]
  {
    var s := new Shared("foo", false);
    var id := s.Subscribe(Client(1));
    SetRound(s, [], "bar");
    SetRound(s, [] + ["bar"], "bar2");
    SetRound(s, [] + ["bar"] + ["bar2"], "bar3");
    SetRound(s, [] + ["bar"] + ["bar2"] + ["bar3"], "bar4");
    ghost var sets := [] + ["bar"] + ["bar2"] + ["bar3"] + ["bar4"];
    assert id in Registered(s.subs);
    ReceivedRounds(s.subs, sets, id);
    assert sets == ["bar", "bar2", "bar3", "bar4"];
    received := Received(s.log, id);
  }

  /** `update` after a `set` applies the updator to the value set. */
  method UpdatesAfterSet() returns (value: string)
    ensures value == "bar123"
  {
    var s := new Shared("foo", false);
    s.Set("bar");
    assert s.value == "bar";
    s.Update(v => v + "123");
    assert s.value == "bar123";
    value := s.Get();
  }

  /** `update` leaves the updated value in the cell and broadcasts it exactly once. */
  method NotifiesOnUpdate() returns (value: string, received: seq<string>)
    ensures value == "foo123" && received == ["foo123"]
  {
    var s := new Shared("foo", false);
    var id := s.Subscribe(Client(1));
    s.Update(v => v + "123");
    assert s.value == "foo123";
    assert s.log == Calls(s.subs, "foo123");
    assert id in Registered(s.subs);
    ReceivedCalls(s.subs, "foo123", id);
    value := s.Get();
    received := Received(s.log, id);
  }

  /** The manager runs once, at construction, and never again on `set`. */
  method RunsManagerOnce() returns (runs: nat)
    ensures runs == 1
  {
    var s := new Shared(0, true);
    s.Set(1);
    assert s.managerRuns == 1;
    s.Set(2);
    assert s.managerRuns == 1;
    s.Set(3);
    runs := s.managerRuns;
  }
}
