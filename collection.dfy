/**
 * `SubscribableCollection`: fuses a fixed record of named source cells into one
 * cell whose value is the snapshot `{name -> source.get()}`. Every broadcast of
 * a source runs the collection's callback, which re-reads all sources and
 * broadcasts the full snapshot again.
 */
module Collections {
  import opened Subscriptions
  import opened Cells

  /** The joint snapshot `{name -> source.get()}` of `sources` in the current state. */
  ghost function Snapshot<T>(sources: map<string, Shared<T>>): map<string, T>
    reads sources.Values
  {
    map k | k in sources :: sources[k].value
  }

  /** `getAll`: reads every source once and collects the values by name. */
  method GetAll<T>(sources: map<string, Shared<T>>) returns (values: map<string, T>)
    ensures values.Keys == sources.Keys
    ensures forall k :: k in sources ==> values[k] == sources[k].Get()
  {
    values := map[];
    var todo := sources.Keys;
    while todo != {}
      invariant todo <= sources.Keys
      invariant values.Keys == sources.Keys - todo
      invariant forall k :: k in values ==> values[k] == sources[k].value
      decreases todo
    {
      var k :| k in todo;
      values := values[k := sources[k].Get()];
      todo := todo - {k};
    }
  }

  class SubscribableCollection<T> {
    /** The underlying sources, by name; fixed at construction. */
    const sources: map<string, Shared<T>>
    /** The collection's own cell: the latest snapshot plus the collection's subscribers. */
    const cell: Shared<map<string, T>>

    /**
     * Every cell is well formed, the collection's cell is none of its sources,
     * and the collection holds one callback on each source per name of it.
     */
    ghost predicate Valid()
      reads cell, sources.Values
    {
      && cell.Valid()
      && (forall s :: s in sources.Values ==> s.Valid() && (s as object) != cell)
      && Linked(sources, this)
    }

    /**
     * Starts from the snapshot of `subscribables`, then subscribes the
     * collection's callback to each source, appending it behind the
     * subscriptions the source already had.
     */
    constructor (subscribables: map<string, Shared<T>>)
      requires forall s :: s in subscribables.Values ==> s.Valid()
      modifies subscribables.Values`nextId, subscribables.Values`subs
      ensures Valid()
      ensures sources == subscribables
      ensures fresh(cell)
      ensures cell.value == Snapshot(sources)
      ensures cell.subs == [] && cell.log == []
      ensures forall s :: s in sources.Values ==> GrownBy(old(s.subs), s.subs, this)
    {
      var initial := GetAll(subscribables);
      sources := subscribables;
      cell := new Shared(initial, false);
      new;
      forall s | s in subscribables.Values
        ensures LinkCount(s.subs, this) == 0
      {
        LinkCountNone(s.subs, this);
      }
      SubscribeAll(subscribables, this);
      assert forall k :: k in subscribables ==> subscribables[k].value == initial[k];
    }

    /** `subscribe`, inherited from the registry: registers `listener` with the collection's own cell. */
    method Subscribe(listener: Listener) returns (id: nat)
      requires Valid()
      modifies cell`nextId, cell`subs
      ensures Valid()
      ensures id == old(cell.nextId) && cell.subs == old(cell.subs) + [Entry(id, listener)]
      ensures Snapshot(sources) == old(Snapshot(sources))
    {
      id := cell.Subscribe(listener);
    }

    /** `notify`: takes a fresh snapshot of every source and broadcasts it. */
    method Notify()
      requires Valid()
      modifies cell`value, cell`log
      ensures Valid()
      ensures cell.value == Snapshot(sources)
      ensures cell.log == old(cell.log) + Calls(cell.subs, Snapshot(sources))
    {
      var values := GetAll(sources);
      assert values == Snapshot(sources);
      cell.Set(values);
    }

    /** The `n + 1`-th run of the collection's callback within one source broadcast. */
    method NotifyAgain(ghost start: seq<Call<map<string, T>>>, ghost n: nat)
      requires Valid()
      requires cell.log == start + Rounds(cell.subs, Repeat(Snapshot(sources), n))
      modifies cell`value, cell`log
      ensures Valid()
      ensures cell.value == Snapshot(sources)
      ensures cell.log == start + Rounds(cell.subs, Repeat(Snapshot(sources), n + 1))
    {
      ghost var done := Rounds(cell.subs, Repeat(Snapshot(sources), n));
      RoundsRepeatStep(cell.subs, Snapshot(sources), n);
      Notify();
      AppendAssoc(start, done, Calls(cell.subs, Snapshot(sources)));
    }

    /** Runs the collection's callback once for every call in `delivered` that addresses it. */
    method Relay(delivered: seq<Call<T>>)
      requires Valid()
      modifies cell`value, cell`log
      ensures Valid()
      ensures CallCount(delivered, this) > 0 ==> cell.value == Snapshot(sources)
      ensures CallCount(delivered, this) == 0 ==> cell.value == old(cell.value)
      ensures cell.log == old(cell.log) + Rounds(cell.subs, Repeat(Snapshot(sources), CallCount(delivered, this)))
    {
      ghost var snapshot := Snapshot(sources);
      var i := 0;
      ghost var count := 0;
      while i < |delivered|
        invariant 0 <= i <= |delivered|
        invariant count == CallCount(delivered[..i], this)
        invariant Valid() && Snapshot(sources) == snapshot
        invariant count > 0 ==> cell.value == snapshot
        invariant count == 0 ==> cell.value == old(cell.value)
        invariant cell.log == old(cell.log) + Rounds(cell.subs, Repeat(snapshot, count))
      {
        CallCountPrefix(delivered, i, this);
        if delivered[i].listener == Forward(this) {
          NotifyAgain(old(cell.log), count);
          count := count + 1;
        }
        i := i + 1;
      }
      assert delivered[..|delivered|] == delivered;
    }

    /**
     * `sources[name].set(v)` with the collection's callback run for each call
     * it receives: the source broadcasts `v`, and the collection rebroadcasts
     * its full snapshot once per name the source has.
     */
    method SetSource(name: string, v: T)
      requires Valid() && name in sources
      modifies {sources[name]}`value, {sources[name]}`log, cell`value, cell`log
      ensures Valid()
      ensures sources[name].value == v
      ensures sources[name].log == old(sources[name].log) + Calls(sources[name].subs, v)
      ensures cell.value == Snapshot(sources)
      ensures cell.value.Keys == sources.Keys
      ensures forall k :: k in sources ==>
        cell.value[k] == if sources[k] == sources[name] then v else old(sources[k].value)
      ensures cell.log == old(cell.log) + Rounds(cell.subs, Repeat(cell.value, |NamesOf(sources, sources[name])|))
    {
      var source := sources[name];
      var start := |source.log|;
      source.Set(v);
      assert Linked(sources, this) by {
        assert forall s :: s in sources.Values ==> s.subs == old(s.subs);
      }
      var delivered := source.log[start..];
      assert delivered == Calls(source.subs, v);
      CallCountCalls(source.subs, v, this);
      assert name in NamesOf(sources, source);
      Relay(delivered);
    }
  }

  /** A collection over two fresh sources `x` and `y` at 0, with one subscriber. */
  method CollectionOverZeros() returns (c: SubscribableCollection<int>, id: nat)
    ensures c.Valid() && fresh(c.cell)
    ensures c.sources.Keys == {"x", "y"}
    ensures fresh(c.sources["x"]) && fresh(c.sources["y"]) && c.sources["x"] != c.sources["y"]
    ensures c.sources["x"].value == 0 && c.sources["y"].value == 0
    ensures c.cell.log == [] && id in Registered(c.cell.subs)
  {
    var x := new Shared(0, false);
    var y := new Shared(0, false);
    var sources := map["x" := x, "y" := y];
    assert sources.Keys == {"x", "y"} && sources["x"] == x && sources["y"] == y;
    c := new SubscribableCollection(sources);
    assert c.sources["x"] == x && c.sources["y"] == y && x.value == 0 && y.value == 0;
    id := c.Subscribe(Client(1));
    assert c.cell.subs == [Entry(id, Client(1))];
  }

  /**
   * Setting `x` to 2 makes the collection broadcast once, and what it
   * broadcasts is the full snapshot, `y` included.
   */
  method BroadcastsFullSnapshot() returns (received: seq<map<string, int>>)
    ensures received == [map["x" := 2, "y" := 0]]
  {
    var c, id := CollectionOverZeros();
    ghost var subs := c.cell.subs;
    assert NamesOf(c.sources, c.sources["x"]) == {"x"};
    c.SetSource("x", 2);
    ghost var snapshot := c.cell.value;
    assert snapshot == map["x" := 2, "y" := 0];
    assert c.cell.log == Rounds(subs, Repeat(snapshot, 1));
    ReceivedRounds(subs, Repeat(snapshot, 1), id);
    assert Repeat(snapshot, 1) == [snapshot];
    received := Received(c.cell.log, id);
  }
}
