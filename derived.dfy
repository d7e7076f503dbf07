/**
 * `DerivedObject`: a cell fed by a `SubscribableCollection` of named
 * dependencies. Every broadcast of the collection runs the handler on the
 * snapshot it carries and broadcasts the result from the derived cell.
 */
module Derived {
  import opened Subscriptions
  import opened Cells
  import opened Collections

  class DerivedObject<V, U> {
    /** Computes the derived value from a snapshot of the dependencies. */
    const handler: map<string, V> -> U
    /** The collection built over the dependencies. */
    const dependencies: SubscribableCollection<V>
    /** The derived cell: the latest derived value plus its subscribers. */
    const cell: Shared<U>
    /** The snapshots the handler has been run on, in order. */
    var handled: seq<map<string, V>>

    /**
     * The collection and the derived cell are well formed, the derived cell is
     * neither the collection's cell nor a dependency, and the collection
     * carries exactly one callback of this object.
     */
    ghost predicate Valid()
      reads cell, dependencies.cell, dependencies.sources.Values
    {
      && dependencies.Valid()
      && cell.Valid()
      && (cell as object) != dependencies.cell
      && (forall s :: s in dependencies.sources.Values ==> (s as object) != cell)
      && LinkCount(dependencies.cell.subs, this) == 1
    }

    /**
     * A derived cell holding `initial`, over a new collection of exactly
     * `deps`; the handler is not run until the collection broadcasts.
     */
    constructor (handler: map<string, V> -> U, deps: map<string, Shared<V>>, initial: U)
      requires forall s :: s in deps.Values ==> s.Valid()
      modifies deps.Values`nextId, deps.Values`subs
      ensures Valid()
      ensures fresh(cell) && fresh(dependencies) && fresh(dependencies.cell)
      ensures this.handler == handler && dependencies.sources == deps
      ensures cell.value == initial && cell.subs == [] && cell.log == []
      ensures handled == []
      ensures forall s :: s in deps.Values ==> GrownBy(old(s.subs), s.subs, dependencies)
    {
      this.handler := handler;
      dependencies := new SubscribableCollection(deps);
      cell := new Shared(initial, false);
      handled := [];
      new;
      var id := dependencies.Subscribe(Forward(this));
      assert dependencies.cell.subs == [Entry(id, Forward(this))];
    }

    /** One run of this object's callback on the collection: the handler on `values`, then a broadcast of its result. */
    method Recompute(values: map<string, V>, ghost start: seq<Call<U>>, ghost before: seq<map<string, V>>, ghost n: nat)
      requires Valid()
      requires handled == before + Repeat(values, n)
      requires cell.log == start + Rounds(cell.subs, Repeat(handler(values), n))
      modifies cell`value, cell`log, this`handled
      ensures Valid()
      ensures cell.value == handler(values)
      ensures handled == before + Repeat(values, n + 1)
      ensures cell.log == start + Rounds(cell.subs, Repeat(handler(values), n + 1))
    {
      ghost var done := Rounds(cell.subs, Repeat(handler(values), n));
      RoundsRepeatStep(cell.subs, handler(values), n);
      cell.Set(handler(values));
      AppendAssoc(start, done, Calls(cell.subs, handler(values)));
      assert Repeat(values, n + 1) == Repeat(values, n) + [values];
      AppendAssoc(before, Repeat(values, n), [values]);
      handled := handled + [values];
    }

    /** Runs this object's callback for every call in `delivered` that addresses it; each carries `values`. */
    method Relay(delivered: seq<Call<map<string, V>>>, ghost values: map<string, V>)
      requires Valid()
      requires forall i :: 0 <= i < |delivered| ==> delivered[i].value == values
      modifies cell`value, cell`log, this`handled
      ensures Valid()
      ensures CallCount(delivered, this) > 0 ==> cell.value == handler(values)
      ensures CallCount(delivered, this) == 0 ==> cell.value == old(cell.value)
      ensures handled == old(handled) + Repeat(values, CallCount(delivered, this))
      ensures cell.log == old(cell.log) + Rounds(cell.subs, Repeat(handler(values), CallCount(delivered, this)))
    {
      var i := 0;
      ghost var count := 0;
      while i < |delivered|
        invariant 0 <= i <= |delivered|
        invariant count == CallCount(delivered[..i], this)
        invariant Valid()
        invariant count > 0 ==> cell.value == handler(values)
        invariant count == 0 ==> cell.value == old(cell.value)
        invariant handled == old(handled) + Repeat(values, count)
        invariant cell.log == old(cell.log) + Rounds(cell.subs, Repeat(handler(values), count))
      {
        CallCountPrefix(delivered, i, this);
        if delivered[i].listener == Forward(this) {
          Recompute(delivered[i].value, old(cell.log), old(handled), count);
          count := count + 1;
        }
        i := i + 1;
      }
      assert delivered[..|delivered|] == delivered;
    }

    /** This object's share of `n` collection broadcasts of `values`: one handler run per broadcast. */
    method Respond(delivered: seq<Call<map<string, V>>>, ghost values: map<string, V>, ghost n: nat)
      requires Valid()
      requires delivered == Rounds(dependencies.cell.subs, Repeat(values, n))
      modifies cell`value, cell`log, this`handled
      ensures Valid()
      ensures n > 0 ==> cell.value == handler(values)
      ensures n == 0 ==> cell.value == old(cell.value)
      ensures handled == old(handled) + Repeat(values, n)
      ensures cell.log == old(cell.log) + Rounds(cell.subs, Repeat(handler(values), n))
    {
      assert CallCount(delivered, this) == n by {
        CallCountRoundsOnce(dependencies.cell.subs, Repeat(values, n), this);
      }
      assert forall i :: 0 <= i < |delivered| ==> delivered[i].value == values by {
        RoundsCarry(dependencies.cell.subs, values, n);
      }
      Relay(delivered, values);
    }

    /**
     * `dependencies[name].set(v)` with the callbacks of the collection and of
     * this object run for each call they receive: the collection rebroadcasts
     * its snapshot once per name the dependency has, and each rebroadcast runs
     * the handler on that snapshot and broadcasts the result.
     */
    method SetDependency(name: string, v: V)
      requires Valid() && name in dependencies.sources
      modifies {dependencies.sources[name]}`value, {dependencies.sources[name]}`log
      modifies dependencies.cell`value, dependencies.cell`log
      modifies cell`value, cell`log, this`handled
      ensures Valid()
      ensures dependencies.sources[name].value == v
      ensures dependencies.sources[name].log == old(dependencies.sources[name].log)
        + Calls(dependencies.sources[name].subs, v)
      ensures dependencies.cell.log == old(dependencies.cell.log)
        + Rounds(dependencies.cell.subs,
                 Repeat(dependencies.cell.value, |NamesOf(dependencies.sources, dependencies.sources[name])|))
      ensures dependencies.cell.value == Snapshot(dependencies.sources)
      ensures handled == old(handled)
        + Repeat(Snapshot(dependencies.sources), |NamesOf(dependencies.sources, dependencies.sources[name])|)
      ensures cell.value == handler(Snapshot(dependencies.sources))
      ensures cell.log == old(cell.log)
        + Rounds(cell.subs, Repeat(cell.value, |NamesOf(dependencies.sources, dependencies.sources[name])|))
    {
      var collection := dependencies.cell;
      var start := |collection.log|;
      ghost var before := handled;
      ghost var broadcast := cell.log;
      assert dependencies.sources[name] in dependencies.sources.Values;
      dependencies.SetSource(name, v);
      ghost var n := |NamesOf(dependencies.sources, dependencies.sources[name])|;
      ghost var values := collection.value;
      assert n > 0 by {
        assert name in NamesOf(dependencies.sources, dependencies.sources[name]);
      }
      assert cell.Valid() && LinkCount(collection.subs, this) == 1;
      var delivered := collection.log[start..];
      assert delivered == Rounds(collection.subs, Repeat(values, n));
      assert handled == before && cell.log == broadcast;
      Respond(delivered, values, n);
      assert handled == before + Repeat(values, n);
      assert cell.value == handler(values);
      assert cell.log == broadcast + Rounds(cell.subs, Repeat(handler(values), n));
      assert collection.value == values && Snapshot(dependencies.sources) == values;
    }
  }

  /** The value under `name`, or 0 when the snapshot has none. */
  function Lookup(values: map<string, int>, name: string): int {
    if name in values then values[name] else 0
  }

  /** The handler `deps.x * deps.y ** 2`. */
  function XTimesYSquared(values: map<string, int>): int {
    Lookup(values, "x") * Lookup(values, "y") * Lookup(values, "y")
  }

  /** A derived cell over two fresh dependencies `x` and `y` at 0, with initial value 0. */
  method DerivedOverZeros() returns (d: DerivedObject<int, int>)
    ensures d.Valid() && fresh(d.cell) && fresh(d.dependencies.cell)
    ensures d.cell.value == 0 && d.handler == XTimesYSquared
    ensures "x" in d.dependencies.sources && "y" in d.dependencies.sources
    ensures fresh(d.dependencies.sources["x"]) && fresh(d.dependencies.sources["y"])
    ensures d.dependencies.sources["x"] != d.dependencies.sources["y"]
  {
    var x := new Shared(0, false);
    var y := new Shared(0, false);
    d := new DerivedObject(XTimesYSquared, map["x" := x, "y" := y], 0);
  }

  /**
   * The derived cell reads its initial value 0 before any change, and
   * `2 * 5 * 5 == 50` once `x` is set to 2 and `y` to 5.
   */
  method UpdatesBasedOnDependencies() returns (before: int, after: int)
    ensures before == 0 && after == 50
  {
    var d := DerivedOverZeros();
    var x := d.dependencies.sources["x"];
    var y := d.dependencies.sources["y"];
    before := d.cell.Get();
    d.SetDependency("x", 2);
    assert x.value == 2;
    assert x in d.dependencies.sources.Values;
    assert (x as object) != d.cell && (x as object) != d.dependencies.cell;
    d.SetDependency("y", 5);
    assert y.value == 5 && x.value == 2;
    ghost var values := Snapshot(d.dependencies.sources);
    assert values["x"] == 2 && values["y"] == 5;
    after := d.cell.Get();
  }
}
