/**
 * `SubscribableMap<T>`: the keyed collection whose children come from the
 * factory `makeElement(key)`. `at(key)` makes and stores a child on first
 * access and subscribes the map to it; every broadcast of a child makes the map
 * broadcast its record again.
 */
module SubscribableMaps {
  import opened Subscriptions
  import opened Cells

  class SubscribableMap<T> {
    /** The map's own cell; its value is the record of child cells. */
    const cell: Shared<map<string, Shared<T>>>
    /** `makeElement(key)`: the initial value of the child it makes for `key`. */
    const makeElement: string -> T
    /** The keys `makeElement` has been called with, in order. */
    var made: seq<string>

    /**
     * Every cell is well formed, the map's cell is none of its children, and the
     * map holds one callback on each child per key the child is stored under.
     */
    ghost predicate Valid()
      reads cell, cell.value.Values
    {
      && cell.Valid()
      && (forall e :: e in cell.value.Values ==> e.Valid() && (e as object) != cell)
      && Linked(cell.value, this)
    }

    /** A map holding `initialElements`, with its callback subscribed to every one of them. */
    constructor (initialElements: map<string, Shared<T>>, makeElement: string -> T)
      requires forall e :: e in initialElements.Values ==> e.Valid()
      modifies initialElements.Values`nextId, initialElements.Values`subs
      ensures Valid()
      ensures fresh(cell)
      ensures cell.value == initialElements
      ensures cell.subs == [] && cell.log == []
      ensures this.makeElement == makeElement && made == []
      ensures forall e :: e in initialElements.Values ==> GrownBy(old(e.subs), e.subs, this)
    {
      cell := new Shared(initialElements, false);
      this.makeElement := makeElement;
      made := [];
      new;
      forall e | e in initialElements.Values
        ensures LinkCount(e.subs, this) == 0
      {
        LinkCountNone(e.subs, this);
      }
      SubscribeAll(initialElements, this);
    }

    /**
     * The child stored under `key`. When there is none, `makeElement(key)` is
     * called once, the map subscribes to the child it makes, and the child is
     * stored under `key` in place: the record grows by that one key and nothing
     * is broadcast.
     */
    method At(key: string) returns (e: Shared<T>)
      requires Valid()
      modifies this`made, cell`value
      ensures Valid()
      ensures key in cell.value && e == cell.value[key]
      ensures key in old(cell.value) ==>
        e == old(cell.value)[key] && cell.value == old(cell.value) && made == old(made)
      ensures key !in old(cell.value) ==>
        && fresh(e)
        && cell.value == old(cell.value)[key := e]
        && e.value == makeElement(key) && e.log == []
        && made == old(made) + [key]
      ensures cell.log == old(cell.log)
    {
      var elements := cell.Get();
      if key !in elements {
        made := made + [key];
        var element := new Shared(makeElement(key), false);
        var _ := element.Subscribe(Forward(this));
        LinkedInsert(elements, key, element, this);
        cell.value := elements[key := element];
      }
      e := cell.value[key];
    }

    /**
     * `at(key)`'s child broadcasting `v`, with the map's callback run for each
     * call it receives: the map rebroadcasts its unchanged record once per key
     * the child is stored under.
     */
    method SetChild(key: string, v: T)
      requires Valid() && key in cell.value
      modifies {cell.value[key]}`value, {cell.value[key]}`log, cell`log
      ensures Valid()
      ensures cell.value == old(cell.value)
      ensures cell.value[key].value == v
      ensures cell.value[key].log == old(cell.value[key].log) + Calls(cell.value[key].subs, v)
      ensures cell.log == old(cell.log) + Rounds(cell.subs, Repeat(cell.value, |NamesOf(cell.value, cell.value[key])|))
    {
      var child := cell.value[key];
      var start := |child.log|;
      child.Set(v);
      assert Linked(cell.value, this) by {
        assert forall e :: e in cell.value.Values ==> e.subs == old(e.subs);
      }
      var delivered := child.log[start..];
      assert delivered == Calls(child.subs, v);
      CallCountCalls(child.subs, v, this);
      assert key in NamesOf(cell.value, child);
      NotifyPerCall(cell, delivered, this);
    }
  }

  /** Repeated access to one key calls the factory once and returns the same child every time. */
  method MakesEachElementOnce() returns (same: bool, made: seq<string>)
    ensures same && made == ["0"]
  {
    var sm := new SubscribableMap<int>(map[], k => |k|);
    var s1 := sm.At("0");
    var s2 := sm.At("0");
    same := s1 == s2;
    made := sm.made;
  }
}
