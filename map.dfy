/**
 * `SharedMap<T>`: a cell whose value is a record of child cells by key. `at`
 * creates a missing child on first access, with its initial value and the
 * manager `elementManager(key)` hands out, and subscribes the map to it; every
 * broadcast of a child makes the map broadcast its record again.
 */
module SharedMaps {
  import opened Subscriptions
  import opened Cells

  class SharedMap<T> {
    /** The map's own cell; its value is the record of child cells. */
    const cell: Shared<map<string, Shared<T>>>
    /** Whether `elementManager(key)` hands the child created for `key` a manager. */
    const elementManager: string -> bool
    /** The keys `elementManager` has been called with, in order. */
    var managerCalls: seq<string>

    /**
     * Every cell is well formed, the map's cell is none of its children, and the
     * map holds one callback on each child per key the child is stored under.
     */
    ghost predicate Valid()
      reads cell, cell.value.Values
    {
      && cell.Valid()
      && (forall e :: e in cell.value.Values ==> e.Valid() && (e as object) != cell)
      && Linked(cell.value, this)
    }

    /**
     * A map holding `initialElements`, whose own manager runs once if there is
     * one; the map's callback is subscribed to every initial element.
     */
    constructor (initialElements: map<string, Shared<T>>, elementManager: string -> bool, manager: bool)
      requires forall e :: e in initialElements.Values ==> e.Valid()
      modifies initialElements.Values`nextId, initialElements.Values`subs
      ensures Valid()
      ensures fresh(cell)
      ensures cell.value == initialElements
      ensures cell.subs == [] && cell.log == []
      ensures cell.managerRuns == if manager then 1 else 0
      ensures this.elementManager == elementManager && managerCalls == []
      ensures forall e :: e in initialElements.Values ==> GrownBy(old(e.subs), e.subs, this)
    {
      cell := new Shared(initialElements, manager);
      this.elementManager := elementManager;
      managerCalls := [];
      new;
      forall e | e in initialElements.Values
        ensures LinkCount(e.subs, this) == 0
      {
        LinkCountNone(e.subs, this);
      }
      SubscribeAll(initialElements, this);
    }

    /**
     * The child stored under `key`. When there is none, a new child holding
     * `initial` is created with the manager `elementManager(key)` gives, the
     * map subscribes to it, and it is stored under `key` in place: the record
     * grows by that one key and nothing is broadcast.
     */
    method At(key: string, initial: T) returns (e: Shared<T>)
      requires Valid()
      modifies this`managerCalls, cell`value
      ensures Valid()
      ensures key in cell.value && e == cell.value[key]
      ensures key in old(cell.value) ==>
        e == old(cell.value)[key] && cell.value == old(cell.value) && managerCalls == old(managerCalls)
      ensures key !in old(cell.value) ==>
        && fresh(e)
        && cell.value == old(cell.value)[key := e]
        && e.value == initial && e.log == []
        && e.managerRuns == (if elementManager(key) then 1 else 0)
        && managerCalls == old(managerCalls) + [key]
      ensures cell.log == old(cell.log)
    {
      var elements := cell.Get();
      if key !in elements {
        managerCalls := managerCalls + [key];
        var newElement := new Shared(initial, elementManager(key));
        var _ := newElement.Subscribe(Forward(this));
        LinkedInsert(elements, key, newElement, this);
        cell.value := elements[key := newElement];
      }
      e := cell.value[key];
    }

    /**
     * `at(key).set(v)` with the map's callback run for each call it receives:
     * the child broadcasts `v`, and the map rebroadcasts its unchanged record
     * once per key the child is stored under.
     */
    method SetChild(key: string, v: T)
      requires Valid() && key in cell.value
      modifies {cell.value[key]}`value, {cell.value[key]}`log, cell`log
      ensures Valid()
      ensures cell.value == old(cell.value)
      ensures cell.value[key].value == v
      ensures cell.value[key].log == old(cell.value[key].log) + Calls(cell.value[key].subs, v)
      ensures cell.log == old(cell.log) + Rounds(cell.subs, Repeat(cell.value, |NamesOf(cell.value, cell.value[key])|))
    {
      var child := cell.value[key];
      var start := |child.log|;
      child.Set(v);
      assert Linked(cell.value, this) by {
        assert forall e :: e in cell.value.Values ==> e.subs == old(e.subs);
      }
      var delivered := child.log[start..];
      assert delivered == Calls(child.subs, v);
      CallCountCalls(child.subs, v, this);
      assert key in NamesOf(cell.value, child);
      NotifyPerCall(cell, delivered, this);
    }
  }

  /** Two different keys give two different children. */
  method AccessesDistinctElements() returns (distinct: bool)
    ensures distinct
  {
    var sm := new SharedMap<int>(map[], _ => false, false);
    var s1 := sm.At("0", 0);
    var s2 := sm.At("1", 0);
    distinct := s1 != s2;
  }

  /**
   * The map's own manager runs once; `elementManager` is called once per new
   * key, in access order, and each child's manager runs once.
   */
  method CreatesManagersPerElement() returns (mapRuns: nat, calls: seq<string>, firstRuns: nat, secondRuns: nat)
    ensures mapRuns == 1 && calls == ["0", "1"]
    ensures firstRuns == 1 && secondRuns == 1
  {
    var sm := new SharedMap<int>(map[], k => k == "0" || k == "1", true);
    var s1 := sm.At("0", 0);
    var s2 := sm.At("1", 0);
    mapRuns := sm.cell.managerRuns;
    calls := sm.managerCalls;
    firstRuns := s1.managerRuns;
    secondRuns := s2.managerRuns;
  }

  /** Repeated access to one key returns the same child every time. */
  method ReturnsSameElement() returns (same: bool)
    ensures same
  {
    var sm := new SharedMap<int>(map[], _ => false, false);
    var s1 := sm.At("0", 0);
    var s2 := sm.At("0", 1);
    var s3 := sm.At("0", 2);
    same := s2 == s1 && s3 == s1;
  }

  /** A map with one subscriber and two children, "0" and "1", created by access. */
  method MapWithTwoChildren() returns (sm: SharedMap<int>, id: nat, s1: Shared<int>, s2: Shared<int>)
    ensures fresh(sm.cell) && sm.Valid()
    ensures sm.cell.value == map["0" := s1, "1" := s2] && fresh(s1) && s1 != s2
    ensures sm.cell.log == [] && id in Registered(sm.cell.subs)
  {
    sm := new SharedMap<int>(map[], _ => false, false);
    id := sm.cell.Subscribe(Client(1));
    s1 := sm.At("0", 0);
    s2 := sm.At("1", 0);
  }

  /** Creating two children broadcasts nothing; two `set`s on one child make the map broadcast twice. */
  method NotifiesWhenChildrenChange() returns (calls: nat)
    ensures calls == 2
  {
    var sm, id, s1, s2 := MapWithTwoChildren();
    assert NamesOf(sm.cell.value, s1) == {"0"};
    sm.SetChild("0", 0);
    ghost var first := Rounds(sm.cell.subs, Repeat(sm.cell.value, 1));
    assert sm.cell.log == first;
    sm.SetChild("0", 1);
    assert sm.cell.log == first + first;
    ReceivedRounds(sm.cell.subs, Repeat(sm.cell.value, 1), id);
    ReceivedAppend(first, first, id);
    calls := |Received(sm.cell.log, id)|;
  }
}
