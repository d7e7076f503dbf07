/**
 * The bookkeeping every notifier in the toolkit shares: a subscriptions map
 * `id -> callback` kept in insertion order (as a JavaScript `Map` is), the
 * callbacks it invokes on a broadcast, and what each subscriber receives.
 *
 * Callbacks are opaque tokens. A `Client` callback only records what it is
 * called with; a `Forward` callback is one that a composite object (a
 * collection, a keyed map, a derived cell) registered on a cell it depends
 * on, and `owner` is that composite.
 */
module Subscriptions {

  datatype Listener = Client(tag: nat) | Forward(owner: object)

  /** One entry of a subscriptions map. */
  datatype Entry = Entry(id: nat, listener: Listener)

  /** One invocation of a callback during a broadcast. */
  datatype Call<T> = Call(id: nat, listener: Listener, value: T)

  /** Ids strictly increase along insertion order. */
  ghost predicate Ascending(s: seq<Entry>) {
    forall i, j :: 0 <= i < j < |s| ==> s[i].id < s[j].id
  }

  /** Every id in `s` was handed out before the counter reached `bound`. */
  ghost predicate Below(s: seq<Entry>, bound: nat) {
    forall i :: 0 <= i < |s| ==> s[i].id < bound
  }

  /** The subscriptions map as a finite map from id to callback. */
  ghost function Registered(s: seq<Entry>): map<nat, Listener> {
    if s == [] then map[] else Registered(s[1..])[s[0].id := s[0].listener]
  }

  lemma {:induction false} RegisteredKeys(s: seq<Entry>)
    ensures forall k :: k in Registered(s) <==> exists i :: 0 <= i < |s| && s[i].id == k
  {
    if s != [] {
      RegisteredKeys(s[1..]);
      assert Registered(s) == Registered(s[1..])[s[0].id := s[0].listener];
      forall k | k in Registered(s)
        ensures exists i :: 0 <= i < |s| && s[i].id == k
      {
        if k != s[0].id {
          assert k in Registered(s[1..]);
          var i :| 0 <= i < |s[1..]| && s[1..][i].id == k;
          assert s[i + 1].id == k;
        }
      }
      forall k | exists i :: 0 <= i < |s| && s[i].id == k
        ensures k in Registered(s)
      {
        var i :| 0 <= i < |s| && s[i].id == k;
        if i > 0 { assert s[1..][i - 1].id == k; }
      }
    }
  }

  /** Appending an id above all registered ids keeps the ids ascending. */
  lemma AscendingAppend(s: seq<Entry>, e: Entry)
    requires Ascending(s) && Below(s, e.id)
    ensures Ascending(s + [e])
  {
  }

  /** Registering an id not yet present adds exactly that id and leaves the others alone. */
  lemma {:induction false} RegisteredAppend(s: seq<Entry>, e: Entry)
    requires Below(s, e.id)
    ensures e.id !in Registered(s)
    ensures Registered(s + [e]) == Registered(s)[e.id := e.listener]
  {
    if s != [] {
      assert (s + [e])[1..] == s[1..] + [e];
      assert Below(s[1..], e.id);
      RegisteredAppend(s[1..], e);
      assert s[0].id != e.id;
    }
  }

  /** `Map.delete(id)`: the subscriptions map with the entry for `id` removed. */
  function Without(s: seq<Entry>, id: nat): (r: seq<Entry>)
    ensures forall e :: e in r ==> e in s && e.id != id
  {
    if s == [] then []
    else if s[0].id == id then Without(s[1..], id)
    else [s[0]] + Without(s[1..], id)
  }

  /** Every entry after the first has a larger id than the first. */
  lemma AscendingTail(s: seq<Entry>)
    requires Ascending(s) && s != []
    ensures Ascending(s[1..])
    ensures forall e :: e in s[1..] ==> s[0].id < e.id
  {
    forall e | e in s[1..]
      ensures s[0].id < e.id
    {
      var k :| 0 <= k < |s[1..]| && s[1..][k] == e;
      assert s[k + 1] == e;
    }
  }

  lemma AscendingCons(e: Entry, w: seq<Entry>)
    requires Ascending(w)
    requires forall x :: x in w ==> e.id < x.id
    ensures Ascending([e] + w)
  {
    forall i, j | 0 <= i < j < |[e] + w|
      ensures ([e] + w)[i].id < ([e] + w)[j].id
    {
      assert ([e] + w)[j] == w[j - 1];
      assert w[j - 1] in w;
      if i > 0 {
        assert ([e] + w)[i] == w[i - 1];
      }
    }
  }

  /** Deleting keeps the remaining entries in insertion order. */
  lemma {:induction false} WithoutAscending(s: seq<Entry>, id: nat)
    requires Ascending(s)
    ensures Ascending(Without(s, id))
  {
    if s != [] {
      AscendingTail(s);
      WithoutAscending(s[1..], id);
      if s[0].id != id {
        AscendingCons(s[0], Without(s[1..], id));
      }
    }
  }

  /** Deleting removes exactly `id` from the registry and leaves every other entry alone. */
  lemma {:induction false} WithoutRemoves(s: seq<Entry>, id: nat)
    ensures Registered(Without(s, id)) == Registered(s) - {id}
  {
    if s != [] {
      WithoutRemoves(s[1..], id);
      var w := Without(s[1..], id);
      var rest := Registered(s[1..]);
      assert Registered(w) == rest - {id};
      assert Registered(s) == rest[s[0].id := s[0].listener];
      if s[0].id != id {
        assert Without(s, id) == [s[0]] + w;
        assert ([s[0]] + w)[1..] == w;
        assert Registered([s[0]] + w) == Registered(w)[s[0].id := s[0].listener];
        assert (rest - {id})[s[0].id := s[0].listener] == rest[s[0].id := s[0].listener] - {id};
      } else {
        assert Without(s, id) == w;
        assert rest[id := s[0].listener] - {id} == rest - {id};
      }
    }
  }

  /** Deleting an id that is not registered changes nothing. */
  lemma {:induction false} WithoutAbsent(s: seq<Entry>, id: nat)
    requires id !in Registered(s)
    ensures Without(s, id) == s
  {
    if s != [] {
      WithoutAbsent(s[1..], id);
    }
  }

  /** A second delete of the same id is a no-op. */
  lemma {:induction false} WithoutIdempotent(s: seq<Entry>, id: nat)
    ensures Without(Without(s, id), id) == Without(s, id)
  {
    WithoutRemoves(s, id);
    WithoutAbsent(Without(s, id), id);
  }

  /** Unsubscribing right after subscribing gives back the subscriptions map as it was. */
  lemma {:induction false} SubscribeUnsubscribe(s: seq<Entry>, e: Entry)
    requires Below(s, e.id)
    ensures Without(s + [e], e.id) == s
  {
    if s == [] {
      assert [] + [e] == [e];
      assert [e][1..] == [];
    } else {
      assert (s + [e])[1..] == s[1..] + [e];
      assert Below(s[1..], e.id);
      SubscribeUnsubscribe(s[1..], e);
      assert s == [s[0]] + s[1..];
    }
  }

  /** The callback invocations one broadcast of `v` makes: one per entry, in insertion order. */
  ghost function Calls<T>(s: seq<Entry>, v: T): (r: seq<Call<T>>)
    ensures |r| == |s|
    ensures forall i :: 0 <= i < |s| ==> r[i] == Call(s[i].id, s[i].listener, v)
  {
    if s == [] then [] else [Call(s[0].id, s[0].listener, v)] + Calls(s[1..], v)
  }

  /** `forEach` over the subscriptions map, calling every callback with `v`. */
  method Broadcast<T>(s: seq<Entry>, v: T) returns (calls: seq<Call<T>>)
    ensures calls == Calls(s, v)
  {
    calls := [];
    var i := 0;
    while i < |s|
      invariant 0 <= i <= |s|
      invariant |calls| == i
      invariant forall j :: 0 <= j < i ==> calls[j] == Call(s[j].id, s[j].listener, v)
    {
      calls := calls + [Call(s[i].id, s[i].listener, v)];
      i := i + 1;
    }
  }

  /** The values the callback registered under `id` was called with, in order. */
  function Received<T>(log: seq<Call<T>>, id: nat): seq<T> {
    if log == [] then []
    else (if log[0].id == id then [log[0].value] else []) + Received(log[1..], id)
  }

  /** A callback that no call addresses has received nothing. */
  lemma {:induction false} ReceivedNone<T>(log: seq<Call<T>>, id: nat)
    requires forall i :: 0 <= i < |log| ==> log[i].id != id
    ensures Received(log, id) == []
  {
    if log != [] {
      ReceivedNone(log[1..], id);
    }
  }

  lemma {:induction false} ReceivedAppend<T>(a: seq<Call<T>>, b: seq<Call<T>>, id: nat)
    ensures Received(a + b, id) == Received(a, id) + Received(b, id)
  {
    if a == [] {
      assert a + b == b;
    } else {
      assert (a + b)[0] == a[0];
      assert (a + b)[1..] == a[1..] + b;
      ReceivedAppend(a[1..], b, id);
      var head := if a[0].id == id then [a[0].value] else [];
      calc {
        Received(a + b, id);
        head + Received(a[1..] + b, id);
        head + (Received(a[1..], id) + Received(b, id));
        (head + Received(a[1..], id)) + Received(b, id);
      }
    }
  }

  /** One broadcast reaches every registered callback exactly once, and no one else. */
  lemma {:induction false} ReceivedCalls<T>(s: seq<Entry>, v: T, id: nat)
    requires Ascending(s)
    ensures Received(Calls(s, v), id) == if id in Registered(s) then [v] else []
  {
    if s != [] {
      ReceivedCalls(s[1..], v, id);
      assert Calls(s, v)[1..] == Calls(s[1..], v);
      RegisteredKeys(s[1..]);
      if s[0].id == id {
        assert id !in Registered(s[1..]);
      }
    }
  }

  /** `n` copies of `x`. */
  ghost function Repeat<T>(x: T, n: nat): (r: seq<T>)
    ensures |r| == n && forall i :: 0 <= i < n ==> r[i] == x
  {
    if n == 0 then [] else Repeat(x, n - 1) + [x]
  }

  /** The calls made by broadcasting each of `vs` in turn to an unchanged registry. */
  ghost function Rounds<T>(s: seq<Entry>, vs: seq<T>): seq<Call<T>> {
    if vs == [] then [] else Rounds(s, vs[..|vs| - 1]) + Calls(s, vs[|vs| - 1])
  }

  /** Sequential broadcasts of `vs` give every registered callback exactly `vs`, in call order. */
  lemma {:induction false} ReceivedRounds<T>(s: seq<Entry>, vs: seq<T>, id: nat)
    requires Ascending(s)
    ensures Received(Rounds(s, vs), id) == if id in Registered(s) then vs else []
  {
    if vs != [] {
      var init, last := vs[..|vs| - 1], vs[|vs| - 1];
      var earlier, latest := Rounds(s, init), Calls(s, last);
      ghost var r := id in Registered(s);
      assert Received(Rounds(s, vs), id) == Received(earlier, id) + Received(latest, id) by {
        assert Rounds(s, vs) == earlier + latest;
        ReceivedAppend(earlier, latest, id);
      }
      assert Received(earlier, id) == if r then init else [] by {
        ReceivedRounds(s, init, id);
      }
      assert Received(latest, id) == if r then [last] else [] by {
        ReceivedCalls(s, last, id);
      }
      assert init + [last] == vs;
    }
  }

  /** How many entries of the registry are callbacks of `owner`. */
  ghost function LinkCount(s: seq<Entry>, owner: object): nat {
    if s == [] then 0
    else (if s[0].listener == Forward(owner) then 1 else 0) + LinkCount(s[1..], owner)
  }

  lemma {:induction false} LinkCountAppend(s: seq<Entry>, e: Entry, owner: object)
    ensures LinkCount(s + [e], owner) == LinkCount(s, owner) + if e.listener == Forward(owner) then 1 else 0
  {
    if s != [] {
      assert (s + [e])[1..] == s[1..] + [e];
      LinkCountAppend(s[1..], e, owner);
    }
  }

  /** How many of `calls` invoke a callback of `owner`. */
  ghost function CallCount<T>(calls: seq<Call<T>>, owner: object): nat {
    if calls == [] then 0
    else (if calls[0].listener == Forward(owner) then 1 else 0) + CallCount(calls[1..], owner)
  }

  lemma {:induction false} CallCountAppend<T>(a: seq<Call<T>>, b: seq<Call<T>>, owner: object)
    ensures CallCount(a + b, owner) == CallCount(a, owner) + CallCount(b, owner)
  {
    if a == [] {
      assert a + b == b;
    } else {
      assert (a + b)[0] == a[0];
      assert (a + b)[1..] == a[1..] + b;
      CallCountAppend(a[1..], b, owner);
      assert CallCount(a + b, owner) == (if a[0].listener == Forward(owner) then 1 else 0) + CallCount(a[1..] + b, owner);
    }
  }

  /** A broadcast invokes `owner`'s callbacks once per entry it holds in the registry. */
  lemma {:induction false} CallCountCalls<T>(s: seq<Entry>, v: T, owner: object)
    ensures CallCount(Calls(s, v), owner) == LinkCount(s, owner)
  {
    if s != [] {
      assert Calls(s, v)[1..] == Calls(s[1..], v);
      CallCountCalls(s[1..], v, owner);
    }
  }

  /** `n` broadcasts invoke `owner`'s callbacks `n` times per entry it holds. */
  lemma {:induction false} CallCountRounds<T>(s: seq<Entry>, vs: seq<T>, owner: object)
    ensures CallCount(Rounds(s, vs), owner) == |vs| * LinkCount(s, owner)
  {
    if vs != [] {
      var init := vs[..|vs| - 1];
      var n := LinkCount(s, owner);
      CallCountRounds(s, init, owner);
      assert Rounds(s, vs) == Rounds(s, init) + Calls(s, vs[|vs| - 1]);
      CallCountAppend(Rounds(s, init), Calls(s, vs[|vs| - 1]), owner);
      CallCountCalls(s, vs[|vs| - 1], owner);
      assert CallCount(Rounds(s, vs), owner) == |init| * n + n;
      assert (|init| + 1) * n == |init| * n + n;
    }
  }

  /** With a single callback of `owner` in the registry, each broadcast invokes it once. */
  lemma CallCountRoundsOnce<T>(s: seq<Entry>, vs: seq<T>, owner: object)
    requires LinkCount(s, owner) == 1
    ensures CallCount(Rounds(s, vs), owner) == |vs|
  {
    CallCountRounds(s, vs, owner);
  }

  lemma AppendAssoc<X>(a: seq<X>, b: seq<X>, c: seq<X>)
    ensures a + (b + c) == (a + b) + c
  {
  }

  /** Every call made by `n` broadcasts of `x` carries `x`. */
  lemma {:induction false} RoundsCarry<T>(s: seq<Entry>, x: T, n: nat)
    ensures forall i :: 0 <= i < |Rounds(s, Repeat(x, n))| ==> Rounds(s, Repeat(x, n))[i].value == x
  {
    if n > 0 {
      RoundsCarry(s, x, n - 1);
      RoundsRepeatStep(s, x, n - 1);
    }
  }

  /** One more broadcast of `x` after the rounds of `vs` extends them by one broadcast. */
  lemma RoundsSnoc<T>(s: seq<Entry>, vs: seq<T>, x: T)
    ensures Rounds(s, vs + [x]) == Rounds(s, vs) + Calls(s, x)
  {
    assert (vs + [x])[..|vs|] == vs;
  }

  /** Counting one call further along `calls`. */
  lemma CallCountPrefix<T>(calls: seq<Call<T>>, i: nat, owner: object)
    requires i < |calls|
    ensures CallCount(calls[..i + 1], owner) == CallCount(calls[..i], owner) + if calls[i].listener == Forward(owner) then 1 else 0
  {
    assert calls[..i + 1] == calls[..i] + [calls[i]];
    CallCountAppend(calls[..i], [calls[i]], owner);
  }

  /** One more broadcast of `x` extends the rounds of `Repeat(x, n)`. */
  lemma RoundsRepeatStep<T>(s: seq<Entry>, x: T, n: nat)
    ensures Rounds(s, Repeat(x, n + 1)) == Rounds(s, Repeat(x, n)) + Calls(s, x)
  {
    assert Repeat(x, n + 1)[..n] == Repeat(x, n);
  }
}
