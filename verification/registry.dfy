/**
 * Room registries: each game keeps a process-wide object from room id to room
 * record. A handler reads the registry, mutates at most the rooms it names and
 * emits events; here a handler returns the next registry and the events.
 */
module Registry {

  /** A connection identifier (`socket.id`); the transport never hands out an empty one. */
  type Id = s: string | s != [] witness "#"

  /** A caller-chosen room identifier (an object key). */
  type RoomId = string

  /**
   * What one handler leaves behind: the next registry, the events it emitted in
   * order, and whether it threw a TypeError (before changing or emitting anything).
   */
  datatype Step<R, E> = Step(rooms: map<RoomId, R>, events: seq<E>, threw: bool)

  /**
   * The members every object literal inherits from `Object.prototype`. A registry is
   * such a literal (`{}`), so `registry[roomId]` for one of these names is a truthy
   * value that is not a room, unless the registry holds that key itself.
   */
  const InheritedKeys: set<RoomId> := {
    "constructor", "hasOwnProperty", "isPrototypeOf", "propertyIsEnumerable",
    "toString", "toLocaleString", "valueOf", "__proto__",
    "__defineGetter__", "__defineSetter__", "__lookupGetter__", "__lookupSetter__"
  }

  /** `registry[roomId]` reads an inherited member rather than a room or `undefined`. */
  predicate ReadsInherited<R>(rooms: map<RoomId, R>, roomId: RoomId)
  {
    roomId !in rooms && roomId in InheritedKeys
  }

  /** `order` lists every room id of `rooms` exactly once: the order `for (roomId in rooms)` visits them. */
  predicate Enumerates<R>(order: seq<RoomId>, rooms: map<RoomId, R>)
  {
    && (forall k :: k in order ==> k in rooms)
    && (forall k :: k in rooms ==> k in order)
    && Distinct(order)
  }

  /** No element occurs twice. */
  predicate Distinct<T(==)>(s: seq<T>)
  {
    forall i, j :: 0 <= i < j < |s| ==> s[i] != s[j]
  }

  /** `a` is `b` with some elements left out, the rest in their original order. */
  predicate Subsequence<T(==)>(a: seq<T>, b: seq<T>)
    decreases |b|
  {
    if a == [] then true
    else if b == [] then false
    else if a[0] == b[0] then Subsequence(a[1..], b[1..])
    else Subsequence(a, b[1..])
  }

  /** `ids.filter((x) => x !== id)`: every copy of `id` removed, the rest kept in order. */
  function Without(ids: seq<Id>, id: Id): (r: seq<Id>)
    ensures Subsequence(r, ids)
    ensures forall x :: x in r <==> x in ids && x != id
    ensures id !in ids ==> r == ids
    ensures id in ids ==> |r| < |ids|
  {
    if ids == [] then []
    else
      assert ids == [ids[0]] + ids[1..];
      var rest := Without(ids[1..], id);
      if ids[0] == id then
        assert rest == [] || rest[0] != ids[0];
        rest
      else
        var r := [ids[0]] + rest;
        assert r[1..] == rest;
        r
  }

  /**
   * The filter drops exactly the copies of `id`: every other id keeps its number of
   * occurrences, so with `Subsequence` the result is determined.
   */
  lemma {:induction false} WithoutCounts(ids: seq<Id>, id: Id)
    ensures multiset(Without(ids, id)) == multiset(ids)[id := 0]
    ensures |Without(ids, id)| == |ids| - multiset(ids)[id]
  {
    if ids != [] {
      WithoutCounts(ids[1..], id);
      assert ids == [ids[0]] + ids[1..];
      assert multiset(ids) == multiset{ids[0]} + multiset(ids[1..]);
    }
  }

  /** Where `k` first occurs in `order`: the number of entries visited before it. */
  function Position<T(==)>(order: seq<T>, k: T): (p: nat)
    requires k in order
    ensures p < |order| && order[p] == k
    ensures forall i :: 0 <= i < p ==> order[i] != k
  {
    if order[0] == k then 0 else 1 + Position(order[1..], k)
  }

  /** Past the head of a duplicate-free order, every position is one more than in the tail. */
  lemma PositionInTail<T>(order: seq<T>, k: T)
    requires Distinct(order)
    requires order != [] && k in order[1..]
    ensures Position(order, k) == 1 + Position(order[1..], k)
  {
    assert order[0] != k;
  }

  /** `keys` never steps back in `order`: the entries come in the order `order` visits them. */
  predicate FollowsOrder<T(==)>(keys: seq<T>, order: seq<T>)
  {
    && (forall k :: k in keys ==> k in order)
    && (forall i, j :: 0 <= i < j < |keys| ==> Position(order, keys[i]) <= Position(order, keys[j]))
  }

  /** Entries for the head of `order`, then entries that follow the tail, follow all of `order`. */
  lemma FollowsOrderCons<T>(order: seq<T>, keys: seq<T>, h: nat)
    requires Distinct(order) && order != [] && h <= |keys|
    requires forall i :: 0 <= i < h ==> keys[i] == order[0]
    requires FollowsOrder(keys[h..], order[1..])
    ensures FollowsOrder(keys, order)
  {
    forall k | k in keys
      ensures k in order
    {
      var i :| 0 <= i < |keys| && keys[i] == k;
      if i >= h {
        assert keys[h..][i - h] == k && k in keys[h..];
        var x :| 0 <= x < |order[1..]| && order[1..][x] == k;
        assert order[x + 1] == k;
      } else {
        assert order[0] == k;
      }
    }
    forall i, j | 0 <= i < j < |keys|
      ensures Position(order, keys[i]) <= Position(order, keys[j])
    {
      if i >= h {
        assert keys[h..][i - h] == keys[i] && keys[h..][j - h] == keys[j];
        PositionInTail(order, keys[i]);
        PositionInTail(order, keys[j]);
      }
    }
  }

  /** An enumeration of a registry has one entry per room. */
  lemma EnumerationSize<R>(order: seq<RoomId>, rooms: map<RoomId, R>)
    requires Enumerates(order, rooms)
    ensures |order| == |rooms|
  {
    var keys := set k | k in order;
    assert keys == rooms.Keys;
    DistinctCardinality(order);
  }

  lemma {:induction false} DistinctCardinality(order: seq<RoomId>)
    requires Distinct(order)
    ensures |set k | k in order| == |order|
  {
    if order != [] {
      DistinctCardinality(order[1..]);
      var rest := set k | k in order[1..];
      assert (set k | k in order) == rest + {order[0]};
      assert order[0] !in rest;
    }
  }
}
