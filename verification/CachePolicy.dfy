/** Least-recently-used order: a list plus a map of positions into it (src/include/cache_policy.h:36-81). */
module CachePolicies {
  /** A list node; `handle` plays the part of its iterator, which stays valid while other nodes come and go. */
  datatype Node<T> = Node(handle: nat, key: T)

  function KeysOf<T>(list: seq<Node<T>>): (keys: seq<T>)
    ensures |keys| == |list|
    ensures forall i | 0 <= i < |list| :: keys[i] == list[i].key
  {
    seq(|list|, i requires 0 <= i < |list| => list[i].key)
  }

  // ----- the order of keys -------------------------------------------------------------------

  ghost predicate NoRepeats<T>(keys: seq<T>) {
    forall i, j | 0 <= i < j < |keys| :: keys[i] != keys[j]
  }

  function Without<T(==)>(keys: seq<T>, t: T): (r: seq<T>)
    ensures forall k | k in r :: k in keys && k != t
    ensures forall k | k in keys && k != t :: k in r
    ensures |r| <= |keys|
  {
    if keys == [] then []
    else
      var last := keys[|keys| - 1];
      Without(keys[..|keys| - 1], t) + if last == t then [] else [last]
  }

  /** A key that is there comes to the front. */
  function Promoted<T(==)>(keys: seq<T>, t: T): seq<T> {
    if t in keys then [t] + Without(keys, t) else keys
  }

  /** A key that is not there goes to the back. */
  function Inserted<T(==)>(keys: seq<T>, t: T): seq<T> {
    if t in keys then keys else keys + [t]
  }

  function Reversed<T>(keys: seq<T>): (r: seq<T>)
    ensures |r| == |keys|
    ensures forall i | 0 <= i < |r| :: r[i] == keys[|keys| - 1 - i]
  {
    seq(|keys|, i requires 0 <= i < |keys| => keys[|keys| - 1 - i])
  }

  lemma {:induction false} WithoutAbsent<T>(keys: seq<T>, t: T)
    requires t !in keys
    ensures Without(keys, t) == keys
    decreases |keys|
  {
    if keys != [] {
      var front, last := keys[..|keys| - 1], keys[|keys| - 1];
      assert keys == front + [last];
      WithoutAbsent(front, t);
    }
  }

  lemma {:induction false} WithoutBoth<T>(a: seq<T>, b: seq<T>, t: T)
    ensures Without(a + b, t) == Without(a, t) + Without(b, t)
    decreases |b|
  {
    if b == [] {
      assert a + b == a;
    } else {
      var front := b[..|b| - 1];
      assert (a + b)[..|a + b| - 1] == a + front;
      WithoutBoth(a, front, t);
    }
  }

  /** What is left stays in order: where two of the keys stood before. */
  lemma {:induction false} PlacesBefore<T>(keys: seq<T>, t: T, i: nat, j: nat) returns (i': nat, j': nat)
    requires i < j < |Without(keys, t)|
    ensures i' < j' < |keys| && keys[i'] == Without(keys, t)[i] && keys[j'] == Without(keys, t)[j]
    decreases |keys|
  {
    var front, last := keys[..|keys| - 1], keys[|keys| - 1];
    assert keys == front + [last];
    var rest := Without(front, t);
    if j < |rest| {
      i', j' := PlacesBefore(front, t, i, j);
    } else {
      assert rest[i] in rest && rest[i] in front;
      i' :| 0 <= i' < |front| && front[i'] == rest[i];
      j' := |front|;
    }
  }

  lemma {:induction false} WithoutOnly<T>(t: T)
    ensures Without([t], t) == []
  {
    assert [t][..0] == [];
  }

  /** Taking out the one occurrence of a key joins what is before and after it. */
  lemma {:induction false} WithoutAt<T>(keys: seq<T>, i: nat)
    requires NoRepeats(keys) && i < |keys|
    ensures Without(keys, keys[i]) == keys[..i] + keys[i + 1..]
  {
    hide Without;
    var before, t, after := keys[..i], keys[i], keys[i + 1..];
    OnlyOnce(keys, i);
    assert keys == (before + [t]) + after;
    WithoutBoth(before + [t], after, t);
    WithoutBoth(before, [t], t);
    WithoutAbsent(before, t);
    WithoutOnly(t);
    WithoutAbsent(after, t);
  }

  lemma {:induction false} OnlyOnce<T>(keys: seq<T>, i: nat)
    requires NoRepeats(keys) && i < |keys|
    ensures keys[i] !in keys[..i] && keys[i] !in keys[i + 1..]
  {
    var after := keys[i + 1..];
    forall j | 0 <= j < |after| ensures after[j] != keys[i] {
      assert after[j] == keys[i + 1 + j];
    }
  }

  // ----- the list and the map together -------------------------------------------------------

  /** Handles tell nodes apart, and the map leads from every key to its node. */
  ghost predicate Linked<T>(list: seq<Node<T>>, cache: map<T, nat>, unused: nat) {
    && (forall i, j | 0 <= i < j < |list| :: list[i].handle != list[j].handle)
    && (forall i | 0 <= i < |list| :: list[i].handle < unused)
    && (forall i | 0 <= i < |list| :: list[i].key in cache && cache[list[i].key] == list[i].handle)
    && (forall k | k in cache :: k in KeysOf(list))
  }

  lemma {:induction false} LinkedKeys<T>(list: seq<Node<T>>, cache: map<T, nat>, unused: nat)
    requires Linked(list, cache, unused)
    ensures NoRepeats(KeysOf(list))
    ensures forall k :: k in cache <==> k in KeysOf(list)
  {
    forall i | 0 <= i < |list| ensures KeysOf(list)[i] in cache { }
  }

  lemma {:induction false} LinkedWithout<T>(list: seq<Node<T>>, cache: map<T, nat>, unused: nat, at: nat)
    requires Linked(list, cache, unused) && at < |list|
    ensures Linked(list[..at] + list[at + 1..], cache - {list[at].key}, unused)
    ensures KeysOf(list[..at] + list[at + 1..]) == Without(KeysOf(list), list[at].key)
  {
    hide Without, NoRepeats, KeysOf;
    var rest := list[..at] + list[at + 1..];
    RestLinked(list, cache, unused, at, rest);
    RestKeys(list, cache, unused, at, rest);
  }

  lemma {:induction false} RestKeys<T>(
    list: seq<Node<T>>, cache: map<T, nat>, unused: nat, at: nat, rest: seq<Node<T>>)
    requires Linked(list, cache, unused) && at < |list| && rest == list[..at] + list[at + 1..]
    ensures KeysOf(rest) == Without(KeysOf(list), list[at].key)
    ensures forall k | k in cache && k != list[at].key :: k in KeysOf(rest)
  {
    hide Without, KeysOf, Linked, NoRepeats;
    var keys := KeysOf(list);
    LinkedKeys(list, cache, unused);
    WithoutAt(keys, at);
    KeysOfRest(list, at, rest);
    forall k | k in cache && k != keys[at] ensures k in Without(keys, keys[at]) {
      assert k in keys;
    }
  }

  lemma {:induction false} KeysOfRest<T>(list: seq<Node<T>>, at: nat, rest: seq<Node<T>>)
    requires at < |list| && rest == list[..at] + list[at + 1..]
    ensures KeysOf(rest) == KeysOf(list)[..at] + KeysOf(list)[at + 1..]
  {
  }

  lemma {:induction false} RestLinked<T>(
    list: seq<Node<T>>, cache: map<T, nat>, unused: nat, at: nat, rest: seq<Node<T>>)
    requires Linked(list, cache, unused) && at < |list| && rest == list[..at] + list[at + 1..]
    ensures forall i, j | 0 <= i < j < |rest| :: rest[i].handle != rest[j].handle
    ensures forall i | 0 <= i < |rest| ::
              && rest[i].handle < unused && rest[i].key in cache
              && rest[i].key != list[at].key && cache[rest[i].key] == rest[i].handle
  {
    forall i | 0 <= i < |rest|
      ensures rest[i].handle < unused && rest[i].key in cache
      ensures rest[i].key != list[at].key && cache[rest[i].key] == rest[i].handle
    {
      var j := if i < at then i else i + 1;
      assert rest[i] == list[j];
    }
    forall i, j | 0 <= i < j < |rest| ensures rest[i].handle != rest[j].handle {
      var i', j' := if i < at then i else i + 1, if j < at then j else j + 1;
      assert rest[i] == list[i'] && rest[j] == list[j'];
    }
  }

  /** A new node at one end: the list with it, and where its nodes were before. */
  function WithNode<T>(list: seq<Node<T>>, node: Node<T>, front: bool): seq<Node<T>> {
    if front then [node] + list else list + [node]
  }

  lemma {:induction false} LinkedWith<T>(list: seq<Node<T>>, cache: map<T, nat>, unused: nat, t: T, front: bool)
    requires Linked(list, cache, unused) && t !in cache
    ensures var list' := WithNode(list, Node(unused, t), front);
            && Linked(list', cache[t := unused], unused + 1)
            && KeysOf(list') == if front then [t] + KeysOf(list) else KeysOf(list) + [t]
  {
    var list' := WithNode(list, Node(unused, t), front);
    NewHandles(list, cache, unused, t, front);
    NewKeys(list, cache, unused, t, front);
    hide KeysOf, WithNode;
    assert Linked(list', cache[t := unused], unused + 1);
  }

  lemma {:induction false} NewHandles<T>(list: seq<Node<T>>, cache: map<T, nat>, unused: nat, t: T, front: bool)
    requires Linked(list, cache, unused) && t !in cache
    ensures var list' := WithNode(list, Node(unused, t), front);
            && (forall i, j | 0 <= i < j < |list'| :: list'[i].handle != list'[j].handle)
            && (forall i | 0 <= i < |list'| ::
                  && list'[i].handle < unused + 1 && list'[i].key in cache[t := unused]
                  && cache[t := unused][list'[i].key] == list'[i].handle)
  {
    hide KeysOf;
    var list' := WithNode(list, Node(unused, t), front);
    forall i | 0 <= i < |list'|
      ensures list'[i] == Node(unused, t) || (list'[i].handle < unused && list'[i].key in cache &&
                                              cache[list'[i].key] == list'[i].handle)
    {
      var j := if front then i - 1 else i;
      if 0 <= j < |list| { assert list'[i] == list[j]; }
    }
    forall i, j | 0 <= i < j < |list'| ensures list'[i].handle != list'[j].handle {
      if front {
        assert list'[j] == list[j - 1];
        if i > 0 { assert list'[i] == list[i - 1]; }
      } else {
        assert list'[i] == list[i];
        if j < |list| { assert list'[j] == list[j]; }
      }
    }
  }

  lemma {:induction false} NewKeys<T>(list: seq<Node<T>>, cache: map<T, nat>, unused: nat, t: T, front: bool)
    requires forall k | k in cache :: k in KeysOf(list)
    ensures var list' := WithNode(list, Node(unused, t), front);
            && KeysOf(list') == (if front then [t] + KeysOf(list) else KeysOf(list) + [t])
            && forall k | k in cache[t := unused] :: k in KeysOf(list')
  {
    var list' := WithNode(list, Node(unused, t), front);
    var keys := if front then [t] + KeysOf(list) else KeysOf(list) + [t];
    assert KeysOf(list') == keys;
    hide KeysOf;
    forall k | k in cache[t := unused] ensures k in keys {
      if k == t { assert keys[if front then 0 else |keys| - 1] == t; } else { assert k in KeysOf(list); }
    }
  }

  class LRUPolicy<T(==)> {
    var list: seq<Node<T>>
    var cache: map<T, nat>
    var nextHandle: nat

    ghost predicate Valid()
      reads this
    {
      Linked(list, cache, nextHandle)
    }

    function Keys(): (keys: seq<T>)
      reads this
    {
      KeysOf(list)
    }

    constructor ()
      ensures Valid() && Keys() == []
    {
      list, cache, nextHandle := [], map[], 0;
    }

    /** The key at the back. */
    method Oldest() returns (t: T)
      requires Valid() && Keys() != []
      ensures t == Keys()[|Keys()| - 1]
    {
      t := list[|list| - 1].key;
    }

    /** The whole list from the back, whatever `n` says. */
    method Oldests(n: nat) returns (res: seq<T>)
      requires Valid()
      ensures res == Reversed(Keys())
    {
      res := [];
      var i := |list|;
      while i > 0
        invariant 0 <= i <= |list| && |res| == |list| - i
        invariant forall k | 0 <= k < |res| :: res[k] == list[|list| - 1 - k].key
      {
        i := i - 1;
        res := res + [list[i].key];
      }
    }

    /** Where the node of a key is. */
    ghost method NodeOf(t: T) returns (at: nat)
      requires Valid() && t in cache
      ensures at < |list| && list[at].key == t && list[at].handle == cache[t]
    {
      at :| 0 <= at < |KeysOf(list)| && KeysOf(list)[at] == t;
    }

    /** Unlinks the node with this handle. */
    method Erase(handle: nat, ghost at: nat)
      requires Valid() && at < |list| && list[at].handle == handle
      modifies this`list
      ensures list == old(list)[..at] + old(list)[at + 1..]
    {
      var i := 0;
      while list[i].handle != handle
        invariant 0 <= i <= at
        decreases at - i
      {
        i := i + 1;
      }
      assert i == at;
      list := list[..i] + list[i + 1..];
    }

    method Promote(t: T)
      requires Valid()
      modifies this
      ensures Valid() && Keys() == Promoted(old(Keys()), t)
    {
      hide Linked, NoRepeats, Without;
      LinkedKeys(list, cache, nextHandle);
      if t in cache {
        ghost var at := NodeOf(t);
        LinkedWithout(list, cache, nextHandle, at);
        Erase(cache[t], at);
        LinkedWith(list, cache - {t}, nextHandle, t, true);
        assert cache[t := nextHandle] == (cache - {t})[t := nextHandle];
        list := [Node(nextHandle, t)] + list;
        cache := cache[t := nextHandle];
        nextHandle := nextHandle + 1;
      }
    }

    method Evict(t: T)
      requires Valid()
      modifies this
      ensures Valid() && Keys() == Without(old(Keys()), t)
    {
      hide Linked, NoRepeats, Without;
      LinkedKeys(list, cache, nextHandle);
      if t in cache {
        ghost var at := NodeOf(t);
        LinkedWithout(list, cache, nextHandle, at);
        Erase(cache[t], at);
        cache := cache - {t};
      } else {
        WithoutAbsent(Keys(), t);
      }
    }

    method Insert(t: T)
      requires Valid()
      modifies this
      ensures Valid() && Keys() == Inserted(old(Keys()), t)
    {
      hide Linked, NoRepeats;
      LinkedKeys(list, cache, nextHandle);
      if t !in cache {
        LinkedWith(list, cache, nextHandle, t, false);
        list := list + [Node(nextHandle, t)];
        cache := cache[t := nextHandle];
        nextHandle := nextHandle + 1;
      }
    }
  }
}
