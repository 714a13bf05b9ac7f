/** The line index with its replacement policy (src/index/cacheline_index.cpp). */
module CachelineIndexes {
  import opened Wrappers
  import opened Words
  import opened Cachelines
  import opened Stores
  import opened CachePolicies

  const MANY_REFS := 1000000

  function RefCount(data: map<Id, IndexData>, id: Id): nat
    requires id in data
  {
    |data[id].refs|
  }

  /** What a victim is: of all lines with few referrers one with the fewest, and of those the one furthest back. */
  ghost predicate IsVictim(data: map<Id, IndexData>, keys: seq<Id>, id: Id) {
    && id in data && RefCount(data, id) < 1_000_000
    && (forall u | u in data :: RefCount(data, id) <= RefCount(data, u))
    && exists k: nat :: k < |keys| && keys[k] == id &&
         forall j | k < j < |keys| && keys[j] in data :: RefCount(data, id) < RefCount(data, keys[j])
  }

  class CachelineIndex {
    const policy: LRUPolicy<Id>
    var data: map<Id, IndexData>

    /** The policy orders exactly the lines of the index. */
    ghost predicate Valid()
      reads this, policy
    {
      policy.Valid() && SameMembers(data.Keys, policy.Keys())
    }

    constructor ()
      ensures Valid() && data == map[] && policy.Keys() == [] && fresh(policy)
    {
      policy := new LRUPolicy<Id>();
      data := map[];
    }

    /** Picks the victim; `None` is the failed assertion on a line that is not there. */
    method FetchOldestCacheline() returns (r: Option<(Id, IndexData)>)
      requires Valid()
      ensures r.None? <==> forall u | u in data :: RefCount(data, u) >= 1_000_000
      ensures r.Some? ==> IsVictim(data, policy.Keys(), r.value.0) && r.value.1 == data[r.value.0]
    {
      hide LRUPolicy.Valid, LRUPolicy.Keys, RefCount, Reversed;
      var keys := policy.Oldests(5);
      ghost var order := policy.Keys();
      var minRef, oldest := MANY_REFS, NONE64;
      ghost var at := 0;
      ghost var found := false;
      var i := 0;
      while i < |keys|
        invariant 0 <= i <= |keys| == |order|
        invariant found <==> minRef < MANY_REFS
        invariant minRef <= MANY_REFS
        invariant forall j | |order| - i <= j < |order| && order[j] in data :: minRef <= RefCount(data, order[j])
        invariant found ==> |order| - i <= at < |order| && order[at] == oldest && oldest in data &&
                            RefCount(data, oldest) == minRef
        invariant found ==> forall j | at < j < |order| && order[j] in data :: minRef < RefCount(data, order[j])
      {
        var id := keys[i];
        assert id == order[|order| - 1 - i];
        if id in data { CountIs(data, id); }
        if id in data && minRef > |data[id].refs| {
          minRef := |data[id].refs|;
          oldest := id;
          at, found := |order| - 1 - i, true;
        }
        i := i + 1;
      }
      forall u | u in data ensures minRef <= RefCount(data, u) {
        assert u in order;
      }
      if minRef < MANY_REFS {
        r := Some((oldest, data[oldest]));
      } else {
        r := None;
      }
    }

    method Remove(id: Id)
      requires Valid()
      modifies this, policy
      ensures Valid() && data == old(data) - {id} && policy.Keys() == Without(old(policy.Keys()), id)
    {
      policy.Evict(id);
      data := data - {id};
    }

    method Query(id: Id, promote: bool) returns (r: Option<IndexData>)
      requires Valid()
      modifies policy
      ensures Valid() && data == old(data)
      ensures r == if id in data then Some(data[id]) else None
      ensures policy.Keys() == if promote then Promoted(old(policy.Keys()), id) else old(policy.Keys())
    {
      if id !in data {
        PromotedMembers(policy.Keys(), id);
        return None;
      }
      if promote {
        PromotedMembers(policy.Keys(), id);
        policy.Promote(id);
      }
      r := Some(data[id]);
    }

    /** A known line keeps its place unless promoted; a new one goes to the back. */
    method Insert(id: Id, entry: IndexData, promote: bool)
      requires Valid()
      modifies this, policy
      ensures Valid() && data == old(data)[id := entry]
      ensures var keys := Inserted(old(policy.Keys()), id);
              policy.Keys() == if promote then Promoted(keys, id) else keys
    {
      data := data[id := entry];
      policy.Insert(id);
      if promote {
        PromotedMembers(policy.Keys(), id);
        policy.Promote(id);
      }
    }

    /** Adds a referrer and always promotes, whatever `promote` says; an unknown line is left alone. */
    method AddRefToCacheline(id: Id, ref: Id, promote: bool)
      requires Valid()
      modifies this, policy
      ensures Valid() && data == WithRef(old(data), id, ref)
      ensures policy.Keys() == Promoted(old(policy.Keys()), id)
    {
      PromotedMembers(policy.Keys(), id);
      if id !in data { return; }
      data := WithRef(data, id, ref);
      policy.Promote(id);
    }
  }

  lemma {:induction false} CountIs(data: map<Id, IndexData>, id: Id)
    requires id in data
    ensures RefCount(data, id) == |data[id].refs|
  {
  }

  ghost predicate SameMembers(ids: set<Id>, keys: seq<Id>) {
    forall id: Id :: id in ids <==> id in keys
  }

  function WithRef(data: map<Id, IndexData>, id: Id, ref: Id): map<Id, IndexData> {
    if id in data then data[id := data[id].(refs := data[id].refs + {ref})] else data
  }

  lemma {:induction false} PromotedMembers(keys: seq<Id>, id: Id)
    ensures forall k: Id :: k in Promoted(keys, id) <==> k in keys
    ensures id !in keys ==> Promoted(keys, id) == keys
  {
  }
}
