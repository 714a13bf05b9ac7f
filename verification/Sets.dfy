/** Finite sets and their sizes. */
module Sets {
  lemma {:induction false} SubsetSize<T>(a: set<T>, b: set<T>)
    requires a <= b
    ensures |a| <= |b|
    decreases a
  {
    if x :| x in a { SubsetSize(a - {x}, b - {x}); }
  }

  function Members<T(==,!new)>(keys: seq<T>): (r: set<T>)
    ensures forall k :: k in r <==> k in keys
  {
    set k | k in keys
  }

  lemma {:induction false} MemberCount<T(!new)>(keys: seq<T>)
    requires forall i, j | 0 <= i < j < |keys| :: keys[i] != keys[j]
    ensures |Members(keys)| == |keys|
    decreases |keys|
  {
    if keys != [] {
      var front, last := keys[..|keys| - 1], keys[|keys| - 1];
      MemberCount(front);
      assert keys == front + [last];
      assert Members(keys) == Members(front) + {last};
      assert last !in front;
    }
  }
}
