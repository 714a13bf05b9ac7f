/** A Bloom filter that supports deletion where slots never collided (src/include/deletable_bloom_filter.h). */
module BloomFilters {
  import opened Words

  datatype FilterBits = FilterBits(slots: seq<bool>, collisions: seq<bool>)

  /** `count` hash functions onto `size` slots; nothing is known of `hash`. */
  datatype Hashing = Hashing(size: nat, count: nat, hash: (nat, U64) -> nat) {
    /** The slot the `i`-th function gives a value. */
    function Slot(i: nat, value: U64): (v: nat)
      requires size > 0
      ensures v < size
    {
      hash(i, value) % size
    }
  }

  predicate RightSize(h: Hashing, b: FilterBits) {
    h.size > 0 && |b.slots| == h.size && |b.collisions| == h.size
  }

  // ----- one pass over the hash functions ----------------------------------------------------

  function MarkedUpTo(h: Hashing, b: FilterBits, value: U64, n: nat): (r: FilterBits)
    requires RightSize(h, b)
    ensures RightSize(h, r)
  {
    if n == 0 then b
    else
      var done := MarkedUpTo(h, b, value, n - 1);
      var v := h.Slot(n - 1, value);
      if done.slots[v] then done.(collisions := done.collisions[v := true])
      else done.(slots := done.slots[v := true])
  }

  function ClearedUpTo(h: Hashing, b: FilterBits, value: U64, n: nat): (r: FilterBits)
    requires RightSize(h, b)
    ensures RightSize(h, r)
  {
    if n == 0 then b
    else
      var done := ClearedUpTo(h, b, value, n - 1);
      var v := h.Slot(n - 1, value);
      if done.collisions[v] then done else done.(slots := done.slots[v := false])
  }

  /** Every slot of the value is set. */
  predicate Reported(h: Hashing, b: FilterBits, value: U64)
    requires RightSize(h, b)
  {
    forall i | 0 <= i < h.count :: b.slots[h.Slot(i, value)]
  }

  // ----- runs --------------------------------------------------------------------------------

  datatype Op = Insert(value: U64) | Remove(value: U64)

  function BitsAfter(h: Hashing, ops: seq<Op>): (b: FilterBits)
    requires h.size > 0
    ensures RightSize(h, b)
  {
    if ops == [] then FilterBits(seq(h.size, _ => false), seq(h.size, _ => false))
    else
      var b := BitsAfter(h, ops[..|ops| - 1]);
      match ops[|ops| - 1]
      case Insert(value) => MarkedUpTo(h, b, value, h.count)
      case Remove(value) => ClearedUpTo(h, b, value, h.count)
  }

  /** The values inserted and not taken out again, as often as they are in. */
  function Remaining(ops: seq<Op>): multiset<U64> {
    if ops == [] then multiset{}
    else
      var before := Remaining(ops[..|ops| - 1]);
      match ops[|ops| - 1]
      case Insert(value) => before + multiset{value}
      case Remove(value) => before - multiset{value}
  }

  /** Every removal takes out a value that is in. */
  predicate Matched(ops: seq<Op>) {
    ops != [] ==>
      && Matched(ops[..|ops| - 1])
      && (ops[|ops| - 1].Remove? ==> ops[|ops| - 1].value in Remaining(ops[..|ops| - 1]))
  }

  /** After a matched run a value is in as often as it was inserted and not removed. */
  lemma {:induction false} RemainingCounts(ops: seq<Op>, r: U64)
    requires Matched(ops)
    ensures multiset(ops)[Insert(r)] == Remaining(ops)[r] + multiset(ops)[Remove(r)]
    decreases |ops|
  {
    if ops != [] {
      var front, op := ops[..|ops| - 1], ops[|ops| - 1];
      assert ops == front + [op];
      RemainingCounts(front, r);
    }
  }

  /** No value is removed more often than inserted. */
  ghost predicate Balanced(ops: seq<Op>) {
    forall r: U64 :: multiset(ops)[Remove(r)] <= multiset(ops)[Insert(r)]
  }

  lemma {:induction false} LastBalances(ops: seq<Op>)
    requires ops != [] && Matched(ops[..|ops| - 1]) && Balanced(ops[..|ops| - 1])
    ensures Balanced(ops) <==>
            (ops[|ops| - 1].Remove? ==> ops[|ops| - 1].value in Remaining(ops[..|ops| - 1]))
  {
    hide Matched, Remaining;
    var front, op := ops[..|ops| - 1], ops[|ops| - 1];
    assert ops == front + [op];
    assert multiset(ops) == multiset(front) + multiset{op};
    RemainingCounts(front, op.value);
  }

  lemma {:induction false} NothingBalances()
    ensures Balanced([])
  {
  }

  /** A run matches exactly if none of its beginnings removes a value more often than it inserts it. */
  lemma {:induction false} MatchedExactly(ops: seq<Op>)
    ensures Matched(ops) <==> forall k: nat | k <= |ops| :: Balanced(ops[..k])
    decreases |ops|
  {
    hide Remaining, Balanced;
    assert ops[..|ops|] == ops;
    if ops == [] {
      NothingBalances();
    } else {
      var front := ops[..|ops| - 1];
      MatchedExactly(front);
      assert forall k: nat | k <= |front| :: front[..k] == ops[..k];
      assert front[..|front|] == front;
      if Matched(front) { LastBalances(ops); }
    }
  }

  // ----- how often a slot is in use ----------------------------------------------------------

  /** How many of the first `n` functions send the value to slot `v`. */
  function HitCount(h: Hashing, value: U64, v: nat, n: nat): nat
    requires h.size > 0
  {
    if n == 0 then 0 else HitCount(h, value, v, n - 1) + if h.Slot(n - 1, value) == v then 1 else 0
  }

  function Uses(h: Hashing, values: seq<U64>, v: nat): nat
    requires h.size > 0
  {
    if values == [] then 0
    else Uses(h, values[..|values| - 1], v) + HitCount(h, values[|values| - 1], v, h.count)
  }

  lemma {:induction false} UsesAppend(h: Hashing, xs: seq<U64>, ys: seq<U64>, v: nat)
    requires h.size > 0
    ensures Uses(h, xs + ys, v) == Uses(h, xs, v) + Uses(h, ys, v)
    decreases |ys|
  {
    if ys == [] {
      assert xs + ys == xs;
    } else {
      var front := ys[..|ys| - 1];
      UsesAppend(h, xs, front, v);
      assert (xs + ys)[..|xs + ys| - 1] == xs + front;
    }
  }

  lemma {:induction false} HitsGrow(h: Hashing, value: U64, v: nat, m: nat, n: nat)
    requires h.size > 0 && m <= n
    ensures HitCount(h, value, v, m) <= HitCount(h, value, v, n)
    decreases n
  {
    if m < n { HitsGrow(h, value, v, m, n - 1); }
  }

  // ----- what the bits say -------------------------------------------------------------------

  /** A slot used twice has collided; a slot that never collided is set just when it is used. */
  ghost predicate Counts(h: Hashing, b: FilterBits, uses: nat -> int) {
    && RightSize(h, b)
    && (forall v: nat | v < h.size ::
          && (b.collisions[v] ==> b.slots[v])
          && (uses(v) >= 2 ==> b.collisions[v])
          && (!b.collisions[v] ==> (b.slots[v] <==> uses(v) >= 1)))
  }

  lemma {:induction false} MarkingCounts(h: Hashing, b: FilterBits, values: seq<U64>, value: U64, n: nat)
    requires h.size > 0 && Counts(h, b, (v: nat) => Uses(h, values, v))
    ensures Counts(h, MarkedUpTo(h, b, value, n), (v: nat) => Uses(h, values, v) + HitCount(h, value, v, n))
  {
    if n > 0 { MarkingCounts(h, b, values, value, n - 1); }
  }

  lemma {:induction false} ClearingCounts(h: Hashing, b: FilterBits, values: seq<U64>, value: U64, n: nat)
    requires h.size > 0 && n <= h.count
    requires Counts(h, b, (v: nat) => Uses(h, values, v) + HitCount(h, value, v, h.count))
    ensures Counts(h, ClearedUpTo(h, b, value, n),
                   (v: nat) => Uses(h, values, v) + HitCount(h, value, v, h.count) - HitCount(h, value, v, n))
  {
    if n > 0 {
      ClearingCounts(h, b, values, value, n - 1);
      HitsGrow(h, value, h.Slot(n - 1, value), n, h.count);
    }
  }

  lemma {:induction false} UsesPicked(h: Hashing, values: seq<U64>, k: nat, v: nat)
    requires h.size > 0 && k < |values|
    ensures Uses(h, values, v) == Uses(h, values[..k] + values[k + 1..], v) + HitCount(h, values[k], v, h.count)
  {
    var left, right, one := values[..k], values[k + 1..], [values[k]];
    assert values == (left + one) + right;
    assert one[..|one| - 1] == [];
    UsesAppend(h, left + one, right, v);
    UsesAppend(h, left, one, v);
    UsesAppend(h, left, right, v);
  }

  /** After a matched run the slots count the uses of the remaining values, listed in some order. */
  lemma {:induction false} RunCounts(h: Hashing, ops: seq<Op>) returns (values: seq<U64>)
    requires h.size > 0 && Matched(ops)
    ensures multiset(values) == Remaining(ops)
    ensures Counts(h, BitsAfter(h, ops), (v: nat) => Uses(h, values, v))
    decreases |ops|
  {
    hide Counts, HitCount, Uses, MarkedUpTo, ClearedUpTo;
    if ops == [] {
      values := [];
      NothingCounts(h);
    } else {
      var front := ops[..|ops| - 1];
      var before := RunCounts(h, front);
      match ops[|ops| - 1]
      case Insert(value) =>
        values := before + [value];
        InsertCounts(h, BitsAfter(h, front), before, value);
      case Remove(value) =>
        values := RemoveCounts(h, BitsAfter(h, front), before, value);
    }
  }

  lemma {:induction false} NothingCounts(h: Hashing)
    requires h.size > 0
    ensures Counts(h, BitsAfter(h, []), (v: nat) => Uses(h, [], v))
  {
  }

  lemma {:induction false} InsertCounts(h: Hashing, b: FilterBits, before: seq<U64>, value: U64)
    requires h.size > 0 && Counts(h, b, (v: nat) => Uses(h, before, v))
    ensures Counts(h, MarkedUpTo(h, b, value, h.count), (v: nat) => Uses(h, before + [value], v))
  {
    hide MarkedUpTo, HitCount;
    MarkingCounts(h, b, before, value, h.count);
    assert (before + [value])[..|before|] == before;
  }

  lemma {:induction false} RemoveCounts(h: Hashing, b: FilterBits, before: seq<U64>, value: U64)
    returns (values: seq<U64>)
    requires h.size > 0 && Counts(h, b, (v: nat) => Uses(h, before, v)) && value in multiset(before)
    ensures multiset(values) == multiset(before) - multiset{value}
    ensures Counts(h, ClearedUpTo(h, b, value, h.count), (v: nat) => Uses(h, values, v))
  {
    hide ClearedUpTo, HitCount, Uses;
    var k :| 0 <= k < |before| && before[k] == value;
    values := before[..k] + before[k + 1..];
    assert before == before[..k] + ([value] + before[k + 1..]);
    forall v: nat ensures Uses(h, before, v) == Uses(h, values, v) + HitCount(h, value, v, h.count) {
      UsesPicked(h, before, k, v);
    }
    ClearingCounts(h, b, values, value, h.count);
  }

  lemma {:induction false} UsedMeansHit(h: Hashing, values: seq<U64>, v: nat)
    requires h.size > 0
    ensures Uses(h, values, v) >= 1 <==> exists y, j: nat :: y in values && j < h.count && h.Slot(j, y) == v
    decreases |values|
  {
    if values != [] {
      var front, last := values[..|values| - 1], values[|values| - 1];
      assert values == front + [last];
      UsedMeansHit(h, front, v);
      HitMeansSlot(h, last, v, h.count);
    }
  }

  lemma {:induction false} HitMeansSlot(h: Hashing, value: U64, v: nat, n: nat)
    requires h.size > 0
    ensures HitCount(h, value, v, n) >= 1 <==> exists j: nat :: j < n && h.Slot(j, value) == v
  {
    if n > 0 { HitMeansSlot(h, value, v, n - 1); }
  }

  // ----- when a slot has collided ------------------------------------------------------------

  /** One insertion sets the slots it hits; those collide that were set before, or that it hits twice. */
  lemma {:induction false} MarkedExactly(h: Hashing, b: FilterBits, x: U64, n: nat, v: nat)
    requires RightSize(h, b) && v < h.size
    ensures MarkedUpTo(h, b, x, n).slots[v] <==> b.slots[v] || HitCount(h, x, v, n) >= 1
    ensures MarkedUpTo(h, b, x, n).collisions[v] <==>
            b.collisions[v] || HitCount(h, x, v, n) >= (if b.slots[v] then 1 else 2)
  {
    if n > 0 {
      MarkedExactly(h, b, x, n - 1, v);
      MarkedExactly(h, b, x, n - 1, h.Slot(n - 1, x));
    }
  }

  /** A removal clears exactly the slots of its value that never collided. */
  lemma {:induction false} ClearedExactly(h: Hashing, b: FilterBits, y: U64, n: nat, v: nat)
    requires RightSize(h, b) && v < h.size
    ensures ClearedUpTo(h, b, y, n).collisions == b.collisions
    ensures ClearedUpTo(h, b, y, n).slots[v] <==> b.slots[v] && (b.collisions[v] || HitCount(h, y, v, n) == 0)
  {
    if n > 0 {
      ClearedExactly(h, b, y, n - 1, v);
    }
  }

  /** Two of these values have the slot in use, or one of them by two functions, or one that is in twice. */
  ghost predicate Crowded(h: Hashing, values: multiset<U64>, v: nat)
    requires h.size > 0
  {
    exists y, i: nat, z, j: nat ::
      && y in values && i < h.count && h.Slot(i, y) == v
      && z in values && j < h.count && h.Slot(j, z) == v
      && (y != z || i != j || values[y] >= 2)
  }

  /** At some time during the run the values in the filter crowded the slot. */
  ghost predicate WasCrowded(h: Hashing, ops: seq<Op>, v: nat)
    requires h.size > 0
  {
    exists k: nat :: k <= |ops| && Crowded(h, Remaining(ops[..k]), v)
  }

  lemma {:induction false} TwoHits(h: Hashing, y: U64, v: nat, n: nat)
    requires h.size > 0
    ensures HitCount(h, y, v, n) >= 2 <==>
            exists i: nat, j: nat :: i < n && j < n && i != j && h.Slot(i, y) == v && h.Slot(j, y) == v
  {
    if n > 0 {
      TwoHits(h, y, v, n - 1);
      HitMeansSlot(h, y, v, n - 1);
    }
  }

  lemma {:induction false} CrowdedMeansTwoUses(h: Hashing, values: seq<U64>, v: nat)
    requires h.size > 0
    ensures Uses(h, values, v) >= 2 <==> Crowded(h, multiset(values), v)
    decreases |values|
  {
    if values != [] {
      var front, last := values[..|values| - 1], values[|values| - 1];
      assert Uses(h, values, v) == Uses(h, front, v) + HitCount(h, last, v, h.count);
      CrowdedMeansTwoUses(h, front, v);
      UsedMeansHit(h, front, v);
      TwoHits(h, last, v, h.count);
      HitMeansSlot(h, last, v, h.count);
      hide HitCount, Uses;
      assert values == front + [last];
      assert multiset(values) == multiset(front) + multiset{last};
      assert forall y :: y in front <==> y in multiset(front);
      OneMoreCrowds(h, multiset(front), last, v);
    }
  }

  /** One more value crowds a slot that it hits twice, or hits while it is in use. */
  lemma {:induction false} OneMoreCrowds(h: Hashing, values: multiset<U64>, last: U64, v: nat)
    requires h.size > 0
    ensures Crowded(h, values + multiset{last}, v) <==>
            || Crowded(h, values, v)
            || HitCount(h, last, v, h.count) >= 2
            || (HitCount(h, last, v, h.count) >= 1 && InUse(h, values, v))
  {
    hide HitCount;
    TwoHits(h, last, v, h.count);
    HitMeansSlot(h, last, v, h.count);
    var all := values + multiset{last};
    if Crowded(h, all, v) {
      var y, i: nat, z, j: nat :|
        && y in all && i < h.count && h.Slot(i, y) == v && z in all && j < h.count && h.Slot(j, z) == v
        && (y != z || i != j || all[y] >= 2);
      assert y != last ==> y in values;
      assert z != last ==> z in values;
    }
  }

  /** Some remaining value keeps the slot in use. */
  ghost predicate InUse(h: Hashing, remaining: multiset<U64>, v: nat)
    requires h.size > 0
  {
    exists y, j: nat :: y in remaining && j < h.count && h.Slot(j, y) == v
  }

  /** The slots after a matched run: what is crowded or in use now, and what the bits say. */
  lemma {:induction false} SlotsNow(h: Hashing, ops: seq<Op>, v: nat)
    requires h.size > 0 && Matched(ops) && v < h.size
    ensures var b := BitsAfter(h, ops);
            && (Crowded(h, Remaining(ops), v) ==> b.collisions[v])
            && (b.collisions[v] ==> b.slots[v])
            && (!b.collisions[v] ==> (b.slots[v] <==> InUse(h, Remaining(ops), v)))
  {
    hide Uses, HitCount, MarkedUpTo, ClearedUpTo, BitsAfter, Remaining, Matched;
    var values := RunCounts(h, ops);
    CrowdedMeansTwoUses(h, values, v);
    UsedMeansHit(h, values, v);
    assert forall y :: y in values <==> y in multiset(values);
  }

  lemma {:induction false} WasCrowdedOneMore(h: Hashing, ops: seq<Op>, v: nat)
    requires h.size > 0 && ops != []
    ensures WasCrowded(h, ops, v) <==> WasCrowded(h, ops[..|ops| - 1], v) || Crowded(h, Remaining(ops), v)
  {
    hide Remaining, Crowded;
    var front := ops[..|ops| - 1];
    assert ops[..|ops|] == ops;
    assert forall k: nat | k <= |front| :: front[..k] == ops[..k];
  }

  /** A collision bit is set exactly if the slot was crowded at some time, by whatever values, and whether they are
      still in or not. */
  lemma {:induction false} CollidedExactly(h: Hashing, ops: seq<Op>, v: nat)
    requires h.size > 0 && Matched(ops) && v < h.size
    ensures BitsAfter(h, ops).collisions[v] <==> WasCrowded(h, ops, v)
    decreases |ops|
  {
    hide Crowded, MarkedUpTo, ClearedUpTo, HitCount, InUse;
    if ops == [] {
      assert !Crowded(h, multiset{}, v) by { NothingCrowds(h, v); }
      assert forall k: nat | k <= |ops| :: ops[..k] == [];
    } else {
      var front := ops[..|ops| - 1];
      CollidedExactly(h, front, v);
      WasCrowdedOneMore(h, ops, v);
      SlotsNow(h, front, v);
      SlotsNow(h, ops, v);
      match ops[|ops| - 1]
      case Insert(x) =>
        MarkedExactly(h, BitsAfter(h, front), x, h.count, v);
        OneMoreCrowds(h, Remaining(front), x, v);
      case Remove(y) =>
        ClearedExactly(h, BitsAfter(h, front), y, h.count, v);
    }
  }

  lemma {:induction false} NothingCrowds(h: Hashing, v: nat)
    requires h.size > 0
    ensures !Crowded(h, multiset{}, v)
  {
  }

  /**
   * What a query answers after a matched run: it reports a value just when each of its slots
   * either was crowded at some time or is in use by a remaining value.
   */
  lemma {:induction false} QueryIsExact(h: Hashing, ops: seq<Op>, value: U64)
    requires h.size > 0 && Matched(ops)
    ensures Reported(h, BitsAfter(h, ops), value) <==>
            forall i: nat | i < h.count ::
              WasCrowded(h, ops, h.Slot(i, value)) || InUse(h, Remaining(ops), h.Slot(i, value))
  {
    hide WasCrowded, InUse, BitsAfter, Remaining, Matched, Crowded;
    forall i: nat | i < h.count
      ensures BitsAfter(h, ops).slots[h.Slot(i, value)] <==>
              WasCrowded(h, ops, h.Slot(i, value)) || InUse(h, Remaining(ops), h.Slot(i, value))
    {
      SlotsNow(h, ops, h.Slot(i, value));
      CollidedExactly(h, ops, h.Slot(i, value));
    }
  }

  /** No false negatives, for any hash functions. */
  lemma {:induction false} RemainingIsReported(h: Hashing, ops: seq<Op>, value: U64)
    requires h.size > 0 && Matched(ops) && value in Remaining(ops)
    ensures Reported(h, BitsAfter(h, ops), value)
  {
    QueryIsExact(h, ops, value);
    forall i: nat | i < h.count ensures InUse(h, Remaining(ops), h.Slot(i, value)) { }
  }

  // ----- removals that do not match ----------------------------------------------------------

  /** The filter nothing was done to yet. */
  function Nothing(h: Hashing): (b: FilterBits)
    requires h.size > 0
    ensures RightSize(h, b)
  {
    FilterBits(seq(h.size, _ => false), seq(h.size, _ => false))
  }

  /** The slot belongs to `x` by exactly one function, and to `y` by some. */
  ghost predicate Exposed(h: Hashing, x: U64, y: U64, v: nat)
    requires h.size > 0
  {
    HitCount(h, x, v, h.count) == 1 && HitCount(h, y, v, h.count) >= 1
  }

  lemma {:induction false} TwoOps(h: Hashing, x: U64, y: U64)
    requires h.size > 0
    ensures var ops := [Insert(x), Remove(y)];
            BitsAfter(h, ops) == ClearedUpTo(h, MarkedUpTo(h, Nothing(h), x, h.count), y, h.count)
    ensures Remaining([Insert(x), Remove(y)]) == multiset{x} - multiset{y}
    ensures Matched([Insert(x), Remove(y)]) <==> x == y
  {
    hide MarkedUpTo, ClearedUpTo;
    var ops := [Insert(x), Remove(y)];
    assert ops[..1] == [Insert(x)] && ops[..1][..0] == [];
    assert BitsAfter(h, []) == Nothing(h);
    assert Remaining(ops[..1]) == multiset{x};
    assert BitsAfter(h, ops[..1]) == MarkedUpTo(h, Nothing(h), x, h.count);
    assert Matched(ops[..1]);
  }

  /** When a removal that does not match hides the one value that is in: exactly if it clears a slot that this value
      hits once. Whatever the hash functions, and however many slots there are. */
  lemma {:induction false} UnmatchedRemovalLosesAValue(h: Hashing, x: U64, y: U64)
    requires h.size > 0 && x != y
    ensures var ops := [Insert(x), Remove(y)];
            && !Matched(ops) && x in Remaining(ops)
            && (!Reported(h, BitsAfter(h, ops), x) <==> exists v: nat :: v < h.size && Exposed(h, x, y, v))
  {
    hide BitsAfter, Remaining, Matched, MarkedUpTo, ClearedUpTo, HitCount;
    TwoOps(h, x, y);
    var marked := MarkedUpTo(h, Nothing(h), x, h.count);
    var left := ClearedUpTo(h, marked, y, h.count);
    forall v: nat | v < h.size
      ensures left.slots[v] <==> HitCount(h, x, v, h.count) >= 1 && !Exposed(h, x, y, v)
    {
      MarkedExactly(h, Nothing(h), x, h.count, v);
      ClearedExactly(h, marked, y, h.count, v);
    }
    forall i: nat | i < h.count ensures HitCount(h, x, h.Slot(i, x), h.count) >= 1 {
      HitMeansSlot(h, x, h.Slot(i, x), h.count);
    }
    if v: nat :| v < h.size && Exposed(h, x, y, v) {
      HitMeansSlot(h, x, v, h.count);
      var i: nat :| i < h.count && h.Slot(i, x) == v;
      assert !left.slots[h.Slot(i, x)];
    }
  }

  /** The values share a slot that never collided. */
  ghost predicate ShareAlone(h: Hashing, b: FilterBits, x: U64, y: U64)
    requires RightSize(h, b)
  {
    exists i: nat :: i < h.count && !b.collisions[h.Slot(i, x)] && HitCount(h, y, h.Slot(i, x), h.count) >= 1
  }

  /** Clearing the slots of `y` hides the reported value `x` exactly if they share one that never collided. */
  lemma {:induction false} ClearingHides(h: Hashing, b: FilterBits, x: U64, y: U64)
    requires RightSize(h, b) && Reported(h, b, x)
    ensures !Reported(h, ClearedUpTo(h, b, y, h.count), x) <==> ShareAlone(h, b, x, y)
  {
    hide ClearedUpTo, HitCount;
    var after := ClearedUpTo(h, b, y, h.count);
    forall i: nat | i < h.count
      ensures after.slots[h.Slot(i, x)] <==>
              b.collisions[h.Slot(i, x)] || HitCount(h, y, h.Slot(i, x), h.count) == 0
    {
      ClearedExactly(h, b, y, h.count, h.Slot(i, x));
    }
  }

  /** `x` has a slot that also belongs to `y`, and that was never crowded. */
  ghost predicate ShareUncrowded(h: Hashing, ops: seq<Op>, x: U64, y: U64)
    requires h.size > 0
  {
    exists i: nat, j: nat ::
      i < h.count && j < h.count && h.Slot(i, x) == h.Slot(j, y) && !WasCrowded(h, ops, h.Slot(i, x))
  }

  /** In general: after any matched run that left `x` in, removing `y` hides `x` exactly if they share a slot that was
      never crowded. */
  lemma {:induction false} RemovalHides(h: Hashing, ops: seq<Op>, x: U64, y: U64)
    requires h.size > 0 && Matched(ops) && x in Remaining(ops)
    ensures !Reported(h, BitsAfter(h, ops + [Remove(y)]), x) <==> ShareUncrowded(h, ops, x, y)
  {
    hide Remaining, Matched, ClearedUpTo, HitCount, Reported, WasCrowded;
    assert (ops + [Remove(y)])[..|ops|] == ops;
    RemainingIsReported(h, ops, x);
    ClearingHides(h, BitsAfter(h, ops), x, y);
    forall i: nat | i < h.count
      ensures BitsAfter(h, ops).collisions[h.Slot(i, x)] <==> WasCrowded(h, ops, h.Slot(i, x))
      ensures HitCount(h, y, h.Slot(i, x), h.count) >= 1 <==>
              exists j: nat :: j < h.count && h.Slot(j, y) == h.Slot(i, x)
    {
      CollidedExactly(h, ops, h.Slot(i, x));
      HitMeansSlot(h, y, h.Slot(i, x), h.count);
    }
  }

  /** With one slot and one function that is always so. */
  lemma {:induction false} OneSlotLosesAValue(h: Hashing, x: U64, y: U64)
    requires h.size == 1 && h.count == 1 && x != y
    ensures !Reported(h, BitsAfter(h, [Insert(x), Remove(y)]), x)
  {
    UnmatchedRemovalLosesAValue(h, x, y);
    assert HitCount(h, x, 0, 0) == 0 && HitCount(h, y, 0, 0) == 0;
    assert h.Slot(0, x) == 0 && h.Slot(0, y) == 0;
    assert Exposed(h, x, y, 0);
  }

  // ----- runs in pieces ----------------------------------------------------------------------

  /** After `ops`, every removal among `more` takes out a value that is in. */
  predicate StaysMatched(ops: seq<Op>, more: seq<Op>) {
    more != [] ==>
      && StaysMatched(ops, more[..|more| - 1])
      && (more[|more| - 1].Remove? ==> more[|more| - 1].value in Remaining(ops + more[..|more| - 1]))
  }

  lemma {:induction false} OneMoreOp(ops: seq<Op>, op: Op)
    ensures Remaining(ops + [op]) == match op
                                     case Insert(value) => Remaining(ops) + multiset{value}
                                     case Remove(value) => Remaining(ops) - multiset{value}
    ensures Matched(ops + [op]) <==> Matched(ops) && (op.Remove? ==> op.value in Remaining(ops))
  {
    assert (ops + [op])[..|ops|] == ops;
  }

  /** The count of one value after one more operation. */
  lemma {:induction false} OneMoreCount(ops: seq<Op>, op: Op, r: U64)
    ensures Remaining(ops + [op])[r] ==
            if op.value != r then Remaining(ops)[r]
            else if op.Insert? then Remaining(ops)[r] + 1
            else if Remaining(ops)[r] > 0 then Remaining(ops)[r] - 1 else 0
  {
    hide Remaining, Matched;
    OneMoreOp(ops, op);
  }

  /** A run matches exactly if its first part does and its second part goes on so. */
  lemma {:induction false} MatchedBoth(ops: seq<Op>, more: seq<Op>)
    ensures Matched(ops + more) <==> Matched(ops) && StaysMatched(ops, more)
    decreases |more|
  {
    if more == [] {
      assert ops + more == ops;
    } else {
      var front, last := more[..|more| - 1], more[|more| - 1];
      MatchedBoth(ops, front);
      assert ops + more == (ops + front) + [last];
      OneMoreOp(ops + front, last);
    }
  }

  /** A collision bit never goes back. */
  lemma {:induction false} CollisionsStay(h: Hashing, b: FilterBits, value: U64, n: nat, v: nat)
    requires RightSize(h, b) && v < h.size && b.collisions[v]
    ensures MarkedUpTo(h, b, value, n).collisions[v] && ClearedUpTo(h, b, value, n).collisions[v]
  {
    if n > 0 { CollisionsStay(h, b, value, n - 1, v); }
  }

  // ----- the filter --------------------------------------------------------------------------

  class DeletableBloomFilter {
    const h: Hashing
    const slots: array<bool>
    const collisions: array<bool>
    /** Everything done to the filter. */
    ghost var ops: seq<Op>

    ghost predicate Valid()
      reads this, slots, collisions
    {
      && slots != collisions
      && h.size > 0 && slots.Length == h.size && collisions.Length == h.size
      && State() == BitsAfter(h, ops)
    }

    ghost function State(): FilterBits
      reads slots, collisions
    {
      FilterBits(slots[..], collisions[..])
    }

    constructor (hashing: Hashing)
      requires hashing.size > 0
      ensures Valid() && h == hashing && ops == [] && fresh(slots) && fresh(collisions)
    {
      h := hashing;
      slots := new bool[hashing.size](_ => false);
      collisions := new bool[hashing.size](_ => false);
      ops := [];
      new;
      assert slots[..] == seq(h.size, _ => false);
      assert collisions[..] == seq(h.size, _ => false);
    }

    method Insert(value: U64)
      requires Valid()
      modifies this, slots, collisions
      ensures Valid() && ops == old(ops) + [Op.Insert(value)]
    {
      ghost var before := State();
      var i := 0;
      while i < h.count
        invariant 0 <= i <= h.count
        invariant slots != collisions && slots.Length == h.size && collisions.Length == h.size
        invariant State() == MarkedUpTo(h, before, value, i)
        invariant ops == old(ops)
      {
        var v := h.Slot(i, value);
        if slots[v] { collisions[v] := true; } else { slots[v] := true; }
        i := i + 1;
      }
      ops := ops + [Op.Insert(value)];
      assert ops[..|ops| - 1] == old(ops);
    }

    method Remove(value: U64)
      requires Valid()
      modifies this, slots
      ensures Valid() && ops == old(ops) + [Op.Remove(value)]
    {
      ghost var before := State();
      var i := 0;
      while i < h.count
        invariant 0 <= i <= h.count
        invariant slots != collisions && slots.Length == h.size && collisions.Length == h.size
        invariant State() == ClearedUpTo(h, before, value, i)
        invariant ops == old(ops)
      {
        var v := h.Slot(i, value);
        if !collisions[v] { slots[v] := false; }
        i := i + 1;
      }
      ops := ops + [Op.Remove(value)];
      assert ops[..|ops| - 1] == old(ops);
    }

    /** Counts the slots that are set; all of them must be. */
    method Query(value: U64) returns (found: bool)
      requires Valid()
      ensures found == Reported(h, State(), value)
      ensures Matched(ops) && value in Remaining(ops) ==> found
    {
      var num, i := 0, 0;
      while i < h.count
        invariant 0 <= num <= i <= h.count
        invariant num == i <==> forall j | 0 <= j < i :: slots[h.Slot(j, value)]
      {
        if slots[h.Slot(i, value)] { num := num + 1; }
        i := i + 1;
      }
      found := num == h.count;
      if Matched(ops) && value in Remaining(ops) {
        RemainingIsReported(h, ops, value);
      }
    }
  }
}
