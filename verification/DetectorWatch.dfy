/** What the detector knows of the cached fingerprints, and when the removals it is told of match. */
module DetectorWatch {
  import BloomFilters
  import opened CachePolicies
  import opened Cachelines
  import opened Sets
  import opened Stores
  import opened StoreRuns

  // ----- what it is told ---------------------------------------------------------------------

  /** The detector was told of every fingerprint that was forgotten, once, in some order. */
  ghost predicate Forgotten(before: map<Fp, FpData>, after: map<Fp, FpData>, ops: seq<BloomFilters.Op>,
                            ops': seq<BloomFilters.Op>) {
    exists order: seq<Fp> :: ForgottenAs(before, after, order) && ops' == ops + Removals(before, order)
  }

  ghost predicate ForgottenAs(before: map<Fp, FpData>, after: map<Fp, FpData>, order: seq<Fp>) {
    NoRepeats(order) && forall fp: Fp :: fp in order <==> fp in before && fp !in after
  }

  function Removals(before: map<Fp, FpData>, order: seq<Fp>): (ops: seq<BloomFilters.Op>)
  {
    if order == [] then []
    else
      var last := order[|order| - 1];
      Removals(before, order[..|order| - 1]) + if last in before then [BloomFilters.Remove(before[last].rawFp)] else []
  }

  lemma {:induction false} NothingForgotten(index: map<Fp, FpData>, ops: seq<BloomFilters.Op>)
    ensures Forgotten(index, index, ops, ops)
  {
    var order: seq<Fp> := [];
    assert ForgottenAs(index, index, order) && ops == ops + Removals(index, order);
  }

  lemma {:induction false} ForgottenOneMore(before: map<Fp, FpData>, after: map<Fp, FpData>, ops: seq<BloomFilters.Op>,
                                            ops': seq<BloomFilters.Op>, fp: Fp)
    requires Forgotten(before, after, ops, ops') && fp in after && fp in before
    ensures Forgotten(before, after - {fp}, ops, ops' + [BloomFilters.Remove(before[fp].rawFp)])
  {
    var order: seq<Fp> :| ForgottenAs(before, after, order) && ops' == ops + Removals(before, order);
    var more := order + [fp];
    assert more[..|order|] == order && fp !in order;
    assert ForgottenAs(before, after - {fp}, more);
    var op := BloomFilters.Remove(before[fp].rawFp);
    assert ops' + [op] == ops + (Removals(before, order) + [op]) == ops + Removals(before, more);
  }

  lemma {:induction false} ForgottenSameKeys(before: map<Fp, FpData>, after: map<Fp, FpData>, after': map<Fp, FpData>,
                                             ops: seq<BloomFilters.Op>, ops': seq<BloomFilters.Op>)
    requires Forgotten(before, after, ops, ops') && after.Keys == after'.Keys
    ensures Forgotten(before, after', ops, ops')
  {
    hide Removals;
    var order: seq<Fp> :| ForgottenAs(before, after, order) && ops' == ops + Removals(before, order);
    assert forall fp: Fp :: fp in after <==> fp in after';
    assert ForgottenAs(before, after', order);
  }

  function Insertions(blocks: seq<DataBlock>): (ops: seq<BloomFilters.Op>)
    ensures |ops| == |blocks| && forall i | 0 <= i < |blocks| :: ops[i] == BloomFilters.Insert(blocks[i].rawFp)
  {
    seq(|blocks|, i requires 0 <= i < |blocks| => BloomFilters.Insert(blocks[i].rawFp))
  }

  // ----- how often a raw fingerprint is cached, dropped, inserted ----------------------------

  function Under(index: map<Fp, FpData>, r: Fp): set<Fp> {
    set fp | fp in index && index[fp].rawFp == r
  }

  /** The entries with raw fingerprint `r` that were forgotten. */
  function Dropped(before: map<Fp, FpData>, after: map<Fp, FpData>, r: Fp): set<Fp> {
    set fp | fp in before && fp !in after && before[fp].rawFp == r
  }

  /** How many of the removals are of `r`. */
  function Times(before: map<Fp, FpData>, order: seq<Fp>, r: Fp): nat {
    if order == [] then 0
    else
      var last := order[|order| - 1];
      Times(before, order[..|order| - 1], r) + if last in before && before[last].rawFp == r then 1 else 0
  }

  function TimesInBatch(blocks: seq<DataBlock>, r: Fp): nat {
    if blocks == [] then 0
    else TimesInBatch(blocks[..|blocks| - 1], r) + if blocks[|blocks| - 1].rawFp == r then 1 else 0
  }

  function Less(have: nat, less: nat): nat {
    if less <= have then have - less else 0
  }

  lemma {:induction false} OneMoreRemoval(before: map<Fp, FpData>, front: seq<Fp>, last: Fp)
    ensures Removals(before, front + [last]) ==
            Removals(before, front) + if last in before then [BloomFilters.Remove(before[last].rawFp)] else []
    ensures forall r: Fp :: Times(before, front + [last], r) ==
                            Times(before, front, r) + if last in before && before[last].rawFp == r then 1 else 0
  {
    assert (front + [last])[..|front|] == front;
  }

  lemma {:induction false} OneMoreTime(before: map<Fp, FpData>, order: seq<Fp>, r: Fp)
    requires order != []
    ensures var front, last := order[..|order| - 1], order[|order| - 1];
            && Times(before, order, r) ==
               Times(before, front, r) + (if last in before && before[last].rawFp == r then 1 else 0)
            && Removals(before, order) ==
               Removals(before, front) + (if last in before then [BloomFilters.Remove(before[last].rawFp)] else [])
  {
  }

  /** What remains after removals. */
  lemma {:induction false} RemainsAfter(ops: seq<BloomFilters.Op>, before: map<Fp, FpData>, order: seq<Fp>, r: Fp)
    ensures BloomFilters.Remaining(ops + Removals(before, order))[r] ==
            Less(BloomFilters.Remaining(ops)[r], Times(before, order, r))
    decreases |order|
  {
    if order == [] {
      assert ops + [] == ops;
    } else {
      hide Times, Removals, BloomFilters.Remaining;
      var front, last := order[..|order| - 1], order[|order| - 1];
      RemainsAfter(ops, before, front, r);
      OneMoreTime(before, order, r);
      var done := Removals(before, front);
      if last in before {
        var op := BloomFilters.Remove(before[last].rawFp);
        BloomFilters.OneMoreCount(ops + done, op, r);
        assert ops + (done + [op]) == (ops + done) + [op];
      } else {
        assert done + [] == done;
      }
    }
  }

  /** No raw fingerprint is removed more often than it is in. */
  ghost predicate Covered(ops: seq<BloomFilters.Op>, before: map<Fp, FpData>, order: seq<Fp>) {
    forall r: Fp :: Times(before, order, r) <= BloomFilters.Remaining(ops)[r]
  }

  /** When removals match. */
  lemma {:induction false} MatchIffCovered(ops: seq<BloomFilters.Op>, before: map<Fp, FpData>, order: seq<Fp>)
    ensures BloomFilters.StaysMatched(ops, Removals(before, order)) <==> Covered(ops, before, order)
    decreases |order|
  {
    if order != [] {
      hide Times, Removals, BloomFilters.Remaining, BloomFilters.StaysMatched;
      var front, last := order[..|order| - 1], order[|order| - 1];
      assert order == front + [last];
      MatchIffCovered(ops, before, front);
      OneMoreRemoval(before, front, last);
      if last in before {
        var r := before[last].rawFp;
        OneMoreStays(ops, Removals(before, front), r);
        RemainsAfter(ops, before, front, r);
        CoveredOneMore(ops, before, front, order, r);
      } else {
        assert Removals(before, front) + [] == Removals(before, front);
        assert forall q: Fp :: Times(before, order, q) == Times(before, front, q);
      }
    }
  }

  lemma {:induction false} CoveredOneMore(ops: seq<BloomFilters.Op>, before: map<Fp, FpData>, front: seq<Fp>,
                                          order: seq<Fp>, r: Fp)
    requires forall q: Fp :: Times(before, order, q) == Times(before, front, q) + if q == r then 1 else 0
    ensures Covered(ops, before, order) <==>
            Covered(ops, before, front) && Times(before, front, r) < BloomFilters.Remaining(ops)[r]
  {
    hide Times, BloomFilters.Remaining;
    if Covered(ops, before, order) {
      assert Times(before, order, r) <= BloomFilters.Remaining(ops)[r];
      forall q: Fp ensures Times(before, front, q) <= BloomFilters.Remaining(ops)[q] {
        assert Times(before, order, q) <= BloomFilters.Remaining(ops)[q];
      }
    }
    if Covered(ops, before, front) && Times(before, front, r) < BloomFilters.Remaining(ops)[r] {
      forall q: Fp ensures Times(before, order, q) <= BloomFilters.Remaining(ops)[q] {
        assert Times(before, front, q) <= BloomFilters.Remaining(ops)[q];
      }
    }
  }

  lemma {:induction false} OneMoreStays(ops: seq<BloomFilters.Op>, done: seq<BloomFilters.Op>, r: Fp)
    ensures BloomFilters.StaysMatched(ops, done + [BloomFilters.Remove(r)]) <==>
            BloomFilters.StaysMatched(ops, done) && r in BloomFilters.Remaining(ops + done)
  {
    assert (done + [BloomFilters.Remove(r)])[..|done|] == done;
  }

  /** The listed entries with raw fingerprint `r`. */
  function Listed(before: map<Fp, FpData>, order: seq<Fp>, r: Fp): set<Fp> {
    set fp | fp in order && fp in before && before[fp].rawFp == r
  }

  lemma {:induction false} TimesIsCount(before: map<Fp, FpData>, order: seq<Fp>, r: Fp)
    requires NoRepeats(order)
    ensures Times(before, order, r) == |Listed(before, order, r)|
    decreases |order|
  {
    if order == [] {
      assert Listed(before, order, r) == {};
    } else {
      var front, last := order[..|order| - 1], order[|order| - 1];
      assert order == front + [last];
      LastIsNew(order);
      TimesIsCount(before, front, r);
      hide NoRepeats;
      if last in before && before[last].rawFp == r {
        assert Listed(before, order, r) == Listed(before, front, r) + {last};
        assert last !in Listed(before, front, r);
      } else {
        assert Listed(before, order, r) == Listed(before, front, r);
      }
    }
  }

  lemma {:induction false} LastIsNew(order: seq<Fp>)
    requires NoRepeats(order) && order != []
    ensures NoRepeats(order[..|order| - 1]) && order[|order| - 1] !in order[..|order| - 1]
  {
  }

  lemma {:induction false} TimesIsDropped(before: map<Fp, FpData>, after: map<Fp, FpData>, order: seq<Fp>, r: Fp)
    requires ForgottenAs(before, after, order)
    ensures Times(before, order, r) == |Dropped(before, after, r)|
  {
    TimesIsCount(before, order, r);
    assert Dropped(before, after, r) == Listed(before, order, r);
  }

  // ----- the invariant -----------------------------------------------------------------------

  /** No raw fingerprint is cached more often than it remains in the detector; `all` includes fingerprint 0, which
      blocks get when they move. */
  ghost predicate Watched(index: map<Fp, FpData>, ops: seq<BloomFilters.Op>, all: bool) {
    forall r: Fp | all || r != 0 :: |Under(index, r)| <= BloomFilters.Remaining(ops)[r]
  }

  /** Entries were forgotten or kept; if not `all`, some of those kept may have lost their raw fingerprint. */
  ghost predicate Thinned(before: map<Fp, FpData>, after: map<Fp, FpData>, all: bool) {
    forall fp | fp in after ::
      fp in before && (after[fp].rawFp == before[fp].rawFp || (!all && after[fp].rawFp == 0))
  }

  lemma {:induction false} FewerUnder(before: map<Fp, FpData>, after: map<Fp, FpData>, all: bool, r: Fp)
    requires Thinned(before, after, all) && (all || r != 0)
    ensures |Under(after, r)| + |Dropped(before, after, r)| <= |Under(before, r)|
  {
    var both := Under(after, r) + Dropped(before, after, r);
    assert Under(after, r) !! Dropped(before, after, r) && both <= Under(before, r);
    SubsetSize(both, Under(before, r));
  }

  /** Forgetting keeps the watch. The removals all match exactly if those of fingerprint 0 do not outnumber the zeros
      that remain; with 0 under watch they always do. */
  lemma {:induction false} ForgettingKeepsWatch(before: map<Fp, FpData>, after: map<Fp, FpData>,
                                                ops: seq<BloomFilters.Op>, ops': seq<BloomFilters.Op>, all: bool)
    requires Watched(before, ops, all) && Forgotten(before, after, ops, ops') && Thinned(before, after, all)
    ensures Watched(after, ops', all) && ops <= ops'
    ensures BloomFilters.StaysMatched(ops, ops'[|ops|..]) <==>
            |Dropped(before, after, 0)| <= BloomFilters.Remaining(ops)[0]
    ensures all ==> BloomFilters.StaysMatched(ops, ops'[|ops|..])
  {
    hide ForgottenAs, Thinned, Removals, Under, Dropped, Times, BloomFilters.Remaining, BloomFilters.StaysMatched;
    var order: seq<Fp> :| ForgottenAs(before, after, order) && ops' == ops + Removals(before, order);
    MatchIffCovered(ops, before, order);
    assert ops'[|ops|..] == Removals(before, order);
    forall r: Fp
      ensures Times(before, order, r) == |Dropped(before, after, r)|
      ensures BloomFilters.Remaining(ops')[r] == Less(BloomFilters.Remaining(ops)[r], Times(before, order, r))
      ensures all || r != 0 ==> |Under(after, r)| + |Dropped(before, after, r)| <= |Under(before, r)|
    {
      TimesIsDropped(before, after, order, r);
      RemainsAfter(ops, before, order, r);
      if all || r != 0 { FewerUnder(before, after, all, r); }
    }
  }

  /** A forgotten fingerprint is removed by the raw fingerprint its entry had. */
  lemma {:induction false} ForgottenIsRemoved(before: map<Fp, FpData>, after: map<Fp, FpData>,
                                              ops: seq<BloomFilters.Op>, ops': seq<BloomFilters.Op>, fp: Fp)
    requires Forgotten(before, after, ops, ops') && fp in before && fp !in after
    ensures ops <= ops' && BloomFilters.Remove(before[fp].rawFp) in ops'[|ops|..]
  {
    hide Removals;
    var order: seq<Fp> :| ForgottenAs(before, after, order) && ops' == ops + Removals(before, order);
    var i :| 0 <= i < |order| && order[i] == fp;
    RemovalIsIn(before, order, i);
    assert ops'[|ops|..] == Removals(before, order);
  }

  lemma {:induction false} RemovalIsIn(before: map<Fp, FpData>, order: seq<Fp>, i: nat)
    requires i < |order| && order[i] in before
    ensures BloomFilters.Remove(before[order[i]].rawFp) in Removals(before, order)
    decreases |order|
  {
    if i < |order| - 1 {
      RemovalIsIn(before, order[..|order| - 1], i);
    }
  }

  // ----- evictions ---------------------------------------------------------------------------

  /** An eviction forgets entries, and clears the raw fingerprint of those it moves; without referrers none moves. */
  lemma {:induction false} EvictionThins(s: Store, n: nat, v: Id, s': Store, all: bool)
    requires Inv(s, n) && EvictStep(s, v, s', n)
    requires all ==> forall fp: Fp :: Users(s, v, fp) == {}
    ensures Thinned(s.fpIndex, s'.fpIndex, all)
  {
    hide Inv, EvictStep, Users, IsHead, HasStored;
    EvictedKeys(s, n, v, s');
    forall fp | fp in s'.fpIndex
      ensures fp in s.fpIndex
      ensures s'.fpIndex[fp].rawFp == s.fpIndex[fp].rawFp || (!all && s'.fpIndex[fp].rawFp == 0)
    {
      EvictedFp(s, n, v, s', fp);
      ExactSurvival(s, n, v, s', fp);
    }
  }

  /** The fingerprints an eviction of `v` will forget under `r`, as known before: they lead to `v`, and nobody uses
      them. */
  ghost function Doomed(s: Store, v: Id, r: Fp): set<Fp> {
    set fp | fp in s.fpIndex && s.fpIndex[fp].addr == v && s.fpIndex[fp].rawFp == r && Users(s, v, fp) == {}
  }

  lemma {:induction false} DroppedAreDoomed(s: Store, n: nat, v: Id, s': Store, r: Fp)
    requires Inv(s, n) && EvictStep(s, v, s', n)
    ensures Dropped(s.fpIndex, s'.fpIndex, r) == Doomed(s, v, r)
  {
    hide Inv, EvictStep, Users, HasStored;
    forall fp: Fp ensures fp in Dropped(s.fpIndex, s'.fpIndex, r) <==> fp in Doomed(s, v, r) {
      ExactSurvival(s, n, v, s', fp);
      if fp in s.fpIndex { IndexedFp(s, n, fp); }
      if HasStored(s.lines[v].infos, fp) { IndexedLine(s, n, v, fp); }
    }
  }

  /** What an eviction keeps. Its removals all match exactly if the entries of fingerprint 0 that lead to the victim and
      have no user do not outnumber the zeros that remain; those of a line without users always do. */
  lemma {:induction false} EvictionKeepsWatch(s: Store, n: nat, v: Id, s': Store, ops: seq<BloomFilters.Op>,
                                              ops': seq<BloomFilters.Op>, all: bool)
    requires Inv(s, n) && EvictStep(s, v, s', n) && Forgotten(s.fpIndex, s'.fpIndex, ops, ops')
    requires all ==> forall fp: Fp :: Users(s, v, fp) == {}
    requires Watched(s.fpIndex, ops, all)
    ensures Watched(s'.fpIndex, ops', all) && ops <= ops'
    ensures BloomFilters.StaysMatched(ops, ops'[|ops|..]) <==>
            |Doomed(s, v, 0)| <= BloomFilters.Remaining(ops)[0]
    ensures all ==> (BloomFilters.Matched(ops') <==> BloomFilters.Matched(ops))
  {
    hide Inv, EvictStep, Users, Forgotten, Watched, Thinned, BloomFilters.StaysMatched, BloomFilters.Matched,
         BloomFilters.Remaining, Dropped, Doomed;
    EvictionThins(s, n, v, s', all);
    DroppedAreDoomed(s, n, v, s', 0);
    ForgettingKeepsWatch(s.fpIndex, s'.fpIndex, ops, ops', all);
    assert ops' == ops + ops'[|ops|..];
    BloomFilters.MatchedBoth(ops, ops'[|ops|..]);
  }

  /** Why fingerprint 0 is a case of its own: a block that moved in one eviction and is forgotten in a later one is
      removed from the detector as 0. Unless 0 is in, that removal does not match. */
  lemma {:induction false} MovedThenForgotten(s: Store, n: nat, v: Id, s1: Store, u: Id, s2: Store, fp: Fp,
                                              ops: seq<BloomFilters.Op>, ops': seq<BloomFilters.Op>)
    requires Inv(s, n) && EvictStep(s, v, s1, n) && Users(s, v, fp) != {}
    requires Inv(s1, n) && EvictStep(s1, u, s2, n) && fp !in s2.fpIndex
    requires Forgotten(s1.fpIndex, s2.fpIndex, ops, ops')
    ensures fp in s1.fpIndex && s1.fpIndex[fp].rawFp == 0
    ensures ops <= ops' && BloomFilters.Remove(0) in ops'[|ops|..]
    ensures 0 !in BloomFilters.Remaining(ops) ==> !BloomFilters.Matched(ops')
  {
    hide Inv, EvictStep, Users, IsHead, Forgotten, BloomFilters.Remaining, BloomFilters.Matched,
         BloomFilters.StaysMatched;
    EvictedKeys(s, n, v, s1);
    EvictedFp(s, n, v, s1, fp);
    ForgottenIsRemoved(s1.fpIndex, s2.fpIndex, ops, ops', fp);
    var more := ops'[|ops|..];
    assert ops' == ops + more;
    BloomFilters.MatchedBoth(ops, more);
    if 0 !in BloomFilters.Remaining(ops) { OnlyRemovals(s1.fpIndex, s2.fpIndex, ops, ops', fp); }
  }

  lemma {:induction false} OnlyRemovals(before: map<Fp, FpData>, after: map<Fp, FpData>, ops: seq<BloomFilters.Op>,
                                        ops': seq<BloomFilters.Op>, fp: Fp)
    requires Forgotten(before, after, ops, ops') && fp in before && fp !in after
    requires before[fp].rawFp !in BloomFilters.Remaining(ops)
    ensures ops <= ops' && !BloomFilters.StaysMatched(ops, ops'[|ops|..])
  {
    hide Removals, Times, BloomFilters.Remaining, BloomFilters.StaysMatched;
    var order: seq<Fp> :| ForgottenAs(before, after, order) && ops' == ops + Removals(before, order);
    var r := before[fp].rawFp;
    MatchIffCovered(ops, before, order);
    TimesIsDropped(before, after, order, r);
    assert fp in Dropped(before, after, r);
    assert Times(before, order, r) > 0;
    assert ops'[|ops|..] == Removals(before, order);
  }

  // ----- flushes -----------------------------------------------------------------------------

  lemma {:induction false} AfterInsertions(ops: seq<BloomFilters.Op>, blocks: seq<DataBlock>)
    ensures forall r: Fp :: BloomFilters.Remaining(ops + Insertions(blocks))[r] ==
                            BloomFilters.Remaining(ops)[r] + TimesInBatch(blocks, r)
    ensures BloomFilters.Matched(ops + Insertions(blocks)) <==> BloomFilters.Matched(ops)
    decreases |blocks|
  {
    if blocks == [] {
      assert ops + Insertions(blocks) == ops;
    } else {
      var front, last := blocks[..|blocks| - 1], blocks[|blocks| - 1];
      AfterInsertions(ops, front);
      var op := BloomFilters.Insert(last.rawFp);
      assert ops + Insertions(blocks) == (ops + Insertions(front)) + [op];
      BloomFilters.OneMoreOp(ops + Insertions(front), op);
    }
  }

  lemma {:induction false} EnteredUnder(index: map<Fp, FpData>, blocks: seq<DataBlock>, id: Id, r: Fp)
    ensures |Under(EnterFresh(index, blocks, id), r)| <= |Under(index, r)| + TimesInBatch(blocks, r)
    decreases |blocks|
  {
    if blocks != [] {
      var front, b := blocks[..|blocks| - 1], blocks[|blocks| - 1];
      EnteredUnder(index, front, id, r);
      var before := EnterFresh(index, front, id);
      if !b.compDuplicated {
        var after := before[b.compFp := FpData(id, b.rawFp)];
        var more := Under(before, r) + if b.rawFp == r then {b.compFp} else {};
        assert Under(after, r) <= more;
        SubsetSize(Under(after, r), more);
      }
    }
  }

  /** Entering a batch whose raw fingerprints were inserted keeps the watch. */
  lemma {:induction false} FlushKeepsWatch(index: map<Fp, FpData>, ops: seq<BloomFilters.Op>, told: seq<DataBlock>,
                                           blocks: seq<DataBlock>, id: Id, all: bool)
    requires Watched(index, ops, all) && |told| == |blocks|
    requires forall i | 0 <= i < |blocks| :: told[i].rawFp == blocks[i].rawFp
    ensures Watched(EnterFresh(index, blocks, id), ops + Insertions(told), all)
  {
    hide Under, BloomFilters.Remaining, EnterFresh, Insertions, TimesInBatch;
    AfterInsertions(ops, told);
    forall r: Fp
      ensures |Under(EnterFresh(index, blocks, id), r)| <= |Under(index, r)| + TimesInBatch(blocks, r)
      ensures TimesInBatch(told, r) == TimesInBatch(blocks, r)
    {
      EnteredUnder(index, blocks, id, r);
      SameTimes(told, blocks, r);
    }
  }

  lemma {:induction false} SameTimes(a: seq<DataBlock>, b: seq<DataBlock>, r: Fp)
    requires |a| == |b| && forall i | 0 <= i < |a| :: a[i].rawFp == b[i].rawFp
    ensures TimesInBatch(a, r) == TimesInBatch(b, r)
    decreases |a|
  {
    if a != [] { SameTimes(a[..|a| - 1], b[..|b| - 1], r); }
  }
}
