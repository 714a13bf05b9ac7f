/** When the rewrites of an eviction find enough pages: what they cost, and bounds a caller can read off the index. */
module EvictionCosts {
  import opened Bits
  import opened Cachelines
  import opened EvictionPlans
  import opened Evictions
  import opened PageManagers
  import opened PageOwnership
  import opened Pages
  import opened Sets
  import opened Stores

  /** The pages evicting `v` costs the survivors. */
  ghost function CostOf(s: Store, n: nat, pg: nat, v: Id): nat {
    if s.lines.Keys == s.meta.Keys && v in s.lines && pg > 0 then EvictionCost(s, n, pg, v) else 0
  }

  /** Evicting `v` would need more pages than are free without it. */
  ghost predicate TooCostly(s: Store, n: nat, pg: nat, size: nat, v: Id) {
    v in s.meta && CostOf(s, n, pg, v) > |FreePages(s.meta, size)| + |s.meta[v].pages|
  }

  /** A sufficient condition for an eviction: whole pages for every block that moves. */
  lemma {:induction false} NotTooCostly(s: Store, n: nat, pg: nat, size: nat, v: Id)
    requires Inv(s, n) && s.lines.Keys == s.meta.Keys && v in s.lines && pg > 0
    requires PageSum(StoredSizes(s.lines[v]), pg, HeadFpsOf(s, v, s.lines.Keys - {v})) <=
             |FreePages(s.meta, size)| + |s.meta[v].pages|
    ensures !TooCostly(s, n, pg, size, v)
  {
    hide Inv, PageSum, StoredSizes, HeadFpsOf, FreePages, TotalGrowth;
    GrowthBound(s, n, pg, v, s.lines.Keys - {v});
  }

  // ----- one page less -----------------------------------------------------------------------

  /** Rounding up two parts apart costs at most one page more than rounding up the whole. */
  lemma {:induction false} PagesForSplit(a: nat, b: nat, pg: nat)
    requires pg > 0
    ensures PagesFor(a, pg) + PagesFor(b, pg) <= PagesFor(a + b, pg) + 1
  {
    hide PagesFor;
    var x, y, z := PagesFor(a, pg), PagesFor(b, pg), PagesFor(a + b, pg);
    PagesForBoth(a, b, pg);
    PagesForBoth(b, a, pg);
    if x > 0 && y > 0 {
      PagesForLeast(a, pg, x - 1);
      PagesForLeast(b, pg, y - 1);
      assert (x - 1) * pg + (y - 1) * pg == (x + y - 2) * pg;
      PagesForLeast(a + b, pg, x + y - 2);
    }
  }

  lemma {:induction false} SumUnion(size: map<Fp, nat>, a: set<Fp>, b: set<Fp>)
    requires a !! b
    ensures Sum(size, a + b) == Sum(size, a) + Sum(size, b)
    decreases a
  {
    if a == {} {
      assert a + b == b;
    } else {
      var fp :| fp in a;
      SumTakes(size, a, fp);
      SumTakes(size, a + b, fp);
      assert (a + b) - {fp} == (a - {fp}) + b;
      SumUnion(size, a - {fp}, b);
    }
  }

  /** Every fingerprint has a slot of its own that holds as many bytes. */
  ghost predicate OwnSlots(size: map<Fp, nat>, fps: set<Fp>, pos: map<Fp, nat>, data: seq<seq<Byte>>) {
    && (forall fp | fp in fps :: fp in pos && pos[fp] < |data| && SizeUnder(size, fp) == |data[pos[fp]]|)
    && (forall a, b | a in fps && b in fps && pos[a] == pos[b] :: a == b)
  }

  lemma {:induction false} SumInTotal(size: map<Fp, nat>, fps: set<Fp>, pos: map<Fp, nat>, data: seq<seq<Byte>>)
    requires OwnSlots(size, fps, pos, data)
    ensures Sum(size, fps) <= Total(data)
    decreases |data|
  {
    hide SizeUnder;
    if data == [] {
      assert fps == {};
    } else {
      var front := data[..|data| - 1];
      if fp :| fp in fps && pos[fp] == |front| {
        SumTakes(size, fps, fp);
        SumInTotal(size, fps - {fp}, pos, front);
      } else {
        SumInTotal(size, fps, pos, front);
      }
    }
  }

  /** Where a line keeps what it stores under a fingerprint. */
  ghost function SlotFor(line: Cacheline, fp: Fp): (slot: nat)
    requires HasStored(line.infos, fp)
    ensures exists i :: 0 <= i < |line.infos| && line.infos[i].kind == STORED && line.infos[i].compFp == fp &&
                        line.infos[i].posIndex == slot && StoredBytes(line, fp) == SlotData(line, line.infos[i])
  {
    var i :| 0 <= i < |line.infos| && line.infos[i].kind == STORED && line.infos[i].compFp == fp &&
             StoredBytes(line, fp) == SlotData(line, line.infos[i]);
    line.infos[i].posIndex
  }

  /** A line holds all it stores under some of its fingerprints. */
  lemma {:induction false} StoredInTotal(line: Cacheline, n: nat, fps: set<Fp>)
    requires WellFormed(line, n) && forall fp | fp in fps :: HasStored(line.infos, fp)
    ensures Sum(StoredSizes(line), fps) <= Total(line.data)
  {
    hide HasStored, Sum, Total, StoredBytes, WellLaidOut, GroupsAgree, Coherent, SlotFor, SizeUnder;
    var pos := map fp | fp in fps :: SlotFor(line, fp);
    forall fp | fp in fps
      ensures pos[fp] < |line.data| && SizeUnder(StoredSizes(line), fp) == |line.data[pos[fp]]|
    {
      var i :| 0 <= i < |line.infos| && line.infos[i].kind == STORED && line.infos[i].compFp == fp &&
               line.infos[i].posIndex == pos[fp] && StoredBytes(line, fp) == SlotData(line, line.infos[i]);
      InfoIsGood(line, n, i);
    }
    forall a, b | a in fps && b in fps && pos[a] == pos[b] ensures a == b {
      var i :| 0 <= i < |line.infos| && line.infos[i].kind == STORED && line.infos[i].compFp == a &&
               line.infos[i].posIndex == pos[a] && StoredBytes(line, a) == SlotData(line, line.infos[i]);
      var j :| 0 <= j < |line.infos| && line.infos[j].kind == STORED && line.infos[j].compFp == b &&
               line.infos[j].posIndex == pos[b] && StoredBytes(line, b) == SlotData(line, line.infos[j]);
      OneOwner(line, n, i, j);
    }
    SumInTotal(StoredSizes(line), fps, pos, line.data);
  }

  lemma {:induction false} InfoIsGood(line: Cacheline, n: nat, i: nat)
    requires WellFormed(line, n) && i < |line.infos|
    ensures GoodInfo(line.infos[i], |line.data|)
  {
    hide SlotsMatch, GroupsAgree, Coherent;
  }

  lemma {:induction false} OneOwner(line: Cacheline, n: nat, i: nat, j: nat)
    requires WellFormed(line, n) && i < |line.infos| && j < |line.infos|
    requires line.infos[i].kind == STORED && line.infos[j].kind == STORED
    requires line.infos[i].posIndex == line.infos[j].posIndex
    ensures i == j
  {
    hide WellLaidOut, GroupsAgree, Coherent, GoodInfo;
  }

  // ----- the bound ---------------------------------------------------------------------------

  /** Lines together grow by what moves into them in whole pages, and by at most one page more for each but one. */
  lemma {:induction false} GrowthTogether(s: Store, n: nat, pg: nat, v: Id, us: set<Id>)
    requires Inv(s, n) && s.lines.Keys == s.meta.Keys && v in s.lines && us <= s.lines.Keys && pg > 0 && us != {}
    ensures TotalGrowth(s, n, pg, v, us) <= PagesFor(Sum(StoredSizes(s.lines[v]), HeadFpsOf(s, v, us)), pg) + |us| - 1
    decreases us
  {
    hide Inv, PagesFor, StoredSizes, HeadFps, HeadFpsOf, Growth, Sum, Total, MetadataLen;
    var u :| u in us;
    GrowthTakes(s, n, pg, v, us, u);
    GrowthOfLine(s, n, pg, v, u);
    var size := StoredSizes(s.lines[v]);
    HeadsSplit(s, n, v, us, u);
    SumUnion(size, HeadFps(s, v, u), HeadFpsOf(s, v, us - {u}));
    if us == {u} {
      NoTotalGrowth(s, n, pg, v);
      PagesForBoth(Sum(size, HeadFps(s, v, u)), Sum(size, HeadFpsOf(s, v, us - {u})), pg);
    } else {
      GrowthTogether(s, n, pg, v, us - {u});
      PagesForSplit(Sum(size, HeadFps(s, v, u)), Sum(size, HeadFpsOf(s, v, us - {u})), pg);
    }
  }

  lemma {:induction false} GrowthOfLine(s: Store, n: nat, pg: nat, v: Id, u: Id)
    requires s.lines.Keys == s.meta.Keys && v in s.lines && u in s.lines && pg > 0
    ensures Growth(s, n, pg, v, u) <= PagesFor(Sum(StoredSizes(s.lines[v]), HeadFps(s, v, u)), pg)
  {
    hide HeadFps, PagesFor, StoredSizes, Sum;
    PagesForBoth(MetadataLen(n) + Total(s.lines[u].data), MovedBytes(s, v, u), pg);
  }

  /** The lines that refer to `v` and are still there. */
  function LiveReferrers(s: Store, v: Id): set<Id>
    requires v in s.meta
  {
    set r | r in s.meta[v].refs && r in s.lines
  }

  /** The lines some block of `v` moves into. */
  ghost function HeadsOf(s: Store, v: Id): (heads: set<Id>)
    requires s.lines.Keys == s.meta.Keys && v in s.lines
    ensures forall u: Id :: u in heads <==> u in s.lines && u != v && HeadFps(s, v, u) != {}
  {
    set u | u in s.lines && u != v && HeadFps(s, v, u) != {}
  }

  lemma {:induction false} HeadsAreReferrers(s: Store, n: nat, v: Id)
    requires Inv(s, n) && s.lines.Keys == s.meta.Keys && v in s.lines
    ensures HeadsOf(s, v) <= LiveReferrers(s, v)
  {
    hide Inv, IsHead, Users;
    forall u | u in HeadsOf(s, v) ensures u in LiveReferrers(s, v) {
      var fp :| fp in HeadFps(s, v, u);
      HeadIsUser(s, v, fp, u);
      UserInRefs(s, n, v, fp, u);
    }
  }

  /** Evicting costs at most the victim's own pages and one more for every line but one that blocks move into. */
  lemma {:induction false} CostByHeads(s: Store, n: nat, pg: nat, v: Id)
    requires Inv(s, n) && s.lines.Keys == s.meta.Keys && v in s.lines && pg > 0
    ensures HeadsOf(s, v) == {} ==> EvictionCost(s, n, pg, v) == 0
    ensures HeadsOf(s, v) != {} ==>
              EvictionCost(s, n, pg, v) <=
              PagesFor(MetadataLen(n) + Total(s.lines[v].data), pg) + |HeadsOf(s, v)| - 1
  {
    hide Inv, PagesFor, StoredSizes, HeadFps, HeadFpsOf, Growth, Sum, Total, MetadataLen, IsHead, HasStored,
         TotalGrowth;
    var heads, all := HeadsOf(s, v), s.lines.Keys - {v};
    forall u, fp: Fp | u in all && u !in heads ensures !IsHead(s, v, fp, u) {
      assert fp !in HeadFps(s, v, u);
    }
    OnlyHeadsGrow(s, n, pg, v, all, heads);
    if heads == {} {
      NoTotalGrowth(s, n, pg, v);
    } else {
      GrowthTogether(s, n, pg, v, heads);
      var fps := HeadFpsOf(s, v, heads);
      forall fp | fp in fps ensures HasStored(s.lines[v].infos, fp) {
        var u :| u in heads && IsHead(s, v, fp, u);
        HeadIsUser(s, v, fp, u);
        UserOwner(s, n, v, fp, u);
      }
      LineIsGood(s, n, v);
      StoredInTotal(s.lines[v], n, fps);
      MorePages(Sum(StoredSizes(s.lines[v]), fps), MetadataLen(n) + Total(s.lines[v].data), pg);
    }
  }

  /** The guard a caller can read off the index: with at most one live referrer more than there are free pages an
      eviction succeeds. */
  lemma {:induction false} FewReferrersSuffice(s: Store, n: nat, pg: nat, size: nat, v: Id)
    requires Inv(s, n) && s.lines.Keys == s.meta.Keys && v in s.lines && pg > 0
    requires |s.meta[v].pages| == PagesFor(MetadataLen(n) + Total(s.lines[v].data), pg)
    requires |LiveReferrers(s, v)| <= |FreePages(s.meta, size)| + 1
    ensures !TooCostly(s, n, pg, size, v)
  {
    hide Inv, PagesFor, FreePages, EvictionCost, HeadsOf, Total;
    CostByHeads(s, n, pg, v);
    HeadsAreReferrers(s, n, v);
    SubsetSize(HeadsOf(s, v), LiveReferrers(s, v));
  }

  /** Evicting a line without referrers costs nothing. */
  lemma {:induction false} IdleIsFree(s: Store, n: nat, pg: nat, size: nat, v: Id)
    requires Inv(s, n) && s.lines.Keys == s.meta.Keys && v in s.lines && pg > 0 && s.meta[v].refs == {}
    ensures CostOf(s, n, pg, v) == 0 && !TooCostly(s, n, pg, size, v)
  {
    hide Inv, FreePages, EvictionCost, HeadsOf;
    CostByHeads(s, n, pg, v);
    HeadsAreReferrers(s, n, v);
    assert LiveReferrers(s, v) == {};
  }
}
