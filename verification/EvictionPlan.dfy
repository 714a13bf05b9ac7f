/** The command lists of an eviction, what they achieve, and how many pages they cost. */
module EvictionPlans {
  import opened Words
  import opened Cachelines
  import opened CachelineUpdates
  import opened CachelineLaws
  import opened Stores
  import opened Pages

  /** The first user appends the bytes; another user is sent to the first. */
  ghost predicate GoodCommand(s: Store, v: Id, u: Id, c: ModifyCommand)
    requires s.lines.Keys == s.meta.Keys && v in s.lines
  {
    && u in Users(s, v, c.fp)
    && match c
       case Append(fp, d) => IsHead(s, v, fp, u) && HasStored(s.lines[v].infos, fp) && d == StoredBytes(s.lines[v], fp)
       case ModifyRef(fp, t) => t != u && IsHead(s, v, fp, t)
  }

  /** The commands for line `u` once the fingerprints `done` are dealt with, in whatever order. */
  ghost predicate PlanFor(s: Store, v: Id, u: Id, commands: seq<ModifyCommand>, done: set<Fp>)
    requires s.lines.Keys == s.meta.Keys && v in s.lines
  {
    && (forall c | c in commands :: c.fp in done && GoodCommand(s, v, u, c))
    && (forall k, l | 0 <= k < l < |commands| :: commands[k].fp != commands[l].fp)
    && (forall fp: Fp | fp in done && u in Users(s, v, fp) :: Mentions(commands, fp))
  }

  /** All used fingerprints are dealt with. */
  ghost predicate AllUsed(s: Store, v: Id, done: set<Fp>) {
    forall fp: Fp | Users(s, v, fp) != {} :: fp in done
  }

  /** Every stored block is at most `max` bytes, and a full line of such blocks fits its 32-bit fields. */
  ghost predicate SmallStore(s: Store, n: nat, max: nat) {
    MetadataLen(n) + n * max < W32 && forall id | id in s.lines :: AllSmall(s.lines[id].data, max)
  }

  lemma {:induction false} SmallStored(s: Store, n: nat, max: nat, id: Id, fp: Fp)
    requires Inv(s, n) && SmallStore(s, n, max) && id in s.lines && HasStored(s.lines[id].infos, fp)
    ensures |StoredBytes(s.lines[id], fp)| <= max
  {
    hide Inv, StoredBytes;
    var i := StoredBytesWitness(s.lines[id], fp);
    assert AllSmall(s.lines[id].data, max);
    StoredInSlot(s, n, id, i);
  }

  lemma {:induction false} StoredInSlot(s: Store, n: nat, id: Id, i: nat)
    requires Inv(s, n) && id in s.lines && i < |s.lines[id].infos| && s.lines[id].infos[i].kind == STORED
    ensures SlotData(s.lines[id], s.lines[id].infos[i]) in s.lines[id].data
  {
    hide Indexed, GroupsAgree, SlotsMatch;
    assert GoodLine(s, id, n);
    assert GoodInfo(s.lines[id].infos[i], |s.lines[id].data|);
  }

  lemma {:induction false} UserHasRef(s: Store, v: Id, fp: Fp, u: Id)
    requires u in Users(s, v, fp)
    ensures u in s.lines && HasRef(s.lines[u].infos, fp)
  {
    var infos := s.lines[u].infos;
    var k :| 0 <= k < |infos| && infos[k].kind == REF && infos[k].compFp == fp && infos[k].external == v;
  }

  lemma {:induction false} HeadIsId(s: Store, n: nat, v: Id, fp: Fp, h: Id)
    requires Inv(s, n) && IsHead(s, v, fp, h)
    ensures h in s.lines && h != NONE64 && h != v
  {
    hide Inv;
    LastIdOf(s, n);
    HeadIsUser(s, v, fp, h);
    SurvivorId(s, n, h);
  }

  lemma {:induction false} MetaOf(s: Store, n: nat, u: Id)
    requires Inv(s, n) && u in s.lines
    ensures u in s.meta && s.meta[u].timeStamp == 0 && forall r | r in s.meta[u].refs :: u < r <= s.lastId
  {
    hide GoodLine, Indexed;
  }

  /** Planned commands are a command list the line can take. */
  lemma {:induction false} PlanRewrites(s: Store, n: nat, max: nat, v: Id, u: Id, commands: seq<ModifyCommand>,
                                        done: set<Fp>)
    requires Inv(s, n) && SmallStore(s, n, max) && v in s.lines && u in s.lines && PlanFor(s, v, u, commands, done)
    ensures Rewrites(s.lines[u], commands) && SmallCommands(commands, max)
  {
    hide Inv, SmallStore, HasRef, IsHead, Users, StoredBytes, HasStored, Mentions;
    LastIdOf(s, n);
    forall c | c in commands
      ensures HasRef(s.lines[u].infos, c.fp) && (c.ModifyRef? ==> c.newExternal != NONE64)
      ensures c.Append? ==> |c.data| <= max
    {
      assert GoodCommand(s, v, u, c);
      UserHasRef(s, v, c.fp, u);
      match c
      case Append(fp, d) => SmallStored(s, n, max, v, fp);
      case ModifyRef(fp, t) => HeadIsId(s, n, v, fp, t);
    }
  }

  lemma {:induction false} MentionedCommand(commands: seq<ModifyCommand>, fp: Fp) returns (c: ModifyCommand)
    requires Mentions(commands, fp)
    ensures c in commands && c.fp == fp
  {
    var k :| 0 <= k < |commands| && commands[k].fp == fp;
    c := commands[k];
  }

  /** Carrying out the commands for one block of line `u`. */
  lemma {:induction false} PlannedBlock(s: Store, n: nat, v: Id, u: Id, commands: seq<ModifyCommand>, done: set<Fp>,
                                        r: Cacheline, i: nat)
    requires Inv(s, n) && v in s.lines && u in s.lines && u != v
    requires PlanFor(s, v, u, commands, done) && AllUsed(s, v, done)
    requires i < |s.lines[u].infos| == |r.infos| && InfoAfter(s.lines[u], r, commands, i)
    ensures BlockEvicted(s, v, u, r, i)
  {
    hide Inv, IsHead, StoredBytes, Mentions, FirstAt;
    LastIdOf(s, n);
    var a, b := s.lines[u].infos[i], r.infos[i];
    var fp := a.compFp;
    if a.kind == REF && a.external == v {
      assert RefersTo(s.lines[u], fp, v);
      assert u in Users(s, v, fp);
      var c := MentionedCommand(commands, fp);
      assert GoodCommand(s, v, u, c);
      if c.ModifyRef? && IsHead(s, v, fp, u) {
        OneHead(s, n, v, fp, u, c.newExternal);
      }
    } else if Mentions(commands, fp) {
      var c := MentionedCommand(commands, fp);
      assert GoodCommand(s, v, u, c);
      UserGroup(s, n, v, fp, u, i);
    }
  }

  /** Carrying out a complete plan evicts the victim from line `u`. */
  lemma {:induction false} PlanEvicts(s: Store, n: nat, max: nat, v: Id, u: Id, commands: seq<ModifyCommand>,
                                      done: set<Fp>)
    requires Inv(s, n) && SmallStore(s, n, max) && v in s.lines && u in s.lines && u != v
    requires PlanFor(s, v, u, commands, done) && AllUsed(s, v, done)
    ensures Applicable(s.lines[u], commands)
    ensures s.lines.Keys == s.meta.Keys && LineEvicted(s, v, u, ApplyAll(s.lines[u], commands), n)
    ensures AllSmall(ApplyAll(s.lines[u], commands).data, max)
    ensures Total(ApplyAll(s.lines[u], commands).data) == Total(s.lines[u].data) + AppendedBytes(commands)
  {
    hide Inv, PlanFor, AllUsed, Rewrites, SmallCommands, WellFormed, InfoAfter, BlockEvicted, AllSmall;
    LastIdOf(s, n);
    LineIsGood(s, n, u);
    PlanRewrites(s, n, max, v, u, commands, done);
    RewriteKeeps(s.lines[u], n, commands, max);
    var r := ApplyAll(s.lines[u], commands);
    forall i: nat | i < |r.infos| ensures BlockEvicted(s, v, u, r, i) {
      PlannedBlock(s, n, v, u, commands, done, r, i);
    }
  }

  lemma {:induction false} LineIsGood(s: Store, n: nat, u: Id)
    requires Inv(s, n) && u in s.lines
    ensures WellFormed(s.lines[u], n) && |s.lines[u].infos| == n && WellLaidOut(s.lines[u], n)
  {
    hide Indexed, GroupsAgree, SlotsMatch, Coherent, GoodInfo;
    assert GoodLine(s, u, n);
  }

  /** A line that uses nothing of the victim is not touched by the eviction. */
  lemma {:induction false} Untouched(s: Store, n: nat, v: Id, u: Id)
    requires Inv(s, n) && v in s.lines && u in s.lines && u != v
    requires forall fp: Fp :: u !in Users(s, v, fp)
    ensures s.lines.Keys == s.meta.Keys && LineEvicted(s, v, u, s.lines[u], n)
  {
    hide Inv, IsHead, FirstAt, WellFormed;
    LastIdOf(s, n);
    LineIsGood(s, n, u);
    forall i: nat | i < |s.lines[u].infos| ensures BlockEvicted(s, v, u, s.lines[u], i) {
      var a := s.lines[u].infos[i];
      assert u !in Users(s, v, a.compFp);
      assert !RefersTo(s.lines[u], a.compFp, v);
    }
  }

  // ----- what it costs -----------------------------------------------------------------------

  function FpsOf(line: Cacheline): set<Fp> {
    set i | 0 <= i < |line.infos| :: line.infos[i].compFp
  }

  /** The fingerprints that move into line `u`. */
  ghost function HeadFps(s: Store, v: Id, u: Id): (fps: set<Fp>)
    requires s.lines.Keys == s.meta.Keys && u in s.lines
    ensures forall fp: Fp :: fp in fps <==> IsHead(s, v, fp, u)
  {
    forall fp: Fp | IsHead(s, v, fp, u) ensures fp in FpsOf(s.lines[u]) {
      var infos := s.lines[u].infos;
      var k :| 0 <= k < |infos| && infos[k].kind == REF && infos[k].compFp == fp && infos[k].external == v;
    }
    set fp | fp in FpsOf(s.lines[u]) && IsHead(s, v, fp, u)
  }

  function SizeUnder(size: map<Fp, nat>, fp: Fp): nat {
    if fp in size then size[fp] else 0
  }

  /** The sum of the sizes of some fingerprints. */
  ghost function Sum(size: map<Fp, nat>, fps: set<Fp>): nat
    decreases fps
  {
    if fps == {} then 0
    else
      var fp :| fp in fps;
      SizeUnder(size, fp) + Sum(size, fps - {fp})
  }

  lemma {:induction false} SumTakes(size: map<Fp, nat>, fps: set<Fp>, fp: Fp)
    requires fp in fps
    ensures Sum(size, fps) == SizeUnder(size, fp) + Sum(size, fps - {fp})
    decreases fps
  {
    var q :| q in fps && Sum(size, fps) == SizeUnder(size, q) + Sum(size, fps - {q});
    if q != fp {
      SumTakes(size, fps - {q}, fp);
      SumTakes(size, fps - {fp}, q);
      assert fps - {q} - {fp} == fps - {fp} - {q};
    }
  }

  /** How many bytes a line stores under each of its fingerprints. */
  ghost function StoredSizes(line: Cacheline): (size: map<Fp, nat>)
    ensures forall fp: Fp :: HasStored(line.infos, fp) ==>
              SizeUnder(size, fp) == |StoredBytes(line, fp)|
  {
    forall fp: Fp | HasStored(line.infos, fp) ensures fp in FpsOf(line) {
      var i := StoredBytesWitness(line, fp);
    }
    map fp | fp in FpsOf(line) && HasStored(line.infos, fp) :: |StoredBytes(line, fp)|
  }

  /** The bytes that move into line `u`. */
  ghost function MovedBytes(s: Store, v: Id, u: Id): nat
    requires s.lines.Keys == s.meta.Keys && v in s.lines && u in s.lines
  {
    Sum(StoredSizes(s.lines[v]), HeadFps(s, v, u))
  }

  function AppendFps(commands: seq<ModifyCommand>): set<Fp> {
    set c | c in commands && c.Append? :: c.fp
  }

  lemma {:induction false} AppendedSum(s: Store, v: Id, u: Id, commands: seq<ModifyCommand>, done: set<Fp>)
    requires s.lines.Keys == s.meta.Keys && v in s.lines && PlanFor(s, v, u, commands, done)
    ensures AppendedBytes(commands) == Sum(StoredSizes(s.lines[v]), AppendFps(commands))
    decreases |commands|, 0
  {
    hide IsHead, Users, HasStored, StoredBytes, StoredSizes, SizeUnder;
    if commands != [] {
      var front, last := commands[..|commands| - 1], commands[|commands| - 1];
      assert commands == front + [last];
      assert last in commands;
      AppendedFront(s, v, u, front, last, done);
      if last.Append? {
        assert AppendFps(commands) == AppendFps(front) + {last.fp};
        assert AppendFps(commands) - {last.fp} == AppendFps(front);
        SumTakes(StoredSizes(s.lines[v]), AppendFps(commands), last.fp);
      } else {
        assert AppendFps(commands) == AppendFps(front);
      }
    }
  }

  lemma {:induction false} AppendedFront(s: Store, v: Id, u: Id, front: seq<ModifyCommand>, last: ModifyCommand,
                                         done: set<Fp>)
    requires s.lines.Keys == s.meta.Keys && v in s.lines && PlanFor(s, v, u, front + [last], done)
    ensures AppendedBytes(front) == Sum(StoredSizes(s.lines[v]), AppendFps(front))
    ensures last.fp !in AppendFps(front)
    ensures last.Append? ==> SizeUnder(StoredSizes(s.lines[v]), last.fp) == |last.data|
    decreases |front|, 1
  {
    hide IsHead, Users, HasStored, StoredBytes;
    var commands := front + [last];
    var before := set c | c in front :: c.fp;
    assert last in commands && GoodCommand(s, v, u, last);
    forall c | c in front ensures c in commands && c.fp != last.fp {
      var k :| 0 <= k < |front| && front[k] == c;
      assert commands[k].fp != commands[|front|].fp;
    }
    assert PlanFor(s, v, u, front, before) by {
      forall fp: Fp | fp in before ensures Mentions(front, fp) {
        var c :| c in front && c.fp == fp;
        var k :| 0 <= k < |front| && front[k] == c;
        assert front[k].fp == fp;
      }
      forall k, l | 0 <= k < l < |front| ensures front[k].fp != front[l].fp {
        assert commands[k].fp != commands[l].fp;
      }
    }
    AppendedSum(s, v, u, front, before);
  }

  /** The bytes a complete plan appends to line `u`, whatever the order of its commands. */
  lemma {:induction false} PlanBytes(s: Store, n: nat, v: Id, u: Id, commands: seq<ModifyCommand>, done: set<Fp>)
    requires Inv(s, n) && v in s.lines && u in s.lines && s.lines.Keys == s.meta.Keys
    requires PlanFor(s, v, u, commands, done) && AllUsed(s, v, done)
    ensures AppendedBytes(commands) == MovedBytes(s, v, u)
  {
    hide Inv, HasStored, StoredBytes, StoredSizes, Sum, AppendedBytes;
    AppendedSum(s, v, u, commands, done);
    forall fp: Fp ensures fp in AppendFps(commands) <==> fp in HeadFps(s, v, u) {
      HeadsAppend(s, n, v, u, commands, done, fp);
    }
    assert AppendFps(commands) == HeadFps(s, v, u);
  }

  lemma {:induction false} HeadsAppend(s: Store, n: nat, v: Id, u: Id, commands: seq<ModifyCommand>, done: set<Fp>,
                                       fp: Fp)
    requires Inv(s, n) && v in s.lines && u in s.lines && s.lines.Keys == s.meta.Keys
    requires PlanFor(s, v, u, commands, done) && AllUsed(s, v, done)
    ensures fp in AppendFps(commands) <==> IsHead(s, v, fp, u)
  {
    hide Inv, HasStored, StoredBytes, IsHead, Mentions;
    if c :| c in commands && c.Append? && c.fp == fp {
      assert GoodCommand(s, v, u, c);
    }
    if IsHead(s, v, fp, u) {
      HeadIsUser(s, v, fp, u);
      assert u in Users(s, v, fp);
      var c := MentionedCommand(commands, fp);
      assert GoodCommand(s, v, u, c);
      if c.ModifyRef? {
        OneHead(s, n, v, fp, u, c.newExternal);
      }
    }
  }

  /** The pages line `u` grows by. */
  ghost function Growth(s: Store, n: nat, pg: nat, v: Id, u: Id): nat
    requires s.lines.Keys == s.meta.Keys && v in s.lines && u in s.lines && pg > 0
  {
    var len := MetadataLen(n) + Total(s.lines[u].data);
    PagesForBoth(len, MovedBytes(s, v, u), pg);
    PagesFor(len + MovedBytes(s, v, u), pg) - PagesFor(len, pg)
  }

  /** The pages the lines of `us` grow by together. */
  ghost function TotalGrowth(s: Store, n: nat, pg: nat, v: Id, us: set<Id>): nat
    requires s.lines.Keys == s.meta.Keys && v in s.lines && us <= s.lines.Keys && pg > 0
    decreases us
  {
    if us == {} then 0
    else
      var u :| u in us;
      Growth(s, n, pg, v, u) + TotalGrowth(s, n, pg, v, us - {u})
  }

  lemma {:induction false} GrowthTakes(s: Store, n: nat, pg: nat, v: Id, us: set<Id>, u: Id)
    requires s.lines.Keys == s.meta.Keys && v in s.lines && us <= s.lines.Keys && pg > 0 && u in us
    ensures TotalGrowth(s, n, pg, v, us) == Growth(s, n, pg, v, u) + TotalGrowth(s, n, pg, v, us - {u})
    decreases us
  {
    hide Growth;
    var q :| q in us && TotalGrowth(s, n, pg, v, us) ==
                        Growth(s, n, pg, v, q) + TotalGrowth(s, n, pg, v, us - {q});
    if q != u {
      GrowthTakes(s, n, pg, v, us - {q}, u);
      GrowthTakes(s, n, pg, v, us - {u}, q);
      assert us - {q} - {u} == us - {u} - {q};
    }
  }

  lemma {:induction false} GrowthOfMore(s: Store, n: nat, pg: nat, v: Id, us: set<Id>, more: set<Id>)
    requires s.lines.Keys == s.meta.Keys && v in s.lines && us <= more <= s.lines.Keys && pg > 0
    ensures TotalGrowth(s, n, pg, v, us) <= TotalGrowth(s, n, pg, v, more)
    decreases more
  {
    hide Growth;
    if us != more {
      var u :| u in more && u !in us;
      GrowthTakes(s, n, pg, v, more, u);
      GrowthOfMore(s, n, pg, v, us, more - {u});
    }
  }

  /** Lines that take nothing over do not grow. */
  lemma {:induction false} OnlyHeadsGrow(s: Store, n: nat, pg: nat, v: Id, us: set<Id>, heads: set<Id>)
    requires s.lines.Keys == s.meta.Keys && v in s.lines && us <= s.lines.Keys && pg > 0 && heads <= us
    requires forall u, fp: Fp | u in us && u !in heads :: !IsHead(s, v, fp, u)
    ensures TotalGrowth(s, n, pg, v, us) == TotalGrowth(s, n, pg, v, heads)
    decreases us
  {
    hide IsHead, Growth;
    if us != heads {
      var u :| u in us && u !in heads;
      assert HeadFps(s, v, u) == {};
      NoGrowth(s, n, pg, v, u);
      GrowthTakes(s, n, pg, v, us, u);
      OnlyHeadsGrow(s, n, pg, v, us - {u}, heads);
    }
  }

  lemma {:induction false} NoGrowth(s: Store, n: nat, pg: nat, v: Id, u: Id)
    requires s.lines.Keys == s.meta.Keys && v in s.lines && u in s.lines && pg > 0 && HeadFps(s, v, u) == {}
    ensures Growth(s, n, pg, v, u) == 0
  {
  }

  // ----- a bound on the growth ---------------------------------------------------------------

  /** Whole pages for every one of some fingerprints. */
  ghost function PageSum(size: map<Fp, nat>, pg: nat, fps: set<Fp>): nat
    requires pg > 0
    decreases fps
  {
    if fps == {} then 0
    else
      var fp :| fp in fps;
      PagesFor(SizeUnder(size, fp), pg) + PageSum(size, pg, fps - {fp})
  }

  lemma {:induction false} PageSumTakes(size: map<Fp, nat>, pg: nat, fps: set<Fp>, fp: Fp)
    requires pg > 0 && fp in fps
    ensures PageSum(size, pg, fps) == PagesFor(SizeUnder(size, fp), pg) + PageSum(size, pg, fps - {fp})
    decreases fps
  {
    hide PagesFor;
    var q :| q in fps && PageSum(size, pg, fps) == PagesFor(SizeUnder(size, q), pg) + PageSum(size, pg, fps - {q});
    if q != fp {
      PageSumTakes(size, pg, fps - {q}, fp);
      PageSumTakes(size, pg, fps - {fp}, q);
      assert fps - {q} - {fp} == fps - {fp} - {q};
    }
  }

  lemma {:induction false} PageSumUnion(size: map<Fp, nat>, pg: nat, a: set<Fp>, b: set<Fp>)
    requires pg > 0 && a !! b
    ensures PageSum(size, pg, a + b) == PageSum(size, pg, a) + PageSum(size, pg, b)
    decreases a
  {
    hide PagesFor;
    if a == {} {
      assert a + b == b;
    } else {
      var fp :| fp in a;
      PageSumTakes(size, pg, a, fp);
      PageSumTakes(size, pg, a + b, fp);
      assert (a + b) - {fp} == (a - {fp}) + b;
      PageSumUnion(size, pg, a - {fp}, b);
    }
  }

  lemma {:induction false} SumInPages(size: map<Fp, nat>, pg: nat, fps: set<Fp>)
    requires pg > 0
    ensures PagesFor(Sum(size, fps), pg) <= PageSum(size, pg, fps)
    decreases fps
  {
    hide PagesFor;
    if fps == {} {
      PagesForLeast(0, pg, 0);
    } else {
      var fp :| fp in fps;
      SumTakes(size, fps, fp);
      PageSumTakes(size, pg, fps, fp);
      SumInPages(size, pg, fps - {fp});
      PagesForBoth(SizeUnder(size, fp), Sum(size, fps - {fp}), pg);
    }
  }

  /** The fingerprints that move into some line of `us`. */
  ghost function HeadFpsOf(s: Store, v: Id, us: set<Id>): (fps: set<Fp>)
    requires s.lines.Keys == s.meta.Keys && us <= s.lines.Keys
    ensures forall fp: Fp :: fp in fps <==> exists u :: u in us && IsHead(s, v, fp, u)
    decreases us
  {
    if us == {} then {}
    else
      var u :| u in us;
      HeadFps(s, v, u) + HeadFpsOf(s, v, us - {u})
  }

  lemma {:induction false} LineGrowthBound(s: Store, n: nat, pg: nat, v: Id, u: Id)
    requires s.lines.Keys == s.meta.Keys && v in s.lines && u in s.lines && pg > 0
    ensures Growth(s, n, pg, v, u) <= PageSum(StoredSizes(s.lines[v]), pg, HeadFps(s, v, u))
  {
    hide HeadFps, PagesFor, StoredSizes, Sum, PageSum;
    SumInPages(StoredSizes(s.lines[v]), pg, HeadFps(s, v, u));
    PagesForBoth(MetadataLen(n) + Total(s.lines[u].data), MovedBytes(s, v, u), pg);
  }

  lemma {:induction false} HeadsSplit(s: Store, n: nat, v: Id, us: set<Id>, u: Id)
    requires Inv(s, n) && s.lines.Keys == s.meta.Keys && us <= s.lines.Keys && u in us
    ensures HeadFpsOf(s, v, us) == HeadFps(s, v, u) + HeadFpsOf(s, v, us - {u})
    ensures HeadFps(s, v, u) !! HeadFpsOf(s, v, us - {u})
  {
    hide Inv, IsHead, HeadFpsOf, HeadFps;
    var a, b := HeadFps(s, v, u), HeadFpsOf(s, v, us - {u});
    forall fp: Fp | fp in b ensures fp !in a {
      var w :| w in us - {u} && IsHead(s, v, fp, w);
      HeadsDiffer(s, n, v, fp, u, w);
    }
  }

  /** Moving blocks costs at most whole pages for each of them. */
  lemma {:induction false} GrowthBound(s: Store, n: nat, pg: nat, v: Id, us: set<Id>)
    requires Inv(s, n) && s.lines.Keys == s.meta.Keys && v in s.lines && us <= s.lines.Keys && pg > 0
    ensures TotalGrowth(s, n, pg, v, us) <= PageSum(StoredSizes(s.lines[v]), pg, HeadFpsOf(s, v, us))
    decreases us
  {
    hide Inv, PagesFor, StoredSizes, HeadFps, HeadFpsOf, Growth;
    if us != {} {
      var u :| u in us;
      GrowthTakes(s, n, pg, v, us, u);
      GrowthBound(s, n, pg, v, us - {u});
      HeadsSplit(s, n, v, us, u);
      PageSumUnion(StoredSizes(s.lines[v]), pg, HeadFps(s, v, u), HeadFpsOf(s, v, us - {u}));
      LineGrowthBound(s, n, pg, v, u);
    }
  }

  lemma {:induction false} HeadsDiffer(s: Store, n: nat, v: Id, fp: Fp, u: Id, w: Id)
    requires Inv(s, n) && s.lines.Keys == s.meta.Keys && IsHead(s, v, fp, w) && u != w
    ensures !IsHead(s, v, fp, u)
  {
    hide Inv, IsHead;
    if IsHead(s, v, fp, u) {
      OneHead(s, n, v, fp, u, w);
    }
  }
}
