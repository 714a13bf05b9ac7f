/** The cached lines with their indexes as one value, what flushing and evicting do to it, and what they keep
    (src/cd_cache.cpp, src/ssd_proxy.cpp:202-348). Pages on the device are added in `Evictions`. */
module Stores {
  import opened Bits
  import opened Words
  import opened Cachelines
  import opened CachelineLaws

  /** What the line index knows of a line. */
  datatype IndexData = IndexData(timeStamp: nat, pages: seq<nat>, refs: set<Id>)

  datatype FpData = FpData(addr: Id, rawFp: Fp)

  datatype Store = Store(lines: map<Id, Cacheline>, meta: map<Id, IndexData>, fpIndex: map<Fp, FpData>, lastId: nat)

  // ----- the invariant -----------------------------------------------------------------------

  /** A reference points straight at an older line that stores the bytes and knows of the reference. */
  ghost predicate GoodRef(s: Store, id: Id, info: BlockInfo) {
    info.kind == REF ==>
      && info.external in s.lines && info.external in s.meta && info.external < id
      && HasStored(s.lines[info.external].infos, info.compFp)
      && id in s.meta[info.external].refs
  }

  ghost predicate GoodLine(s: Store, id: Id, n: nat)
    requires id in s.lines
  {
    && WellFormed(s.lines[id], n) && 1 <= id <= s.lastId
    && (forall i | 0 <= i < n :: GoodRef(s, id, s.lines[id].infos[i]))
  }

  /** The fingerprint index sends a fingerprint to the one line that stores it. */
  ghost predicate Indexed(s: Store) {
    && (forall fp | fp in s.fpIndex ::
          s.fpIndex[fp].addr in s.lines && HasStored(s.lines[s.fpIndex[fp].addr].infos, fp))
    && (forall id, fp: Fp | id in s.lines && HasStored(s.lines[id].infos, fp) ::
          fp in s.fpIndex && s.fpIndex[fp].addr == id)
  }

  ghost predicate Inv(s: Store, n: nat) {
    && s.lines.Keys == s.meta.Keys && s.lastId < NONE64
    && (forall id | id in s.lines :: GoodLine(s, id, n))
    && (forall id | id in s.meta :: s.meta[id].timeStamp == 0 && forall r | r in s.meta[id].refs :: id < r <= s.lastId)
    && Indexed(s)
  }

  lemma {:induction false} LastIdOf(s: Store, n: nat)
    requires Inv(s, n)
    ensures s.lastId < NONE64 && s.lines.Keys == s.meta.Keys
  {
  }

  // ----- meaning -----------------------------------------------------------------------------

  /** The bytes a line stores under a fingerprint. */
  ghost function StoredBytes(line: Cacheline, fp: Fp): seq<Byte>
    requires HasStored(line.infos, fp)
  {
    var i :| 0 <= i < |line.infos| && line.infos[i].kind == STORED && line.infos[i].compFp == fp;
    SlotData(line, line.infos[i])
  }

  /** The compressed bytes block `i` of line `id` stands for. */
  ghost function Resolve(s: Store, id: Id, i: nat): seq<Byte>
    requires id in s.lines && i < |s.lines[id].infos|
  {
    var info := s.lines[id].infos[i];
    var owner := if info.kind == REF then info.external else id;
    if info.kind == STORED then SlotData(s.lines[id], info)
    else if owner in s.lines && HasStored(s.lines[owner].infos, info.compFp)
    then StoredBytes(s.lines[owner], info.compFp)
    else []
  }

  lemma {:induction false} StoredBytesAt(line: Cacheline, i: nat)
    requires Coherent(line) && i < |line.infos| && line.infos[i].kind == STORED
    ensures HasStored(line.infos, line.infos[i].compFp)
    ensures StoredBytes(line, line.infos[i].compFp) == SlotData(line, line.infos[i])
  {
    var fp := line.infos[i].compFp;
    var k :| 0 <= k < |line.infos| && line.infos[k].kind == STORED && line.infos[k].compFp == fp &&
             StoredBytes(line, fp) == SlotData(line, line.infos[k]);
  }

  lemma {:induction false} StoredBytesWitness(line: Cacheline, fp: Fp) returns (i: nat)
    requires HasStored(line.infos, fp)
    ensures i < |line.infos| && line.infos[i].kind == STORED && line.infos[i].compFp == fp
    ensures StoredBytes(line, fp) == SlotData(line, line.infos[i])
  {
    var k :| 0 <= k < |line.infos| && line.infos[k].kind == STORED && line.infos[k].compFp == fp &&
             StoredBytes(line, fp) == SlotData(line, line.infos[k]);
    i := k;
  }

  // ----- eviction ----------------------------------------------------------------------------

  predicate RefersTo(line: Cacheline, fp: Fp, v: Id) {
    exists i :: 0 <= i < |line.infos| && line.infos[i].kind == REF && line.infos[i].compFp == fp &&
                line.infos[i].external == v
  }

  /** The lines that use the bytes line `v` stores under `fp`. */
  function Users(s: Store, v: Id, fp: Fp): set<Id> {
    set u | u in s.lines && u != v && RefersTo(s.lines[u], fp, v)
  }

  /** Older by (time stamp, id). */
  predicate Before(s: Store, a: Id, b: Id)
    requires a in s.meta && b in s.meta
  {
    s.meta[a].timeStamp < s.meta[b].timeStamp || (s.meta[a].timeStamp == s.meta[b].timeStamp && a <= b)
  }

  /** `h` is the first of the users. */
  ghost predicate IsHead(s: Store, v: Id, fp: Fp, h: Id)
    requires s.lines.Keys == s.meta.Keys
  {
    h in Users(s, v, fp) && forall u | u in Users(s, v, fp) :: Before(s, h, u)
  }

  /** Block `i` of line `u` after line `v` is gone: a reference to `v` becomes, in the first user, the block itself
      or a local duplicate of it, and elsewhere a reference to the first user. */
  ghost predicate BlockEvicted(s: Store, v: Id, u: Id, r: Cacheline, i: nat)
    requires s.lines.Keys == s.meta.Keys && v in s.lines && u in s.lines && i < |s.lines[u].infos| == |r.infos|
  {
    var a, b := s.lines[u].infos[i], r.infos[i];
    if a.kind == REF && a.external == v then
      && b.compFp == a.compFp && b.rawFp == a.rawFp && b.rawLen == a.rawLen
      && (if IsHead(s, v, a.compFp, u) then
            b.external == NONE64 &&
            (if FirstAt(s.lines[u].infos, i)
             then b.kind == STORED && HasStored(s.lines[v].infos, a.compFp) &&
                  SlotData(r, b) == StoredBytes(s.lines[v], a.compFp)
             else b.kind == LOCAL && b.posIndex == NONE32)
          else b == a.(external := b.external) && IsHead(s, v, a.compFp, b.external))
    else b == a
  }

  ghost predicate LineEvicted(s: Store, v: Id, u: Id, r: Cacheline, n: nat)
    requires s.lines.Keys == s.meta.Keys && v in s.lines && u in s.lines
  {
    && WellFormed(r, n) && s.lines[u].data <= r.data && |r.infos| == |s.lines[u].infos|
    && forall i: nat | i < |r.infos| :: BlockEvicted(s, v, u, r, i)
  }

  /** The users that `h`, as the first, takes over as referrers. */
  ghost predicate TakenOver(s: Store, v: Id, h: Id, u: Id)
    requires s.lines.Keys == s.meta.Keys
  {
    u != h && exists fp: Fp :: IsHead(s, v, fp, h) && u in Users(s, v, fp)
  }

  ghost predicate FpEvicted(s: Store, v: Id, s': Store, fp: Fp)
    requires s.lines.Keys == s.meta.Keys
  {
    if Users(s, v, fp) != {} then
      fp in s'.fpIndex && IsHead(s, v, fp, s'.fpIndex[fp].addr) && s'.fpIndex[fp].rawFp == 0
    else if fp in s.fpIndex && s.fpIndex[fp].addr == v then fp !in s'.fpIndex
    else (fp in s'.fpIndex) == (fp in s.fpIndex) && (fp in s.fpIndex ==> s'.fpIndex[fp] == s.fpIndex[fp])
  }

  ghost predicate RefsEvicted(s: Store, v: Id, s': Store, h: Id)
    requires s.lines.Keys == s.meta.Keys && h in s.meta && h in s'.meta
  {
    && s'.meta[h].timeStamp == s.meta[h].timeStamp
    && forall u: Id :: u in s'.meta[h].refs <==> u in s.meta[h].refs || TakenOver(s, v, h, u)
  }

  /** Line `v` is evicted. */
  ghost predicate EvictStep(s: Store, v: Id, s': Store, n: nat)
    requires s.lines.Keys == s.meta.Keys
  {
    && v in s.lines && s'.lines.Keys == s.lines.Keys - {v} && s'.meta.Keys == s'.lines.Keys && s'.lastId == s.lastId
    && (forall u | u in s'.lines :: LineEvicted(s, v, u, s'.lines[u], n))
    && (forall h | h in s'.meta :: RefsEvicted(s, v, s', h))
    && (forall fp: Fp :: FpEvicted(s, v, s', fp))
  }

  // ----- what eviction keeps -----------------------------------------------------------------

  lemma {:induction false} HeadIsLeast(s: Store, n: nat, v: Id, fp: Fp, h: Id, u: Id)
    requires Inv(s, n) && IsHead(s, v, fp, h) && u in Users(s, v, fp)
    ensures h <= u
  {
    assert Before(s, h, u);
  }

  lemma {:induction false} OneHead(s: Store, n: nat, v: Id, fp: Fp, h: Id, k: Id)
    requires Inv(s, n) && IsHead(s, v, fp, h) && IsHead(s, v, fp, k)
    ensures h == k
  {
    HeadIsLeast(s, n, v, fp, h, k);
    HeadIsLeast(s, n, v, fp, k, h);
  }

  /** The users of bytes stored by `v` refer to `v` in their whole group, and store nothing under it. */
  lemma {:induction false} UserGroup(s: Store, n: nat, v: Id, fp: Fp, u: Id, i: nat)
    requires Inv(s, n) && v in s.lines && u in Users(s, v, fp)
    requires i < |s.lines[u].infos| && s.lines[u].infos[i].compFp == fp
    ensures s.lines[u].infos[i].kind == REF && s.lines[u].infos[i].external == v
    ensures HasStored(s.lines[v].infos, fp) && v < u && u in s.meta[v].refs
  {
    var infos := s.lines[u].infos;
    var k :| 0 <= k < |infos| && infos[k].kind == REF && infos[k].compFp == fp && infos[k].external == v;
    assert GoodLine(s, u, n) && GoodRef(s, u, infos[k]);
    assert infos[i].kind == REF && infos[i].external == infos[k].external;
  }

  lemma {:induction false} FirstWith(infos: seq<BlockInfo>, fp: Fp, k: nat) returns (f: nat)
    requires k < |infos| && infos[k].compFp == fp
    ensures f < |infos| && infos[f].compFp == fp && FirstAt(infos, f)
  {
    f := 0;
    while infos[f].compFp != fp
      invariant f <= k && forall j | 0 <= j < f :: infos[j].compFp != fp
      decreases k - f
    {
      f := f + 1;
    }
  }

  lemma {:induction false} EvictedKeys(s: Store, n: nat, v: Id, s': Store)
    requires Inv(s, n) && EvictStep(s, v, s', n)
    ensures s.lines.Keys == s.meta.Keys && v in s.lines && s'.lines.Keys == s.lines.Keys - {v}
    ensures s'.meta.Keys == s'.lines.Keys && s'.lastId == s.lastId < NONE64
  {
  }

  lemma {:induction false} EvictedLine(s: Store, n: nat, v: Id, s': Store, u: Id)
    requires Inv(s, n) && EvictStep(s, v, s', n) && u in s'.lines
    ensures s.lines.Keys == s.meta.Keys && v in s.lines && u in s.lines && u != v
    ensures WellFormed(s'.lines[u], n) && WellFormed(s.lines[u], n)
    ensures |s'.lines[u].infos| == |s.lines[u].infos| == n
    ensures Coherent(s'.lines[u]) && s.lines[u].data <= s'.lines[u].data
    ensures forall i: nat | i < n :: BlockEvicted(s, v, u, s'.lines[u], i)
    ensures forall i: nat | i < n ::
              GoodRef(s, u, s.lines[u].infos[i]) && GoodInfo(s.lines[u].infos[i], |s.lines[u].data|)
  {
    hide SlotsMatch, GroupsAgree, Indexed;
    assert LineEvicted(s, v, u, s'.lines[u], n);
    assert GoodLine(s, u, n);
  }

  /** What a surviving line stored it stores after, at the same place. */
  lemma {:induction false} StoredStays(s: Store, n: nat, v: Id, s': Store, u: Id, i: nat)
    requires Inv(s, n) && EvictStep(s, v, s', n) && u in s'.lines && u in s.lines
    requires i < |s.lines[u].infos| && s.lines[u].infos[i].kind == STORED
    ensures |s'.lines[u].infos| == |s.lines[u].infos| && s'.lines[u].infos[i] == s.lines[u].infos[i]
    ensures SlotData(s'.lines[u], s'.lines[u].infos[i]) == SlotData(s.lines[u], s.lines[u].infos[i])
  {
    hide EvictStep, Inv, WellFormed, Coherent, IsHead, FirstAt;
    EvictedLine(s, n, v, s', u);
    assert BlockEvicted(s, v, u, s'.lines[u], i);
    assert GoodInfo(s.lines[u].infos[i], |s.lines[u].data|);
  }

  lemma {:induction false} StaysStored(s: Store, n: nat, v: Id, s': Store, u: Id, fp: Fp)
    requires Inv(s, n) && EvictStep(s, v, s', n) && u in s'.lines && u in s.lines && HasStored(s.lines[u].infos, fp)
    ensures HasStored(s'.lines[u].infos, fp) && StoredBytes(s'.lines[u], fp) == StoredBytes(s.lines[u], fp)
  {
    hide EvictStep, Inv, WellFormed, Coherent, IsHead, StoredBytes, BlockEvicted, GoodRef;
    var i := StoredBytesWitness(s.lines[u], fp);
    StoredStays(s, n, v, s', u, i);
    EvictedLine(s, n, v, s', u);
    StoredBytesAt(s'.lines[u], i);
  }

  /** Nothing a surviving line stores afterwards is new, except what it was the first user of. */
  lemma {:induction false} StoredBefore(s: Store, n: nat, v: Id, s': Store, u: Id, fp: Fp)
    requires Inv(s, n) && EvictStep(s, v, s', n) && u in s'.lines && HasStored(s'.lines[u].infos, fp)
    ensures s.lines.Keys == s.meta.Keys && u in s.lines && u != v
    ensures HasStored(s.lines[u].infos, fp) || IsHead(s, v, fp, u)
  {
    hide EvictStep, Inv, IsHead, WellFormed, Coherent, GoodRef, FirstAt;
    EvictedLine(s, n, v, s', u);
    var i :| 0 <= i < |s'.lines[u].infos| && s'.lines[u].infos[i].kind == STORED && s'.lines[u].infos[i].compFp == fp;
    assert BlockEvicted(s, v, u, s'.lines[u], i);
  }

  /** In its new home a moved fingerprint is stored, with the same bytes. */
  lemma {:induction false} HeadStores(s: Store, n: nat, v: Id, s': Store, fp: Fp, h: Id)
    requires Inv(s, n) && EvictStep(s, v, s', n) && IsHead(s, v, fp, h)
    ensures h in s'.lines && v in s.lines && HasStored(s'.lines[h].infos, fp) && HasStored(s.lines[v].infos, fp)
    ensures StoredBytes(s'.lines[h], fp) == StoredBytes(s.lines[v], fp)
  {
    hide EvictStep, Inv, WellFormed, Coherent, StoredBytes, GoodInfo, GoodRef;
    EvictedKeys(s, n, v, s');
    HeadIsUser(s, v, fp, h);
    EvictedLine(s, n, v, s', h);
    var infos := s.lines[h].infos;
    var k :| 0 <= k < |infos| && infos[k].kind == REF && infos[k].compFp == fp && infos[k].external == v;
    var f := FirstWith(infos, fp, k);
    UserGroup(s, n, v, fp, h, f);
    assert BlockEvicted(s, v, h, s'.lines[h], f);
    StoredBytesAt(s'.lines[h], f);
  }

  // ----- the theorems on eviction ------------------------------------------------------------

  /** A reference is never to a line that is gone: either its owner survives, or it was moved along. */
  lemma {:induction false} RefEvicted(s: Store, n: nat, v: Id, s': Store, u: Id, i: nat)
    requires Inv(s, n) && EvictStep(s, v, s', n) && u in s'.lines && i < |s'.lines[u].infos|
    requires s'.lines[u].infos[i].kind == REF
    ensures u in s.lines && i < |s.lines[u].infos|
    ensures var a, b := s.lines[u].infos[i], s'.lines[u].infos[i];
            && a.kind == REF && a.compFp == b.compFp && s.lines.Keys == s.meta.Keys
            && (a.external == v ==> IsHead(s, v, a.compFp, b.external) && b.external != u && u in Users(s, v, a.compFp))
            && (a.external != v ==> b.external == a.external)
  {
    EvictedKeys(s, n, v, s');
    hide EvictStep, Inv, WellFormed, Coherent, GoodInfo, FirstAt;
    EvictedLine(s, n, v, s', u);
    assert BlockEvicted(s, v, u, s'.lines[u], i);
    var a, b := s.lines[u].infos[i], s'.lines[u].infos[i];
    if a.external == v && a.kind == REF {
      assert RefersTo(s.lines[u], a.compFp, v);
    }
  }

  lemma {:induction false} EvictedRefs(s: Store, n: nat, v: Id, s': Store, h: Id)
    requires Inv(s, n) && EvictStep(s, v, s', n) && h in s'.meta
    ensures s.lines.Keys == s.meta.Keys && h in s.meta && h in s.lines && h in s'.lines
    ensures RefsEvicted(s, v, s', h)
    ensures s.meta[h].timeStamp == 0 && forall r | r in s.meta[h].refs :: h < r <= s.lastId
  {
    hide Indexed, GoodLine;
  }

  lemma {:induction false} MovedRefIsGood(s: Store, n: nat, v: Id, s': Store, u: Id, b: BlockInfo)
    requires Inv(s, n) && EvictStep(s, v, s', n) && u in s'.lines && b.kind == REF
    requires s.lines.Keys == s.meta.Keys
    requires IsHead(s, v, b.compFp, b.external) && b.external != u && u in Users(s, v, b.compFp)
    ensures GoodRef(s', u, b)
  {
    hide Inv, EvictStep, IsHead, HasStored, Users, StoredBytes;
    HeadStores(s, n, v, s', b.compFp, b.external);
    HeadIsLeast(s, n, v, b.compFp, b.external, u);
    EvictedKeys(s, n, v, s');
    EvictedRefs(s, n, v, s', b.external);
    assert TakenOver(s, v, b.external, u);
  }

  lemma {:induction false} OldRefIsGood(s: Store, n: nat, v: Id, s': Store, u: Id, i: nat)
    requires Inv(s, n) && EvictStep(s, v, s', n) && u in s'.lines && u in s.lines && i < |s.lines[u].infos|
    requires s.lines[u].infos[i].kind == REF && s.lines[u].infos[i].external != v
    ensures GoodRef(s', u, s.lines[u].infos[i])
  {
    hide Inv, EvictStep, IsHead, HasStored, Users, BlockEvicted, WellFormed, Coherent, StoredBytes, GoodInfo;
    EvictedKeys(s, n, v, s');
    EvictedLine(s, n, v, s', u);
    var a := s.lines[u].infos[i];
    assert GoodRef(s, u, a);
    StaysStored(s, n, v, s', a.external, a.compFp);
    EvictedRefs(s, n, v, s', a.external);
  }

  lemma {:induction false} RefStaysGood(s: Store, n: nat, v: Id, s': Store, u: Id, i: nat)
    requires Inv(s, n) && EvictStep(s, v, s', n) && u in s'.lines && i < |s'.lines[u].infos|
    ensures GoodRef(s', u, s'.lines[u].infos[i])
  {
    hide Inv, EvictStep, IsHead, Users;
    if s'.lines[u].infos[i].kind == REF {
      RefEvicted(s, n, v, s', u, i);
      var a, b := s.lines[u].infos[i], s'.lines[u].infos[i];
      if a.external == v {
        MovedRefIsGood(s, n, v, s', u, b);
      } else {
        OldRefIsGood(s, n, v, s', u, i);
      }
    }
  }

  lemma {:induction false} EvictedFp(s: Store, n: nat, v: Id, s': Store, fp: Fp)
    requires Inv(s, n) && EvictStep(s, v, s', n)
    ensures s.lines.Keys == s.meta.Keys && FpEvicted(s, v, s', fp)
  {
    hide GoodLine, Indexed;
  }

  lemma {:induction false} IndexedFp(s: Store, n: nat, fp: Fp)
    requires Inv(s, n) && fp in s.fpIndex
    ensures s.fpIndex[fp].addr in s.lines && HasStored(s.lines[s.fpIndex[fp].addr].infos, fp)
  {
    hide GoodLine, HasStored;
  }

  lemma {:induction false} IndexedLine(s: Store, n: nat, id: Id, fp: Fp)
    requires Inv(s, n) && id in s.lines && HasStored(s.lines[id].infos, fp)
    ensures fp in s.fpIndex && s.fpIndex[fp].addr == id
  {
    hide GoodLine, HasStored;
  }

  lemma {:induction false} IndexStays(s: Store, n: nat, v: Id, s': Store, fp: Fp)
    requires Inv(s, n) && EvictStep(s, v, s', n) && fp in s'.fpIndex
    ensures s'.fpIndex[fp].addr in s'.lines && HasStored(s'.lines[s'.fpIndex[fp].addr].infos, fp)
  {
    hide Inv, EvictStep, IsHead, HasStored, StoredBytes, Users;
    EvictedKeys(s, n, v, s');
    EvictedFp(s, n, v, s', fp);
    if Users(s, v, fp) != {} {
      HeadStores(s, n, v, s', fp, s'.fpIndex[fp].addr);
    } else {
      IndexedFp(s, n, fp);
      StaysStored(s, n, v, s', s.fpIndex[fp].addr, fp);
    }
  }

  lemma {:induction false} StoredIsIndexed(s: Store, n: nat, v: Id, s': Store, u: Id, fp: Fp)
    requires Inv(s, n) && EvictStep(s, v, s', n) && u in s'.lines && HasStored(s'.lines[u].infos, fp)
    ensures fp in s'.fpIndex && s'.fpIndex[fp].addr == u
  {
    hide Inv, EvictStep, IsHead, HasStored, Users;
    EvictedKeys(s, n, v, s');
    EvictedFp(s, n, v, s', fp);
    StoredBefore(s, n, v, s', u, fp);
    if HasStored(s.lines[u].infos, fp) {
      IndexedLine(s, n, u, fp);
      if w :| w in Users(s, v, fp) {
        UserOwner(s, n, v, fp, w);
      }
    } else {
      HeadIsUser(s, v, fp, u);
      OneHead(s, n, v, fp, u, s'.fpIndex[fp].addr);
    }
  }

  lemma {:induction false} HeadIsUser(s: Store, v: Id, fp: Fp, h: Id)
    requires s.lines.Keys == s.meta.Keys && IsHead(s, v, fp, h)
    ensures h in Users(s, v, fp)
  {
  }

  lemma {:induction false} UserOwner(s: Store, n: nat, v: Id, fp: Fp, u: Id)
    requires Inv(s, n) && v in s.lines && u in Users(s, v, fp)
    ensures fp in s.fpIndex && s.fpIndex[fp].addr == v && HasStored(s.lines[v].infos, fp)
  {
    hide Inv;
    var infos := s.lines[u].infos;
    var k :| 0 <= k < |infos| && infos[k].kind == REF && infos[k].compFp == fp && infos[k].external == v;
    UserGroup(s, n, v, fp, u, k);
    IndexedLine(s, n, v, fp);
  }

  /** Evicting a line keeps the invariant. */
  lemma {:induction false} EvictKeepsInv(s: Store, n: nat, v: Id, s': Store)
    requires Inv(s, n) && EvictStep(s, v, s', n)
    ensures Inv(s', n)
  {
    hide HasStored, Inv, EvictStep, WellFormed, GoodRef;
    EvictedKeys(s, n, v, s');
    forall u | u in s'.lines ensures GoodLine(s', u, n) {
      EvictedLine(s, n, v, s', u);
      SurvivorId(s, n, u);
      forall i | 0 <= i < n ensures GoodRef(s', u, s'.lines[u].infos[i]) {
        RefStaysGood(s, n, v, s', u, i);
      }
    }
    forall h | h in s'.meta
      ensures s'.meta[h].timeStamp == 0 && forall r | r in s'.meta[h].refs :: h < r <= s'.lastId
    {
      RefsStayLater(s, n, v, s', h);
    }
    forall fp | fp in s'.fpIndex
      ensures s'.fpIndex[fp].addr in s'.lines && HasStored(s'.lines[s'.fpIndex[fp].addr].infos, fp)
    {
      IndexStays(s, n, v, s', fp);
    }
    forall id, fp: Fp | id in s'.lines && HasStored(s'.lines[id].infos, fp)
      ensures fp in s'.fpIndex && s'.fpIndex[fp].addr == id
    {
      StoredIsIndexed(s, n, v, s', id, fp);
    }
    assert Indexed(s');
    InvFrom(s', n);
  }

  lemma {:induction false} InvFrom(s: Store, n: nat)
    requires s.lines.Keys == s.meta.Keys && s.lastId < NONE64
    requires forall id | id in s.lines :: GoodLine(s, id, n)
    requires forall id | id in s.meta ::
               s.meta[id].timeStamp == 0 && forall r | r in s.meta[id].refs :: id < r <= s.lastId
    requires Indexed(s)
    ensures Inv(s, n)
  {
  }

  lemma {:induction false} SurvivorId(s: Store, n: nat, u: Id)
    requires Inv(s, n) && u in s.lines
    ensures 1 <= u <= s.lastId
  {
    assert GoodLine(s, u, n);
  }

  lemma {:induction false} RefsStayLater(s: Store, n: nat, v: Id, s': Store, h: Id)
    requires Inv(s, n) && EvictStep(s, v, s', n) && h in s'.meta
    ensures s'.meta[h].timeStamp == 0 && forall r | r in s'.meta[h].refs :: h < r <= s'.lastId
  {
    hide EvictStep, Inv, IsHead;
    EvictedRefs(s, n, v, s', h);
    EvictedKeys(s, n, v, s');
    forall r | r in s'.meta[h].refs ensures h < r <= s'.lastId {
      if TakenOver(s, v, h, r) {
        var fp: Fp :| IsHead(s, v, fp, h) && r in Users(s, v, fp);
        HeadIsLeast(s, n, v, fp, h, r);
        SurvivorId(s, n, r);
      }
    }
  }

  /** Evicting a line leaves every block of every other line standing for the same bytes. */
  lemma {:induction false} EvictKeepsMeaning(s: Store, n: nat, v: Id, s': Store, u: Id, i: nat)
    requires Inv(s, n) && EvictStep(s, v, s', n) && u in s'.lines && i < |s'.lines[u].infos|
    ensures u in s.lines && i < |s.lines[u].infos|
    ensures Resolve(s', u, i) == Resolve(s, u, i)
    ensures s'.lines[u].infos[i].compFp == s.lines[u].infos[i].compFp
  {
    hide Inv, EvictStep, IsHead, HasStored, StoredBytes, WellFormed, Coherent, SlotData, Users, FirstAt;
    EvictedLine(s, n, v, s', u);
    var a, b := s.lines[u].infos[i], s'.lines[u].infos[i];
    assert BlockEvicted(s, v, u, s'.lines[u], i) && GoodRef(s, u, a) && GoodInfo(a, |s.lines[u].data|);
    if a.kind == STORED {
      StoredStays(s, n, v, s', u, i);
    } else if a.kind == LOCAL {
      LocalMeaning(s, n, v, s', u, i);
    } else if a.external == v {
      MovedMeaning(s, n, v, s', u, i);
    } else {
      EvictedKeys(s, n, v, s');
      StaysStored(s, n, v, s', a.external, a.compFp);
    }
  }

  lemma {:induction false} MovedMeaning(s: Store, n: nat, v: Id, s': Store, u: Id, i: nat)
    requires Inv(s, n) && EvictStep(s, v, s', n) && u in s'.lines && u in s.lines
    requires i < |s'.lines[u].infos| == |s.lines[u].infos|
    requires s.lines[u].infos[i].kind == REF && s.lines[u].infos[i].external == v
    ensures Resolve(s', u, i) == Resolve(s, u, i)
  {
    hide Inv, EvictStep, HasStored, StoredBytes, WellFormed, Coherent, GoodInfo, SlotData, Users, IsHead, FirstAt;
    EvictedKeys(s, n, v, s');
    EvictedLine(s, n, v, s', u);
    var a, b := s.lines[u].infos[i], s'.lines[u].infos[i];
    assert BlockEvicted(s, v, u, s'.lines[u], i) && GoodRef(s, u, a);
    if IsHead(s, v, a.compFp, u) {
      HeadStores(s, n, v, s', a.compFp, u);
    } else {
      HeadStores(s, n, v, s', a.compFp, b.external);
    }
  }

  lemma {:induction false} LocalMeaning(s: Store, n: nat, v: Id, s': Store, u: Id, i: nat)
    requires Inv(s, n) && EvictStep(s, v, s', n) && u in s'.lines && u in s.lines
    requires i < |s'.lines[u].infos| == |s.lines[u].infos| && s.lines[u].infos[i].kind == LOCAL
    ensures Resolve(s', u, i) == Resolve(s, u, i)
  {
    hide Inv, EvictStep, StoredBytes, Coherent, GoodInfo, SlotData, IsHead, HasStored;
    EvictedLine(s, n, v, s', u);
    assert BlockEvicted(s, v, u, s'.lines[u], i);
    var fp := s.lines[u].infos[i].compFp;
    assert HasStored(s.lines[u].infos, fp) by { assert GroupsAgree(s.lines[u].infos); }
    StaysStored(s, n, v, s', u, fp);
  }

  /** An eviction forgets exactly the fingerprints that the victim stored and nobody used; every used one now leads
      to its user with the smallest id. */
  lemma {:induction false} ExactSurvival(s: Store, n: nat, v: Id, s': Store, fp: Fp)
    requires Inv(s, n) && EvictStep(s, v, s', n)
    ensures v in s.lines
    ensures fp in s.fpIndex && fp !in s'.fpIndex <==> HasStored(s.lines[v].infos, fp) && Users(s, v, fp) == {}
    ensures fp in s'.fpIndex ==> fp in s.fpIndex
    ensures Users(s, v, fp) != {} ==>
              fp in s'.fpIndex && s'.fpIndex[fp].addr in Users(s, v, fp) &&
              forall u | u in Users(s, v, fp) :: s'.fpIndex[fp].addr <= u
    ensures fp in s.fpIndex && s.fpIndex[fp].addr != v ==> fp in s'.fpIndex && s'.fpIndex[fp] == s.fpIndex[fp]
  {
    hide EvictStep, Inv, IsHead, Users, HasStored;
    EvictedKeys(s, n, v, s');
    EvictedFp(s, n, v, s', fp);
    if fp in s.fpIndex { IndexedFp(s, n, fp); }
    if HasStored(s.lines[v].infos, fp) { IndexedLine(s, n, v, fp); }
    if w :| w in Users(s, v, fp) {
      UserOwner(s, n, v, fp, w);
      HeadIsUser(s, v, fp, s'.fpIndex[fp].addr);
      forall u | u in Users(s, v, fp) ensures s'.fpIndex[fp].addr <= u {
        HeadIsLeast(s, n, v, fp, s'.fpIndex[fp].addr, u);
      }
    }
  }
}
