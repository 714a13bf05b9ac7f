/** Flushing a batch, and whole runs of flushes and evictions. */
module StoreRuns {
  import opened Bits
  import opened Words
  import opened Cachelines
  import opened CachelineLaws
  import opened Stores

  // ----- flushing ----------------------------------------------------------------------------

  /** Each block knows whether its compressed fingerprint is cached, and where. */
  ghost predicate Deduped(s: Store, blocks: seq<DataBlock>) {
    forall i | 0 <= i < |blocks| ::
      && blocks[i].compDuplicated == (blocks[i].compFp in s.fpIndex)
      && (blocks[i].compDuplicated ==> blocks[i].external == s.fpIndex[blocks[i].compFp].addr)
  }

  /** The index after the fresh blocks of line `id` were entered, one after the other. */
  function EnterFresh(index: map<Fp, FpData>, blocks: seq<DataBlock>, id: Id): map<Fp, FpData> {
    if blocks == [] then index
    else
      var b := blocks[|blocks| - 1];
      var before := EnterFresh(index, blocks[..|blocks| - 1], id);
      if b.compDuplicated then before else before[b.compFp := FpData(id, b.rawFp)]
  }

  predicate Fresh(blocks: seq<DataBlock>, fp: Fp) {
    exists i :: 0 <= i < |blocks| && !blocks[i].compDuplicated && blocks[i].compFp == fp
  }

  predicate UsesLine(blocks: seq<DataBlock>, u: Id) {
    exists i :: 0 <= i < |blocks| && blocks[i].compDuplicated && blocks[i].external == u
  }

  function NextId(s: Store): Id
    requires s.lastId < NONE64
  {
    s.lastId + 1
  }

  ghost predicate FlushStep(s: Store, blocks: seq<DataBlock>, s': Store, n: nat) {
    && s.lastId + 1 < NONE64 && s'.lastId == NextId(s)
    && |blocks| == n && Deduped(s, blocks)
    && s'.lines == s.lines[NextId(s) := LineOf(blocks)]
    && s'.meta.Keys == s.meta.Keys + {NextId(s)}
    && s'.meta[NextId(s)].timeStamp == 0 && s'.meta[NextId(s)].refs == {}
    && (forall u | u in s.meta && u != NextId(s) ::
          s'.meta[u].timeStamp == s.meta[u].timeStamp &&
          s'.meta[u].refs == s.meta[u].refs + (if UsesLine(blocks, u) then {NextId(s)} else {}))
    && s'.fpIndex == EnterFresh(s.fpIndex, blocks, NextId(s))
  }

  /** Fresh blocks of one fingerprint hold the same bytes, and the line fits its 32-bit fields. */
  ghost predicate GoodBatch(blocks: seq<DataBlock>, n: nat) {
    && |blocks| == n < 256 && MetadataLen(n) + Total(FreshData(blocks)) < W32
    && forall i, j | 0 <= i < n && 0 <= j < n && blocks[i].compFp == blocks[j].compFp ::
         blocks[i].compData == blocks[j].compData
  }

  lemma {:induction false} Entered(index: map<Fp, FpData>, blocks: seq<DataBlock>, id: Id, fp: Fp)
    ensures Fresh(blocks, fp) ==> fp in EnterFresh(index, blocks, id) && EnterFresh(index, blocks, id)[fp].addr == id
    ensures !Fresh(blocks, fp) ==> (fp in EnterFresh(index, blocks, id)) == (fp in index) &&
                                   (fp in index ==> EnterFresh(index, blocks, id)[fp] == index[fp])
    decreases |blocks|
  {
    if blocks != [] {
      var front, b := blocks[..|blocks| - 1], blocks[|blocks| - 1];
      Entered(index, front, id, fp);
      if i :| 0 <= i < |front| && !front[i].compDuplicated && front[i].compFp == fp {
        assert !blocks[i].compDuplicated && blocks[i].compFp == fp;
      }
      if i :| 0 <= i < |blocks| && !blocks[i].compDuplicated && blocks[i].compFp == fp {
        if i < |front| { assert !front[i].compDuplicated && front[i].compFp == fp; }
      }
    }
  }

  /** The last fresh block of the batch with this fingerprint. */
  ghost predicate LastFresh(blocks: seq<DataBlock>, fp: Fp, i: nat) {
    && i < |blocks| && !blocks[i].compDuplicated && blocks[i].compFp == fp
    && forall j | i < j < |blocks| && !blocks[j].compDuplicated :: blocks[j].compFp != fp
  }

  /** A fresh fingerprint is entered with the new line and the raw fingerprint of its last fresh block. */
  lemma {:induction false} EnteredAs(index: map<Fp, FpData>, blocks: seq<DataBlock>, id: Id, i: nat)
    requires i < |blocks| && LastFresh(blocks, blocks[i].compFp, i)
    ensures blocks[i].compFp in EnterFresh(index, blocks, id)
    ensures EnterFresh(index, blocks, id)[blocks[i].compFp] == FpData(id, blocks[i].rawFp)
    decreases |blocks|
  {
    var front := blocks[..|blocks| - 1];
    if i < |front| {
      assert LastFresh(front, front[i].compFp, i);
      EnteredAs(index, front, id, i);
    }
  }

  lemma {:induction false} FindLastFresh(blocks: seq<DataBlock>, fp: Fp) returns (i: nat)
    requires Fresh(blocks, fp)
    ensures LastFresh(blocks, fp, i)
    decreases |blocks|
  {
    i := |blocks| - 1;
    if blocks[i].compDuplicated || blocks[i].compFp != fp {
      var front := blocks[..i];
      var k :| 0 <= k < |blocks| && !blocks[k].compDuplicated && blocks[k].compFp == fp;
      assert front[k] == blocks[k];
      i := FindLastFresh(front, fp);
    }
  }

  lemma {:induction false} BatchIsConsistent(s: Store, n: nat, blocks: seq<DataBlock>)
    requires Inv(s, n) && Deduped(s, blocks) && GoodBatch(blocks, n)
    ensures Consistent(blocks)
  {
    hide Inv;
    forall i | 0 <= i < |blocks| && blocks[i].compDuplicated ensures blocks[i].external != NONE64 {
      IndexedFp(s, n, blocks[i].compFp);
      SurvivorId(s, n, blocks[i].external);
      LastIdOf(s, n);
    }
  }

  /** The whole entry of a block in its new line: what the line refers to it knows by the owner's id, what it stores by
      its slot; the raw fingerprint and length are the block's own. */
  lemma {:induction false} FlushedEntry(blocks: seq<DataBlock>, i: nat)
    requires i < |blocks| < 256
    ensures |LineOf(blocks).infos| == |blocks|
    ensures var info, b := LineOf(blocks).infos[i], blocks[i];
            && info.compFp == b.compFp && info.rawFp == b.rawFp && info.rawLen == |b.rawData| % 0x1_0000_0000
            && (b.compDuplicated ==> info.kind == 0 && info.external == b.external && info.posIndex == 0xffff_ffff)
            && (!b.compDuplicated ==>
                  info.kind == 1 && info.external == 0xffff_ffff_ffff_ffff &&
                  info.posIndex < |LineOf(blocks).data| && LineOf(blocks).data[info.posIndex] == b.compData)
  {
    hide LayoutOf, FreshData, SlotOf;
    FreshSlot(blocks, i);
  }

  /** What a flushed line stores, and what it refers to. */
  lemma {:induction false} FlushedInfos(blocks: seq<DataBlock>, i: nat)
    requires i < |blocks|
    ensures |LineOf(blocks).infos| == |blocks|
    ensures var info := LineOf(blocks).infos[i];
            && info.compFp == blocks[i].compFp
            && info.kind == (if blocks[i].compDuplicated then REF else STORED)
            && (blocks[i].compDuplicated ==> info.external == blocks[i].external)
  {
    hide LayoutOf, FreshData, SlotOf;
    FreshSlot(blocks, i);
  }

  lemma {:induction false} FlushedStores(blocks: seq<DataBlock>, fp: Fp)
    ensures HasStored(LineOf(blocks).infos, fp) == Fresh(blocks, fp)
  {
    hide LineOf;
    var infos := LineOf(blocks).infos;
    if HasStored(infos, fp) {
      LineOfLength(blocks);
      var i :| 0 <= i < |infos| && infos[i].kind == STORED && infos[i].compFp == fp;
      FlushedInfos(blocks, i);
    }
    if Fresh(blocks, fp) {
      var i :| 0 <= i < |blocks| && !blocks[i].compDuplicated && blocks[i].compFp == fp;
      FlushedInfos(blocks, i);
    }
  }

  lemma {:induction false} LineOfLength(blocks: seq<DataBlock>)
    ensures |LineOf(blocks).infos| == |blocks|
  {
  }

  lemma {:induction false} NewRefIsGood(s: Store, n: nat, blocks: seq<DataBlock>, s': Store, i: nat)
    requires Inv(s, n) && FlushStep(s, blocks, s', n) && i < n
    ensures |LineOf(blocks).infos| == n && GoodRef(s', NextId(s), LineOf(blocks).infos[i])
  {
    hide Inv, HasStored, LineOf;
    FlushedInfos(blocks, i);
    LastIdOf(s, n);
    if blocks[i].compDuplicated {
      IndexedFp(s, n, blocks[i].compFp);
      SurvivorId(s, n, blocks[i].external);
      assert UsesLine(blocks, blocks[i].external);
    }
  }

  lemma {:induction false} OldLineStaysGood(s: Store, n: nat, blocks: seq<DataBlock>, s': Store, u: Id)
    requires Inv(s, n) && FlushStep(s, blocks, s', n) && u in s.lines
    ensures u in s'.lines && s'.lines[u] == s.lines[u] && GoodLine(s', u, n)
  {
    hide Indexed, WellFormed, HasStored, LineOf, EnterFresh;
    assert GoodLine(s, u, n);
    forall i | 0 <= i < n && i < |s.lines[u].infos| ensures GoodRef(s', u, s.lines[u].infos[i]) {
      assert GoodRef(s, u, s.lines[u].infos[i]);
      if s.lines[u].infos[i].kind == REF {
        assert s.lines[u].infos[i].external != NextId(s);
      }
    }
    LengthOf(s.lines[u], n);
  }

  lemma {:induction false} LengthOf(line: Cacheline, n: nat)
    requires WellFormed(line, n)
    ensures |line.infos| == n
  {
  }

  lemma {:induction false} FlushIndexed(s: Store, n: nat, blocks: seq<DataBlock>, s': Store)
    requires Inv(s, n) && FlushStep(s, blocks, s', n)
    ensures Indexed(s')
  {
    hide Inv, HasStored, LineOf, EnterFresh, Fresh;
    LastIdOf(s, n);
    var id := NextId(s);
    forall fp | fp in s'.fpIndex
      ensures s'.fpIndex[fp].addr in s'.lines && HasStored(s'.lines[s'.fpIndex[fp].addr].infos, fp)
    {
      Entered(s.fpIndex, blocks, id, fp);
      FlushedStores(blocks, fp);
      if !Fresh(blocks, fp) {
        IndexedFp(s, n, fp);
        SurvivorId(s, n, s.fpIndex[fp].addr);
      }
    }
    forall u, fp: Fp | u in s'.lines && HasStored(s'.lines[u].infos, fp)
      ensures fp in s'.fpIndex && s'.fpIndex[fp].addr == u
    {
      Entered(s.fpIndex, blocks, id, fp);
      if u == id {
        FlushedStores(blocks, fp);
      } else {
        IndexedLine(s, n, u, fp);
        FreshIsUnknown(s, blocks, fp);
      }
    }
  }

  lemma {:induction false} FreshIsUnknown(s: Store, blocks: seq<DataBlock>, fp: Fp)
    requires Deduped(s, blocks)
    ensures Fresh(blocks, fp) ==> fp !in s.fpIndex
  {
  }

  /** Flushing a batch keeps the invariant. */
  lemma {:induction false} FlushKeepsInv(s: Store, n: nat, blocks: seq<DataBlock>, s': Store)
    requires Inv(s, n) && FlushStep(s, blocks, s', n) && GoodBatch(blocks, n)
    ensures Inv(s', n)
  {
    hide Inv, HasStored, LineOf, EnterFresh, WellFormed, GoodBatch, GoodRef, Deduped, Consistent;
    LastIdOf(s, n);
    var id := NextId(s);
    BatchIsConsistent(s, n, blocks);
    NewLineWellFormed(blocks, n);
    forall u | u in s'.lines ensures GoodLine(s', u, n) {
      if u == id {
        LineOfLength(blocks);
        forall i | 0 <= i < n ensures GoodRef(s', id, LineOf(blocks).infos[i]) {
          NewRefIsGood(s, n, blocks, s', i);
        }
      } else {
        OldLineStaysGood(s, n, blocks, s', u);
      }
    }
    forall u | u in s'.meta
      ensures s'.meta[u].timeStamp == 0 && forall r | r in s'.meta[u].refs :: u < r <= s'.lastId
    {
      if u != id { OldMeta(s, n, u); SurvivorId(s, n, u); }
    }
    FlushIndexed(s, n, blocks, s');
    InvFrom(s', n);
  }

  lemma {:induction false} NewLineWellFormed(blocks: seq<DataBlock>, n: nat)
    requires GoodBatch(blocks, n) && Consistent(blocks)
    ensures WellFormed(LineOf(blocks), n)
  {
    hide Consistent, LineOf;
    FreshLineWellFormed(blocks, n);
  }

  lemma {:induction false} OldMeta(s: Store, n: nat, u: Id)
    requires Inv(s, n) && u in s.meta
    ensures s.meta[u].timeStamp == 0 && forall r | r in s.meta[u].refs :: u < r <= s.lastId
  {
    hide GoodLine, Indexed;
  }

  /** Flushing leaves every block of every older line standing for the same bytes. */
  lemma {:induction false} FlushKeepsMeaning(s: Store, n: nat, blocks: seq<DataBlock>, s': Store, u: Id, i: nat)
    requires Inv(s, n) && FlushStep(s, blocks, s', n) && u in s.lines && i < |s.lines[u].infos|
    ensures u in s'.lines && s'.lines[u] == s.lines[u] && Resolve(s', u, i) == Resolve(s, u, i)
  {
    hide Inv, HasStored, LineOf, EnterFresh, StoredBytes, SlotData, GoodLine, Deduped;
    OldLineStaysGood(s, n, blocks, s', u);
    LastIdOf(s, n);
    RefOf(s, n, u, i);
  }

  lemma {:induction false} RefOf(s: Store, n: nat, u: Id, i: nat)
    requires Inv(s, n) && u in s.lines && i < |s.lines[u].infos|
    ensures GoodRef(s, u, s.lines[u].infos[i]) && u <= s.lastId
    ensures GoodInfo(s.lines[u].infos[i], |s.lines[u].data|)
    ensures Coherent(s.lines[u]) && GroupsAgree(s.lines[u].infos) && |s.lines[u].infos| == n
  {
    hide Indexed;
    assert GoodLine(s, u, n);
  }

  // ----- fingerprints ------------------------------------------------------------------------

  /** `hash` tells the byte strings of `seen` apart. */
  ghost predicate NoCollision(hash: seq<Byte> -> Fp, seen: set<seq<Byte>>) {
    forall a, b | a in seen && b in seen && hash(a) == hash(b) :: a == b
  }

  /** Whatever is stored has been seen, and is stored under its own fingerprint. */
  ghost predicate Honest(s: Store, hash: seq<Byte> -> Fp, seen: set<seq<Byte>>) {
    forall id, i: nat | id in s.lines && i < |s.lines[id].infos| && s.lines[id].infos[i].kind == STORED ::
      SlotData(s.lines[id], s.lines[id].infos[i]) in seen &&
      hash(SlotData(s.lines[id], s.lines[id].infos[i])) == s.lines[id].infos[i].compFp
  }

  ghost predicate HonestBatch(blocks: seq<DataBlock>, hash: seq<Byte> -> Fp, seen: set<seq<Byte>>) {
    forall i | 0 <= i < |blocks| :: blocks[i].compData in seen && hash(blocks[i].compData) == blocks[i].compFp
  }

  lemma {:induction false} HonestOwner(s: Store, n: nat, hash: seq<Byte> -> Fp, seen: set<seq<Byte>>, id: Id, fp: Fp)
    requires Honest(s, hash, seen) && id in s.lines && HasStored(s.lines[id].infos, fp)
    ensures StoredBytes(s.lines[id], fp) in seen && hash(StoredBytes(s.lines[id], fp)) == fp
  {
    var i := StoredBytesWitness(s.lines[id], fp);
  }

  /** Every block of every line stands for bytes with its fingerprint. */
  lemma {:induction false} ResolvesToFingerprint(s: Store, n: nat, hash: seq<Byte> -> Fp, seen: set<seq<Byte>>, id: Id,
                                                 i: nat)
    requires Inv(s, n) && Honest(s, hash, seen) && id in s.lines && i < |s.lines[id].infos|
    ensures Resolve(s, id, i) in seen && hash(Resolve(s, id, i)) == s.lines[id].infos[i].compFp
  {
    hide Inv, HasStored, StoredBytes, SlotData, Coherent;
    var info := s.lines[id].infos[i];
    RefOf(s, n, id, i);
    if info.kind == REF {
      HonestOwner(s, n, hash, seen, info.external, info.compFp);
    } else if info.kind == LOCAL {
      assert HasStored(s.lines[id].infos, info.compFp);
      HonestOwner(s, n, hash, seen, id, info.compFp);
    }
  }

  lemma {:induction false} EvictKeepsHonest(s: Store, n: nat, v: Id, s': Store, hash: seq<Byte> -> Fp,
                                            seen: set<seq<Byte>>)
    requires Inv(s, n) && EvictStep(s, v, s', n) && Honest(s, hash, seen)
    ensures Honest(s', hash, seen)
  {
    hide Inv, EvictStep, Resolve, SlotData;
    forall id, i: nat | id in s'.lines && i < |s'.lines[id].infos| && s'.lines[id].infos[i].kind == STORED
      ensures SlotData(s'.lines[id], s'.lines[id].infos[i]) in seen
      ensures hash(SlotData(s'.lines[id], s'.lines[id].infos[i])) == s'.lines[id].infos[i].compFp
    {
      EvictKeepsMeaning(s, n, v, s', id, i);
      ResolvesToFingerprint(s, n, hash, seen, id, i);
      ResolveStored(s', id, i);
    }
  }

  lemma {:induction false} ResolveStored(s: Store, id: Id, i: nat)
    requires id in s.lines && i < |s.lines[id].infos| && s.lines[id].infos[i].kind == STORED
    ensures Resolve(s, id, i) == SlotData(s.lines[id], s.lines[id].infos[i])
  {
  }

  lemma {:induction false} FlushKeepsHonest(s: Store, n: nat, blocks: seq<DataBlock>, s': Store, hash: seq<Byte> -> Fp,
                                            seen: set<seq<Byte>>)
    requires Inv(s, n) && FlushStep(s, blocks, s', n) && GoodBatch(blocks, n)
    requires Honest(s, hash, seen) && HonestBatch(blocks, hash, seen)
    ensures Honest(s', hash, seen)
  {
    hide Inv, LineOf, SlotData, EnterFresh, Deduped, GoodBatch, Consistent;
    BatchIsConsistent(s, n, blocks);
    forall id, i: nat | id in s'.lines && i < |s'.lines[id].infos| && s'.lines[id].infos[i].kind == STORED
      ensures SlotData(s'.lines[id], s'.lines[id].infos[i]) in seen
      ensures hash(SlotData(s'.lines[id], s'.lines[id].infos[i])) == s'.lines[id].infos[i].compFp
    {
      if id == NextId(s) {
        LineOfLength(blocks);
        FlushedInfos(blocks, i);
        FlushedData(blocks, n, i);
      }
    }
  }

  lemma {:induction false} FlushedData(blocks: seq<DataBlock>, n: nat, i: nat)
    requires GoodBatch(blocks, n) && Consistent(blocks) && i < n && !blocks[i].compDuplicated
    ensures i < |LineOf(blocks).infos| && SlotData(LineOf(blocks), LineOf(blocks).infos[i]) == blocks[i].compData
  {
    hide LineOf, Consistent, SlotData;
    LineOfLength(blocks);
    FreshLineWellFormed(blocks, n);
  }

  /** In its line every flushed block stands for its own compressed bytes, stored or not. */
  lemma {:induction false} FlushStoresBatch(s: Store, n: nat, blocks: seq<DataBlock>, s': Store, hash: seq<Byte> -> Fp,
                                            seen: set<seq<Byte>>, i: nat)
    requires Inv(s, n) && FlushStep(s, blocks, s', n) && GoodBatch(blocks, n) && i < n
    requires Honest(s, hash, seen) && HonestBatch(blocks, hash, seen) && NoCollision(hash, seen)
    ensures NextId(s) in s'.lines && i < |s'.lines[NextId(s)].infos|
    ensures Resolve(s', NextId(s), i) == blocks[i].compData
  {
    hide Inv, LineOf, Resolve, EnterFresh, Deduped, GoodBatch, Honest;
    LineOfLength(blocks);
    FlushKeepsInv(s, n, blocks, s');
    FlushKeepsHonest(s, n, blocks, s', hash, seen);
    ResolvesToFingerprint(s', n, hash, seen, NextId(s), i);
    FlushedInfos(blocks, i);
  }

  // ----- runs --------------------------------------------------------------------------------

  ghost predicate GoodFlush(s: Store, blocks: seq<DataBlock>, s': Store, n: nat, hash: seq<Byte> -> Fp,
                            seen: set<seq<Byte>>) {
    FlushStep(s, blocks, s', n) && GoodBatch(blocks, n) && HonestBatch(blocks, hash, seen)
  }

  /** One flush, or one eviction of a line. */
  ghost predicate Step(s: Store, s': Store, n: nat, hash: seq<Byte> -> Fp, seen: set<seq<Byte>>) {
    || (exists blocks :: GoodFlush(s, blocks, s', n, hash, seen))
    || (s.lines.Keys == s.meta.Keys && exists v :: EvictStep(s, v, s', n))
  }

  const EMPTY := Store(map[], map[], map[], 0)

  /** A run from the empty cache; `seen` holds all compressed byte strings that occur in it. */
  ghost predicate Run(trace: seq<Store>, n: nat, hash: seq<Byte> -> Fp, seen: set<seq<Byte>>) {
    && |trace| > 0 && trace[0] == EMPTY
    && forall k | 0 <= k < |trace| - 1 :: Step(trace[k], trace[k + 1], n, hash, seen)
  }

  lemma {:induction false} EmptyIsGood(n: nat, hash: seq<Byte> -> Fp, seen: set<seq<Byte>>)
    ensures Inv(EMPTY, n) && Honest(EMPTY, hash, seen)
  {
  }

  lemma {:induction false} StepKeepsInv(s: Store, s': Store, n: nat, hash: seq<Byte> -> Fp, seen: set<seq<Byte>>)
    requires Inv(s, n) && Honest(s, hash, seen) && Step(s, s', n, hash, seen)
    ensures Inv(s', n) && Honest(s', hash, seen) && s.lastId <= s'.lastId
    ensures forall id | id in s'.lines && id <= s.lastId :: id in s.lines
  {
    hide Inv, Honest, FlushStep, EvictStep, GoodBatch, HonestBatch;
    if blocks :| GoodFlush(s, blocks, s', n, hash, seen) {
      FlushKeepsInv(s, n, blocks, s');
      FlushKeepsHonest(s, n, blocks, s', hash, seen);
      FlushAddsOne(s, n, blocks, s');
    } else {
      var v :| EvictStep(s, v, s', n);
      EvictKeepsInv(s, n, v, s');
      EvictKeepsHonest(s, n, v, s', hash, seen);
      EvictedKeys(s, n, v, s');
    }
  }

  lemma {:induction false} FlushAddsOne(s: Store, n: nat, blocks: seq<DataBlock>, s': Store)
    requires Inv(s, n) && FlushStep(s, blocks, s', n)
    ensures s'.lines.Keys == s.lines.Keys + {NextId(s)} && s'.lastId == s.lastId + 1
  {
    hide LineOf, EnterFresh, GoodLine, Indexed, Deduped;
  }

  lemma {:induction false} StepKeepsMeaning(s: Store, s': Store, n: nat, hash: seq<Byte> -> Fp, seen: set<seq<Byte>>,
                                            id: Id, i: nat)
    requires Inv(s, n) && Step(s, s', n, hash, seen) && id in s.lines && id in s'.lines && i < |s.lines[id].infos|
    ensures i < |s'.lines[id].infos| && Resolve(s', id, i) == Resolve(s, id, i)
    ensures s'.lines[id].infos[i].compFp == s.lines[id].infos[i].compFp
  {
    hide Inv, FlushStep, EvictStep, GoodBatch, HonestBatch, Resolve;
    if blocks :| GoodFlush(s, blocks, s', n, hash, seen) {
      FlushKeepsMeaning(s, n, blocks, s', id, i);
    } else {
      var v :| EvictStep(s, v, s', n);
      EvictedLine(s, n, v, s', id);
      EvictKeepsMeaning(s, n, v, s', id, i);
    }
  }

  /** Every state of every run satisfies the invariant, and stores only bytes under their own fingerprint. */
  lemma {:induction false} RunIsGood(trace: seq<Store>, n: nat, hash: seq<Byte> -> Fp, seen: set<seq<Byte>>, k: nat)
    requires Run(trace, n, hash, seen) && k < |trace|
    ensures Inv(trace[k], n) && Honest(trace[k], hash, seen)
    decreases k
  {
    hide Inv, Honest, Step;
    if k == 0 {
      EmptyIsGood(n, hash, seen);
    } else {
      RunIsGood(trace, n, hash, seen, k - 1);
      StepKeepsInv(trace[k - 1], trace[k], n, hash, seen);
    }
  }

  /** In every reachable state the fingerprint index names exactly the live line that stores a fingerprint. */
  lemma {:induction false} IndexIsExact(trace: seq<Store>, n: nat, hash: seq<Byte> -> Fp, seen: set<seq<Byte>>, k: nat,
                                        fp: Fp, id: Id)
    requires Run(trace, n, hash, seen) && k < |trace|
    ensures fp in trace[k].fpIndex && trace[k].fpIndex[fp].addr == id <==>
            id in trace[k].lines && HasStored(trace[k].lines[id].infos, fp)
    ensures trace[k].lines.Keys == trace[k].meta.Keys
  {
    hide Inv, Honest, Run, HasStored;
    RunIsGood(trace, n, hash, seen, k);
    LastIdOf(trace[k], n);
    if fp in trace[k].fpIndex { IndexedFp(trace[k], n, fp); }
    if id in trace[k].lines && HasStored(trace[k].lines[id].infos, fp) { IndexedLine(trace[k], n, id, fp); }
  }

  /** In every reachable state a reference leads straight to an older live line that stores the block and lists the
      referring line; other blocks are stored in their own line. */
  lemma {:induction false} ReferencesAreDirect(trace: seq<Store>, n: nat, hash: seq<Byte> -> Fp, seen: set<seq<Byte>>,
                                               k: nat, id: Id, i: nat)
    requires Run(trace, n, hash, seen) && k < |trace|
    requires id in trace[k].lines && i < |trace[k].lines[id].infos|
    ensures var s := trace[k];
            var info := s.lines[id].infos[i];
            if info.kind == REF then
              && info.external in s.lines && info.external in s.meta && info.external < id
              && HasStored(s.lines[info.external].infos, info.compFp) && id in s.meta[info.external].refs
            else HasStored(s.lines[id].infos, info.compFp)
  {
    hide Inv, Honest, Run, HasStored;
    RunIsGood(trace, n, hash, seen, k);
    RefOf(trace[k], n, id, i);
  }

  /** Ids are never used again: a line of a later state with an old id has been there all along. */
  lemma {:induction false} LiveThroughout(trace: seq<Store>, n: nat, hash: seq<Byte> -> Fp, seen: set<seq<Byte>>,
                                          k: nat, l: nat, id: Id)
    requires Run(trace, n, hash, seen) && k <= l < |trace| && id in trace[l].lines && id <= trace[k].lastId
    ensures id in trace[k].lines
    ensures trace[k].lastId <= trace[l].lastId
    decreases l - k
  {
    hide Inv, Honest, Step;
    if k < l {
      RunIsGood(trace, n, hash, seen, k);
      StepKeepsInv(trace[k], trace[k + 1], n, hash, seen);
      LiveThroughout(trace, n, hash, seen, k + 1, l, id);
    }
  }

  /** Whatever is flushed and evicted in between, a block of a line that is still there stands for the same bytes. */
  lemma {:induction false} RunKeepsMeaning(trace: seq<Store>, n: nat, hash: seq<Byte> -> Fp, seen: set<seq<Byte>>,
                                           k: nat, l: nat, id: Id, i: nat)
    requires Run(trace, n, hash, seen) && k <= l < |trace|
    requires id in trace[k].lines && id in trace[l].lines && i < |trace[k].lines[id].infos|
    ensures i < |trace[l].lines[id].infos| && Resolve(trace[l], id, i) == Resolve(trace[k], id, i)
    decreases l - k
  {
    hide Inv, Honest, Step, Resolve;
    if k < l {
      RunIsGood(trace, n, hash, seen, k);
      SurvivorId(trace[k], n, id);
      StepKeepsInv(trace[k], trace[k + 1], n, hash, seen);
      LiveThroughout(trace, n, hash, seen, k + 1, l, id);
      StepKeepsMeaning(trace[k], trace[k + 1], n, hash, seen, id, i);
      RunKeepsMeaning(trace, n, hash, seen, k + 1, l, id, i);
    }
  }

  /** From its flush until its line is evicted, a block stands for its own compressed bytes. */
  lemma {:induction false} FlushedForGood(trace: seq<Store>, n: nat, hash: seq<Byte> -> Fp, seen: set<seq<Byte>>,
                                          k: nat, l: nat, blocks: seq<DataBlock>, i: nat)
    requires Run(trace, n, hash, seen) && NoCollision(hash, seen) && k < l < |trace| && i < n
    requires trace[k].lastId < NONE64 && GoodFlush(trace[k], blocks, trace[k + 1], n, hash, seen)
    requires NextId(trace[k]) in trace[l].lines
    ensures i < |trace[l].lines[NextId(trace[k])].infos|
    ensures Resolve(trace[l], NextId(trace[k]), i) == blocks[i].compData
  {
    hide Inv, Honest, Step, Resolve, FlushStep, GoodBatch, HonestBatch, NoCollision;
    RunIsGood(trace, n, hash, seen, k);
    BatchSize(blocks, n);
    FlushStoresBatch(trace[k], n, blocks, trace[k + 1], hash, seen, i);
    RunKeepsMeaning(trace, n, hash, seen, k + 1, l, NextId(trace[k]), i);
  }

  lemma {:induction false} BatchSize(blocks: seq<DataBlock>, n: nat)
    requires GoodBatch(blocks, n)
    ensures |blocks| == n
  {
  }
}
