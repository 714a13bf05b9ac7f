/** What happens to a batch between the buffer and the device, and what the indexes make of it. */
module FlushSteps {
  import opened Wrappers
  import opened Bits
  import opened Words
  import opened Cachelines
  import opened CachelineLaws
  import opened CachelineIndexes
  import opened CachePolicies
  import opened DataBlockBuffers
  import opened EvictionPlans
  import opened Evictions
  import opened FlushEstimates
  import opened Lz77Compressor
  import opened Lz77Dedup
  import opened Lz77Parses
  import Lz77Spec
  import opened PageManagers
  import opened PageOwnership
  import opened PairSerializer
  import opened Stores
  import opened StoreRuns

  // ----- compression -------------------------------------------------------------------------

  function RawsOf(blocks: seq<DataBlock>): (raws: seq<seq<Byte>>)
    ensures |raws| == |blocks| && forall i | 0 <= i < |blocks| :: raws[i] == blocks[i].rawData
  {
    seq(|blocks|, i requires 0 <= i < |blocks| => blocks[i].rawData)
  }

  function DupsOf(blocks: seq<DataBlock>): (dups: seq<bool>)
    ensures |dups| == |blocks| && forall i | 0 <= i < |blocks| :: dups[i] == blocks[i].rawDuplicated
  {
    seq(|blocks|, i requires 0 <= i < |blocks| => blocks[i].rawDuplicated)
  }

  /** No raw block exceeds the configured size. */
  predicate AllWithin(blocks: seq<DataBlock>, size: nat) {
    forall i | 0 <= i < |blocks| :: |blocks[i].rawData| <= size
  }

  /** Whatever the detector says, what the batch is stored as is in `seen`. */
  ghost predicate Foreseen(raws: seq<seq<Byte>>, seen: set<seq<Byte>>) {
    forall dups: seq<bool>, i: nat | |dups| == |raws| && i < |raws| :: CompressedBlock(raws, dups, i) in seen
  }

  /** The same write, whatever was found out about it since. */
  predicate SameWrite(a: DataBlock, b: DataBlock) {
    a.address == b.address && a.rawFp == b.rawFp && a.rawData == b.rawData
  }

  /** `done` is the batch `blocks` with its duplicate flags, compressed. */
  ghost predicate Compressed(blocks: seq<DataBlock>, done: seq<DataBlock>, hash: seq<Byte> -> Fp) {
    && |done| == |blocks|
    && forall i: nat | i < |done| ::
         && SameWrite(done[i], blocks[i]) && done[i].rawDuplicated == blocks[i].rawDuplicated
         && done[i].compData == CompressedBlock(RawsOf(blocks), DupsOf(blocks), i)
         && done[i].compFp == hash(done[i].compData)
  }

  /** What a block of the batch is stored as, without the functions of the compressor: the packed pairs of the one way
      to parse it, behind the raw data of the blocks in front of it and under its own duplicate flag. */
  lemma {:induction false} BatchIsParsed(blocks: seq<DataBlock>, done: seq<DataBlock>, hash: seq<Byte> -> Fp, i: nat)
    returns (rounds: seq<Lz77Spec.Step>)
    requires Compressed(blocks, done, hash) && i < |blocks|
    ensures |done| == |blocks| && done[i].compFp == hash(done[i].compData)
    ensures var data, begin, len := BatchData(RawsOf(blocks)), |BatchData(RawsOf(blocks)[..i])|, |blocks[i].rawData|;
            && begin + len <= |data| && data[begin..begin + len] == blocks[i].rawData
            && IsParse(data, begin, begin + len - 1, blocks[i].rawDuplicated, begin, rounds)
            && AllEncodable(PairsOf(rounds)) && done[i].compData == Packed(PairsOf(rounds))
  {
    hide BatchData, CompressedBlock, IsParse, Packed, PairsOf;
    rounds := StoredIsParsed(RawsOf(blocks), DupsOf(blocks), i);
  }

  /** A compressed batch is what its own raw blocks and flags compress to. */
  lemma {:induction false} CompressedItself(blocks: seq<DataBlock>, done: seq<DataBlock>, ready: seq<DataBlock>,
                                            hash: seq<Byte> -> Fp)
    requires Compressed(blocks, done, hash) && AllSameStored(done, ready)
    ensures Compressed(ready, ready, hash)
  {
    hide CompressedBlock;
    assert RawsOf(ready) == RawsOf(blocks) && DupsOf(ready) == DupsOf(blocks) by {
      forall i: nat | i < |ready|
        ensures ready[i].rawData == blocks[i].rawData && ready[i].rawDuplicated == blocks[i].rawDuplicated
      {
        assert SameStored(done[i], ready[i]) && SameWrite(done[i], blocks[i]);
      }
    }
    forall i: nat | i < |ready|
      ensures ready[i].compData == CompressedBlock(RawsOf(ready), DupsOf(ready), i)
      ensures ready[i].compFp == hash(ready[i].compData)
    {
      assert SameStored(done[i], ready[i]);
    }
  }

  /** Equal up to the two marks of deduplication. */
  predicate SameStored(a: DataBlock, b: DataBlock) {
    SameWrite(a, b) && a.rawDuplicated == b.rawDuplicated && a.compFp == b.compFp && a.compData == b.compData
  }

  ghost predicate AllSameStored(a: seq<DataBlock>, b: seq<DataBlock>) {
    |a| == |b| && forall i | 0 <= i < |a| :: SameStored(a[i], b[i])
  }

  /** What is stored, if it expands on its own, expands to the block; for a duplicate-flagged block it does. */
  ghost predicate Recoverable(b: DataBlock) {
    && (Expand(b.compData).Some? ==> Expand(b.compData) == Some(b.rawData))
    && (b.rawDuplicated ==> Expand(b.compData).Some?)
  }

  ghost predicate AllRecoverable(blocks: seq<DataBlock>) {
    forall i | 0 <= i < |blocks| :: Recoverable(blocks[i])
  }

  /** A compressed batch holds small, foreseen, recoverable blocks under their own fingerprints. */
  lemma {:induction false} CompressedBatch(blocks: seq<DataBlock>, done: seq<DataBlock>, hash: seq<Byte> -> Fp,
                                           seen: set<seq<Byte>>, size: nat)
    requires Compressed(blocks, done, hash) && AllWithin(blocks, size) && Foreseen(RawsOf(blocks), seen)
    ensures HonestBatch(done, hash, seen) && AllRecoverable(done)
    ensures forall i | 0 <= i < |done| :: |done[i].compData| <= MaxStored(size)
  {
    hide CompressedBlock, Expand;
    forall i: nat | i < |done|
      ensures done[i].compData in seen && Recoverable(done[i]) && |done[i].compData| <= MaxStored(size)
    {
      CompressedSize(RawsOf(blocks), DupsOf(blocks), i);
      ExpandsToBlock(RawsOf(blocks), DupsOf(blocks), i);
    }
  }

  lemma {:induction false} FreshIsSmall(blocks: seq<DataBlock>, max: nat)
    requires forall i | 0 <= i < |blocks| :: |blocks[i].compData| <= max
    ensures AllSmall(FreshData(blocks), max)
    decreases |blocks|
  {
    if blocks != [] {
      FreshIsSmall(blocks[..|blocks| - 1], max);
    }
  }

  /** Such a batch can be flushed. */
  lemma {:induction false} BatchIsGood(blocks: seq<DataBlock>, n: nat, max: nat, hash: seq<Byte> -> Fp,
                                       seen: set<seq<Byte>>)
    requires |blocks| == n < 256 && MetadataLen(n) + n * max < W32
    requires HonestBatch(blocks, hash, seen) && NoCollision(hash, seen)
    requires forall i | 0 <= i < |blocks| :: |blocks[i].compData| <= max
    ensures GoodBatch(blocks, n) && AllSmall(FreshData(blocks), max)
    ensures MetadataLen(n) + Total(FreshData(blocks)) < W32
  {
    hide FreshData, Total, AllSmall;
    FreshIsSmall(blocks, max);
    TotalOfSmall(FreshData(blocks), max);
    NotMore(|FreshData(blocks)|, n, max);
  }

  lemma {:induction false} MarkingKeepsBatch(a: seq<DataBlock>, b: seq<DataBlock>, hash: seq<Byte> -> Fp,
                                             seen: set<seq<Byte>>, max: nat)
    requires AllSameStored(a, b) && HonestBatch(a, hash, seen) && AllRecoverable(a)
    requires forall i | 0 <= i < |a| :: |a[i].compData| <= max
    ensures HonestBatch(b, hash, seen) && AllRecoverable(b)
    ensures forall i | 0 <= i < |b| :: |b[i].compData| <= max
  {
    hide Expand;
    forall i | 0 <= i < |b|
      ensures b[i].compData in seen && hash(b[i].compData) == b[i].compFp
      ensures Recoverable(b[i]) && |b[i].compData| <= max
    {
      assert SameStored(a[i], b[i]) && Recoverable(a[i]);
    }
  }

  // ----- the address index -------------------------------------------------------------------

  /** The index knows, for every address, the compressed fingerprint of its latest flushed write. */
  ghost predicate LastFlushed(lba: map<U64, Fp>, flushed: seq<DataBlock>) {
    forall a: U64 ::
      match LastAt(flushed, a)
      case None => a !in lba
      case Some(b) => a in lba && lba[a] == b.compFp
  }

  lemma {:induction false} FlushedOneMore(lba: map<U64, Fp>, flushed: seq<DataBlock>, b: DataBlock)
    requires LastFlushed(lba, flushed)
    ensures LastFlushed(lba[b.address := b.compFp], flushed + [b])
  {
    assert (flushed + [b])[..|flushed|] == flushed;
    forall a: U64
      ensures LastAt(flushed + [b], a) == if a == b.address then Some(b) else LastAt(flushed, a)
    {
    }
  }

  lemma {:induction false} LastAtBoth(x: seq<DataBlock>, y: seq<DataBlock>, a: U64)
    ensures LastAt(x + y, a) == if LastAt(y, a).Some? then LastAt(y, a) else LastAt(x, a)
    decreases |y|
  {
    if y == [] {
      assert x + y == x;
    } else {
      assert (x + y)[..|x + y| - 1] == x + y[..|y| - 1];
      LastAtBoth(x, y[..|y| - 1], a);
    }
  }

  /** All writes so far are the flushed ones and then the buffered ones. */
  ghost predicate Tracks(written: seq<DataBlock>, flushed: seq<DataBlock>, buffered: seq<DataBlock>) {
    && |written| == |flushed| + |buffered| && written[|flushed|..] == buffered
    && forall i | 0 <= i < |flushed| :: SameWrite(flushed[i], written[i])
  }

  lemma {:induction false} LastOfSame(a: seq<DataBlock>, b: seq<DataBlock>, address: U64)
    requires |a| == |b| && forall i | 0 <= i < |a| :: SameWrite(a[i], b[i])
    ensures LastAt(a, address).Some? == LastAt(b, address).Some?
    ensures LastAt(a, address).Some? ==> SameWrite(LastAt(a, address).value, LastAt(b, address).value)
    decreases |a|
  {
    if a != [] {
      LastOfSame(a[..|a| - 1], b[..|b| - 1], address);
    }
  }

  lemma {:induction false} LastAtIsIn(blocks: seq<DataBlock>, a: U64) returns (i: nat)
    requires LastAt(blocks, a).Some?
    ensures i < |blocks| && blocks[i] == LastAt(blocks, a).value && blocks[i].address == a
    decreases |blocks|
  {
    if blocks[|blocks| - 1].address == a {
      i := |blocks| - 1;
    } else {
      i := LastAtIsIn(blocks[..|blocks| - 1], a);
    }
  }

  /** Last writer wins: the latest write to an address is the buffered one if there is one, else the flushed one. */
  lemma {:induction false} LatestWrite(written: seq<DataBlock>, flushed: seq<DataBlock>, buffered: seq<DataBlock>,
                                       a: U64)
    requires Tracks(written, flushed, buffered)
    ensures LastAt(buffered, a).Some? ==> LastAt(written, a) == LastAt(buffered, a)
    ensures LastAt(buffered, a).None? ==> LastAt(written, a).Some? == LastAt(flushed, a).Some?
    ensures LastAt(buffered, a).None? && LastAt(flushed, a).Some? ==>
              SameWrite(LastAt(written, a).value, LastAt(flushed, a).value)
  {
    var front := written[..|flushed|];
    assert written == front + buffered;
    LastAtBoth(front, buffered, a);
    LastOfSame(flushed, front, a);
  }

  lemma {:induction false} TracksFlush(written: seq<DataBlock>, flushed: seq<DataBlock>, buffered: seq<DataBlock>,
                                       done: seq<DataBlock>)
    requires Tracks(written, flushed, buffered) && |done| == |buffered|
    requires forall i | 0 <= i < |done| :: SameWrite(done[i], buffered[i])
    ensures Tracks(written, flushed + done, [])
  {
    var all := flushed + done;
    forall i | 0 <= i < |all| ensures SameWrite(all[i], written[i]) {
      if i >= |flushed| { assert written[i] == buffered[i - |flushed|]; }
    }
  }

  // ----- the fingerprint index after an eviction ---------------------------------------------

  /** Where a fingerprint leads once the evicting cache dealt with it. */
  function FateOf(index: map<Fp, FpData>, moved: map<Fp, Id>, v: Id, fp: Fp): Option<FpData> {
    if fp !in index then None
    else if fp !in moved then Some(index[fp])
    else if moved[fp] != v then Some(FpData(moved[fp], 0))
    else if index[fp].addr == v then None
    else Some(index[fp])
  }

  function Find(index: map<Fp, FpData>, fp: Fp): Option<FpData> {
    if fp in index then Some(index[fp]) else None
  }

  /** The fates are those of an eviction. */
  lemma {:induction false} FatesEvict(s: Store, n: nat, v: Id, s': Store, refs: map<Id, IndexData>, moved: map<Fp, Id>,
                                      lines: map<Id, Cacheline>, fp: Fp)
    requires Inv(s, n) && s.lines.Keys == s.meta.Keys && v in s.lines && Removed(s, n, v, refs, moved, lines)
    requires Find(s'.fpIndex, fp) == FateOf(s.fpIndex, moved, v, fp)
    ensures FpEvicted(s, v, s', fp)
  {
    hide Inv, Users, LineEvicted, TakenOver, FpsOf, HasStored;
    if Users(s, v, fp) != {} {
      hide IsHead;
      var w :| w in Users(s, v, fp);
      UserOwner(s, n, v, fp, w);
      HeadIsId(s, n, v, fp, moved[fp]);
    } else if fp in s.fpIndex && s.fpIndex[fp].addr == v {
      IndexedFp(s, n, fp);
      StoredFp(s.lines[v], fp);
    }
  }

  lemma {:induction false} StoredFp(line: Cacheline, fp: Fp)
    requires HasStored(line.infos, fp)
    ensures fp in FpsOf(line)
  {
  }

  /** What the cache records after a removal is an eviction of the line. */
  lemma {:induction false} RemovalEvicts(s: Store, n: nat, v: Id, s': Store, refs: map<Id, IndexData>,
                                         moved: map<Fp, Id>, lines: map<Id, Cacheline>)
    requires Inv(s, n) && s.lines.Keys == s.meta.Keys && v in s.lines && Removed(s, n, v, refs, moved, lines)
    requires s'.lines == lines - {v} && s'.meta == (s.meta - {v}) + refs && s'.lastId == s.lastId
    requires forall fp: Fp :: Find(s'.fpIndex, fp) == FateOf(s.fpIndex, moved, v, fp)
    ensures EvictStep(s, v, s', n)
  {
    hide Inv, Users, LineEvicted, TakenOver, FpEvicted;
    forall fp: Fp ensures FpEvicted(s, v, s', fp) {
      FatesEvict(s, n, v, s', refs, moved, lines, fp);
    }
    forall h | h in s'.meta ensures RefsEvicted(s, v, s', h) {
      if h in refs {
        assert s'.meta[h] == refs[h];
      } else {
        assert s'.meta[h] == s.meta[h];
      }
    }
  }

  // ----- referrers of a new line -------------------------------------------------------------

  /** The line index once the blocks of line `id` told the lines they use, one after the other. */
  function Referred(data: map<Id, IndexData>, blocks: seq<DataBlock>, id: Id): map<Id, IndexData> {
    if blocks == [] then data
    else
      var b := blocks[|blocks| - 1];
      var before := Referred(data, blocks[..|blocks| - 1], id);
      if b.compDuplicated then WithRef(before, b.external, id) else before
  }

  lemma {:induction false} ReferredIs(data: map<Id, IndexData>, blocks: seq<DataBlock>, id: Id, u: Id)
    ensures Referred(data, blocks, id).Keys == data.Keys
    ensures u in data ==>
              var r := Referred(data, blocks, id)[u];
              && r.timeStamp == data[u].timeStamp && r.pages == data[u].pages
              && r.refs == data[u].refs + (if UsesLine(blocks, u) then {id} else {})
    decreases |blocks|
  {
    if blocks != [] {
      var front, b := blocks[..|blocks| - 1], blocks[|blocks| - 1];
      ReferredIs(data, front, id, u);
      UsesLineOneMore(front, b, u);
      assert blocks == front + [b];
    }
  }

  lemma {:induction false} UsesLineOneMore(front: seq<DataBlock>, b: DataBlock, u: Id)
    ensures UsesLine(front + [b], u) <==> UsesLine(front, u) || (b.compDuplicated && b.external == u)
  {
    var all := front + [b];
    if UsesLine(front, u) {
      var i :| 0 <= i < |front| && front[i].compDuplicated && front[i].external == u;
      assert all[i].compDuplicated && all[i].external == u;
    }
    if b.compDuplicated && b.external == u {
      assert all[|front|].compDuplicated && all[|front|].external == u;
    }
  }

  lemma {:induction false} NewLineUnused(s: Store, n: nat, blocks: seq<DataBlock>)
    requires Inv(s, n) && s.lastId < NONE64 && Deduped(s, blocks)
    ensures NextId(s) !in s.lines && !UsesLine(blocks, NextId(s))
  {
    hide Inv, HasStored;
    if NextId(s) in s.lines { SurvivorId(s, n, NextId(s)); }
    forall i | 0 <= i < |blocks| && blocks[i].compDuplicated ensures blocks[i].external != NextId(s) {
      IndexedFp(s, n, blocks[i].compFp);
      SurvivorId(s, n, blocks[i].external);
    }
  }

  /** What the cache records for a batch is a flush. */
  lemma {:induction false} RecordingFlushes(s: Store, n: nat, blocks: seq<DataBlock>, s': Store, pages: seq<nat>)
    requires Inv(s, n) && s.lastId + 1 < NONE64 && |blocks| == n && Deduped(s, blocks)
    requires s'.lastId == NextId(s) && s'.lines == s.lines[NextId(s) := LineOf(blocks)]
    requires s'.meta == Referred(s.meta[NextId(s) := IndexData(0, pages, {})], blocks, NextId(s))
    requires s'.fpIndex == EnterFresh(s.fpIndex, blocks, NextId(s))
    ensures FlushStep(s, blocks, s', n)
  {
    hide Inv, Deduped, EnterFresh, Referred, LineOf, UsesLine;
    var id := NextId(s);
    var data := s.meta[id := IndexData(0, pages, {})];
    NewLineUnused(s, n, blocks);
    ReferredIs(data, blocks, id, id);
    LastIdOf(s, n);
    forall u | u in s.meta && u != id
      ensures s'.meta[u].timeStamp == s.meta[u].timeStamp
      ensures s'.meta[u].refs == s.meta[u].refs + (if UsesLine(blocks, u) then {id} else {})
    {
      ReferredIs(data, blocks, id, u);
    }
  }

  /** The replacement order once the lines used by the blocks came to the front, one after the other. */
  function PromotedAll(keys: seq<Id>, blocks: seq<DataBlock>): seq<Id> {
    if blocks == [] then keys
    else
      var b := blocks[|blocks| - 1];
      var before := PromotedAll(keys, blocks[..|blocks| - 1]);
      if b.compDuplicated then Promoted(before, b.external) else before
  }

  // ----- sizes and runs ----------------------------------------------------------------------

  /** No block of any line stands for more than `max` bytes. */
  lemma {:induction false} ResolvesSmall(s: Store, n: nat, max: nat, u: Id, i: nat)
    requires Inv(s, n) && SmallStore(s, n, max) && u in s.lines && i < |s.lines[u].infos|
    ensures |Resolve(s, u, i)| <= max
  {
    hide Inv, StoredBytes, HasStored, SlotData, Coherent, SmallStore, GroupsAgree;
    RefOf(s, n, u, i);
    var info := s.lines[u].infos[i];
    if info.kind == REF {
      SmallStored(s, n, max, info.external, info.compFp);
    } else if info.kind == STORED {
      StoredInSlot(s, n, u, i);
      SmallLine(s, n, max, u);
    } else {
      assert HasStored(s.lines[u].infos, info.compFp) by { GroupStores(s.lines[u].infos, i); }
      SmallStored(s, n, max, u, info.compFp);
    }
  }

  lemma {:induction false} GroupStores(infos: seq<BlockInfo>, i: nat)
    requires GroupsAgree(infos) && i < |infos| && infos[i].kind != REF
    ensures HasStored(infos, infos[i].compFp)
  {
    hide HasStored;
  }

  lemma {:induction false} SmallLine(s: Store, n: nat, max: nat, u: Id)
    requires SmallStore(s, n, max) && u in s.lines
    ensures AllSmall(s.lines[u].data, max) && MetadataLen(n) + n * max < W32
  {
  }

  lemma {:induction false} SlotIsUsed(line: Cacheline, n: nat, d: seq<Byte>) returns (i: nat)
    requires WellFormed(line, n) && d in line.data
    ensures i < |line.infos| && line.infos[i].kind == STORED && SlotData(line, line.infos[i]) == d
  {
    hide WellLaidOut, GroupsAgree, Coherent, GoodInfo;
    var slot :| 0 <= slot < |line.data| && line.data[slot] == d;
    assert SlotUsed(line.infos, slot);
    i :| 0 <= i < |line.infos| && line.infos[i].kind == STORED && line.infos[i].posIndex == slot;
  }

  /** Evicting moves blocks but makes none longer. */
  lemma {:induction false} EvictKeepsSmall(s: Store, n: nat, max: nat, v: Id, s': Store)
    requires Inv(s, n) && SmallStore(s, n, max) && EvictStep(s, v, s', n)
    ensures SmallStore(s', n, max)
  {
    hide Inv, EvictStep, Resolve, SlotData, WellFormed, Coherent, BlockEvicted, GoodRef, GoodInfo;
    forall u, d | u in s'.lines && d in s'.lines[u].data ensures |d| <= max {
      EvictedLine(s, n, v, s', u);
      var i := SlotIsUsed(s'.lines[u], n, d);
      ResolveStored(s', u, i);
      EvictKeepsMeaning(s, n, v, s', u, i);
      ResolvesSmall(s, n, max, u, i);
    }
  }

  lemma {:induction false} FlushKeepsSmall(s: Store, n: nat, max: nat, blocks: seq<DataBlock>, s': Store)
    requires SmallStore(s, n, max) && AllSmall(FreshData(blocks), max)
    requires s.lastId < NONE64 && s'.lines == s.lines[NextId(s) := LineOf(blocks)]
    ensures SmallStore(s', n, max)
  {
    hide AllSmall, FreshData;
    assert LineOf(blocks).data == FreshData(blocks);
  }

  lemma {:induction false} RunOneMore(trace: seq<Store>, s: Store, n: nat, hash: seq<Byte> -> Fp, seen: set<seq<Byte>>)
    requires Run(trace, n, hash, seen) && Step(trace[|trace| - 1], s, n, hash, seen)
    ensures Run(trace + [s], n, hash, seen)
  {
    hide Step;
    var more := trace + [s];
    forall k | 0 <= k < |more| - 1 ensures Step(more[k], more[k + 1], n, hash, seen) {
      if k < |trace| - 1 { assert Step(trace[k], trace[k + 1], n, hash, seen); }
    }
  }

  /** From state `from` on the run only evicts lines without referrers. */
  ghost predicate OnlyEvicts(trace: seq<Store>, from: int, n: nat) {
    forall k | 0 <= k && from <= k < |trace| - 1 :: Evicts(trace[k], trace[k + 1], n)
  }

  ghost predicate Evicts(s: Store, s': Store, n: nat) {
    s.lines.Keys == s.meta.Keys && exists v :: EvictStep(s, v, s', n) && Idle(s.meta, v)
  }

  /** Only while there were too few free pages was anything evicted. */
  ghost predicate ShortBefore(trace: seq<Store>, from: int, size: nat, need: nat) {
    forall k | 0 <= k && from <= k < |trace| - 1 :: |FreePages(trace[k].meta, size)| < need
  }

  lemma {:induction false} NothingShort(trace: seq<Store>, size: nat, need: nat)
    ensures ShortBefore(trace, |trace| - 1, size, need)
  {
  }

  lemma {:induction false} ShortOnceMore(trace: seq<Store>, s: Store, from: int, size: nat, need: nat)
    requires trace != [] && ShortBefore(trace, from, size, need)
    requires |FreePages(trace[|trace| - 1].meta, size)| < need
    ensures ShortBefore(trace + [s], from, size, need)
  {
    hide FreePages;
    var more := trace + [s];
    forall k | 0 <= k && from <= k < |more| - 1 ensures |FreePages(more[k].meta, size)| < need {
      assert more[k] == trace[k];
    }
  }

  /** A line nobody was ever told to refer to. */
  ghost predicate Idle(data: map<Id, IndexData>, v: Id) {
    v in data && data[v].refs == {}
  }

  lemma {:induction false} EvictsOneMore(trace: seq<Store>, s: Store, from: int, n: nat)
    requires trace != [] && OnlyEvicts(trace, from, n) && Evicts(trace[|trace| - 1], s, n)
    ensures OnlyEvicts(trace + [s], from, n)
  {
    hide Evicts;
    var more := trace + [s];
    forall k | 0 <= k && from <= k < |more| - 1 ensures Evicts(more[k], more[k + 1], n) {
      if k < |trace| - 1 { assert Evicts(trace[k], trace[k + 1], n); }
    }
  }

  lemma {:induction false} IdleHasNoUsers(s: Store, n: nat, v: Id)
    requires Inv(s, n) && v in s.lines && Idle(s.meta, v)
    ensures forall fp: Fp :: Users(s, v, fp) == {}
  {
    hide Inv, Users;
    forall fp: Fp ensures Users(s, v, fp) == {} {
      if u :| u in Users(s, v, fp) { UserInRefs(s, n, v, fp, u); }
    }
  }

  /** Evicting a line without referrers moves nothing: the other lines stay as they are, and the fingerprints that led
      to it are forgotten. */
  lemma {:induction false} IdleEviction(s: Store, n: nat, v: Id, s': Store)
    requires Inv(s, n) && EvictStep(s, v, s', n) && Idle(s.meta, v)
    ensures s'.lines == s.lines - {v}
    ensures forall fp: Fp :: Users(s, v, fp) == {}
    ensures forall fp: Fp ::
              Find(s'.fpIndex, fp) == if fp in s.fpIndex && s.fpIndex[fp].addr == v then None else Find(s.fpIndex, fp)
  {
    hide Inv, EvictStep, Users, IsHead;
    EvictedKeys(s, n, v, s');
    IdleHasNoUsers(s, n, v);
    forall u | u in s'.lines ensures s'.lines[u] == s.lines[u] {
      IdleLeaves(s, n, v, s', u);
    }
    forall fp: Fp ensures Find(s'.fpIndex, fp) ==
                          if fp in s.fpIndex && s.fpIndex[fp].addr == v then None else Find(s.fpIndex, fp) {
      EvictedFp(s, n, v, s', fp);
    }
  }

  lemma {:induction false} IdleLeaves(s: Store, n: nat, v: Id, s': Store, u: Id)
    requires Inv(s, n) && EvictStep(s, v, s', n) && u in s'.lines
    requires forall fp: Fp :: Users(s, v, fp) == {}
    ensures u in s.lines && s'.lines[u] == s.lines[u]
  {
    hide Inv, EvictStep, IsHead, FirstAt, WellFormed, GoodRef, GoodInfo, Coherent;
    EvictedLine(s, n, v, s', u);
    var a, b := s.lines[u], s'.lines[u];
    forall i: nat | i < n ensures b.infos[i] == a.infos[i] {
      assert BlockEvicted(s, v, u, b, i);
      NotAReferrer(s, v, u, i);
    }
    assert a.infos == b.infos;
    SameInfos(a, b, n);
  }

  lemma {:induction false} NotAReferrer(s: Store, v: Id, u: Id, i: nat)
    requires u in s.lines && u != v && i < |s.lines[u].infos| && forall fp: Fp :: Users(s, v, fp) == {}
    ensures s.lines[u].infos[i].kind == REF ==> s.lines[u].infos[i].external != v
  {
    assert u !in Users(s, v, s.lines[u].infos[i].compFp);
  }

  /** A well-formed line is fixed by its entries and the bytes they store. */
  lemma {:induction false} SameInfos(a: Cacheline, b: Cacheline, n: nat)
    requires WellFormed(a, n) && WellFormed(b, n) && a.infos == b.infos && a.data <= b.data
    ensures a == b
  {
    hide GroupsAgree, Coherent, SlotsMatch, GoodInfo;
    SlotsReach(a, b, n);
    assert a.data == b.data;
  }

  lemma {:induction false} SlotsReach(a: Cacheline, b: Cacheline, n: nat)
    requires WellFormed(a, n) && WellFormed(b, n) && a.infos == b.infos
    ensures |b.data| <= |a.data|
  {
    hide GroupsAgree, Coherent, WellLaidOut;
    if |b.data| > 0 {
      assert SlotUsed(b.infos, |b.data| - 1);
      var i :| 0 <= i < |b.infos| && b.infos[i].kind == STORED && b.infos[i].posIndex == |b.data| - 1;
      InfoFits(a, n, i);
    }
  }

  lemma {:induction false} InfoFits(line: Cacheline, n: nat, i: nat)
    requires WellFormed(line, n) && i < |line.infos| && line.infos[i].kind == STORED
    ensures line.infos[i].posIndex < |line.data|
  {
    hide GroupsAgree, Coherent, SlotsMatch;
    assert GoodInfo(line.infos[i], |line.data|);
  }

  /** An eviction is a step of a run. */
  lemma {:induction false} EvictionIsStep(s: Store, v: Id, s': Store, n: nat, hash: seq<Byte> -> Fp,
                                          seen: set<seq<Byte>>)
    requires s.lines.Keys == s.meta.Keys && EvictStep(s, v, s', n)
    ensures Step(s, s', n, hash, seen)
    ensures Idle(s.meta, v) ==> Evicts(s, s', n)
  {
    hide EvictStep, GoodFlush, Idle;
  }

  lemma {:induction false} FlushIsStep(s: Store, blocks: seq<DataBlock>, s': Store, n: nat, hash: seq<Byte> -> Fp,
                                       seen: set<seq<Byte>>)
    requires GoodFlush(s, blocks, s', n, hash, seen)
    ensures Step(s, s', n, hash, seen)
  {
    hide EvictStep, GoodFlush;
  }
}
