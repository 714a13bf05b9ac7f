/** Where the entries of the fingerprint index and of the lines come from: the blocks as they were flushed
    (src/cd_cache.cpp:135-147, src/ssd_proxy.cpp:21-61). */
module Provenances {
  import opened Wrappers
  import opened Cachelines
  import opened FlushSteps
  import opened Stores
  import opened StoreRuns

  /** The batch of line `id`: flushes put `n` blocks into a line each, in order. */
  function BatchOf(flushed: seq<DataBlock>, n: nat, id: nat): seq<DataBlock> {
    if 1 <= id && n * (id - 1) <= n * id <= |flushed| then flushed[n * (id - 1)..n * id] else []
  }

  /** Of the blocks with this fingerprint the last one has this raw fingerprint. */
  ghost predicate LastHas(batch: seq<DataBlock>, fp: Fp, rawFp: Fp) {
    exists i: nat :: i < |batch| && batch[i].compFp == fp && batch[i].rawFp == rawFp &&
                     forall j | i < j < |batch| :: batch[j].compFp != fp
  }

  /** The entries of a line are those of the batch it was flushed from: none was moved into the line. */
  ghost predicate IsOf(line: Cacheline, batch: seq<DataBlock>) {
    |line.infos| == |batch| > 0 &&
    forall i: nat | i < |batch| ::
      && line.infos[i].kind != LOCAL && line.infos[i].compFp == batch[i].compFp
      && line.infos[i].rawFp == batch[i].rawFp && line.infos[i].rawLen == |batch[i].rawData| % 0x1_0000_0000
  }

  /** Every line, and every entry of the index, is as its batch was flushed. */
  ghost predicate AsFlushed(lines: map<Id, Cacheline>, index: map<Fp, FpData>, flushed: seq<DataBlock>, n: nat) {
    && (forall id | id in lines :: IsOf(lines[id], BatchOf(flushed, n, id)))
    && (forall fp | fp in index :: LastHas(BatchOf(flushed, n, index[fp].addr), fp, index[fp].rawFp))
  }

  lemma {:induction false} NothingFlushed(n: nat)
    ensures AsFlushed(map[], map[], [], n)
  {
  }

  /** Forgetting keeps that. */
  lemma {:induction false} FewerLines(lines: map<Id, Cacheline>, index: map<Fp, FpData>, index': map<Fp, FpData>,
                                      flushed: seq<DataBlock>, n: nat, v: Id)
    requires AsFlushed(lines, index, flushed, n)
    requires forall fp: Fp ::
               Find(index', fp) == if fp in index && index[fp].addr == v then None else Find(index, fp)
    ensures AsFlushed(lines - {v}, index', flushed, n)
  {
    hide LastHas, BatchOf, IsOf;
    forall fp | fp in index' ensures LastHas(BatchOf(flushed, n, index'[fp].addr), fp, index'[fp].rawFp) {
      assert Find(index', fp) == Find(index, fp);
    }
  }

  lemma {:induction false} OlderBatch(flushed: seq<DataBlock>, done: seq<DataBlock>, n: nat, id: nat)
    requires BatchOf(flushed, n, id) != []
    ensures BatchOf(flushed + done, n, id) == BatchOf(flushed, n, id)
  {
    assert (flushed + done)[n * (id - 1)..n * id] == flushed[n * (id - 1)..n * id];
  }

  lemma {:induction false} NewBatch(flushed: seq<DataBlock>, done: seq<DataBlock>, n: nat, id: nat)
    requires id >= 1 && |flushed| == n * (id - 1) && |done| == n
    ensures BatchOf(flushed + done, n, id) == done
  {
    assert n * id == n * (id - 1) + n;
  }

  /** What a line says of its blocks. */
  lemma {:induction false} LineIsOf(blocks: seq<DataBlock>, done: seq<DataBlock>)
    requires AllSameStored(done, blocks) && 1 <= |blocks| < 256
    ensures IsOf(LineOf(blocks), done)
  {
    hide LineOf, SameWrite;
    LineOfLength(blocks);
    forall i: nat | i < |done|
      ensures LineOf(blocks).infos[i].kind != LOCAL && LineOf(blocks).infos[i].compFp == done[i].compFp
      ensures LineOf(blocks).infos[i].rawFp == done[i].rawFp
      ensures LineOf(blocks).infos[i].rawLen == |done[i].rawData| % 0x1_0000_0000
    {
      FlushedEntry(blocks, i);
      SameEntry(done, blocks, i);
    }
  }

  lemma {:induction false} SameEntry(done: seq<DataBlock>, blocks: seq<DataBlock>, i: nat)
    requires AllSameStored(done, blocks) && i < |blocks|
    ensures done[i].compFp == blocks[i].compFp && done[i].rawFp == blocks[i].rawFp
    ensures done[i].rawData == blocks[i].rawData
  {
    assert SameStored(done[i], blocks[i]);
  }

  /** What a flush enters in the index. */
  lemma {:induction false} EnteredIsOf(s: Store, blocks: seq<DataBlock>, done: seq<DataBlock>, id: Id, fp: Fp)
    requires Deduped(s, blocks) && AllSameStored(done, blocks) && Fresh(blocks, fp)
    ensures var index := EnterFresh(s.fpIndex, blocks, id);
            fp in index && index[fp].addr == id && LastHas(done, fp, index[fp].rawFp)
  {
    hide EnterFresh, SameStored;
    var i := FindLastFresh(blocks, fp);
    EnteredAs(s.fpIndex, blocks, id, i);
    SameEntry(done, blocks, i);
    forall j | i < j < |done| ensures done[j].compFp != fp {
      SameEntry(done, blocks, j);
      assert blocks[j].compDuplicated == (blocks[j].compFp in s.fpIndex);
      assert blocks[i].compDuplicated == (blocks[i].compFp in s.fpIndex);
    }
  }

  lemma {:induction false} BatchIsThere(line: Cacheline, batch: seq<DataBlock>)
    requires IsOf(line, batch)
    ensures batch != []
  {
  }

  lemma {:induction false} LastIsThere(batch: seq<DataBlock>, fp: Fp, rawFp: Fp)
    requires LastHas(batch, fp, rawFp)
    ensures batch != []
  {
  }

  lemma {:induction false} SameCount(a: seq<DataBlock>, b: seq<DataBlock>)
    requires AllSameStored(a, b)
    ensures |a| == |b|
  {
  }

  /** A flush keeps it. */
  lemma {:induction false} OneMoreLine(s: Store, flushed: seq<DataBlock>, n: nat, blocks: seq<DataBlock>,
                                       done: seq<DataBlock>, id: Id)
    requires AsFlushed(s.lines, s.fpIndex, flushed, n) && Deduped(s, blocks) && AllSameStored(done, blocks)
    requires 1 <= n < 256 && |blocks| == n && id >= 1 && |flushed| == n * (id - 1)
    ensures AsFlushed(s.lines[id := LineOf(blocks)], EnterFresh(s.fpIndex, blocks, id), flushed + done, n)
  {
    hide LineOf, EnterFresh, BatchOf, IsOf, LastHas, Fresh, Deduped, AllSameStored;
    var index := EnterFresh(s.fpIndex, blocks, id);
    SameCount(done, blocks);
    NewBatch(flushed, done, n, id);
    LineIsOf(blocks, done);
    forall u | u in s.lines && u != id ensures IsOf(s.lines[u], BatchOf(flushed + done, n, u)) {
      BatchIsThere(s.lines[u], BatchOf(flushed, n, u));
      OlderBatch(flushed, done, n, u);
    }
    forall fp | fp in index ensures LastHas(BatchOf(flushed + done, n, index[fp].addr), fp, index[fp].rawFp) {
      Entered(s.fpIndex, blocks, id, fp);
      if Fresh(blocks, fp) {
        EnteredIsOf(s, blocks, done, id, fp);
      } else {
        LastIsThere(BatchOf(flushed, n, index[fp].addr), fp, index[fp].rawFp);
        OlderBatch(flushed, done, n, index[fp].addr);
      }
    }
  }

  /** A flushed batch is a batch of writes, as far as its writes go. */
  lemma {:induction false} BatchOfWrites(written: seq<DataBlock>, flushed: seq<DataBlock>, buffered: seq<DataBlock>,
                                         n: nat, id: nat)
    requires Tracks(written, flushed, buffered) && BatchOf(flushed, n, id) != []
    ensures |BatchOf(written, n, id)| == |BatchOf(flushed, n, id)|
    ensures forall k | 0 <= k < |BatchOf(flushed, n, id)| ::
              SameWrite(BatchOf(flushed, n, id)[k], BatchOf(written, n, id)[k])
  {
    var from, till := n * (id - 1), n * id;
    SliceOfWrites(written, flushed, buffered, from, till);
  }

  lemma {:induction false} SliceOfWrites(written: seq<DataBlock>, flushed: seq<DataBlock>, buffered: seq<DataBlock>,
                                         from: nat, till: nat)
    requires Tracks(written, flushed, buffered) && from <= till <= |flushed|
    ensures |flushed| <= |written|
    ensures forall k | 0 <= k < till - from :: SameWrite(flushed[from..till][k], written[from..till][k])
  {
    hide SameWrite;
    forall k | 0 <= k < till - from ensures SameWrite(flushed[from..till][k], written[from..till][k]) {
      assert SameWrite(flushed[from + k], written[from + k]);
    }
  }

  lemma {:induction false} SameRawFp(a: DataBlock, b: DataBlock)
    requires SameWrite(a, b)
    ensures a.rawFp == b.rawFp && a.rawData == b.rawData
  {
  }

  lemma {:induction false} EntryFrom(lines: map<Id, Cacheline>, index: map<Fp, FpData>, flushed: seq<DataBlock>, n: nat,
                                     fp: Fp) returns (k: nat)
    requires AsFlushed(lines, index, flushed, n) && fp in index
    ensures var batch := BatchOf(flushed, n, index[fp].addr);
            && k < |batch| && batch[k].compFp == fp && batch[k].rawFp == index[fp].rawFp
            && forall j | k < j < |batch| :: batch[j].compFp != fp
  {
    hide IsOf, BatchOf;
    var batch := BatchOf(flushed, n, index[fp].addr);
    k :| k < |batch| && batch[k].compFp == fp && batch[k].rawFp == index[fp].rawFp &&
         forall j | k < j < |batch| :: batch[j].compFp != fp;
  }

  lemma {:induction false} LineEntryFrom(lines: map<Id, Cacheline>, index: map<Fp, FpData>, flushed: seq<DataBlock>,
                                         n: nat, id: Id, i: nat)
    requires AsFlushed(lines, index, flushed, n) && id in lines && i < |lines[id].infos|
    ensures |BatchOf(flushed, n, id)| == |lines[id].infos|
    ensures var info, b := lines[id].infos[i], BatchOf(flushed, n, id)[i];
            info.compFp == b.compFp && info.rawFp == b.rawFp && info.rawLen == |b.rawData| % 0x1_0000_0000
  {
    hide LastHas, BatchOf;
    assert IsOf(lines[id], BatchOf(flushed, n, id));
  }
}
