/** A store the cache reaches whose oldest line cannot be evicted: each of its three users would need a page more, and
    only its own two come free. Ten blocks of one byte to a batch, pages of 512 bytes, five of them. */
module EvictionFails {
  import opened Wrappers
  import opened Bits
  import opened Bitstream
  import opened Words
  import opened Cachelines
  import opened EvictionCosts
  import opened EvictionPlans
  import opened Evictions
  import opened FlushEstimates
  import opened FlushSteps
  import opened Lz77Compressor
  import Lz77Spec
  import opened PageManagers
  import opened PageOwnership
  import opened Pages
  import opened PairSerializer
  import opened Stores
  import opened StoreRuns

  const N := 10
  const PAGE := 512
  const PAGES := 5

  // ----- blocks of one byte ------------------------------------------------------------------

  /** A block of one byte is stored as one literal, in two bytes. */
  function Literal(b: Byte): seq<Byte> { Packed([LZ77Pair(0, b)]) }

  lemma {:induction false} LiteralIs(b: Byte)
    ensures |Literal(b)| == 2 && Expand(Literal(b)) == Some([b])
  {
    hide EncodedBits, Packed, DecodedPairs, BitsOf, Lz77Spec.Decompress;
    var pairs := [LZ77Pair(0, b)];
    assert Lz77Spec.Literals([b], 0, 1) == pairs;
    Lz77Spec.LiteralBits([b], 0, 1);
    EncodeDecode(pairs);
    assert pairs[..0] == [];
    assert ValidPairs(pairs) == pairs;
    Lz77Spec.DecompressOne([], pairs[0]);
    assert Lz77Spec.Readable(pairs);
    assert [] + [b % 256] == [b];
  }

  /** So it is in every batch and under every flag. */
  lemma {:induction false} OneByteBlock(raws: seq<seq<Byte>>, dups: seq<bool>, i: nat)
    requires i < |raws| == |dups| && |raws[i]| == 1
    ensures CompressedBlock(raws, dups, i) == Literal(raws[i][0])
  {
    hide BatchData, Packed;
    var data, begin := BatchData(raws), BlockBegin(raws, i);
    BlockInBatch(raws, i);
    assert data[begin..begin + 1][0] == data[begin];
    assert Lz77Spec.BlockPairs(data, begin, begin, dups[i], begin + 1) == [];
    assert Lz77Spec.BlockPairs(data, begin, begin, dups[i], begin) == [LZ77Pair(0, raws[i][0])] + [];
  }

  /** Fingerprints that tell blocks of one byte apart. */
  function Print(d: seq<Byte>): Fp {
    match Expand(d)
    case Some(raw) => if |raw| == 1 then raw[0] else 0
    case None => 0
  }

  const SEEN := set b | 0 <= b < 256 :: Literal(b)

  lemma {:induction false} PrintsDiffer()
    ensures NoCollision(Print, SEEN)
    ensures forall d | d in SEEN :: |d| == 2
  {
    hide Literal, Expand;
    forall b: Byte ensures Print(Literal(b)) == b && |Literal(b)| == 2 { LiteralIs(b); }
  }

  // ----- the batches -------------------------------------------------------------------------

  /** The first line has ten blocks of its own; line `id` uses block `id - 1` of the first four times, and has six of
      its own. */
  predicate Repeats(id: Id, i: nat) { id > 1 && i < 4 }

  function ByteOf(id: Id, i: nat): Byte
    requires 1 <= id <= 4 && i < N
  {
    if id == 1 then i + 1 else if i < 4 then id - 1 else 6 * id + i - 5
  }

  function BlockOf(id: Id, i: nat): DataBlock
    requires 1 <= id <= 4 && i < N
  {
    var b := ByteOf(id, i);
    DataBlock(0, b, [b], Repeats(id, i), b, Literal(b), Repeats(id, i), if Repeats(id, i) then 1 else NONE64)
  }

  function Batch(id: Id): (blocks: seq<DataBlock>)
    requires 1 <= id <= 4
    ensures |blocks| == N && forall i | 0 <= i < N :: blocks[i] == BlockOf(id, i)
  {
    seq(N, i requires 0 <= i < N => BlockOf(id, i))
  }

  /** The batch is what the compressor makes of its raw blocks. */
  lemma {:induction false} BatchIsCompressed(id: Id)
    requires 1 <= id <= 4
    ensures Compressed(Batch(id), Batch(id), Print) && GoodBatch(Batch(id), N) && HonestBatch(Batch(id), Print, SEEN)
    ensures Total(FreshData(Batch(id))) == if id == 1 then 20 else 12
  {
    hide CompressedBlock, Literal, Expand, FreshData, Total, ByteOf;
    var blocks := Batch(id);
    forall i: nat | i < N
      ensures blocks[i].compData == CompressedBlock(RawsOf(blocks), DupsOf(blocks), i)
      ensures Print(blocks[i].compData) == blocks[i].compFp && blocks[i].compData in SEEN
    {
      OneByteBlock(RawsOf(blocks), DupsOf(blocks), i);
      LiteralIs(ByteOf(id, i));
    }
    FreshBytes(id, N);
    assert blocks[..N] == blocks;
  }

  lemma {:induction false} FreshBytes(id: Id, i: nat)
    requires 1 <= id <= 4 && i <= N
    ensures Total(FreshData(Batch(id)[..i])) == if id == 1 then 2 * i else if i < 4 then 0 else 2 * (i - 4)
    decreases i
  {
    hide Literal, ByteOf, Batch;
    if i > 0 {
      var blocks := Batch(id);
      FreshBytes(id, i - 1);
      LiteralIs(ByteOf(id, i - 1));
      assert blocks[..i] == blocks[..i - 1] + [blocks[i - 1]];
      OneMoreBlock(blocks[..i - 1], blocks[i - 1]);
      TotalGrows(FreshData(blocks[..i - 1]), blocks[i - 1].compData);
      assert FreshData(blocks[..i - 1]) + [] == FreshData(blocks[..i - 1]);
    }
  }

  lemma {:induction false} FreshFps(id: Id, fp: Fp)
    requires 1 <= id <= 4
    ensures Fresh(Batch(id), fp) <==> if id == 1 then 1 <= fp <= 10 else 6 * id - 1 <= fp <= 6 * id + 4
  {
    hide Literal, Batch;
    var blocks := Batch(id);
    if id == 1 && 1 <= fp <= 10 { assert !blocks[fp - 1].compDuplicated && blocks[fp - 1].compFp == fp; }
    if id > 1 && 6 * id - 1 <= fp <= 6 * id + 4 {
      var i := fp + 5 - 6 * id;
      assert !blocks[i].compDuplicated && blocks[i].compFp == fp;
    }
  }

  lemma {:induction false} UsesFirst(id: Id, u: Id)
    requires 1 <= id <= 4
    ensures UsesLine(Batch(id), u) <==> id > 1 && u == 1
  {
    hide Literal, Batch, ByteOf;
    var blocks := Batch(id);
    if id > 1 { assert blocks[0].compDuplicated && blocks[0].external == 1; }
  }

  // ----- the run -----------------------------------------------------------------------------

  /** The store after a batch was flushed to these pages. */
  function Flushed(s: Store, blocks: seq<DataBlock>, pages: seq<nat>): (s': Store)
    requires s.lastId < NONE64
    ensures s'.lastId == NextId(s)
  {
    var id := NextId(s);
    Store(s.lines[id := LineOf(blocks)], Referred(s.meta[id := IndexData(0, pages, {})], blocks, id),
          EnterFresh(s.fpIndex, blocks, id), id)
  }

  function PagesOf(id: Id): seq<nat> { if id == 1 then [0, 1] else [id] }

  /** The store after `k` flushes. */
  function After(k: nat): (s: Store)
    requires k <= 4
    ensures s.lastId == k
  {
    if k == 0 then EMPTY else Flushed(After(k - 1), Batch(k), PagesOf(k))
  }

  function Later(k: nat): set<Id>
    requires k <= 4
  {
    if k < 2 then {} else Later(k - 1) + {k}
  }

  function FirstFree(k: nat): nat { if k == 0 then 0 else k + 1 }

  /** What the store looks like then. */
  ghost predicate Looks(s: Store, k: nat)
    requires k <= 4
  {
    && s.lastId == k && s.lines.Keys == s.meta.Keys
    && (forall id: Id :: id in s.lines <==> 1 <= id <= k)
    && (forall id: Id | id in s.lines :: s.lines[id] == LineOf(Batch(id)))
    && AllReferToFirst(s.meta, k)
    && Known(s.fpIndex, k)
  }

  /** The lines of the index: every later one refers to the first. */
  ghost predicate AllReferToFirst(meta: map<Id, IndexData>, k: nat)
    requires k <= 4
  {
    && (forall id: Id :: id in meta <==> 1 <= id <= k)
    && (forall id | id in meta :: meta[id] == IndexData(0, PagesOf(id), if id == 1 then Later(k) else {}))
  }

  /** Which fingerprints are indexed, the first ten of them with the first line. */
  ghost predicate Known(index: map<Fp, FpData>, k: nat) {
    && (forall fp: Fp :: fp in index <==> k > 0 && 1 <= fp <= 6 * k + 4)
    && (forall fp: Fp | fp in index && fp <= 10 :: index[fp].addr == 1)
  }

  lemma {:induction false} NextLooks(s: Store, k: nat)
    requires k < 4 && Looks(s, k)
    ensures Deduped(s, Batch(k + 1)) && Looks(Flushed(s, Batch(k + 1), PagesOf(k + 1)), k + 1)
  {
    hide Batch, LineOf, EnterFresh, Referred, PagesOf, Known;
    NextFps(s, k);
    NextRefs(s, k);
  }

  lemma {:induction false} NextFps(s: Store, k: nat)
    requires k < 4 && Looks(s, k)
    ensures Deduped(s, Batch(k + 1)) && Known(EnterFresh(s.fpIndex, Batch(k + 1), k + 1), k + 1)
  {
    hide Literal, Batch, LineOf, EnterFresh, Fresh, PagesOf;
    var index := EnterFresh(s.fpIndex, Batch(k + 1), k + 1);
    forall fp: Fp
      ensures fp in index <==> 1 <= fp <= 6 * (k + 1) + 4
      ensures 1 <= fp <= 10 ==> index[fp].addr == 1
    {
      FreshFps(k + 1, fp);
      Entered(s.fpIndex, Batch(k + 1), k + 1, fp);
    }
  }

  lemma {:induction false} NextRefs(s: Store, k: nat)
    requires k < 4 && Looks(s, k)
    ensures var data := s.meta[(k + 1) as Id := IndexData(0, PagesOf(k + 1), {})];
            AllReferToFirst(Referred(data, Batch(k + 1), k + 1), k + 1)
  {
    hide Batch, LineOf, Referred, UsesLine, PagesOf, Known;
    var id: Id := k + 1;
    var data := s.meta[id := IndexData(0, PagesOf(id), {})];
    ReferredIs(data, Batch(id), id, id);
    forall u: Id | u in data
      ensures Referred(data, Batch(id), id)[u] == IndexData(0, PagesOf(u), if u == 1 then Later(id) else {})
    {
      ReferredIs(data, Batch(id), id, u);
      UsesFirst(id, u);
    }
  }

  /** The store is reached by flushes of batches as the compressor makes them. */
  lemma {:induction false} Reached(k: nat)
    requires k <= 4
    ensures Looks(After(k), k) && Inv(After(k), N) && Honest(After(k), Print, SEEN)
    ensures k > 0 ==> Deduped(After(k - 1), Batch(k)) && GoodFlush(After(k - 1), Batch(k), After(k), N, Print, SEEN)
  {
    hide Inv, Honest, Looks, Deduped, Flushed, GoodBatch, HonestBatch, GoodFlush, Compressed, Step, Batch, PagesOf,
         Total, FreshData;
    if k == 0 {
      EmptyIsGood(N, Print, SEEN);
      LooksEmpty();
    } else {
      Reached(k - 1);
      NextLooks(After(k - 1), k - 1);
      BatchIsCompressed(k);
      FlushIs(After(k - 1), k);
      StepKeepsInv(After(k - 1), After(k), N, Print, SEEN);
    }
  }

  lemma {:induction false} LooksEmpty()
    ensures Looks(After(0), 0)
  {
  }

  lemma {:induction false} FlushIs(s: Store, k: nat)
    requires 1 <= k <= 4 && s.lastId == k - 1 && Inv(s, N) && Deduped(s, Batch(k))
    requires GoodBatch(Batch(k), N) && HonestBatch(Batch(k), Print, SEEN)
    ensures GoodFlush(s, Batch(k), Flushed(s, Batch(k), PagesOf(k)), N, Print, SEEN)
    ensures Step(s, Flushed(s, Batch(k), PagesOf(k)), N, Print, SEEN)
  {
    hide Inv, Deduped, GoodBatch, HonestBatch, Step, FlushStep, Referred, EnterFresh, LineOf;
    var s' := Flushed(s, Batch(k), PagesOf(k));
    RecordingFlushes(s, N, Batch(k), s', PagesOf(k));
    FlushIsStep(s, Batch(k), s', N, Print, SEEN);
  }

  /** Line `id` and its pages. */
  lemma {:induction false} LineAfter(k: nat, id: Id)
    requires k <= 4
    ensures After(k).lines.Keys == After(k).meta.Keys && (id in After(k).lines <==> 1 <= id <= k)
    ensures 1 <= id <= k ==> After(k).lines[id] == LineOf(Batch(id)) && After(k).meta[id].pages == PagesOf(id)
  {
    hide Inv, Honest, After, LineOf, Batch, PagesOf, GoodFlush, Deduped;
    Reached(k);
  }

  ghost predicate HasPages(meta: map<Id, IndexData>, k: nat) {
    && (forall id: Id :: id in meta <==> 1 <= id <= k)
    && (forall id | id in meta :: meta[id].pages == PagesOf(id))
  }

  lemma {:induction false} SharesPages(meta: map<Id, IndexData>, k: nat)
    requires k <= 4 && HasPages(meta, k)
    ensures Shared(Interval(FirstFree(k), PAGES), meta, PAGES)
  {
    hide Interval, Elements;
    forall p | p in Interval(0, PAGES) && p < FirstFree(k) ensures Taken(meta, p) {
      var id: Id := if p < 2 then 1 else p;
      assert id in meta && p in PagesOf(id) && p in Elements(meta[id].pages);
    }
  }

  /** The five pages: those of the lines are apart, and the rest is free. */
  lemma {:induction false} PagesAfter(k: nat)
    requires k <= 4
    ensures Shared(Interval(FirstFree(k), PAGES), After(k).meta, PAGES)
    ensures FreePages(After(k).meta, PAGES) == Interval(FirstFree(k), PAGES)
  {
    hide Shared, PagesOf, After, LineOf, Batch, FreePages, Interval;
    var meta := After(k).meta;
    forall id: Id ensures (id in meta <==> 1 <= id <= k) && (id in meta ==> meta[id].pages == PagesOf(id)) {
      LineAfter(k, id);
    }
    SharesPages(meta, k);
    FreeArePages(Interval(FirstFree(k), PAGES), meta, PAGES);
  }

  /** What a flush takes: the estimate of one page is free, so nothing is evicted before it, and its line finds just the
      pages it needs. */
  lemma {:induction false} PagesTaken(k: nat)
    requires 1 <= k <= 4
    ensures Estimate(N, 1, PAGE) == 1 && FreePages(After(k - 1).meta, PAGES) != {}
    ensures k in After(k).lines && k in After(k).meta
    ensures Elements(After(k).meta[k].pages) <= FreePages(After(k - 1).meta, PAGES)
    ensures |After(k).meta[k].pages| == PagesFor(MetadataLen(N) + Total(After(k).lines[k].data), PAGE)
  {
    hide Inv, Honest, FreePages, After, Elements, Batch, FreshData, Total, GoodFlush, GoodBatch, HonestBatch,
         Compressed, Interval, LineOf;
    LineAfter(k, k);
    PagesAfter(k - 1);
    BatchIsCompressed(k);
    LineData(Batch(k));
    assert MetadataLen(N) == 500;
    assert FirstFree(k - 1) in Interval(FirstFree(k - 1), PAGES);
  }

  lemma {:induction false} LineData(blocks: seq<DataBlock>)
    ensures LineOf(blocks).data == FreshData(blocks)
  {
  }

  const FULL := After(4)

  function States(): (trace: seq<Store>)
    ensures |trace| == 5 && forall k | 0 <= k < 5 :: trace[k] == After(k)
  {
    seq(5, k requires 0 <= k < 5 => After(k))
  }

  /** Step `k` flushes its batch as the compressor makes it. */
  ghost predicate IsFlush(k: nat)
    requires 1 <= k <= 4
  {
    GoodFlush(After(k - 1), Batch(k), After(k), N, Print, SEEN) && Compressed(Batch(k), Batch(k), Print)
  }

  /** Four flushes of compressed batches fill the device. */
  lemma {:induction false} FullIsReachable()
    ensures NoCollision(Print, SEEN) && Run(States(), N, Print, SEEN)
    ensures forall k: nat | 1 <= k <= 4 :: IsFlush(k)
    ensures Shared({}, FULL.meta, PAGES) && FreePages(FULL.meta, PAGES) == {}
  {
    hide Inv, Honest, After, GoodFlush, Compressed, Batch, Shared, FreePages, Looks, States;
    PrintsDiffer();
    var trace := States();
    assert trace[0] == EMPTY by { FirstIsEmpty(); }
    forall k: nat | 1 <= k <= 4 ensures IsFlush(k) {
      Reached(k);
      BatchIsCompressed(k);
    }
    forall k | 0 <= k < 4 ensures Step(trace[k], trace[k + 1], N, Print, SEEN) {
      assert IsFlush(k + 1) && GoodFlush(trace[k], Batch(k + 1), trace[k + 1], N, Print, SEEN);
    }
    PagesAfter(4);
    assert Interval(5, 5) == {};
  }

  lemma {:induction false} FirstIsEmpty()
    ensures After(0) == EMPTY
  {
  }

  // ----- the eviction ------------------------------------------------------------------------

  /** Line `id` refers to the first line under one fingerprint only. */
  lemma {:induction false} LineRefers(id: Id, f: Fp)
    requires 1 <= id <= 4
    ensures RefersTo(LineOf(Batch(id)), f, 1) <==> id > 1 && f == id - 1
  {
    hide LineOf, Literal, Batch;
    var infos := LineOf(Batch(id)).infos;
    LineOfLength(Batch(id));
    forall i: nat | i < N
      ensures infos[i].kind == REF <==> Repeats(id, i)
      ensures Repeats(id, i) ==> infos[i].compFp == id - 1 && infos[i].external == 1
    {
      FlushedInfos(Batch(id), i);
    }
    if id > 1 { assert Repeats(id, 0) && infos[0].kind == REF && infos[0].compFp == id - 1; }
  }

  /** Each fingerprint of the first line has at most one user. */
  lemma {:induction false} OnlyUser(u: Id, fp: Fp)
    ensures FULL.lines.Keys == FULL.meta.Keys
    ensures IsHead(FULL, 1, fp, u) <==> 2 <= u <= 4 && fp == u - 1
  {
    hide LineOf, Batch, RefersTo, After, Before, PagesOf;
    LineAfter(4, u);
    forall w: Id ensures w in Users(FULL, 1, fp) <==> 2 <= w <= 4 && fp == w - 1 {
      LineAfter(4, w);
      if w in FULL.lines { LineRefers(w, fp); }
    }
    if 2 <= u <= 4 && fp == u - 1 {
      forall w | w in Users(FULL, 1, fp) ensures Before(FULL, u, w) { BeforeItself(FULL, u); }
    }
  }

  lemma {:induction false} BeforeItself(s: Store, u: Id)
    requires u in s.meta
    ensures Before(s, u, u)
  {
  }

  /** Two bytes move into each of the others. */
  lemma {:induction false} TwoMove(u: Id)
    requires 2 <= u <= 4
    ensures FULL.lines.Keys == FULL.meta.Keys && u in FULL.lines && 1 in FULL.lines
    ensures MovedBytes(FULL, 1, u) == 2
  {
    hide LineOf, Batch, IsHead, Inv, Honest, StoredBytes, HasStored, After, GoodFlush, PagesOf, Users, Looks, Literal,
         HeadFps, StoredSizes, Sum;
    LineAfter(4, u);
    LineAfter(4, 1);
    Reached(4);
    PrintsDiffer();
    var fp: Fp := u - 1;
    forall f: Fp ensures IsHead(FULL, 1, f, u) <==> f == fp { OnlyUser(u, f); }
    assert HeadFps(FULL, 1, u) == {fp};
    HeadIsUser(FULL, 1, fp, u);
    UserOwner(FULL, N, 1, fp, u);
    HonestOwner(FULL, N, Print, SEEN, 1, fp);
    SumTakes(StoredSizes(FULL.lines[1]), {fp}, fp);
    assert {fp} - {fp} == {};
    NothingSum(StoredSizes(FULL.lines[1]));
  }

  lemma {:induction false} NothingSum(size: map<Fp, nat>)
    ensures Sum(size, {}) == 0
  {
  }

  /** That is two bytes more than a page. */
  lemma {:induction false} GrowsByOne(u: Id)
    requires 2 <= u <= 4
    ensures FULL.lines.Keys == FULL.meta.Keys && u in FULL.lines && 1 in FULL.lines
    ensures Growth(FULL, N, PAGE, 1, u) == 1
  {
    hide LineOf, Batch, Total, GoodBatch, HonestBatch, After, Compressed, MovedBytes, FreshData, PagesOf;
    LineAfter(4, u);
    TwoMove(u);
    BatchIsCompressed(u);
    LineData(Batch(u));
    assert MetadataLen(N) == 500;
  }

  /** Evicting the first line fails: its users need three pages more, and there are only its own two. */
  lemma {:induction false} OldestCannotBeEvicted()
    ensures TooCostly(FULL, N, PAGE, PAGES, 1)
    ensures FULL.lines.Keys == FULL.meta.Keys && 1 in FULL.lines && EvictionCost(FULL, N, PAGE, 1) == 3
    ensures |FULL.meta[1].pages| == 2
  {
    hide Growth, TotalGrowth, FreePages, Shared, After, Batch, LineOf, Run, GoodFlush, Compressed;
    forall id: Id ensures id in FULL.lines <==> 1 <= id <= 4 { LineAfter(4, id); }
    LineAfter(4, 1);
    FullIsReachable();
    GrowsByOne(2);
    GrowsByOne(3);
    GrowsByOne(4);
    var others := FULL.lines.Keys - {1};
    assert others == {2, 3, 4} && others - {2} == {3, 4} && {3, 4} - {3} == {4} && {4} - {4} == {};
    GrowthTakes(FULL, N, PAGE, 1, others, 2);
    GrowthTakes(FULL, N, PAGE, 1, {3, 4}, 3);
    GrowthTakes(FULL, N, PAGE, 1, {4}, 4);
    NoTotalGrowth(FULL, N, PAGE, 1);
  }
}
