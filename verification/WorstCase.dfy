/** A batch that does not compress, for every configuration: the size bound is reached, and the guard on the page
    estimate is exact for what the compressor really makes. */
module WorstCases {
  import opened Bits
  import opened Cachelines
  import opened CachelineLaws
  import opened FlushEstimates
  import opened Lz77Compressor
  import opened Lz77Spec
  import opened Pages
  import opened PairSerializer

  /** Low and high digits of a counter in turn; the ranges tell them apart. */
  function WorstByte(t: nat): Byte {
    if t % 2 == 0 then (t / 2) % 128 else 128 + (t / 256) % 128
  }

  lemma {:induction false} SameDigits(j: nat, k: nat)
    requires j % 128 == k % 128 && (j / 128) % 128 == (k / 128) % 128
    ensures (k - j) % 16384 == 0
  {
    var a, b := j / 128, k / 128;
    assert j == 128 * (128 * (a / 128) + a % 128) + j % 128;
    assert k == 128 * (128 * (b / 128) + b % 128) + k % 128;
    assert k - j == 16384 * (b / 128 - a / 128);
  }

  /** Two bytes in a row do not come again within the window. */
  lemma {:induction false} NoRepeat(p: nat, s: nat)
    requires p < s && WorstByte(p) == WorstByte(s) && WorstByte(p + 1) == WorstByte(s + 1)
    ensures s - p >= WINDOW
  {
    assert p % 2 == s % 2;
    var j, k := p / 2, s / 2;
    if p % 2 == 0 {
      assert (p + 1) / 256 == j / 128 && (s + 1) / 256 == k / 128;
      SameDigits(j, k);
    } else {
      assert p / 256 == j / 128 && s / 256 == k / 128;
      assert (p + 1) / 2 == j + 1 && (s + 1) / 2 == k + 1;
      NextDigit(j, k);
      SameDigits(j, k);
    }
  }

  lemma {:induction false} NextDigit(j: nat, k: nat)
    requires (j + 1) % 128 == (k + 1) % 128
    ensures j % 128 == k % 128
  {
  }

  /** The data is a stretch of the counter. */
  ghost predicate Counting(data: seq<Byte>) {
    forall t | 0 <= t < |data| :: data[t] == WorstByte(t)
  }

  lemma {:induction false} NothingToMatch(data: seq<Byte>, begin: int, end: int, start: int, limit: int)
    requires Counting(data) && 0 <= begin && end < |data|
    ensures LongestMatch(data, begin, end, start, limit).len == -1
  {
    hide WorstByte, LongestMatch;
    var m := LongestMatch(data, begin, end, start, limit);
    LongestMatchAgrees(data, begin, end, start, limit);
    if m.len != -1 {
      assert ByteAt(data, start, 0) == ByteAt(data, m.ref, 0);
      assert ByteAt(data, start, 1) == ByteAt(data, m.ref, 1);
      NoRepeat(m.ref, start);
    }
  }

  /** So every byte is a literal, under any flag. */
  lemma {:induction false} AllLiterals(data: seq<Byte>, begin: nat, end: int, dup: bool, cur: nat)
    requires Counting(data) && begin <= cur <= end + 1 <= |data|
    ensures BlockPairs(data, begin, end, dup, cur) == Literals(data, cur, end + 1)
    decreases end + 1 - cur
  {
    hide LongestMatch, LazyMatch, Counting;
    if cur <= end {
      NothingToMatch(data, begin, end, cur, Limit(begin, dup, cur));
      AllLiterals(data, begin, end, dup, cur + 1);
    }
  }

  /** Block `i` of the worst batch. */
  function WorstBlock(size: nat, i: nat): (raw: seq<Byte>)
    ensures |raw| == size
  {
    seq<Byte>(size, k requires 0 <= k => WorstByte(i * size + k))
  }

  function WorstBatch(n: nat, size: nat): (raws: seq<seq<Byte>>)
    ensures |raws| == n && forall i | 0 <= i < n :: |raws[i]| == size
  {
    seq(n, i requires 0 <= i => WorstBlock(size, i))
  }

  lemma {:induction false} WorstData(n: nat, size: nat)
    ensures |BatchData(WorstBatch(n, size))| == n * size && Counting(BatchData(WorstBatch(n, size)))
    decreases n
  {
    hide WorstByte;
    if n > 0 {
      var raws := WorstBatch(n, size);
      assert raws[..n - 1] == WorstBatch(n - 1, size);
      WorstData(n - 1, size);
      var data, k := BatchData(raws), (n - 1) * size;
      assert n * size == k + size;
      forall t | 0 <= t < |data| ensures data[t] == WorstByte(t) {
        if t >= k { assert data[t] == WorstBlock(size, n - 1)[t - k]; }
      }
    }
  }

  /** The bound on stored blocks is reached: under any flags no block of this batch compresses. */
  lemma {:induction false} WorstIsStored(n: nat, size: nat, dups: seq<bool>, i: nat)
    requires i < n == |dups|
    ensures |CompressedBlock(WorstBatch(n, size), dups, i)| == MaxStored(size)
  {
    hide WorstBatch, BatchData, BlockPairs, Counting, EncodedBits, Literals;
    var raws := WorstBatch(n, size);
    var data, begin := BatchData(raws), BlockBegin(raws, i);
    BlockInBatch(raws, i);
    WorstData(n, size);
    AllLiterals(data, begin, begin + size - 1, dups[i], begin);
    LiteralBits(data, begin, begin + size);
  }

  // ----- the estimate ------------------------------------------------------------------------

  /** What a batch is stored as, if nothing of it is cached. */
  function StoredBatch(raws: seq<seq<Byte>>, dups: seq<bool>): (data: seq<seq<Byte>>)
    requires |raws| == |dups|
    ensures |data| == |raws| && forall i | 0 <= i < |data| :: data[i] == CompressedBlock(raws, dups, i)
  {
    seq(|raws|, i requires 0 <= i < |raws| => CompressedBlock(raws, dups, i))
  }

  /** A batch of `n` blocks of at most `size` bytes. */
  predicate IsBatch(raws: seq<seq<Byte>>, dups: seq<bool>, n: nat, size: nat) {
    |raws| == |dups| == n && forall i | 0 <= i < n :: |raws[i]| <= size
  }

  /** Whatever is written and flagged, the new line fits the estimate. */
  ghost predicate BatchesFit(n: nat, size: nat, pg: nat)
    requires pg > 0
  {
    forall raws: seq<seq<Byte>>, dups: seq<bool> | IsBatch(raws, dups, n, size) ::
      PagesFor(MetadataLen(n) + Total(StoredBatch(raws, dups)), pg) <= Estimate(n, size, pg)
  }

  lemma {:induction false} StoredIsSmall(raws: seq<seq<Byte>>, dups: seq<bool>, n: nat, size: nat)
    requires IsBatch(raws, dups, n, size)
    ensures |StoredBatch(raws, dups)| == n && AllSmall(StoredBatch(raws, dups), MaxStored(size))
  {
    hide CompressedBlock;
    var data := StoredBatch(raws, dups);
    forall d | d in data ensures |d| <= MaxStored(size) {
      var i :| 0 <= i < |data| && data[i] == d;
      CompressedSize(raws, dups, i);
    }
  }

  /** The guard is exact: it holds just if the allocation of a new line can never fail, whatever the batch. */
  lemma {:induction false} GuardIsExact(n: nat, size: nat, pg: nat)
    requires pg > 0
    ensures BatchesFit(n, size, pg) <==> Covers(n, size, pg)
  {
    hide Estimate, PagesFor, MetadataLen, MaxStored, CompressedBlock, StoredBatch, WorstBatch, Total, AllSmall;
    if BatchesFit(n, size, pg) {
      var raws, dups := WorstBatch(n, size), seq(n, _ => false);
      var data := StoredBatch(raws, dups);
      assert IsBatch(raws, dups, n, size);
      forall i | 0 <= i < n ensures |data[i]| == MaxStored(size) {
        WorstIsStored(n, size, dups, i);
      }
      TotalOfEqual(data, MaxStored(size));
    }
    if Covers(n, size, pg) {
      hide Covers;
      forall raws: seq<seq<Byte>>, dups: seq<bool> | IsBatch(raws, dups, n, size)
        ensures PagesFor(MetadataLen(n) + Total(StoredBatch(raws, dups)), pg) <= Estimate(n, size, pg)
      {
        StoredIsSmall(raws, dups, n, size);
        CoversAll(n, size, pg, StoredBatch(raws, dups));
      }
    }
  }
}
