/** How many pages a flush asks for before it starts, and why they are enough (src/cd_cache.cpp:110-132). */
module FlushEstimates {
  import opened Bits
  import opened Words
  import opened Cachelines
  import opened CachelineLaws
  import opened Pages

  function Quotient(a: nat, b: nat): nat
    requires b > 0
  {
    a / b
  }

  /** One and a half times the raw batch with its metadata, in pages, rounded down. */
  function Estimate(n: nat, size: nat, pg: nat): nat
    requires pg > 0
  {
    Quotient(3 * (n * size + MetadataLen(n)), 2 * pg)
  }

  lemma {:induction false} DivideUp(a: nat, b: nat)
    requires b > 0
    ensures Quotient(a, b) * b <= a < (Quotient(a, b) + 1) * b
  {
    assert a == (a / b) * b + a % b;
  }

  /** The estimate in pages is one and a half times the batch with its metadata, rounded down to whole pages. */
  lemma {:induction false} EstimateIsFloor(n: nat, size: nat, pg: nat)
    requires pg > 0
    ensures var e, bytes := Estimate(n, size, pg), n * size + MetadataLen(n);
            e * (2 * pg) <= 3 * bytes < (e + 1) * (2 * pg)
  {
    hide Quotient, MetadataLen;
    DivideUp(3 * (n * size + MetadataLen(n)), 2 * pg);
  }

  /** With `k` pages free a flush starts right away: one and a half times the batch with its metadata is less than
      `k + 1` pages. */
  predicate Enough(n: nat, size: nat, pg: nat, k: nat) {
    3 * (n * size + MetadataLen(n)) < (k + 1) * (2 * pg)
  }

  lemma {:induction false} EnoughPages(n: nat, size: nat, pg: nat, k: nat)
    requires pg > 0
    ensures Estimate(n, size, pg) <= k <==> Enough(n, size, pg, k)
  {
    hide Estimate, MetadataLen;
    var e := Estimate(n, size, pg);
    EstimateIsFloor(n, size, pg);
    if e <= k { NotMore(e + 1, k + 1, 2 * pg); } else { NotMore(k + 1, e, 2 * pg); }
  }

  /** The most bytes a raw block of `size` bytes can be stored in. */
  function MaxStored(size: nat): nat {
    (9 * size + 7) / 8
  }

  lemma {:induction false} WholeBytes(size: nat)
    requires size % 8 == 0
    ensures 8 * MaxStored(size) == 9 * size
  {
  }

  lemma {:induction false} EightTimes(k: nat, n: nat, size: nat)
    requires size % 8 == 0 && k <= n
    ensures 8 * (k * MaxStored(size)) <= 9 * (n * size)
  {
    hide MaxStored;
    WholeBytes(size);
    if k < n { Multiples(k, n, MaxStored(size)); }
    assert 8 * (n * MaxStored(size)) == n * (8 * MaxStored(size)) == n * (9 * size) == 9 * (n * size);
  }

  /** The estimate covers a line of `n` blocks of the greatest length. The exact guard of a flush, to be read off the
      configuration. */
  predicate Covers(n: nat, size: nat, pg: nat)
    requires pg > 0
  {
    PagesFor(MetadataLen(n) + n * MaxStored(size), pg) <= Estimate(n, size, pg)
  }

  /** Then it covers every line of a batch. */
  lemma {:induction false} CoversAll(n: nat, size: nat, pg: nat, data: seq<seq<Byte>>)
    requires pg > 0 && Covers(n, size, pg) && |data| <= n && AllSmall(data, MaxStored(size))
    ensures PagesFor(MetadataLen(n) + Total(data), pg) <= Estimate(n, size, pg)
  {
    hide MetadataLen, PagesFor, MaxStored, AllSmall, Total, Estimate;
    TotalOfSmall(data, MaxStored(size));
    NotMore(|data|, n, MaxStored(size));
    MorePages(MetadataLen(n) + Total(data), MetadataLen(n) + n * MaxStored(size), pg);
  }

  /** `n` blocks of `len` bytes. */
  function Equal(n: nat, len: nat): (data: seq<seq<Byte>>)
    ensures |data| == n && forall i | 0 <= i < n :: |data[i]| == len
  {
    seq(n, _ => Zeros(len))
  }

  lemma {:induction false} TotalOfEqual(data: seq<seq<Byte>>, len: nat)
    requires forall i | 0 <= i < |data| :: |data[i]| == len
    ensures Total(data) == |data| * len
    decreases |data|
  {
    if data != [] {
      var k := |data| - 1;
      TotalOfEqual(data[..k], len);
      Product(k, len);
    }
  }

  /** Every data a line can hold fits the estimate. */
  ghost predicate FitsAlways(n: nat, size: nat, pg: nat)
    requires pg > 0
  {
    forall data: seq<seq<Byte>> | |data| <= n && AllSmall(data, MaxStored(size)) ::
      PagesFor(MetadataLen(n) + Total(data), pg) <= Estimate(n, size, pg)
  }

  lemma {:induction false} EstimateIsExact(n: nat, size: nat, pg: nat)
    requires pg > 0
    ensures FitsAlways(n, size, pg) <==> Covers(n, size, pg)
  {
    hide MetadataLen, PagesFor, MaxStored, Total, Estimate, Equal;
    if FitsAlways(n, size, pg) {
      var data := Equal(n, MaxStored(size));
      assert AllSmall(data, MaxStored(size));
      TotalOfEqual(data, MaxStored(size));
    }
    if Covers(n, size, pg) {
      hide Covers, AllSmall;
      forall data: seq<seq<Byte>> | |data| <= n && AllSmall(data, MaxStored(size))
        ensures PagesFor(MetadataLen(n) + Total(data), pg) <= Estimate(n, size, pg)
      {
        CoversAll(n, size, pg, data);
      }
    }
  }

  /** Whole bytes and a batch that is not tiny are enough for that. */
  lemma {:induction false} EstimateSuffices(n: nat, size: nat, pg: nat)
    requires pg > 0 && size % 8 == 0 && 3 * (n * size) + 4 * MetadataLen(n) >= 8 * pg
    ensures Covers(n, size, pg)
  {
    hide MetadataLen, PagesFor, MaxStored;
    var raw, meta, stored := n * size, MetadataLen(n), n * MaxStored(size);
    EightTimes(n, n, size);
    var e := Estimate(n, size, pg);
    var all := 3 * (raw + meta);
    assert all < (e + 1) * (2 * pg) by { DivideUp(all, 2 * pg); }
    assert (e + 1) * (2 * pg) == 2 * (e * pg) + 2 * pg;
    assert 8 * (meta + stored) <= 8 * (e * pg);
    PagesForLeast(meta + stored, pg, e);
  }

  /** A large page can leave the estimate too small without making it zero; blocks need not be whole multiples of eight
      bytes for it to be enough. */
  lemma {:induction false} GuardsDiffer()
    ensures Estimate(1, 4096, 4096) == 1 && !Covers(1, 4096, 4096)
    ensures 4095 % 8 != 0 && Covers(8, 4095, 512)
  {
    assert MetadataLen(1) == 68 && MetadataLen(8) == 404;
    assert MaxStored(4096) == 4608 && MaxStored(4095) == 4607;
  }

  /** When a page is larger than one and a half batches the estimate is zero, and no line fits in that. */
  lemma {:induction false} TinyBatchesAreNotCovered(n: nat, size: nat, pg: nat, data: seq<seq<Byte>>)
    requires pg > 0
    ensures Estimate(n, size, pg) == 0 <==> 3 * (n * size + MetadataLen(n)) < 2 * pg
    ensures Estimate(n, size, pg) == 0 ==> PagesFor(MetadataLen(n) + Total(data), pg) > Estimate(n, size, pg)
  {
    hide Total, PagesFor;
    var a, b := 3 * (n * size + MetadataLen(n)), 2 * pg;
    DivideUp(a, b);
    assert Quotient(a, b) == 0 <==> a < b by {
      if a < b { SmallQuotient(a, b); }
    }
    PagesForLeast(MetadataLen(n) + Total(data), pg, 0);
  }

  lemma {:induction false} SmallQuotient(a: nat, b: nat)
    requires a < b
    ensures Quotient(a, b) == 0
  {
  }
}
