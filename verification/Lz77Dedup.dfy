/** What stored bytes say about raw bytes: the ground that deduplicating after compression stands on. */
module Lz77Dedup {
  import opened Wrappers
  import opened Bits
  import opened Bitstream
  import opened PairSerializer
  import opened Lz77Spec
  import opened Lz77Compressor

  lemma {:induction false} CopyBehind(front: seq<Byte>, out: seq<Byte>, start: nat, n: int)
    requires n > 0 ==> start < |out|
    ensures Copy(front + out, |front| + start, n) == front + Copy(out, start, n)
    decreases if n > 0 then n else 0
  {
    if n > 0 {
      CopyBehind(front, out + [out[start]], start + 1, n - 1);
      assert front + out + [(front + out)[|front| + start]] == front + (out + [out[start]]);
    }
  }

  lemma {:induction false} PairBehind(front: seq<Byte>, out: seq<Byte>, p: LZ77Pair)
    requires p.Valid() ==> p.dist >= 0
    requires DecompressPair(out, p).Some?
    ensures DecompressPair(front + out, p) == Some(front + DecompressPair(out, p).value)
  {
    hide Copy;
    if p.Valid() {
      if p.dist == 0 {
        assert front + out + [p.lit % 256] == front + (out + [p.lit % 256]);
      } else {
        CopyBehind(front, out, |out| - p.dist, p.lit);
      }
    }
  }

  /** Bytes in front do not disturb a decompression that does without them. */
  lemma {:induction false} DecompressBehind(front: seq<Byte>, out: seq<Byte>, pairs: seq<LZ77Pair>)
    requires Readable(pairs) && Decompress(out, pairs).Some?
    ensures Decompress(front + out, pairs) == Some(front + Decompress(out, pairs).value)
    decreases |pairs|
  {
    if pairs != [] {
      hide DecompressPair;
      PairBehind(front, out, pairs[0]);
      DecompressBehind(front, DecompressPair(out, pairs[0]).value, pairs[1..]);
    }
  }

  /** Stored bytes that expand on their own expand to the block, whether it was flagged as a duplicate or not. */
  lemma {:induction false} ExpandsToBlock(raws: seq<seq<Byte>>, dups: seq<bool>, i: nat)
    requires i < |raws| == |dups|
    ensures Expand(CompressedBlock(raws, dups, i)).Some? ==> Expand(CompressedBlock(raws, dups, i)) == Some(raws[i])
    ensures dups[i] ==> Expand(CompressedBlock(raws, dups, i)).Some?
  {
    hide Decompress, BlockPairs, BitsOf, DecodedPairs, EncodedBits, Packed, BatchData;
    if dups[i] {
      DuplicateBlockAlone(raws, dups, i);
    }
    var data, begin, pairs := BatchData(raws), BlockBegin(raws, i), PairsInBatch(raws, dups, i);
    BlockInBatch(raws, i);
    EncodeDecode(pairs);
    if Expand(CompressedBlock(raws, dups, i)).Some? {
      var front := data[0..begin];
      BlockRoundTrip(data, begin, begin + |raws[i]| - 1, dups[i], begin, 0);
      DecompressBehind(front, [], pairs);
      assert front + [] == front;
      assert data[0..begin + |raws[i]|] == front + raws[i];
      SameBehind(front, raws[i], Decompress([], pairs).value);
    }
  }

  lemma {:induction false} SameBehind(front: seq<Byte>, a: seq<Byte>, b: seq<Byte>)
    requires front + a == front + b
    ensures a == b
  {
    assert a == (front + a)[|front|..];
    assert b == (front + b)[|front|..];
  }

  /** Where stored bytes expand on their own, equal stored bytes mean equal raw bytes, across all batches. */
  lemma {:induction false} StoredBytesDetermineBlock(raws: seq<seq<Byte>>, dups: seq<bool>, i: nat,
                                                     raws': seq<seq<Byte>>, dups': seq<bool>, j: nat)
    requires i < |raws| == |dups| && j < |raws'| == |dups'|
    requires CompressedBlock(raws, dups, i) == CompressedBlock(raws', dups', j)
    requires Expand(CompressedBlock(raws, dups, i)).Some?
    ensures raws[i] == raws'[j]
  {
    hide Expand, CompressedBlock;
    ExpandsToBlock(raws, dups, i);
    ExpandsToBlock(raws', dups', j);
  }

  /** Three bytes that hash differently in each rotation, twice in a row: the second block is one pair. */
  lemma {:induction false} RepeatIsOnePair(x: seq<Byte>, dup: bool)
    requires |x| == 3 && x[0] % 32 != x[1] % 32 && x[1] % 32 != x[2] % 32 && x[0] % 32 != x[2] % 32
    ensures PairsInBatch([x, x], [dup, false], 1) == [LZ77Pair(3, 3)]
  {
    var raws := [x, x];
    TwoBlocks(x);
    var data := x + x;
    var limit := Limit(3, false, 3);
    assert LongestMatch(data, 3, 5, 3, limit) == Match(0, 3) by { RepeatIsFound(x, limit); }
    var s := OneStep(data, 3, 5, false, 3);
    assert LongestMatch(data, 3, 5, 4, limit) == NO_MATCH;
    assert LazyMatch(data, 3, 5, limit, 3, Match(0, 3)) == Found(3, Match(0, 3));
    assert s.pairs == [LZ77Pair(3, 3)] && s.next == 6;
    assert BlockPairs(data, 3, 5, false, 6) == [];
    assert BlockPairs(data, 3, 5, false, 3) == s.pairs + [];
  }

  lemma {:induction false} TwoBlocks(x: seq<Byte>)
    ensures BatchData([x, x]) == x + x && BlockBegin([x, x], 1) == |x|
  {
    var raws := [x, x];
    assert raws[..1] == [x] && [x][..0] == [];
    assert BatchData([x]) == BatchData([]) + x == x;
  }

  lemma {:induction false} RepeatIsFound(x: seq<Byte>, limit: int)
    requires |x| == 3 && x[0] % 32 != x[1] % 32 && x[1] % 32 != x[2] % 32 && x[0] % 32 != x[2] % 32
    requires limit < 0
    ensures LongestMatch(x + x, 3, 5, 3, limit) == Match(0, 3)
  {
    var data := x + x;
    assert Hash(data, 0) == Hash(data, 3);
    assert Hash(data, 1) != Hash(data, 3) && Hash(data, 2) != Hash(data, 3);
    assert MatchLength(data, 5, 3, 0, 3) == 3;
    assert MatchLength(data, 5, 3, 0, 2) == 3;
    assert MatchLength(data, 5, 3, 0, 1) == 3;
    assert MatchLength(data, 5, 3, 0, 0) == 3;
    var found := Match(0, 3);
    assert Better(data, 5, 3, limit, 0, NO_MATCH) == found;
    assert Search(data, 5, 3, limit, -1, 1, found) == found;
    assert Search(data, 5, 3, limit, 0, 0, NO_MATCH) == found;
    assert Search(data, 5, 3, limit, 1, 0, NO_MATCH) == found;
    assert Search(data, 5, 3, limit, 2, 0, NO_MATCH) == found;
  }

  /** Otherwise they need not: these two blocks differ, yet are stored as the same bytes, which lean on the block
      in front. The cache takes them for duplicates of each other. */
  lemma {:induction false} UnflaggedBlocksCollide()
    ensures var x: seq<Byte>, y: seq<Byte> := [1, 2, 3], [4, 5, 6];
            && x != y
            && CompressedBlock([x, x], [false, false], 1) == CompressedBlock([y, y], [false, false], 1)
            && Expand(CompressedBlock([x, x], [false, false], 1)) == None
  {
    hide PairsInBatch, Packed, DecodedPairs, BitsOf;
    var x: seq<Byte>, y: seq<Byte> := [1, 2, 3], [4, 5, 6];
    RepeatIsOnePair(x, false);
    RepeatIsOnePair(y, false);
    EncodeDecode(PairsInBatch([x, x], [false, false], 1));
    DecompressOne([], LZ77Pair(3, 3));
  }

  /** Two blocks, in whatever batches, that are stored as the same bytes. */
  ghost predicate StoredAlike(raws: seq<seq<Byte>>, dups: seq<bool>, i: nat,
                              raws': seq<seq<Byte>>, dups': seq<bool>, j: nat) {
    && i < |raws| == |dups| && j < |raws'| == |dups'|
    && CompressedBlock(raws, dups, i) == CompressedBlock(raws', dups', j)
  }

  /** Blocks with these two flags that are stored alike are alike. */
  ghost predicate FlagsTellBlocks(p: bool, q: bool) {
    forall raws: seq<seq<Byte>>, dups: seq<bool>, i: nat, raws': seq<seq<Byte>>, dups': seq<bool>, j: nat |
      StoredAlike(raws, dups, i, raws', dups', j) && dups[i] == p && dups'[j] == q :: raws[i] == raws'[j]
  }

  /** Deduplicating by stored bytes is right exactly if one of the two blocks was flagged as a duplicate. */
  lemma {:induction false} DedupIsRightIffFlagged(p: bool, q: bool)
    ensures FlagsTellBlocks(p, q) <==> p || q
  {
    hide CompressedBlock, Expand;
    if p || q {
      forall raws: seq<seq<Byte>>, dups: seq<bool>, i: nat, raws': seq<seq<Byte>>, dups': seq<bool>, j: nat |
        StoredAlike(raws, dups, i, raws', dups', j) && dups[i] == p && dups'[j] == q
        ensures raws[i] == raws'[j]
      {
        ExpandsToBlock(raws, dups, i);
        ExpandsToBlock(raws', dups', j);
      }
    } else {
      UnflaggedBlocksCollide();
      var x: seq<Byte>, y: seq<Byte> := [1, 2, 3], [4, 5, 6];
      assert StoredAlike([x, x], [false, false], 1, [y, y], [false, false], 1);
      assert [x, x][1] != [y, y][1];
    }
  }
}
