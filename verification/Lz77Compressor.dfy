/** The table-driven batch compressor and the decompressor, proved against `Lz77Spec`
    (src/compression/lz77_comperssor.cpp, src/include/lz77_compressor.h, src/compression/main_compressor.cpp). */
module Lz77Compressor {
  import opened Wrappers
  import opened Bits
  import opened PairSerializer
  import opened Lz77Spec
  import opened Words
  import opened Bitstream

  // ----- hash buckets ------------------------------------------------------------------------

  /** The positions below `n` with hash `h`, in ascending order: the contents of a bucket. */
  function Positions(data: seq<Byte>, h: nat, n: nat): seq<nat>
    requires n == 0 || n + 1 < |data|
  {
    if n == 0 then []
    else Positions(data, h, n - 1) + if Hash(data, n - 1) == h then [n - 1] else []
  }

  /** `ps` lists every position below `n` with hash `h`, once, ascending. */
  ghost predicate Lists(ps: seq<nat>, data: seq<Byte>, h: nat, n: nat)
    requires n == 0 || n + 1 < |data|
  {
    && (forall k | 0 <= k < |ps| :: ps[k] < n && Hash(data, ps[k]) == h)
    && (forall k, l | 0 <= k < l < |ps| :: ps[k] < ps[l])
    && (forall p: nat | p < n && Hash(data, p) == h :: p in ps)
  }

  lemma {:induction false} PositionsAreListed(data: seq<Byte>, h: nat, n: nat)
    requires n == 0 || n + 1 < |data|
    ensures Lists(Positions(data, h, n), data, h, n)
  {
    hide Hash;
    if n > 0 {
      PositionsAreListed(data, h, n - 1);
    }
  }

  /** Between two neighbours of a bucket no position has its hash. */
  lemma {:induction false} NoneBetween(ps: seq<nat>, data: seq<Byte>, h: nat, n: nat, k: nat, p: nat)
    requires (n == 0 || n + 1 < |data|) && Lists(ps, data, h, n) && k <= |ps| && p < n
    requires k > 0 ==> ps[k - 1] < p
    requires k < |ps| ==> p < ps[k]
    ensures Hash(data, p) != h
  {
    hide Hash;
    forall i | 0 <= i < |ps| ensures ps[i] != p {
      if i < k - 1 { assert ps[i] < ps[k - 1]; }
      if i > k { assert ps[k] < ps[i]; }
    }
    assert p !in ps;
  }

  /** Positions without the hash of `start` do not change what the search finds. */
  lemma {:induction false} SearchSkips(data: seq<Byte>, end: int, start: nat, limit: int, p: int, q: int, seen: nat,
                                       best: Match)
    requires start + 2 <= end < |data| && -1 <= q <= p < start
    requires best.len == -1 || Fits(data, end, start, limit, best)
    requires forall r: nat | q < r <= p :: Hash(data, r) != Hash(data, start)
    ensures Search(data, end, start, limit, p, seen, best) == Search(data, end, start, limit, q, seen, best)
    decreases p + 1
  {
    hide Hash, Better;
    if q < p {
      assert Hash(data, p) != Hash(data, start);
      if !(p < limit || start - p >= WINDOW) {
        SearchSkips(data, end, start, limit, p - 1, q, seen, best);
      }
    }
  }

  /** From just below a bucket entry (or `start`) the search goes on with the entry before it. */
  lemma {:induction false} SearchNextCandidate(data: seq<Byte>, end: int, start: nat, limit: int, ps: seq<nat>,
                                               idx: int, p: int, seen: nat, best: Match)
    requires start + 2 <= end < |data| && Lists(ps, data, Hash(data, start), |data| - 2)
    requires -1 <= idx < |ps| && (if idx >= 0 then ps[idx] else -1) <= p < start
    requires idx + 1 < |ps| ==> p < ps[idx + 1]
    requires best.len == -1 || Fits(data, end, start, limit, best)
    ensures Search(data, end, start, limit, p, seen, best) ==
            Search(data, end, start, limit, if idx >= 0 then ps[idx] else -1, seen, best)
  {
    hide Hash, Search, Lists;
    var q := if idx >= 0 then ps[idx] else -1;
    forall r: nat | q < r <= p ensures Hash(data, r) != Hash(data, start) {
      NoneBetween(ps, data, Hash(data, start), |data| - 2, idx + 1, r);
    }
    SearchSkips(data, end, start, limit, p, q, seen, best);
  }

  /** Buckets and hash list hold the first `n` positions of `data`, and the buckets no others. */
  ghost predicate TableHolds(tb: seq<seq<nat>>, hashList: seq<nat>, data: seq<Byte>, n: nat)
    requires n == 0 || n + 1 < |data|
  {
    && |tb| == BUCKETS && n <= |hashList|
    && (forall h: nat | h < BUCKETS :: tb[h] == Positions(data, h, n))
    && (forall j: nat | j < n :: hashList[j] == Hash(data, j))
  }

  lemma {:induction false} IndexedSizes(tb: seq<seq<nat>>, hashList: seq<nat>, data: seq<Byte>, n: nat)
    requires (n == 0 || n + 1 < |data|) && TableHolds(tb, hashList, data, n)
    ensures |tb| == BUCKETS && n <= |hashList|
  {
  }

  lemma {:induction false} EmptyIndex(tb: seq<seq<nat>>, hashList: seq<nat>, data: seq<Byte>)
    requires |tb| == BUCKETS && forall h: nat | h < BUCKETS :: tb[h] == []
    ensures TableHolds(tb, hashList, data, 0)
  {
  }

  lemma {:induction false} IndexOneMore(tb: seq<seq<nat>>, hashList: seq<nat>, data: seq<Byte>, n: nat)
    requires n + 2 < |data| && n < |hashList| && TableHolds(tb, hashList, data, n)
    ensures var h := Hash(data, n); TableHolds(tb[h := tb[h] + [n]], hashList[n := h], data, n + 1)
  {
    hide Hash;
    var hash := Hash(data, n);
    var tb' := tb[hash := tb[hash] + [n]];
    forall h: nat | h < BUCKETS ensures tb'[h] == Positions(data, h, n + 1) {
      assert tb[h] == Positions(data, h, n);
    }
  }

  /** At a bucket entry the search stops for one of three reasons, or goes on with the entry before. */
  lemma {:induction false} SearchAtCandidate(data: seq<Byte>, end: int, start: nat, limit: int, ps: seq<nat>, idx: nat,
                                             seen: nat, best: Match)
    requires start + 2 <= end < |data| && Lists(ps, data, Hash(data, start), |data| - 2)
    requires idx < |ps| && ps[idx] < start
    requires best.len == -1 || Fits(data, end, start, limit, best)
    ensures var c := ps[idx];
            Search(data, end, start, limit, c, seen, best) ==
            if start - c >= WINDOW || c < limit || seen > MAX_SCAN || best.len >= LONG_ENOUGH then best
            else Search(data, end, start, limit, if idx > 0 then ps[idx - 1] else -1, seen + 1,
                        Better(data, end, start, limit, c, best))
    ensures idx > 0 ==> ps[idx - 1] < ps[idx]
  {
    hide Hash, Better;
    var c := ps[idx];
    if !(start - c >= WINDOW || c < limit || seen > MAX_SCAN || best.len >= LONG_ENOUGH) {
      SearchNextCandidate(data, end, start, limit, ps, idx - 1, c - 1, seen + 1,
                          Better(data, end, start, limit, c, best));
    }
  }

  lemma {:induction false} SearchEnds(data: seq<Byte>, end: int, start: nat, limit: int, seen: nat, best: Match)
    requires start + 2 <= end < |data|
    requires best.len == -1 || Fits(data, end, start, limit, best)
    ensures Search(data, end, start, limit, -1, seen, best) == best
  {
  }

  class LookupTable {
    const tb: array<seq<nat>>
    const hashList: array<nat>

    ghost predicate Valid() { tb.Length == BUCKETS }

    ghost predicate Indexes(data: seq<Byte>, n: nat)
      requires n == 0 || n + 1 < |data|
      reads tb, hashList
    {
      TableHolds(tb[..], hashList[..], data, n)
    }

    /** `capacity` is the configured block size times the configured block count. */
    constructor (capacity: nat)
      ensures Valid() && hashList.Length == capacity && fresh(tb) && fresh(hashList)
    {
      tb := new seq<nat>[BUCKETS](_ => []);
      hashList := new nat[capacity](_ => 0);
    }

    method Insert(hash: nat, pos: nat)
      requires Valid() && hash < BUCKETS && pos < hashList.Length
      modifies tb, hashList
      ensures hashList[..] == old(hashList[..])[pos := hash]
      ensures tb[..] == old(tb[..])[hash := old(tb[..])[hash] + [pos]]
    {
      hashList[pos] := hash;
      tb[hash] := tb[hash] + [pos];
    }

    method FindCandidates(pos: nat) returns (r: Option<seq<nat>>)
      requires Valid() && pos < hashList.Length && hashList[pos] < BUCKETS
      ensures r == if tb[hashList[pos]] == [] then None else Some(tb[hashList[pos]])
    {
      var hash := hashList[pos];
      r := if tb[hash] == [] then None else Some(tb[hash]);
    }

    /** Empties the buckets; the hash list keeps its stale entries. */
    method Clear()
      requires Valid()
      modifies tb
      ensures forall h: nat | h < BUCKETS :: tb[h] == []
    {
      var h := 0;
      while h < tb.Length
        invariant 0 <= h <= tb.Length
        invariant forall g: nat | g < h :: tb[g] == []
      {
        tb[h] := [];
        h := h + 1;
      }
    }
  }

  method InitCompressor(table: LookupTable, data: seq<Byte>)
    requires table.Valid() && 2 <= |data| && |data| - 2 <= table.hashList.Length
    modifies table.tb, table.hashList
    ensures table.Indexes(data, |data| - 2)
  {
    hide Hash, TableHolds;
    table.Clear();
    EmptyIndex(table.tb[..], table.hashList[..], data);
    var j := 0;
    while j < |data| - 2
      invariant 0 <= j <= |data| - 2
      invariant table.Indexes(data, j)
    {
      var hash := Hash(data, j);
      IndexedSizes(table.tb[..], table.hashList[..], data, j);
      IndexOneMore(table.tb[..], table.hashList[..], data, j);
      table.Insert(hash, j);
      j := j + 1;
    }
  }

  // ----- matching ----------------------------------------------------------------------------

  /** The last entry of an ascending bucket below `start`, or -1. */
  method LastBelow(ps: seq<nat>, start: nat) returns (idx: int)
    requires forall k, l | 0 <= k < l < |ps| :: ps[k] < ps[l]
    ensures -1 <= idx < |ps|
    ensures idx >= 0 ==> ps[idx] < start
    ensures idx + 1 < |ps| ==> start <= ps[idx + 1]
  {
    idx := |ps| - 1;
    while idx >= 0 && ps[idx] >= start
      invariant -1 <= idx < |ps|
      invariant idx + 1 < |ps| ==> start <= ps[idx + 1]
    {
      idx := idx - 1;
    }
  }

  method CountMatch(data: seq<Byte>, end: int, start: nat, candidate: nat) returns (matchLen: nat)
    requires candidate < start <= end + 1 <= |data|
    ensures matchLen == MatchLength(data, end, start, candidate, 0)
  {
    var srcPos, refPos := start, candidate;
    matchLen := 0;
    while srcPos <= end && data[srcPos] == data[refPos] && matchLen < MAX_MATCH - MIN_MATCH
      invariant srcPos == start + matchLen <= end + 1 && refPos == candidate + matchLen
      invariant matchLen <= MAX_MATCH - MIN_MATCH
      invariant MatchLength(data, end, start, candidate, 0) == MatchLength(data, end, start, candidate, matchLen)
      decreases MAX_MATCH - matchLen
    {
      srcPos := srcPos + 1;
      refPos := refPos + 1;
      matchLen := matchLen + 1;
    }
  }

  /** Scans the bucket from `idx` down; `ref` keeps its value when nothing is found. */
  method ScanBucket(data: seq<Byte>, end: int, start: nat, limit: int, ps: seq<nat>, first: nat, ref0: int)
    returns (ref: int, len: int)
    requires start + 2 <= end < |data| && Lists(ps, data, Hash(data, start), |data| - 2)
    requires first < |ps| && ps[first] < start
    ensures var m := Search(data, end, start, limit, ps[first], 0, NO_MATCH);
            len == m.len && ref == if m.len == -1 then ref0 else m.ref
  {
    hide Hash, Search, Lists, MatchLength, Fits;
    ghost var m := Search(data, end, start, limit, ps[first], 0, NO_MATCH);
    ghost var best := NO_MATCH;
    ref, len := ref0, -1;
    var idx: int := first;
    while idx >= 0
      invariant -1 <= idx <= first && (idx >= 0 ==> ps[idx] < start)
      invariant best.len == -1 || Fits(data, end, start, limit, best)
      invariant best == if len == -1 then NO_MATCH else Match(ref, len)
      invariant len == -1 ==> ref == ref0
      invariant m == Search(data, end, start, limit, if idx >= 0 then ps[idx] else -1, first - idx, best)
    {
      var candidate := ps[idx];
      SearchAtCandidate(data, end, start, limit, ps, idx, first - idx, best);
      if start - candidate >= WINDOW { break; }
      if candidate < limit { break; }
      if first - idx > MAX_SCAN || len >= LONG_ENOUGH { break; }
      var matchLen := CountMatch(data, end, start, candidate);
      best := Better(data, end, start, limit, candidate, best);
      if matchLen >= 3 && len < matchLen {
        len := matchLen;
        ref := candidate;
      }
      idx := idx - 1;
    }
    SearchEnds(data, end, start, limit, first - idx, best);
  }

  /** `found` tells whether `ref` and `len` describe a match; otherwise `len` is -1 and `ref` keeps its value. */
  method FindLongestMatch(table: LookupTable, data: seq<Byte>, cs: DataBlockSlice, start: int, limit: int, ref0: int)
    returns (found: bool, ref: int, len: int)
    requires table.Valid() && 2 <= |data| && table.Indexes(data, |data| - 2)
    requires cs.Within(data)
    ensures var m := LongestMatch(data, cs.begin, cs.end, start, limit);
            found == (m.len != -1) && len == m.len && ref == if m.len == -1 then ref0 else m.ref
  {
    hide Search, Hash, Lists;
    ref, len := ref0, -1;
    if start < cs.begin || start > cs.end - 2 {
      return false, ref, len;
    }
    PositionsAreListed(data, Hash(data, start), |data| - 2);
    var matches := table.FindCandidates(start);
    ghost var ps := Positions(data, Hash(data, start), |data| - 2);
    if matches == None {
      SearchNextCandidate(data, cs.end, start, limit, ps, -1, start - 1, 0, NO_MATCH);
      SearchEnds(data, cs.end, start, limit, 0, NO_MATCH);
      return false, ref, len;
    }
    assert Lists(matches.value, data, Hash(data, start), |data| - 2);
    ListsAscend(matches.value, data, Hash(data, start), |data| - 2);
    var first := LastBelow(matches.value, start);
    SearchNextCandidate(data, cs.end, start, limit, ps, first, start - 1, 0, NO_MATCH);
    if first < 0 {
      SearchEnds(data, cs.end, start, limit, 0, NO_MATCH);
      return false, ref, len;
    }
    ref, len := ScanBucket(data, cs.end, start, limit, matches.value, first, ref);
    return len != -1, ref, len;
  }

  lemma {:induction false} ListsAscend(ps: seq<nat>, data: seq<Byte>, h: nat, n: nat)
    requires (n == 0 || n + 1 < |data|) && Lists(ps, data, h, n)
    ensures forall k, l | 0 <= k < l < |ps| :: ps[k] < ps[l]
  {
  }

  /** -1, or the length of the match that lazy matching settles on, with its start and source. */
  method GetOneMatch(table: LookupTable, data: seq<Byte>, cs: DataBlockSlice, pos: int, limit: int)
    returns (len: int, refPos: int, startPos: int)
    requires table.Valid() && 2 <= |data| && table.Indexes(data, |data| - 2)
    requires cs.Within(data)
    ensures var m := LongestMatch(data, cs.begin, cs.end, pos, limit);
            if m.len == -1 then len == -1
            else Found(startPos, Match(refPos, len)) == LazyMatch(data, cs.begin, cs.end, limit, pos, m)
  {
    hide LongestMatch;
    refPos, startPos := -1, pos;
    var found, currentRef, currentLen := FindLongestMatch(table, data, cs, pos, limit, -1);
    if !found {
      return -1, refPos, startPos;
    }
    ghost var result := LazyMatch(data, cs.begin, cs.end, limit, pos, Match(currentRef, currentLen));
    var currentPos := pos;
    while true
      invariant Fits(data, cs.end, currentPos, limit, Match(currentRef, currentLen))
      invariant result == LazyMatch(data, cs.begin, cs.end, limit, currentPos, Match(currentRef, currentLen))
      decreases if currentLen < LONG_ENOUGH then LONG_ENOUGH - currentLen else 0
    {
      var lastLen, lastRef, lastPos := currentLen, currentRef, currentPos;
      currentPos := currentPos + 1;
      found, currentRef, currentLen := FindLongestMatch(table, data, cs, currentPos, limit, currentRef);
      if currentLen <= lastLen || currentLen >= LONG_ENOUGH {
        return lastLen, lastRef, lastPos;
      }
    }
  }

  /** A block inside the batch data, and the array its pairs are written to. */
  class DataBlockSlice {
    const begin: int
    const end: int
    const dup: bool
    const pairs: array<LZ77Pair>
    var pairSize: nat

    constructor (begin: int, end: int, dup: bool)
      requires begin <= end + 1
      ensures this.begin == begin && this.end == end && this.dup == dup
      ensures pairSize == 0 && fresh(pairs) && pairs.Length == end + 1 - begin
    {
      this.begin, this.end, this.dup := begin, end, dup;
      pairs := new LZ77Pair[end + 1 - begin](_ => LZ77Pair(-1, -1));
      pairSize := 0;
    }

    predicate Within(data: seq<Byte>) {
      0 <= begin <= end + 1 <= |data| && pairs.Length == end + 1 - begin
    }

    method AddPair(p: LZ77Pair)
      requires pairSize < pairs.Length
      modifies this`pairSize, pairs
      ensures pairSize == old(pairSize) + 1 && pairs[..pairSize] == old(pairs[..pairSize]) + [p]
    {
      pairs[pairSize] := p;
      pairSize := pairSize + 1;
    }
  }

  /** Writes literals for `from..till`. */
  method AddLiterals(data: seq<Byte>, cs: DataBlockSlice, from: nat, till: nat)
    requires from <= till <= |data| && cs.pairSize + (till - from) <= cs.pairs.Length
    modifies cs`pairSize, cs.pairs
    ensures cs.pairSize == old(cs.pairSize) + (till - from)
    ensures cs.pairs[..cs.pairSize] == old(cs.pairs[..cs.pairSize]) + Literals(data, from, till)
  {
    var i := from;
    while i < till
      invariant from <= i <= till && cs.pairSize == old(cs.pairSize) + (i - from)
      invariant cs.pairs[..cs.pairSize] == old(cs.pairs[..cs.pairSize]) + Literals(data, from, i)
    {
      cs.AddPair(LZ77Pair(0, data[i]));
      assert Literals(data, from, i + 1) == Literals(data, from, i) + [LZ77Pair(0, data[i])];
      i := i + 1;
    }
  }

  /** One round of the block loop. */
  method CompressStep(table: LookupTable, data: seq<Byte>, cs: DataBlockSlice, cur: nat) returns (next: nat)
    requires table.Valid() && 2 <= |data| && table.Indexes(data, |data| - 2)
    requires cs.Within(data) && cs.begin <= cur <= cs.end && cs.pairSize <= cur - cs.begin
    modifies cs`pairSize, cs.pairs
    ensures cs.pairSize <= next - cs.begin && next <= cs.end + 1
    ensures var s := OneStep(data, cs.begin, cs.end, cs.dup, cur);
            next == s.next && cs.pairs[..cs.pairSize] == old(cs.pairs[..cs.pairSize]) + s.pairs
  {
    hide LongestMatch, LazyMatch, TableHolds;
    var limit := Limit(cs.begin, cs.dup, cur);
    ghost var s := OneStep(data, cs.begin, cs.end, cs.dup, cur);
    var len, ref, start := GetOneMatch(table, data, cs, cur, limit);
    if len == -1 {
      cs.AddPair(LZ77Pair(0, data[cur]));
      next := cur + 1;
    } else {
      AddLiterals(data, cs, cur, start);
      cs.AddPair(LZ77Pair(start - ref, len));
      next := start + len;
    }
  }

  lemma {:induction false} BlockPairsUnfold(data: seq<Byte>, begin: nat, end: int, dup: bool)
    requires begin <= end + 1 <= |data|
    ensures BlockPairs(data, begin, end, dup, end + 1) == []
    ensures forall cur: nat | begin <= cur <= end :: BlockPairs(data, begin, end, dup, cur) ==
              OneStep(data, begin, end, dup, cur).pairs +
              BlockPairs(data, begin, end, dup, OneStep(data, begin, end, dup, cur).next)
  {
    hide OneStep;
  }

  /** Never writes past the array, whose length is the length of the block. */
  method CompressOneDataBlock(table: LookupTable, data: seq<Byte>, cs: DataBlockSlice)
    requires table.Valid() && 2 <= |data| && table.Indexes(data, |data| - 2)
    requires cs.Within(data) && cs.pairSize == 0
    modifies cs`pairSize, cs.pairs
    ensures cs.pairSize <= cs.pairs.Length
    ensures cs.pairs[..cs.pairSize] == BlockPairs(data, cs.begin, cs.end, cs.dup, cs.begin)
  {
    hide OneStep, TableHolds, BlockPairs;
    BlockPairsUnfold(data, cs.begin, cs.end, cs.dup);
    ghost var all := BlockPairs(data, cs.begin, cs.end, cs.dup, cs.begin);
    var cur: nat := cs.begin;
    while cur <= cs.end
      invariant cs.begin <= cur <= cs.end + 1 && cs.pairSize <= cur - cs.begin
      invariant table.Indexes(data, |data| - 2)
      invariant cs.pairs[..cs.pairSize] + BlockPairs(data, cs.begin, cs.end, cs.dup, cur) == all
      decreases cs.end + 1 - cur
    {
      ghost var before, later := cs.pairs[..cs.pairSize], BlockPairs(data, cs.begin, cs.end, cs.dup, cur);
      ghost var s := OneStep(data, cs.begin, cs.end, cs.dup, cur);
      cur := CompressStep(table, data, cs, cur);
      assert later == s.pairs + BlockPairs(data, cs.begin, cs.end, cs.dup, cur);
      assert before + later == (before + s.pairs) + BlockPairs(data, cs.begin, cs.end, cs.dup, cur);
    }
  }

  // ----- batches -----------------------------------------------------------------------------

  /** The raw data of a batch. */
  function BatchData(raws: seq<seq<Byte>>): seq<Byte> {
    if raws == [] then [] else BatchData(raws[..|raws| - 1]) + raws[|raws| - 1]
  }

  /** Where block `i` begins in the batch data. */
  function BlockBegin(raws: seq<seq<Byte>>, i: nat): nat
    requires i <= |raws|
  {
    |BatchData(raws[..i])|
  }

  lemma {:induction false} BlockInBatch(raws: seq<seq<Byte>>, i: nat)
    requires i < |raws|
    ensures BlockBegin(raws, i) + |raws[i]| == BlockBegin(raws, i + 1) <= |BatchData(raws)|
    ensures BatchData(raws)[BlockBegin(raws, i)..BlockBegin(raws, i + 1)] == raws[i]
    ensures BatchData(raws)[..BlockBegin(raws, i)] == BatchData(raws[..i])
    decreases |raws|
  {
    var front := raws[..|raws| - 1];
    assert raws[..i + 1][..i] == raws[..i];
    if i < |front| {
      BlockInBatch(front, i);
      assert front[..i] == raws[..i] && front[..i + 1] == raws[..i + 1];
    } else {
      assert raws[..i + 1] == raws;
    }
  }

  /** The pairs of block `i` of a batch whose duplicate flags are `dups`. */
  function PairsInBatch(raws: seq<seq<Byte>>, dups: seq<bool>, i: nat): (pairs: seq<LZ77Pair>)
    requires i < |raws| == |dups|
    ensures |pairs| <= |raws[i]| && AllEncodable(pairs) && ValidPairs(pairs) == pairs
  {
    BlockInBatch(raws, i);
    var begin := BlockBegin(raws, i);
    var pairs := BlockPairs(BatchData(raws), begin, begin + |raws[i]| - 1, dups[i], begin);
    AllValid(pairs);
    pairs
  }

  lemma {:induction false} AllValid(pairs: seq<LZ77Pair>)
    requires forall p | p in pairs :: p.Valid()
    ensures ValidPairs(pairs) == pairs
    decreases |pairs|
  {
    if pairs != [] {
      AllValid(pairs[..|pairs| - 1]);
    }
  }

  /** What the batch compressor stores for block `i`. */
  function CompressedBlock(raws: seq<seq<Byte>>, dups: seq<bool>, i: nat): seq<Byte>
    requires i < |raws| == |dups|
  {
    Packed(PairsInBatch(raws, dups, i))
  }

  function BatchPairs(raws: seq<seq<Byte>>, dups: seq<bool>, n: nat): (pairs: seq<LZ77Pair>)
    requires n <= |raws| == |dups|
    ensures AllEncodable(pairs) && Readable(pairs)
  {
    if n == 0 then [] else BatchPairs(raws, dups, n - 1) + PairsInBatch(raws, dups, n - 1)
  }

  /** The pair lists of a batch, one after the other, decompress to its raw data. */
  lemma {:induction false} BatchRoundTrip(raws: seq<seq<Byte>>, dups: seq<bool>, n: nat)
    requires n <= |raws| == |dups|
    ensures Decompress([], BatchPairs(raws, dups, n)) == Some(BatchData(raws[..n]))
    decreases n
  {
    hide Decompress, BlockPairs;
    if n == 0 {
      DecompressNothing([]);
    } else {
      var data, i := BatchData(raws), n - 1;
      BatchRoundTrip(raws, dups, i);
      BlockInBatch(raws, i);
      var begin := BlockBegin(raws, i);
      BlockRoundTrip(data, begin, begin + |raws[i]| - 1, dups[i], begin, 0);
      assert data[0..begin] == BatchData(raws[..i]);
      assert data[0..begin + |raws[i]|] == BatchData(raws[..n]) by {
        assert raws[..n][..i] == raws[..i];
        assert data[0..begin + |raws[i]|] == data[..begin] + data[begin..begin + |raws[i]|];
      }
      DecompressBoth([], BatchPairs(raws, dups, i), PairsInBatch(raws, dups, i));
    }
  }

  lemma {:induction false} DecompressNothing(out: seq<Byte>)
    ensures Decompress(out, []) == Some(out)
  {
  }

  /** Raw bytes out of stored bytes, without any other block. */
  function Expand(comp: seq<Byte>): Option<seq<Byte>> {
    match DecodedPairs(BitsOf(comp))
    case None => None
    case Some(pairs) => if Readable(pairs) then Decompress([], pairs) else None
  }

  /** What is stored for a duplicate-flagged block expands, on its own, to the block. */
  lemma {:induction false} DuplicateBlockAlone(raws: seq<seq<Byte>>, dups: seq<bool>, i: nat)
    requires i < |raws| == |dups| && dups[i]
    ensures Expand(CompressedBlock(raws, dups, i)) == Some(raws[i])
  {
    hide Decompress, BlockPairs, BitsOf, DecodedPairs, EncodedBits, Packed;
    var data, begin := BatchData(raws), BlockBegin(raws, i);
    BlockInBatch(raws, i);
    BlockRoundTrip(data, begin, begin + |raws[i]| - 1, true, begin, begin);
    assert data[begin..begin] == [];
    EncodeDecode(PairsInBatch(raws, dups, i));
  }

  lemma {:induction false} DuplicatePairsAlike(raws: seq<seq<Byte>>, dups: seq<bool>, i: nat, raws': seq<seq<Byte>>,
                                               dups': seq<bool>, j: nat)
    requires i < |raws| == |dups| && dups[i]
    requires j < |raws'| == |dups'| && dups'[j]
    requires raws[i] == raws'[j]
    ensures PairsInBatch(raws, dups, i) == PairsInBatch(raws', dups', j)
  {
    hide BlockPairs, BatchData;
    BlockInBatch(raws, i);
    BlockInBatch(raws', j);
    var b, b' := BlockBegin(raws, i), BlockBegin(raws', j);
    ContextIndependence(BatchData(raws), b, b + |raws[i]| - 1, BatchData(raws'), b', b' + |raws'[j]| - 1, 0);
  }

  /** The law behind compressing before deduplicating: among duplicate-flagged blocks of any two batches, equal
      stored bytes mean equal raw bytes and the other way round. */
  lemma {:induction false} DuplicatesCompressAlike(raws: seq<seq<Byte>>, dups: seq<bool>, i: nat, raws': seq<seq<Byte>>,
                                                   dups': seq<bool>, j: nat)
    requires i < |raws| == |dups| && dups[i]
    requires j < |raws'| == |dups'| && dups'[j]
    ensures CompressedBlock(raws, dups, i) == CompressedBlock(raws', dups', j) <==> raws[i] == raws'[j]
  {
    hide PairsInBatch, Expand, Packed;
    DuplicateBlockAlone(raws, dups, i);
    DuplicateBlockAlone(raws', dups', j);
    if raws[i] == raws'[j] {
      DuplicatePairsAlike(raws, dups, i, raws', dups', j);
    }
  }

  /** A block of `L` bytes is stored in at most ceil(9L / 8) bytes. */
  lemma {:induction false} CompressedSize(raws: seq<seq<Byte>>, dups: seq<bool>, i: nat)
    requires i < |raws| == |dups|
    ensures |CompressedBlock(raws, dups, i)| <= (9 * |raws[i]| + 7) / 8
  {
    hide BlockPairs, BatchData, EncodedBits;
    BlockInBatch(raws, i);
    var begin := BlockBegin(raws, i);
    BlockBits(BatchData(raws), begin, begin + |raws[i]| - 1, dups[i], begin);
  }

  // ----- the batch compressor ----------------------------------------------------------------

  lemma {:induction false} NothingInBatch(raws: seq<seq<Byte>>)
    requires raws == []
    ensures BatchData(raws) == []
  {
  }

  lemma {:induction false} OneMoreInBatch(raws: seq<seq<Byte>>, raw: seq<Byte>)
    ensures BatchData(raws + [raw]) == BatchData(raws) + raw
  {
    assert (raws + [raw])[..|raws|] == raws;
  }

  method BuildDataBlockSlices(raws: seq<seq<Byte>>, dups: seq<bool>)
    returns (slices: seq<DataBlockSlice>, data: seq<Byte>)
    requires |raws| == |dups|
    ensures data == BatchData(raws) && |slices| == |raws|
    ensures forall i :: 0 <= i < |slices| ==>
              fresh(slices[i]) && fresh(slices[i].pairs) && slices[i].pairSize == 0 &&
              slices[i].pairs.Length == |raws[i]| && slices[i].begin == BlockBegin(raws, i) &&
              slices[i].end == BlockBegin(raws, i) + |raws[i]| - 1 && slices[i].dup == dups[i]
    ensures forall i, j :: 0 <= i < j < |slices| ==> slices[i] != slices[j] && slices[i].pairs != slices[j].pairs
  {
    hide BatchData;
    slices, data := [], [];
    assert BatchData(raws[..0]) == [] by { NothingInBatch(raws[..0]); }
    var acc, k := 0, 0;
    while k < |raws|
      invariant 0 <= k <= |raws| && |slices| == k && data == BatchData(raws[..k]) && acc == |data|
      invariant forall i :: 0 <= i < k ==>
                  fresh(slices[i]) && fresh(slices[i].pairs) && slices[i].pairSize == 0 &&
                  slices[i].pairs.Length == |raws[i]| && slices[i].begin == BlockBegin(raws, i) &&
                  slices[i].end == BlockBegin(raws, i) + |raws[i]| - 1 && slices[i].dup == dups[i]
      invariant forall i, j :: 0 <= i < j < k ==> slices[i] != slices[j] && slices[i].pairs != slices[j].pairs
    {
      var m := new DataBlockSlice(acc, acc + |raws[k]| - 1, dups[k]);
      slices := slices + [m];
      assert raws[..k + 1] == raws[..k] + [raws[k]];
      OneMoreInBatch(raws[..k], raws[k]);
      data := data + raws[k];
      acc := acc + |raws[k]|;
      k := k + 1;
    }
    assert raws[..k] == raws;
  }

  lemma {:induction false} CompressedBlockIs(raws: seq<seq<Byte>>, dups: seq<bool>, i: nat, c: seq<Byte>)
    requires i < |raws| == |dups|
    requires var b := BlockBegin(raws, i);
             b + |raws[i]| <= |BatchData(raws)| &&
             var pairs := BlockPairs(BatchData(raws), b, b + |raws[i]| - 1, dups[i], b);
             c == Packed(pairs) <==> |EncodedBits(pairs)| < W32
    ensures c == CompressedBlock(raws, dups, i) <==> |EncodedBits(PairsInBatch(raws, dups, i))| < W32
  {
  }

  /** A block of fewer than 2^32 / 9 bytes does not use up the encoder's bit count. */
  lemma {:induction false} FewBits(raws: seq<seq<Byte>>, dups: seq<bool>, i: nat)
    requires i < |raws| == |dups| && 9 * |raws[i]| < W32
    ensures |EncodedBits(PairsInBatch(raws, dups, i))| < W32
  {
    hide BlockPairs, BatchData, EncodedBits;
    BlockInBatch(raws, i);
    var begin := BlockBegin(raws, i);
    BlockBits(BatchData(raws), begin, begin + |raws[i]| - 1, dups[i], begin);
  }

  method CompressSlice(table: LookupTable, data: seq<Byte>, cs: DataBlockSlice) returns (comp: seq<Byte>)
    requires table.Valid() && 2 <= |data| && table.Indexes(data, |data| - 2)
    requires cs.Within(data) && cs.pairSize == 0
    modifies cs`pairSize, cs.pairs
    ensures var pairs := BlockPairs(data, cs.begin, cs.end, cs.dup, cs.begin);
            comp == Packed(pairs) <==> |EncodedBits(pairs)| < W32
  {
    hide TableHolds, BlockPairs, Packed, EncodedBits;
    CompressOneDataBlock(table, data, cs);
    var encoded := EncodeLz77(cs.pairs[..cs.pairSize]);
    comp := encoded.value;
  }

  /** Compresses a batch of exactly the configured number of blocks; `comp[i]` is stored for block `i`. It is the packed
      form of the block's pairs exactly if their bits can be counted in 32 bits. */
  method CompressDataBlocks(table: LookupTable, raws: seq<seq<Byte>>, dups: seq<bool>, bufferSize: nat)
    returns (comp: seq<seq<Byte>>)
    requires table.Valid() && |raws| == |dups| == bufferSize
    requires 2 <= |BatchData(raws)| <= table.hashList.Length
    modifies table.tb, table.hashList
    ensures |comp| == |raws|
    ensures forall i :: 0 <= i < |comp| ==>
              (comp[i] == CompressedBlock(raws, dups, i) <==> |EncodedBits(PairsInBatch(raws, dups, i))| < W32)
  {
    hide TableHolds, BlockPairs, Packed, BatchData, BlockBegin, CompressedBlock, PairsInBatch, EncodedBits;
    var slices, data := BuildDataBlockSlices(raws, dups);
    InitCompressor(table, data);
    comp := [];
    var i := 0;
    while i < bufferSize
      invariant 0 <= i <= bufferSize && |comp| == i && table.Indexes(data, |data| - 2)
      invariant forall j :: i <= j < |slices| ==> slices[j].pairSize == 0
      invariant forall j :: 0 <= j < i ==>
                  (comp[j] == CompressedBlock(raws, dups, j) <==> |EncodedBits(PairsInBatch(raws, dups, j))| < W32)
    {
      BlockInBatch(raws, i);
      var c := CompressSlice(table, data, slices[i]);
      CompressedBlockIs(raws, dups, i, c);
      comp := comp + [c];
      i := i + 1;
    }
  }

  // ----- the decompressor --------------------------------------------------------------------

  method CopyBytes(bytes: seq<Byte>, start: nat, n: int) returns (r: seq<Byte>)
    requires n > 0 ==> start < |bytes|
    ensures r == Copy(bytes, start, n)
  {
    r := bytes;
    var i := 0;
    while i < n
      invariant 0 <= i && (n > 0 ==> i <= n) && |r| == |bytes| + i
      invariant n - i > 0 ==> start + i < |r|
      invariant Copy(bytes, start, n) == Copy(r, start + i, n - i)
    {
      r := r + [r[start + i]];
      i := i + 1;
    }
  }

  /** `None` is the failed assertion on a distance that reaches before the start. */
  method Lz77DecompressByteArray(pairs: seq<LZ77Pair>) returns (r: Option<seq<Byte>>)
    requires Readable(pairs)
    ensures r == Decompress([], pairs)
  {
    hide Copy;
    var bytes: seq<Byte> := [];
    var i := 0;
    assert pairs[0..] == pairs;
    while i < |pairs|
      invariant 0 <= i <= |pairs|
      invariant Decompress([], pairs) == Decompress(bytes, pairs[i..])
    {
      var p := pairs[i];
      assert pairs[i..][1..] == pairs[i + 1..];
      if p.Valid() {
        if p.dist == 0 {
          bytes := bytes + [p.lit % 256];
        } else {
          var start := |bytes| - p.dist;
          if start < 0 {
            return None;
          }
          bytes := CopyBytes(bytes, start, p.lit);
        }
      }
      i := i + 1;
    }
    r := Some(bytes);
  }
}
