/** What the LZ77 batch compressor computes, without its hash table (src/compression/lz77_comperssor.cpp):
    candidate positions are visited one by one, downwards from the position to be matched. */
module Lz77Spec {
  import opened Wrappers
  import opened Bits
  import opened PairSerializer

  const WINDOW := 32767
  const MAX_SCAN := 32
  const LONG_ENOUGH := 32
  const MIN_MATCH := 3
  const MAX_MATCH := 256
  const BUCKETS := 32768

  function Hash(data: seq<Byte>, j: nat): (h: nat)
    requires j + 2 < |data|
    ensures h < BUCKETS
  {
    var a, b, c: int := data[j] as int, data[j + 1] as int, data[j + 2] as int;
    (a % 32) * 1024 + (b % 32) * 32 + c % 32
  }

  /** A match found so far; `len == -1` is none. */
  datatype Match = Match(ref: int, len: int)

  const NO_MATCH := Match(-1, -1)

  function ByteAt(data: seq<Byte>, from: int, k: int): Byte
    requires 0 <= from + k < |data|
  {
    data[from + k]
  }

  /** The `n` bytes from `src` on are the `n` bytes from `ref` on. */
  ghost predicate SameBytes(data: seq<Byte>, src: int, ref: int, n: int)
    requires 0 <= src && 0 <= ref && src + n <= |data| && ref + n <= |data|
  {
    forall k | 0 <= k < n :: ByteAt(data, src, k) == ByteAt(data, ref, k)
  }

  /** How many bytes agree from `src` and `ref` on, within the block and the length cap, given that `n` do. */
  function MatchLength(data: seq<Byte>, end: int, src: nat, ref: nat, n: nat): (len: nat)
    requires ref < src && src + n <= end + 1 <= |data| && n <= MAX_MATCH - MIN_MATCH
    ensures n <= len <= MAX_MATCH - MIN_MATCH && src + len <= end + 1
    decreases MAX_MATCH - n
  {
    if src + n <= end && data[src + n] == data[ref + n] && n < MAX_MATCH - MIN_MATCH
    then MatchLength(data, end, src, ref, n + 1)
    else n
  }

  /** `m` lies in the block, is neither too short nor too long, and reaches back no further than allowed. */
  predicate Fits(data: seq<Byte>, end: int, start: int, limit: int, m: Match) {
    && 0 <= m.ref < start && limit <= m.ref && start - m.ref < WINDOW
    && MIN_MATCH <= m.len <= MAX_MATCH - MIN_MATCH && start + m.len <= end + 1 <= |data|
  }

  /** ... and the bytes it copies are the bytes of the block. */
  ghost predicate IsMatch(data: seq<Byte>, end: int, start: int, limit: int, m: Match) {
    Fits(data, end, start, limit, m) && SameBytes(data, start, m.ref, m.len)
  }

  /** The match at candidate `p` if it is long enough and longer than the best one. */
  function Better(data: seq<Byte>, end: int, start: nat, limit: int, p: nat, best: Match): (m: Match)
    requires start + 2 <= end < |data| && limit <= p < start && start - p < WINDOW
    requires best.len == -1 || Fits(data, end, start, limit, best)
    ensures m.len == -1 || Fits(data, end, start, limit, m)
  {
    var n := MatchLength(data, end, start, p, 0);
    if n >= MIN_MATCH && best.len < n then Match(p, n) else best
  }

  /** Positions `p, p - 1, ...` with the hash of `start`, until the window or `limit` is left, too many were
      looked at, or the best match is long enough. */
  function Search(data: seq<Byte>, end: int, start: nat, limit: int, p: int, seen: nat, best: Match): (m: Match)
    requires start + 2 <= end < |data| && p < start
    requires best.len == -1 || Fits(data, end, start, limit, best)
    ensures m.len == -1 || Fits(data, end, start, limit, m)
    decreases p + 1
  {
    if p < 0 || p < limit || start - p >= WINDOW then best
    else if Hash(data, p) != Hash(data, start) then Search(data, end, start, limit, p - 1, seen, best)
    else if seen > MAX_SCAN || best.len >= LONG_ENOUGH then best
    else Search(data, end, start, limit, p - 1, seen + 1, Better(data, end, start, limit, p, best))
  }

  function LongestMatch(data: seq<Byte>, begin: int, end: int, start: int, limit: int): (m: Match)
    requires 0 <= begin && end < |data|
    ensures m.len == -1 || Fits(data, end, start, limit, m)
  {
    if start < begin || start > end - 2 then NO_MATCH
    else Search(data, end, start, limit, start - 1, 0, NO_MATCH)
  }

  /** A match together with the position it starts at. */
  datatype Found = Found(start: int, m: Match)

  /** Lazy matching: move on by one while that gives a longer match, unless it is already long. */
  function LazyMatch(data: seq<Byte>, begin: int, end: int, limit: int, pos: int, m: Match): (f: Found)
    requires 0 <= begin && end < |data| && Fits(data, end, pos, limit, m)
    ensures f.start >= pos && Fits(data, end, f.start, limit, f.m)
    decreases if m.len < LONG_ENOUGH then LONG_ENOUGH - m.len else 0
  {
    var next := LongestMatch(data, begin, end, pos + 1, limit);
    if next.len <= m.len || next.len >= LONG_ENOUGH then Found(pos, m)
    else LazyMatch(data, begin, end, limit, pos + 1, next)
  }

  /** How far back a block may reach: a block flagged as duplicate stays within itself. */
  function Limit(begin: int, dup: bool, cur: int): int {
    if dup then begin else cur - WINDOW
  }

  function Literals(data: seq<Byte>, from: nat, till: nat): (pairs: seq<LZ77Pair>)
    requires from <= till <= |data|
    ensures |pairs| == till - from
  {
    seq(till - from, i requires 0 <= i < till - from => LZ77Pair(0, data[from + i]))
  }

  /** The pairs of one round of the block loop, and the position it goes on from. */
  datatype Step = Step(pairs: seq<LZ77Pair>, next: nat)

  function OneStep(data: seq<Byte>, begin: nat, end: int, dup: bool, cur: nat): (s: Step)
    requires begin <= cur <= end < |data|
    ensures cur < s.next <= end + 1 && 1 <= |s.pairs| <= s.next - cur
    ensures forall p | p in s.pairs :: p.Valid() && p.Encodable()
  {
    var limit := Limit(begin, dup, cur);
    var m := LongestMatch(data, begin, end, cur, limit);
    if m.len == -1 then Step([LZ77Pair(0, data[cur])], cur + 1)
    else
      var f := LazyMatch(data, begin, end, limit, cur, m);
      Step(Literals(data, cur, f.start) + [LZ77Pair(f.start - f.m.ref, f.m.len)], f.start + f.m.len)
  }

  /** The pairs of the block `begin..end` (inclusive) from position `cur` on. */
  function BlockPairs(data: seq<Byte>, begin: nat, end: int, dup: bool, cur: nat): (pairs: seq<LZ77Pair>)
    requires begin <= cur <= end + 1 <= |data|
    ensures |pairs| <= end + 1 - cur
    ensures forall p | p in pairs :: p.Valid() && p.Encodable()
    decreases end + 1 - cur
  {
    if cur > end then []
    else
      var s := OneStep(data, begin, end, dup, cur);
      s.pairs + BlockPairs(data, begin, end, dup, s.next)
  }

  // ----- every match found is one ------------------------------------------------------------

  lemma {:induction false} MatchLengthAgrees(data: seq<Byte>, end: int, src: nat, ref: nat, n: nat)
    requires ref < src && src + n <= end + 1 <= |data| && n <= MAX_MATCH - MIN_MATCH && SameBytes(data, src, ref, n)
    ensures SameBytes(data, src, ref, MatchLength(data, end, src, ref, n))
    decreases MAX_MATCH - n
  {
    if src + n <= end && data[src + n] == data[ref + n] && n < MAX_MATCH - MIN_MATCH {
      MatchLengthAgrees(data, end, src, ref, n + 1);
    }
  }

  lemma {:induction false} SearchAgrees(data: seq<Byte>, end: int, start: nat, limit: int, p: int, seen: nat,
                                        best: Match)
    requires start + 2 <= end < |data| && p < start
    requires best.len == -1 || IsMatch(data, end, start, limit, best)
    ensures var m := Search(data, end, start, limit, p, seen, best);
            m.len == -1 || IsMatch(data, end, start, limit, m)
    decreases p + 1
  {
    if p < 0 || p < limit || start - p >= WINDOW {
    } else if Hash(data, p) != Hash(data, start) {
      SearchAgrees(data, end, start, limit, p - 1, seen, best);
    } else if seen > MAX_SCAN || best.len >= LONG_ENOUGH {
    } else {
      MatchLengthAgrees(data, end, start, p, 0);
      SearchAgrees(data, end, start, limit, p - 1, seen + 1, Better(data, end, start, limit, p, best));
    }
  }

  lemma {:induction false} LongestMatchAgrees(data: seq<Byte>, begin: int, end: int, start: int, limit: int)
    requires 0 <= begin && end < |data|
    ensures var m := LongestMatch(data, begin, end, start, limit);
            m.len == -1 || IsMatch(data, end, start, limit, m)
  {
    if begin <= start <= end - 2 {
      SearchAgrees(data, end, start, limit, start - 1, 0, NO_MATCH);
    }
  }

  // ----- no candidate looked at is longer ----------------------------------------------------

  /** A candidate: its first three bytes agree with those at `start` in their low five bits. */
  predicate Alike(data: seq<Byte>, p: nat, start: nat)
    requires p <= start && start + 2 < |data|
  {
    && data[p] % 32 == data[start] % 32 && data[p + 1] % 32 == data[start + 1] % 32
    && data[p + 2] % 32 == data[start + 2] % 32
  }

  /** Equal hashes say no more and no less. */
  lemma {:induction false} HashesAgree(data: seq<Byte>, p: nat, start: nat)
    requires p <= start && start + 2 < |data|
    ensures Hash(data, p) == Hash(data, start) <==> Alike(data, p, start)
  {
  }

  /** How many candidates lie between `p` and `start`. */
  function SeenAbove(data: seq<Byte>, start: nat, p: nat): nat
    requires p < start && start + 2 < |data|
    decreases start - p
  {
    if p + 1 == start then 0
    else SeenAbove(data, start, p + 1) + if Alike(data, p + 1, start) then 1 else 0
  }

  /** As many bytes agree, and no more: then comes the end of the block, another byte, or the cap. */
  lemma {:induction false} MatchLengthIsGreatest(data: seq<Byte>, end: int, src: nat, ref: nat, n: nat)
    requires ref < src && src + n <= end + 1 <= |data| && n <= 253 && SameBytes(data, src, ref, n)
    ensures var len := MatchLength(data, end, src, ref, n);
            && len <= 253 && src + len <= end + 1 && SameBytes(data, src, ref, len)
            && (len == 253 || src + len == end + 1 || data[src + len] != data[ref + len])
    decreases 256 - n
  {
    if src + n <= end && data[src + n] == data[ref + n] && n < MAX_MATCH - MIN_MATCH {
      MatchLengthIsGreatest(data, end, src, ref, n + 1);
    }
  }

  /** The search looks at `p`: it is a candidate at most 32766 bytes back and not before `limit`, at most 32 lie nearer,
      and none of these gives 32 bytes. */
  ghost predicate LookedAt(data: seq<Byte>, end: int, start: nat, limit: int, p: nat)
    requires start + 2 <= end < |data| && p < start
  {
    && limit <= p && start - p <= 32766 && Alike(data, p, start) && SeenAbove(data, start, p) <= 32
    && forall q: nat | p < q < start && Alike(data, q, start) :: MatchLength(data, end, start, q, 0) < 32
  }

  /** Of the candidates looked at from `start` down to above `p`, `m` is the nearest of the longest, if one gives three
      bytes. */
  ghost predicate IsBest(data: seq<Byte>, end: int, start: nat, limit: int, p: int, m: Match)
    requires start + 2 <= end < |data|
  {
    && (m.len != -1 ==> p < m.ref && 0 <= m.ref < start && LookedAt(data, end, start, limit, m.ref) &&
                        3 <= m.len == MatchLength(data, end, start, m.ref, 0))
    && forall q: nat | p < q < start && LookedAt(data, end, start, limit, q) ::
         var n := MatchLength(data, end, start, q, 0);
         n < 3 || (n <= m.len && (n == m.len ==> q <= m.ref))
  }

  lemma {:induction false} SeenGrows(data: seq<Byte>, start: nat, q: nat, p: nat)
    requires q <= p < start && start + 2 < |data|
    ensures SeenAbove(data, start, p) <= SeenAbove(data, start, q)
    decreases p - q
  {
    if q < p { SeenGrows(data, start, q + 1, p); }
  }

  lemma {:induction false} SearchIsBest(data: seq<Byte>, end: int, start: nat, limit: int, p: int, seen: nat,
                                        best: Match)
    requires start + 2 <= end < |data| && p < start && (best.len == -1 || Fits(data, end, start, limit, best))
    requires IsBest(data, end, start, limit, p, best) && (p >= 0 ==> seen == SeenAbove(data, start, p))
    requires forall q: nat | p < q < start && Alike(data, q, start) :: LookedAt(data, end, start, limit, q)
    ensures IsBest(data, end, start, limit, -1, Search(data, end, start, limit, p, seen, best))
    decreases p + 1
  {
    hide Hash, MatchLength, Alike;
    if p >= 0 { HashesAgree(data, p, start); }
    if p < 0 || p < limit || start - p >= WINDOW {
    } else if !Alike(data, p, start) {
      SearchIsBest(data, end, start, limit, p - 1, seen, best);
    } else if seen > MAX_SCAN {
      forall q: nat | q <= p ensures !LookedAt(data, end, start, limit, q) { SeenGrows(data, start, q, p); }
    } else if best.len >= LONG_ENOUGH {
      forall q: nat | q <= p ensures !LookedAt(data, end, start, limit, q) { }
    } else {
      assert LookedAt(data, end, start, limit, p);
      SearchIsBest(data, end, start, limit, p - 1, seen + 1, Better(data, end, start, limit, p, best));
    }
  }

  /** The match that is used is the nearest of the longest among the candidates looked at; there is none exactly if
      none of these is three bytes long. */
  lemma {:induction false} LongestMatchIsBest(data: seq<Byte>, begin: int, end: int, start: nat, limit: int)
    requires 0 <= begin <= start <= end - 2 && end < |data|
    ensures IsBest(data, end, start, limit, -1, LongestMatch(data, begin, end, start, limit))
  {
    hide Hash, MatchLength, LookedAt, Search;
    SearchIsBest(data, end, start, limit, start - 1, 0, NO_MATCH);
  }

  lemma {:induction false} LazyMatchAgrees(data: seq<Byte>, begin: int, end: int, limit: int, pos: int, m: Match)
    requires 0 <= begin && end < |data| && IsMatch(data, end, pos, limit, m)
    ensures var f := LazyMatch(data, begin, end, limit, pos, m); IsMatch(data, end, f.start, limit, f.m)
    decreases if m.len < LONG_ENOUGH then LONG_ENOUGH - m.len else 0
  {
    var next := LongestMatch(data, begin, end, pos + 1, limit);
    if !(next.len <= m.len || next.len >= LONG_ENOUGH) {
      LongestMatchAgrees(data, begin, end, pos + 1, limit);
      LazyMatchAgrees(data, begin, end, limit, pos + 1, next);
    }
  }

  /** The match one position on is longer, but not long yet. */
  predicate LongerNext(data: seq<Byte>, begin: int, end: int, limit: int, q: int)
    requires 0 <= begin && end < |data|
  {
    LongestMatch(data, begin, end, q, limit).len < LongestMatch(data, begin, end, q + 1, limit).len < 32
  }

  /** Lazy matching goes on exactly while the next position gives a longer match that is not long yet. */
  lemma {:induction false} LazyMatchIsLazy(data: seq<Byte>, begin: int, end: int, limit: int, pos: int, m: Match)
    requires 0 <= begin && end < |data| && m == LongestMatch(data, begin, end, pos, limit) && m.len != -1
    ensures var f := LazyMatch(data, begin, end, limit, pos, m);
            && f.m == LongestMatch(data, begin, end, f.start, limit)
            && (forall q | pos <= q < f.start :: LongerNext(data, begin, end, limit, q))
            && !LongerNext(data, begin, end, limit, f.start)
    decreases if m.len < LONG_ENOUGH then LONG_ENOUGH - m.len else 0
  {
    hide LongestMatch;
    var next := LongestMatch(data, begin, end, pos + 1, limit);
    if !(next.len <= m.len || next.len >= LONG_ENOUGH) {
      LazyMatchIsLazy(data, begin, end, limit, pos + 1, next);
      assert LongerNext(data, begin, end, limit, pos);
      hide LongerNext;
    }
  }

  // ----- decompression -----------------------------------------------------------------------

  /** Appends `n` bytes read from `start` on, one at a time, so that the copy may overlap its own output. */
  function Copy(out: seq<Byte>, start: nat, n: int): (r: seq<Byte>)
    requires n > 0 ==> start < |out|
    ensures |r| == |out| + (if n > 0 then n else 0)
    decreases if n > 0 then n else 0
  {
    if n <= 0 then out else Copy(out + [out[start]], start + 1, n - 1)
  }

  /** A valid pair has no negative distance: anything else makes the decoder read outside its output. */
  predicate Readable(pairs: seq<LZ77Pair>) {
    forall p | p in pairs :: p.Valid() ==> p.dist >= 0
  }

  /** `None` is the failed assertion on a distance that reaches before the start. */
  function DecompressPair(out: seq<Byte>, p: LZ77Pair): Option<seq<Byte>>
    requires p.Valid() ==> p.dist >= 0
  {
    if !p.Valid() then Some(out)
    else if p.dist == 0 then Some(out + [p.lit % 256])
    else if p.dist > |out| then None
    else Some(Copy(out, |out| - p.dist, p.lit))
  }

  function Decompress(out: seq<Byte>, pairs: seq<LZ77Pair>): Option<seq<Byte>>
    requires Readable(pairs)
    decreases |pairs|
  {
    if pairs == [] then Some(out)
    else
      match DecompressPair(out, pairs[0])
      case None => None
      case Some(next) => Decompress(next, pairs[1..])
  }

  /** A copied byte is the one `dist` positions before it, also where the copy overlaps itself. */
  lemma {:induction false} CopyIsPeriodic(out: seq<Byte>, start: nat, n: int)
    requires n > 0 ==> start < |out|
    ensures out <= Copy(out, start, n)
    ensures forall i :: |out| <= i < |Copy(out, start, n)| ==>
              Copy(out, start, n)[i] == Copy(out, start, n)[i - (|out| - start)]
    decreases if n > 0 then n else 0
  {
    if n > 0 {
      CopyIsPeriodic(out + [out[start]], start + 1, n - 1);
    }
  }

  /** What one pair does to the output: a literal appends its low eight bits; a match fails exactly if it begins before
      the output, and else appends its length of bytes, each the one `dist` before it; an unused slot does nothing. */
  lemma {:induction false} PairDecompresses(out: seq<Byte>, p: LZ77Pair)
    requires p.dist >= 0 || (p.dist == -1 && p.lit == -1)
    ensures var r := DecompressPair(out, p);
            && (r.None? <==> p.dist > |out|)
            && (p.dist == -1 ==> r == Some(out))
            && (p.dist == 0 ==> r == Some(out + [p.lit % 256]))
            && (0 < p.dist <= |out| ==>
                  && out <= r.value && |r.value| == |out| + (if p.lit > 0 then p.lit else 0)
                  && forall i | |out| <= i < |r.value| :: r.value[i] == r.value[i - p.dist])
  {
    hide Copy;
    if 0 < p.dist <= |out| { CopyIsPeriodic(out, |out| - p.dist, p.lit); }
  }

  lemma {:induction false} CopyMatch(data: seq<Byte>, base: nat, s: nat, ref: nat, n: nat)
    requires base <= ref < s && s + n <= |data|
    requires SameBytes(data, s, ref, n)
    ensures Copy(data[base..s], ref - base, n) == data[base..s + n]
    decreases n
  {
    if n > 0 {
      assert ByteAt(data, s, 0) == ByteAt(data, ref, 0);
      assert data[base..s] + [data[base..s][ref - base]] == data[base..s + 1];
      var s', ref' := s + 1, ref + 1;
      forall k | 0 <= k < n - 1 ensures ByteAt(data, s', k) == ByteAt(data, ref', k) {
        assert ByteAt(data, s, k + 1) == ByteAt(data, ref, k + 1);
      }
      CopyMatch(data, base, s + 1, ref + 1, n - 1);
    }
  }

  lemma {:induction false} DecompressBoth(out: seq<Byte>, a: seq<LZ77Pair>, b: seq<LZ77Pair>)
    requires Readable(a) && Readable(b)
    ensures Readable(a + b)
    ensures Decompress(out, a + b) ==
            match Decompress(out, a) case None => None case Some(o) => Decompress(o, b)
    decreases |a|
  {
    if a == [] {
      assert a + b == b;
    } else {
      assert (a + b)[0] == a[0] && (a + b)[1..] == a[1..] + b;
      var next := DecompressPair(out, a[0]);
      if next.Some? {
        DecompressBoth(next.value, a[1..], b);
      }
    }
  }

  lemma {:induction false} DecompressOne(out: seq<Byte>, p: LZ77Pair)
    requires p.Valid() ==> p.dist >= 0
    ensures Decompress(out, [p]) == DecompressPair(out, p)
  {
    var pairs := [p];
    assert pairs[1..] == [];
  }

  lemma {:induction false} DecompressLiterals(data: seq<Byte>, base: nat, from: nat, till: nat)
    requires base <= from <= till <= |data|
    ensures Decompress(data[base..from], Literals(data, from, till)) == Some(data[base..till])
    decreases till - from
  {
    if from != till {
      assert Literals(data, from, till)[1..] == Literals(data, from + 1, till);
      assert data[base..from] + [data[from]] == data[base..from + 1];
      DecompressLiterals(data, base, from + 1, till);
    }
  }

  lemma {:induction false} MatchRoundTrip(data: seq<Byte>, end: int, limit: int, base: nat, f: Found)
    requires IsMatch(data, end, f.start, limit, f.m) && base <= f.m.ref
    ensures Decompress(data[base..f.start], [LZ77Pair(f.start - f.m.ref, f.m.len)]) ==
            Some(data[base..f.start + f.m.len])
  {
    CopyMatch(data, base, f.start, f.m.ref, f.m.len);
    DecompressOne(data[base..f.start], LZ77Pair(f.start - f.m.ref, f.m.len));
  }

  lemma {:induction false} FoundRoundTrip(data: seq<Byte>, end: int, limit: int, cur: nat, base: nat, f: Found)
    requires base <= cur <= f.start && IsMatch(data, end, f.start, limit, f.m) && base <= f.m.ref
    ensures Decompress(data[base..cur], Literals(data, cur, f.start) + [LZ77Pair(f.start - f.m.ref, f.m.len)]) ==
            Some(data[base..f.start + f.m.len])
  {
    DecompressLiterals(data, base, cur, f.start);
    MatchRoundTrip(data, end, limit, base, f);
    DecompressBoth(data[base..cur], Literals(data, cur, f.start), [LZ77Pair(f.start - f.m.ref, f.m.len)]);
  }

  lemma {:induction false} StepRoundTrip(data: seq<Byte>, begin: nat, end: int, dup: bool, cur: nat, base: nat, s: Step)
    requires begin <= cur <= end < |data| && s == OneStep(data, begin, end, dup, cur)
    requires base == 0 || (dup && base == begin)
    ensures Decompress(data[base..cur], s.pairs) == Some(data[base..s.next])
  {
    hide LongestMatch, LazyMatch;
    var limit := Limit(begin, dup, cur);
    var m := LongestMatch(data, begin, end, cur, limit);
    LongestMatchAgrees(data, begin, end, cur, limit);
    if m.len == -1 {
      DecompressOne(data[base..cur], LZ77Pair(0, data[cur]));
      assert data[base..cur] + [data[cur]] == data[base..cur + 1];
    } else {
      LazyMatchAgrees(data, begin, end, limit, cur, m);
      FoundRoundTrip(data, end, limit, cur, base, LazyMatch(data, begin, end, limit, cur, m));
    }
  }

  /** Every block is restored behind what precedes it; a duplicate-flagged block also on its own. */
  lemma {:induction false} BlockRoundTrip(data: seq<Byte>, begin: nat, end: int, dup: bool, cur: nat, base: nat)
    requires begin <= cur <= end + 1 <= |data|
    requires base == 0 || (dup && base == begin)
    ensures Decompress(data[base..cur], BlockPairs(data, begin, end, dup, cur)) == Some(data[base..end + 1])
    decreases end + 1 - cur
  {
    if cur <= end {
      var s := OneStep(data, begin, end, dup, cur);
      StepRoundTrip(data, begin, end, dup, cur, base, s);
      BlockRoundTrip(data, begin, end, dup, s.next, base);
      DecompressBoth(data[base..cur], s.pairs, BlockPairs(data, begin, end, dup, s.next));
    }
  }

  // ----- context independence ----------------------------------------------------------------

  /** Two blocks with the same raw bytes, in whatever data they stand. */
  ghost predicate SameBlock(a: seq<Byte>, i: nat, endA: int, b: seq<Byte>, j: nat, endB: int) {
    && i <= endA + 1 <= |a| && j <= endB + 1 <= |b|
    && a[i..endA + 1] == b[j..endB + 1]
  }

  /** The same match, seen from the beginning of either block. */
  ghost predicate Shifted(m: Match, i: nat, n: Match, j: nat) {
    m.len == n.len && (m.len != -1 ==> m.ref - i == n.ref - j)
  }

  lemma {:induction false} MatchLengthMoves(a: seq<Byte>, i: nat, endA: int, b: seq<Byte>, j: nat, endB: int, src: nat,
                                            ref: nat, n: nat)
    requires SameBlock(a, i, endA, b, j, endB)
    requires i <= i + ref < i + src && i + src + n <= endA + 1 && n <= MAX_MATCH - MIN_MATCH
    ensures MatchLength(a, endA, i + src, i + ref, n) == MatchLength(b, endB, j + src, j + ref, n)
    decreases MAX_MATCH - n
  {
    var x, y := a[i..endA + 1], b[j..endB + 1];
    assert |x| == |y| && endA - i == endB - j;
    if i + src + n <= endA {
      assert x[src + n] == a[i + src + n] && x[ref + n] == a[i + ref + n];
      assert y[src + n] == b[j + src + n] && y[ref + n] == b[j + ref + n];
      if a[i + src + n] == a[i + ref + n] && n < MAX_MATCH - MIN_MATCH {
        MatchLengthMoves(a, i, endA, b, j, endB, src, ref, n + 1);
      }
    }
  }

  lemma {:induction false} HashMoves(a: seq<Byte>, i: nat, endA: int, b: seq<Byte>, j: nat, endB: int, p: nat)
    requires SameBlock(a, i, endA, b, j, endB) && i + p + 2 <= endA
    ensures j + p + 2 <= endB && Hash(a, i + p) == Hash(b, j + p)
  {
    var x, y := a[i..endA + 1], b[j..endB + 1];
    assert |x| == |y|;
    assert x[p] == a[i + p] && x[p + 1] == a[i + p + 1] && x[p + 2] == a[i + p + 2];
    assert y[p] == b[j + p] && y[p + 1] == b[j + p + 1] && y[p + 2] == b[j + p + 2];
  }

  /** Scanned downwards and cut at the block's begin, the candidates of a duplicate-flagged block are its own. */
  lemma {:induction false} SearchMoves(a: seq<Byte>, i: nat, endA: int, b: seq<Byte>, j: nat, endB: int, start: nat,
                                       p: int, seen: nat, m: Match, n: Match)
    requires SameBlock(a, i, endA, b, j, endB) && i + start + 2 <= endA && -1 <= p < start
    requires m.len == -1 || Fits(a, endA, i + start, i, m)
    requires n.len == -1 || Fits(b, endB, j + start, j, n)
    requires Shifted(m, i, n, j)
    ensures j + start + 2 <= endB
    ensures Shifted(Search(a, endA, i + start, i, i + p, seen, m), i, Search(b, endB, j + start, j, j + p, seen, n), j)
    decreases p + 1
  {
    hide Hash, MatchLength;
    assert |a[i..endA + 1]| == |b[j..endB + 1]|;
    var x, y := Search(a, endA, i + start, i, i + p, seen, m), Search(b, endB, j + start, j, j + p, seen, n);
    if p >= 0 && start - p < WINDOW {
      HashMoves(a, i, endA, b, j, endB, p);
      HashMoves(a, i, endA, b, j, endB, start);
      if Hash(a, i + p) != Hash(a, i + start) {
        SearchMoves(a, i, endA, b, j, endB, start, p - 1, seen, m, n);
        assert x == Search(a, endA, i + start, i, i + (p - 1), seen, m);
        assert y == Search(b, endB, j + start, j, j + (p - 1), seen, n);
      } else if !(seen > MAX_SCAN || m.len >= LONG_ENOUGH) {
        MatchLengthMoves(a, i, endA, b, j, endB, start, p, 0);
        var m', n' := Better(a, endA, i + start, i, i + p, m), Better(b, endB, j + start, j, j + p, n);
        SearchMoves(a, i, endA, b, j, endB, start, p - 1, seen + 1, m', n');
        assert x == Search(a, endA, i + start, i, i + (p - 1), seen + 1, m');
        assert y == Search(b, endB, j + start, j, j + (p - 1), seen + 1, n');
      }
    }
  }

  lemma {:induction false} LongestMatchMoves(a: seq<Byte>, i: nat, endA: int, b: seq<Byte>, j: nat, endB: int,
                                             start: nat)
    requires SameBlock(a, i, endA, b, j, endB) && endA < |a|
    ensures Shifted(LongestMatch(a, i, endA, i + start, i), i, LongestMatch(b, j, endB, j + start, j), j)
  {
    assert |a[i..endA + 1]| == |b[j..endB + 1]|;
    if i + start <= endA - 2 {
      SearchMoves(a, i, endA, b, j, endB, start, start - 1, 0, NO_MATCH, NO_MATCH);
    }
  }

  lemma {:induction false} LazyMatchMoves(a: seq<Byte>, i: nat, endA: int, b: seq<Byte>, j: nat, endB: int, pos: nat,
                                          m: Match, n: Match)
    requires SameBlock(a, i, endA, b, j, endB)
    requires Fits(a, endA, i + pos, i, m) && Fits(b, endB, j + pos, j, n) && Shifted(m, i, n, j)
    ensures var f, g := LazyMatch(a, i, endA, i, i + pos, m), LazyMatch(b, j, endB, j, j + pos, n);
            f.start - i == g.start - j && Shifted(f.m, i, g.m, j)
    decreases if m.len < LONG_ENOUGH then LONG_ENOUGH - m.len else 0
  {
    hide LongestMatch;
    LongestMatchMoves(a, i, endA, b, j, endB, pos + 1);
    var m', n' := LongestMatch(a, i, endA, i + pos + 1, i), LongestMatch(b, j, endB, j + pos + 1, j);
    if !(m'.len <= m.len || m'.len >= LONG_ENOUGH) {
      LazyMatchMoves(a, i, endA, b, j, endB, pos + 1, m', n');
      assert LazyMatch(a, i, endA, i, i + pos, m) == LazyMatch(a, i, endA, i, i + (pos + 1), m');
      assert LazyMatch(b, j, endB, j, j + pos, n) == LazyMatch(b, j, endB, j, j + (pos + 1), n');
    }
  }

  lemma {:induction false} StepMoves(a: seq<Byte>, i: nat, endA: int, b: seq<Byte>, j: nat, endB: int, cur: nat)
    requires SameBlock(a, i, endA, b, j, endB) && i + cur <= endA
    ensures j + cur <= endB
    ensures var s, t := OneStep(a, i, endA, true, i + cur), OneStep(b, j, endB, true, j + cur);
            s.pairs == t.pairs && s.next - i == t.next - j
  {
    hide LongestMatch, LazyMatch;
    var x, y := a[i..endA + 1], b[j..endB + 1];
    assert |x| == |y|;
    LongestMatchMoves(a, i, endA, b, j, endB, cur);
    var m, n := LongestMatch(a, i, endA, i + cur, i), LongestMatch(b, j, endB, j + cur, j);
    if m.len == -1 {
      assert x[cur] == a[i + cur] && y[cur] == b[j + cur];
    } else {
      LazyMatchMoves(a, i, endA, b, j, endB, cur, m, n);
      var f, g := LazyMatch(a, i, endA, i, i + cur, m), LazyMatch(b, j, endB, j, j + cur, n);
      var la, lb := Literals(a, i + cur, f.start), Literals(b, j + cur, g.start);
      forall k | 0 <= k < |la| ensures la[k] == lb[k] {
        assert x[cur + k] == a[i + cur + k] && y[cur + k] == b[j + cur + k];
      }
    }
  }

  /** Duplicate-flagged blocks with equal raw bytes have equal pairs, wherever they stand in whatever batch. */
  lemma {:induction false} ContextIndependence(a: seq<Byte>, i: nat, endA: int, b: seq<Byte>, j: nat, endB: int,
                                               cur: nat)
    requires SameBlock(a, i, endA, b, j, endB) && i + cur <= endA + 1
    ensures j + cur <= endB + 1
    ensures BlockPairs(a, i, endA, true, i + cur) == BlockPairs(b, j, endB, true, j + cur)
    decreases endA + 1 - i - cur
  {
    hide OneStep;
    assert |a[i..endA + 1]| == |b[j..endB + 1]|;
    if i + cur <= endA {
      StepMoves(a, i, endA, b, j, endB, cur);
      var s, t := OneStep(a, i, endA, true, i + cur), OneStep(b, j, endB, true, j + cur);
      ContextIndependence(a, i, endA, b, j, endB, s.next - i);
      assert BlockPairs(a, i, endA, true, i + cur) == s.pairs + BlockPairs(a, i, endA, true, i + (s.next - i));
      assert BlockPairs(b, j, endB, true, j + cur) == t.pairs + BlockPairs(b, j, endB, true, j + (t.next - j));
    }
  }

  // ----- size --------------------------------------------------------------------------------

  lemma {:induction false} EncodedBitsOfBoth(a: seq<LZ77Pair>, b: seq<LZ77Pair>)
    requires AllEncodable(a) && AllEncodable(b)
    ensures EncodedBits(a + b) == EncodedBits(a) + EncodedBits(b)
    decreases |b|
  {
    hide PairBits;
    if b == [] {
      assert a + b == a;
      assert EncodedBits(a) + EncodedBits(b) == EncodedBits(a);
    } else {
      var p, front := b[|b| - 1], b[..|b| - 1];
      assert (a + b)[..|a + b| - 1] == a + front;
      EncodedBitsOfBoth(a, front);
    }
  }

  lemma {:induction false} LiteralBits(data: seq<Byte>, from: nat, till: nat)
    requires from <= till <= |data|
    ensures |EncodedBits(Literals(data, from, till))| == 9 * (till - from)
    decreases till
  {
    if from != till {
      var pairs := Literals(data, from, till);
      assert pairs[..|pairs| - 1] == Literals(data, from, till - 1);
      LiteralBits(data, from, till - 1);
    }
  }

  lemma {:induction false} StepBits(data: seq<Byte>, begin: nat, end: int, dup: bool, cur: nat)
    requires begin <= cur <= end < |data|
    ensures var s := OneStep(data, begin, end, dup, cur);
            AllEncodable(s.pairs) && |EncodedBits(s.pairs)| <= 9 * (s.next - cur)
  {
    hide LongestMatch, LazyMatch;
    var limit := Limit(begin, dup, cur);
    var m := LongestMatch(data, begin, end, cur, limit);
    if m.len == -1 {
      LiteralBits(data, cur, cur + 1);
      assert Literals(data, cur, cur + 1) == [LZ77Pair(0, data[cur])];
    } else {
      var f := LazyMatch(data, begin, end, limit, cur, m);
      var p := LZ77Pair(f.start - f.m.ref, f.m.len);
      LiteralBits(data, cur, f.start);
      EncodedBitsOfBoth(Literals(data, cur, f.start), [p]);
      assert [p][..0] == [];
      assert EncodedBits([p]) == PairBits(p);
    }
  }

  /** No block grows by more than one bit a byte: a match of 25 bits replaces at least 3 bytes. */
  lemma {:induction false} BlockBits(data: seq<Byte>, begin: nat, end: int, dup: bool, cur: nat)
    requires begin <= cur <= end + 1 <= |data|
    ensures |EncodedBits(BlockPairs(data, begin, end, dup, cur))| <= 9 * (end + 1 - cur)
    decreases end + 1 - cur
  {
    if cur <= end {
      var s := OneStep(data, begin, end, dup, cur);
      StepBits(data, begin, end, dup, cur);
      BlockBits(data, begin, end, dup, s.next);
      EncodedBitsOfBoth(s.pairs, BlockPairs(data, begin, end, dup, s.next));
    }
  }
}
