/** How the batch compressor cuts a block into literals and matches (src/compression/lz77_comperssor.cpp:64-145), said
    by what each choice must be and not by how it is found. */
module Lz77Parses {
  import opened Bits
  import opened Lz77Compressor
  import opened Lz77Spec
  import opened PairSerializer

  /** How far back a match may reach: a block flagged as duplicate stays within itself, any other may use all data. */
  function Reach(begin: nat, dup: bool): nat {
    if dup then begin else 0
  }

  /** What the search at `start` has to find: the best match, which needs three bytes of the block. */
  ghost predicate BestAt(data: seq<Byte>, begin: nat, end: int, dup: bool, start: nat, m: Match)
    requires end < |data|
  {
    if begin <= start <= end - 2 then IsBest(data, end, start, Reach(begin, dup), -1, m) else m.len == -1
  }

  /** The limit of a block without flag excludes nothing that the window lets in. */
  lemma {:induction false} LimitIsReach(data: seq<Byte>, begin: nat, end: int, dup: bool, cur: nat, start: nat,
                                        m: Match)
    requires begin <= cur <= start <= end - 2 && end < |data|
    ensures IsBest(data, end, start, Limit(begin, dup, cur), -1, m) <==>
            IsBest(data, end, start, Reach(begin, dup), -1, m)
  {
    hide MatchLength, SeenAbove, Alike;
    var limit, reach := Limit(begin, dup, cur), Reach(begin, dup);
    forall p: nat | p < start
      ensures LookedAt(data, end, start, limit, p) <==> LookedAt(data, end, start, reach, p)
    {
    }
    hide LookedAt;
  }

  lemma {:induction false} LongestIsBest(data: seq<Byte>, begin: nat, end: int, dup: bool, cur: nat, start: nat)
    requires begin <= cur <= start && end < |data|
    ensures BestAt(data, begin, end, dup, start, LongestMatch(data, begin, end, start, Limit(begin, dup, cur)))
  {
    hide IsBest, Search;
    if start <= end - 2 {
      LongestMatchIsBest(data, begin, end, start, Limit(begin, dup, cur));
      LimitIsReach(data, begin, end, dup, cur, start, LongestMatch(data, begin, end, start, Limit(begin, dup, cur)));
    }
  }

  /** There is only one best match. */
  lemma {:induction false} OneBest(data: seq<Byte>, begin: nat, end: int, dup: bool, start: nat, a: Match, b: Match)
    requires end < |data| && BestAt(data, begin, end, dup, start, a) && BestAt(data, begin, end, dup, start, b)
    ensures a.len == b.len && (a.len != -1 ==> a == b && a.len >= 3)
  {
    hide LookedAt, MatchLength;
  }

  // ----- one round ---------------------------------------------------------------------------

  /** The next match is longer, but not long yet. */
  predicate Grows(found: seq<Match>, i: nat)
    requires i + 1 < |found|
  {
    found[i].len < found[i + 1].len < 32
  }

  ghost predicate AllFound(data: seq<Byte>, begin: nat, end: int, dup: bool, cur: nat, found: seq<Match>)
    requires end < |data|
  {
    forall i: nat | i < |found| :: BestAt(data, begin, end, dup, cur + i, found[i])
  }

  /** One round at `cur`, given the best matches `found` at `cur`, `cur + 1` and so on: without a match at `cur` a
      literal; else literals as long as the next match is longer and has fewer than 32 bytes, and then the match. */
  ghost predicate IsRound(data: seq<Byte>, begin: nat, end: int, dup: bool, cur: nat, s: Lz77Spec.Step,
                          found: seq<Match>)
    requires begin <= cur <= end < |data|
  {
    && found != [] && AllFound(data, begin, end, dup, cur, found)
    && if found[0].len == -1 then s == Lz77Spec.Step([LZ77Pair(0, data[cur])], cur + 1)
       else
         && |found| >= 2 && cur + |found| - 2 <= end
         && var k := |found| - 2;
            && (forall i: nat | i < k :: Grows(found, i)) && !Grows(found, k)
            && s.next == cur + k + found[k].len
            && s.pairs == Literals(data, cur, cur + k) + [LZ77Pair(cur + k - found[k].ref, found[k].len)]
  }

  lemma {:induction false} StepIsRound(data: seq<Byte>, begin: nat, end: int, dup: bool, cur: nat)
    returns (found: seq<Match>)
    requires begin <= cur <= end < |data|
    ensures IsRound(data, begin, end, dup, cur, OneStep(data, begin, end, dup, cur), found)
  {
    hide BestAt, Literals, LongestMatch, LazyMatch;
    var limit := Limit(begin, dup, cur);
    var m := LongestMatch(data, begin, end, cur, limit);
    var f := if m.len == -1 then Found(cur, m) else LazyMatch(data, begin, end, limit, cur, m);
    var k := f.start - cur;
    found := seq(k + 2, i requires 0 <= i => LongestMatch(data, begin, end, cur + i, limit));
    forall i: nat | i < |found| ensures BestAt(data, begin, end, dup, cur + i, found[i]) {
      LongestIsBest(data, begin, end, dup, cur, cur + i);
    }
    assert AllFound(data, begin, end, dup, cur, found) && found[0] == m;
    if m.len != -1 {
      hide AllFound;
      LazyMatchIsLazy(data, begin, end, limit, cur, m);
      assert found[k] == f.m;
      forall i: nat | i < k + 1 ensures Grows(found, i) <==> LongerNext(data, begin, end, limit, cur + i) {
        assert found[i + 1] == LongestMatch(data, begin, end, cur + i + 1, limit);
      }
    }
  }

  lemma {:induction false} SameFound(data: seq<Byte>, begin: nat, end: int, dup: bool, cur: nat, a: seq<Match>,
                                     b: seq<Match>, i: nat)
    requires end < |data| && AllFound(data, begin, end, dup, cur, a) && AllFound(data, begin, end, dup, cur, b)
    requires i < |a| && i < |b|
    ensures a[i].len == b[i].len && (a[i].len != -1 ==> a[i] == b[i] && a[i].len >= 3)
  {
    hide BestAt;
    OneBest(data, begin, end, dup, cur + i, a[i], b[i]);
  }

  /** A round leaves no choice. */
  lemma {:induction false} RoundIsUnique(data: seq<Byte>, begin: nat, end: int, dup: bool, cur: nat, s: Lz77Spec.Step,
                                         t: Lz77Spec.Step, a: seq<Match>, b: seq<Match>)
    requires begin <= cur <= end < |data|
    requires IsRound(data, begin, end, dup, cur, s, a) && IsRound(data, begin, end, dup, cur, t, b)
    ensures s == t
  {
    hide AllFound, Literals, Grows;
    SameFound(data, begin, end, dup, cur, a, b, 0);
    if a[0].len != -1 {
      if |a| < |b| {
        assert Grows(b, |a| - 2);
        SameStop(data, begin, end, dup, cur, a, b);
      } else if |b| < |a| {
        assert Grows(a, |b| - 2);
        SameStop(data, begin, end, dup, cur, b, a);
      } else {
        SameFound(data, begin, end, dup, cur, a, b, |a| - 2);
        Growing(a, |a| - 2);
      }
    }
  }

  lemma {:induction false} SameStop(data: seq<Byte>, begin: nat, end: int, dup: bool, cur: nat, a: seq<Match>,
                                    b: seq<Match>)
    requires end < |data| && AllFound(data, begin, end, dup, cur, a) && AllFound(data, begin, end, dup, cur, b)
    requires 2 <= |a| < |b|
    ensures Grows(a, |a| - 2) <==> Grows(b, |a| - 2)
  {
    hide AllFound;
    SameFound(data, begin, end, dup, cur, a, b, |a| - 2);
    SameFound(data, begin, end, dup, cur, a, b, |a| - 1);
  }

  lemma {:induction false} Growing(found: seq<Match>, k: nat)
    requires k + 1 < |found| && forall i: nat | i < k :: Grows(found, i)
    ensures found[0].len <= found[k].len
    decreases k
  {
    if k > 0 {
      Growing(found, k - 1);
      assert Grows(found, k - 1);
    }
  }

  // ----- a block -----------------------------------------------------------------------------

  /** Rounds from `cur` to the end of the block. */
  ghost predicate IsParse(data: seq<Byte>, begin: nat, end: int, dup: bool, cur: nat, rounds: seq<Lz77Spec.Step>)
    requires end < |data| && begin <= cur
    decreases |rounds|
  {
    if rounds == [] then cur == end + 1
    else
      && cur <= end && cur < rounds[0].next
      && (exists found :: IsRound(data, begin, end, dup, cur, rounds[0], found))
      && IsParse(data, begin, end, dup, rounds[0].next, rounds[1..])
  }

  function PairsOf(rounds: seq<Lz77Spec.Step>): seq<LZ77Pair> {
    if rounds == [] then [] else rounds[0].pairs + PairsOf(rounds[1..])
  }

  lemma {:induction false} BlockIsParsed(data: seq<Byte>, begin: nat, end: int, dup: bool, cur: nat)
    returns (rounds: seq<Lz77Spec.Step>)
    requires begin <= cur <= end + 1 <= |data|
    ensures IsParse(data, begin, end, dup, cur, rounds) && PairsOf(rounds) == BlockPairs(data, begin, end, dup, cur)
    decreases end + 1 - cur
  {
    hide OneStep, IsRound;
    if cur > end {
      rounds := [];
    } else {
      var s := OneStep(data, begin, end, dup, cur);
      var found := StepIsRound(data, begin, end, dup, cur);
      var rest := BlockIsParsed(data, begin, end, dup, s.next);
      rounds := [s] + rest;
      assert rounds[1..] == rest;
    }
  }

  /** A block can be parsed in one way only. */
  lemma {:induction false} ParseIsUnique(data: seq<Byte>, begin: nat, end: int, dup: bool, cur: nat,
                                         a: seq<Lz77Spec.Step>, b: seq<Lz77Spec.Step>)
    requires begin <= cur && end < |data|
    requires IsParse(data, begin, end, dup, cur, a) && IsParse(data, begin, end, dup, cur, b)
    ensures a == b
    decreases |a|
  {
    hide IsRound;
    if a != [] && b != [] {
      var f :| IsRound(data, begin, end, dup, cur, a[0], f);
      var g :| IsRound(data, begin, end, dup, cur, b[0], g);
      RoundIsUnique(data, begin, end, dup, cur, a[0], b[0], f, g);
      ParseIsUnique(data, begin, end, dup, a[0].next, a[1..], b[1..]);
      assert a == [a[0]] + a[1..] && b == [b[0]] + b[1..];
    }
  }

  /** What is stored for block `i` of a batch: the packed pairs of its one parse, behind the blocks in front of it. */
  lemma {:induction false} StoredIsParsed(raws: seq<seq<Byte>>, dups: seq<bool>, i: nat)
    returns (rounds: seq<Lz77Spec.Step>)
    requires i < |raws| == |dups|
    ensures var data, begin := BatchData(raws), |BatchData(raws[..i])|;
            && begin + |raws[i]| <= |data| && data[begin..begin + |raws[i]|] == raws[i]
            && IsParse(data, begin, begin + |raws[i]| - 1, dups[i], begin, rounds)
            && AllEncodable(PairsOf(rounds)) && CompressedBlock(raws, dups, i) == Packed(PairsOf(rounds))
  {
    hide BatchData, BlockPairs, IsParse, Packed;
    BlockInBatch(raws, i);
    var begin := BlockBegin(raws, i);
    rounds := BlockIsParsed(BatchData(raws), begin, begin + |raws[i]| - 1, dups[i], begin);
  }
}
