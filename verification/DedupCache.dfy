/** The deduplicating cache without compression (src/baseline_cache.cpp:55-111), against an ideal LRU cache. */
module DedupCaches {
  import opened Words
  import opened CachePolicies
  import opened Sets

  type Fp = U64
  type Address = nat

  // ----- the ideal ---------------------------------------------------------------------------

  /** The keys of a history, the one touched last in front. */
  function Recency(touched: seq<Fp>): seq<Fp> {
    if touched == [] then []
    else
      var last := touched[|touched| - 1];
      [last] + Without(Recency(touched[..|touched| - 1]), last)
  }

  function Cut(keys: seq<Fp>, n: nat): (r: seq<Fp>)
    ensures |r| == if |keys| <= n then |keys| else n
  {
    if |keys| <= n then keys else keys[..n]
  }

  datatype Request = Read(address: U64, rawFp: Fp) | Write(address: U64, rawFp: Fp)

  /** Which fingerprint was last recorded for an address, and all fingerprints touched so far. */
  datatype Ideal = Ideal(lba: map<U64, Fp>, touched: seq<Fp>) {
    /** The keys an LRU cache of `capacity` blocks holds. */
    function Kept(capacity: nat): seq<Fp> { Cut(Recency(touched), capacity) }

    predicate Hits(address: U64, capacity: nat) { address in lba && lba[address] in Kept(capacity) }

    function Serve(r: Request, capacity: nat): Ideal {
      if r.Read? && Hits(r.address, capacity) then this.(touched := touched + [lba[r.address]])
      else Ideal(lba[r.address := r.rawFp], touched + [r.rawFp])
    }
  }

  function Served(requests: seq<Request>, capacity: nat): Ideal {
    if requests == [] then Ideal(map[], [])
    else Served(requests[..|requests| - 1], capacity).Serve(requests[|requests| - 1], capacity)
  }

  /** When a key was touched last, counting from one; zero if never. */
  function LastTouch(touched: seq<Fp>, fp: Fp): (at: nat)
    ensures at <= |touched|
    ensures at > 0 <==> fp in touched
  {
    if touched == [] then 0
    else if touched[|touched| - 1] == fp then |touched|
    else LastTouch(touched[..|touched| - 1], fp)
  }

  /** The keys stand in the order of their last touches, the latest in front. */
  ghost predicate LatestFirst(touched: seq<Fp>, keys: seq<Fp>) {
    forall i, j | 0 <= i < j < |keys| :: LastTouch(touched, keys[i]) > LastTouch(touched, keys[j])
  }

  /** `Recency` lists every touched key once, the later its last touch the nearer to the front. */
  lemma {:induction false} RecencyIsByLastTouch(touched: seq<Fp>)
    ensures forall fp: Fp :: fp in Recency(touched) <==> fp in touched
    ensures LatestFirst(touched, Recency(touched))
    decreases |touched|
  {
    hide Without;
    if touched != [] {
      hide LatestFirst;
      var front, last := touched[..|touched| - 1], touched[|touched| - 1];
      assert touched == front + [last];
      RecencyIsByLastTouch(front);
      RecencyStaysSorted(front, last);
    }
  }

  /** One more touch keeps the order by last touches. */
  lemma {:induction false} RecencyStaysSorted(front: seq<Fp>, last: Fp)
    requires LatestFirst(front, Recency(front))
    ensures LatestFirst(front + [last], [last] + Without(Recency(front), last))
  {
    hide Without, Recency, LastTouch;
    var touched, rest := front + [last], Without(Recency(front), last);
    var r := [last] + rest;
    TouchedLast(front, last, last);
    forall i, j | 0 <= i < j < |r| ensures LastTouch(touched, r[i]) > LastTouch(touched, r[j]) {
      assert r[j] == rest[j - 1] && rest[j - 1] in rest;
      TouchedLast(front, last, r[j]);
      if i > 0 {
        assert r[i] == rest[i - 1] && rest[i - 1] in rest;
        TouchedLast(front, last, r[i]);
        var i', j' := PlacesBefore(Recency(front), last, i - 1, j - 1);
      }
    }
  }

  lemma {:induction false} TouchedLast(front: seq<Fp>, last: Fp, fp: Fp)
    ensures LastTouch(front + [last], fp) == if fp == last then |front| + 1 else LastTouch(front, fp)
    ensures LastTouch(front, fp) <= |front|
  {
    assert (front + [last])[..|front|] == front;
  }

  lemma {:induction false} RecencyHasNoRepeats(touched: seq<Fp>)
    ensures NoRepeats(Recency(touched))
  {
    hide Recency;
    RecencyIsByLastTouch(touched);
  }

  lemma {:induction false} TouchOne(touched: seq<Fp>, fp: Fp)
    ensures Recency(touched + [fp]) == [fp] + Without(Recency(touched), fp)
  {
    assert (touched + [fp])[..|touched|] == touched;
  }

  /** Touching a kept key brings it to the front. */
  lemma {:induction false} TouchKept(touched: seq<Fp>, fp: Fp, capacity: nat)
    requires fp in Cut(Recency(touched), capacity)
    ensures Cut(Recency(touched + [fp]), capacity) == Promoted(Cut(Recency(touched), capacity), fp)
  {
    hide Recency, NoRepeats, Without;
    TouchOne(touched, fp);
    RecencyHasNoRepeats(touched);
    var r := Recency(touched);
    var kept := Cut(r, capacity);
    var rest := r[|kept|..];
    assert r == kept + rest;
    WithoutBoth(kept, rest, fp);
    NotLater(kept, rest, fp);
    WithoutAbsent(rest, fp);
    OneFewer(kept, fp);
  }

  lemma {:induction false} NotLater(a: seq<Fp>, b: seq<Fp>, t: Fp)
    requires NoRepeats(a + b) && t in a
    ensures t !in b && NoRepeats(a)
  {
    var i :| 0 <= i < |a| && a[i] == t;
    forall j | 0 <= j < |b| ensures b[j] != t {
      assert (a + b)[i] != (a + b)[|a| + j];
    }
    forall i, j | 0 <= i < j < |a| ensures a[i] != a[j] {
      assert (a + b)[i] != (a + b)[j];
    }
  }

  lemma {:induction false} OneFewer(a: seq<Fp>, t: Fp)
    requires NoRepeats(a) && t in a
    ensures |Without(a, t)| == |a| - 1
  {
    hide Without, NoRepeats;
    var i :| 0 <= i < |a| && a[i] == t;
    WithoutAt(a, i);
  }

  /** Touching any other key puts it in front of what the cache can still hold beside it. */
  lemma {:induction false} TouchNew(touched: seq<Fp>, fp: Fp, capacity: nat)
    requires capacity >= 1 && fp !in Cut(Recency(touched), capacity)
    ensures Cut(Recency(touched + [fp]), capacity) == [fp] + Cut(Recency(touched), capacity - 1)
  {
    hide Recency, NoRepeats, Without;
    TouchOne(touched, fp);
    var r := Recency(touched);
    var kept := Cut(r, capacity);
    var rest := r[|kept|..];
    assert r == kept + rest;
    WithoutBoth(kept, rest, fp);
    WithoutAbsent(kept, fp);
  }

  lemma {:induction false} CutFurther(keys: seq<Fp>, n: nat)
    requires n >= 1 && |Cut(keys, n)| == n
    ensures Cut(keys, n)[..n - 1] == Cut(keys, n - 1)
  {
  }

  // ----- the ideal, from the requests alone --------------------------------------------------

  /** The fingerprints touched after `fp` was touched last. */
  function Since(touched: seq<Fp>, fp: Fp): set<Fp> { Members(touched[LastTouch(touched, fp)..]) }

  lemma {:induction false} TouchedLater(touched: seq<Fp>, fp: Fp, k: Fp)
    requires fp in touched
    ensures k in Since(touched, fp) <==> LastTouch(touched, k) > LastTouch(touched, fp)
    decreases |touched|
  {
    var front, last := touched[..|touched| - 1], touched[|touched| - 1];
    assert touched == front + [last];
    if last != fp {
      TouchedLater(front, fp, k);
      var at := LastTouch(front, fp);
      assert touched[at..] == front[at..] + [last];
    } else {
      assert touched[|touched|..] == [];
    }
  }

  /** An LRU cache of `capacity` blocks holds a fingerprint exactly if fewer than `capacity` others were touched
      since. */
  lemma {:induction false} KeptIffRecent(touched: seq<Fp>, fp: Fp, capacity: nat)
    requires fp in touched
    ensures fp in Cut(Recency(touched), capacity) <==> |Since(touched, fp)| < capacity
  {
    hide Recency, Since, LastTouch;
    RecencyIsByLastTouch(touched);
    RecencyHasNoRepeats(touched);
    var keys := Recency(touched);
    var i :| 0 <= i < |keys| && keys[i] == fp;
    MemberCount(keys[..i]);
    forall k: Fp ensures k in Since(touched, fp) <==> k in keys[..i] {
      TouchedLater(touched, fp, k);
      if k in keys {
        var j :| 0 <= j < |keys| && keys[j] == k;
      } else {
        NeverTouched(touched, k);
      }
    }
    assert Since(touched, fp) == Members(keys[..i]);
  }

  lemma {:induction false} NeverTouched(touched: seq<Fp>, k: Fp)
    requires k !in touched
    ensures LastTouch(touched, k) == 0
  {
  }

  /** The latest of the first `k` requests for an address. */
  ghost predicate IsLatest(requests: seq<Request>, k: nat, address: U64, j: nat) {
    && j < k <= |requests| && requests[j].address == address
    && forall m | j < m < k :: requests[m].address != address
  }

  /** After `k` requests, what was touched by the latest one for this address is still cached. */
  ghost predicate WouldHit(requests: seq<Request>, touched: seq<Fp>, capacity: nat, k: nat, address: U64)
    requires k <= |touched|
  {
    exists j: nat :: IsLatest(requests, k, address, j) && |Since(touched[..k], touched[j])| < capacity
  }

  /** What each request touches: a read that hits, what its address had before; any other request, its own block. */
  ghost predicate TouchedBy(requests: seq<Request>, touched: seq<Fp>, capacity: nat, k: nat)
    requires k < |requests| == |touched|
  {
    if requests[k].Read? && WouldHit(requests, touched, capacity, k, requests[k].address)
    then forall j: nat | IsLatest(requests, k, requests[k].address, j) :: touched[k] == touched[j]
    else touched[k] == requests[k].rawFp
  }

  ghost predicate IsLru(requests: seq<Request>, touched: seq<Fp>, capacity: nat) {
    |touched| == |requests| && forall k: nat | k < |requests| :: TouchedBy(requests, touched, capacity, k)
  }

  /** The address index holds what the latest request for each address touched. */
  ghost predicate Remembers(requests: seq<Request>, ideal: Ideal) {
    && |ideal.touched| == |requests|
    && (forall a | a in ideal.lba :: exists j: nat :: IsLatest(requests, |requests|, a, j))
    && (forall a, j: nat | IsLatest(requests, |requests|, a, j) :: a in ideal.lba && ideal.lba[a] == ideal.touched[j])
  }

  lemma {:induction false} LatestInFront(front: seq<Request>, r: Request, k: nat, address: U64, j: nat)
    ensures k <= |front| ==> (IsLatest(front + [r], k, address, j) <==> IsLatest(front, k, address, j))
    ensures IsLatest(front + [r], |front| + 1, address, j) <==>
            if r.address == address then j == |front| else IsLatest(front, |front|, address, j)
    ensures IsLatest(front, |front|, address, j) ==> j < |front|
  {
    var all := front + [r];
    assert forall m: nat | m < |front| :: all[m] == front[m];
    assert all[|front|] == r;
    if r.address != address && IsLatest(front, |front|, address, j) {
      forall m | j < m < |front| + 1 ensures all[m].address != address { }
    }
    if r.address != address && IsLatest(all, |front| + 1, address, j) {
      forall m | j < m < |front| ensures front[m].address != address { assert all[m] == front[m]; }
    }
  }

  /** One more request, which touches `x`. */
  lemma {:induction false} RemembersOneMore(front: seq<Request>, r: Request, before: Ideal, x: Fp)
    requires Remembers(front, before)
    ensures Remembers(front + [r], Ideal(before.lba[r.address := x], before.touched + [x]))
  {
    hide IsLatest;
    var all, ideal := front + [r], Ideal(before.lba[r.address := x], before.touched + [x]);
    forall a: U64, j: nat
      ensures IsLatest(all, |all|, a, j) <==> if r.address == a then j == |front| else IsLatest(front, |front|, a, j)
    {
      LatestInFront(front, r, 0, a, j);
    }
    forall a | a in ideal.lba ensures exists j: nat :: IsLatest(all, |all|, a, j) {
      if a == r.address {
        assert IsLatest(all, |all|, a, |front|);
      } else {
        var j: nat :| IsLatest(front, |front|, a, j);
        assert IsLatest(all, |all|, a, j);
      }
    }
    forall a, j: nat | IsLatest(all, |all|, a, j)
      ensures j < |all| && a in ideal.lba && ideal.lba[a] == ideal.touched[j]
    {
      LatestInFront(front, r, 0, a, j);
    }
  }

  /** What hits after these requests. */
  lemma {:induction false} HitsAreRecent(requests: seq<Request>, ideal: Ideal, capacity: nat, a: U64)
    requires Remembers(requests, ideal)
    ensures ideal.Hits(a, capacity) <==> WouldHit(requests, ideal.touched, capacity, |requests|, a)
  {
    hide Recency, Since, Cut, LastTouch;
    assert ideal.touched[..|requests|] == ideal.touched;
    if a in ideal.lba {
      var j: nat :| IsLatest(requests, |requests|, a, j);
      assert ideal.touched[j] in ideal.touched;
      KeptIffRecent(ideal.touched, ideal.lba[a], capacity);
    }
  }

  lemma {:induction false} EarlierTouches(front: seq<Request>, r: Request, touched: seq<Fp>, x: Fp, capacity: nat,
                                          k: nat)
    requires k < |front| == |touched| && TouchedBy(front, touched, capacity, k)
    ensures TouchedBy(front + [r], touched + [x], capacity, k)
  {
    hide Since;
    assert (touched + [x])[..k] == touched[..k];
    var a := front[k].address;
    assert (front + [r])[k] == front[k];
    forall j: nat ensures IsLatest(front + [r], k, a, j) <==> IsLatest(front, k, a, j) {
      LatestInFront(front, r, k, a, j);
    }
  }

  /** The ideal cache is the LRU cache of its requests: what they touch, what an address leads to, and what hits. */
  lemma {:induction false} ServedIsLru(requests: seq<Request>, capacity: nat)
    ensures var ideal := Served(requests, capacity);
            && IsLru(requests, ideal.touched, capacity) && Remembers(requests, ideal)
            && forall a: U64 :: ideal.Hits(a, capacity) <==>
                                WouldHit(requests, ideal.touched, capacity, |requests|, a)
    decreases |requests|
  {
    hide Recency, Since, TouchedBy, Cut, WouldHit, IsLatest, Remembers;
    if requests == [] {
      NoRequests(capacity);
    } else {
      var front, r := requests[..|requests| - 1], requests[|requests| - 1];
      var before, ideal := Served(front, capacity), Served(requests, capacity);
      assert requests == front + [r];
      ServedIsLru(front, capacity);
      var x := ideal.touched[|front|];
      assert ideal == Ideal(before.lba[r.address := x], before.touched + [x]);
      RemembersOneMore(front, r, before, x);
      forall k: nat | k < |requests| ensures TouchedBy(requests, ideal.touched, capacity, k) {
        if k < |front| {
          EarlierTouches(front, r, before.touched, x, capacity, k);
        } else {
          LastTouches(front, r, before, x, capacity);
        }
      }
    }
    forall a: U64
      ensures Served(requests, capacity).Hits(a, capacity) <==>
              WouldHit(requests, Served(requests, capacity).touched, capacity, |requests|, a)
    {
      HitsAreRecent(requests, Served(requests, capacity), capacity, a);
    }
  }

  lemma {:induction false} NoRequests(capacity: nat)
    ensures Served([], capacity).touched == [] && Remembers([], Served([], capacity))
  {
  }

  lemma {:induction false} LastTouches(front: seq<Request>, r: Request, before: Ideal, x: Fp, capacity: nat)
    requires Remembers(front, before)
    requires before.Serve(r, capacity).touched == before.touched + [x]
    ensures TouchedBy(front + [r], before.touched + [x], capacity, |front|)
  {
    hide Recency, Since, Cut;
    var all, touched := front + [r], before.touched + [x];
    assert touched[..|front|] == before.touched;
    assert before.touched[..|front|] == before.touched;
    HitsAreRecent(front, before, capacity, r.address);
    forall j: nat ensures IsLatest(all, |front|, r.address, j) <==> IsLatest(front, |front|, r.address, j) {
      LatestInFront(front, r, |front|, r.address, j);
    }
  }

  /** The requests leave no choice in what is touched. */
  lemma {:induction false} LruIsUnique(requests: seq<Request>, a: seq<Fp>, b: seq<Fp>, capacity: nat, k: nat)
    requires IsLru(requests, a, capacity) && IsLru(requests, b, capacity) && k <= |requests|
    ensures a[..k] == b[..k]
    decreases k
  {
    hide Since, IsLatest;
    if k > 0 {
      LruIsUnique(requests, a, b, capacity, k - 1);
      assert TouchedBy(requests, a, capacity, k - 1) && TouchedBy(requests, b, capacity, k - 1);
      SameTouch(requests, a, b, capacity, k - 1);
      assert a[..k] == a[..k - 1] + [a[k - 1]] && b[..k] == b[..k - 1] + [b[k - 1]];
    }
  }

  lemma {:induction false} SameTouch(requests: seq<Request>, a: seq<Fp>, b: seq<Fp>, capacity: nat, k: nat)
    requires k < |requests| == |a| == |b| && a[..k] == b[..k]
    requires TouchedBy(requests, a, capacity, k) && TouchedBy(requests, b, capacity, k)
    ensures a[k] == b[k]
  {
    hide Since;
    assert forall j: nat | j < k :: a[j] == a[..k][j] == b[..k][j] == b[j];
  }

  /** The address of a request hits right after it. */
  lemma {:induction false} ServedThenHits(requests: seq<Request>, r: Request, capacity: nat)
    requires capacity >= 1
    ensures Served(requests + [r], capacity).Hits(r.address, capacity)
  {
    hide Recency, LastTouch, Served;
    var all := requests + [r];
    var ideal := Served(all, capacity);
    ServedIsLru(all, capacity);
    var j: nat := |requests|;
    assert IsLatest(all, |all|, r.address, j);
    assert ideal.touched[..|all|] == ideal.touched;
    LastIsRecent(ideal.touched);
  }

  lemma {:induction false} LastIsRecent(touched: seq<Fp>)
    requires touched != []
    ensures Since(touched, touched[|touched| - 1]) == {}
  {
  }

  // ----- the cache ---------------------------------------------------------------------------

  /** Every fingerprint has an address of its own, and these are the addresses in use. */
  ghost predicate Bijection(index: map<Fp, Address>, cache: set<Address>) {
    && (forall a, b | a in index && b in index && index[a] == index[b] :: a == b)
    && (forall x: Address :: x in cache <==> exists fp :: fp in index && index[fp] == x)
  }

  lemma {:induction false} BijectionWithout(index: map<Fp, Address>, cache: set<Address>, fp: Fp)
    requires Bijection(index, cache) && fp in index
    ensures index[fp] in cache && Bijection(index - {fp}, cache - {index[fp]})
  {
    var index' := index - {fp};
    forall x: Address | x in cache && x != index[fp] ensures exists f :: f in index' && index'[f] == x {
      var f :| f in index && index[f] == x;
      assert f in index' && index'[f] == x;
    }
  }

  lemma {:induction false} BijectionWith(index: map<Fp, Address>, cache: set<Address>, fp: Fp, x: Address)
    requires Bijection(index, cache) && fp !in index && x !in cache
    ensures Bijection(index[fp := x], cache + {x})
  {
    var index' := index[fp := x];
    forall y: Address | y in cache + {x} ensures exists f :: f in index' && index'[f] == y {
      if y == x {
        assert fp in index' && index'[fp] == x;
      } else {
        var f :| f in index && index[f] == y;
        assert f in index' && index'[f] == y;
      }
    }
  }

  class DedupCache {
    const capacity: nat
    const policy: LRUPolicy<Fp>
    var lbaIndex: map<U64, Fp>
    var fpIndex: map<Fp, Address>
    var cache: set<Address>
    var lastAddress: Address
    /** Everything asked of the cache. */
    ghost var requests: seq<Request>

    /** The parts of the cache agree with each other. */
    ghost predicate Agrees()
      reads this`fpIndex, this`cache, this`lastAddress, policy
    {
      && policy.Valid() && NoRepeats(policy.Keys())
      && (forall fp: Fp :: fp in fpIndex <==> fp in policy.Keys())
      && Bijection(fpIndex, cache)
      && |cache| == |policy.Keys()|
      && (forall x | x in cache :: x <= lastAddress)
    }

    ghost predicate Valid()
      reads this, policy
    {
      && capacity >= 1 && Agrees()
      && lbaIndex == Served(requests, capacity).lba
      && policy.Keys() == Served(requests, capacity).Kept(capacity)
    }

    constructor (capacity: nat)
      requires 1 <= capacity < 0x8000_0000
      ensures Valid() && this.capacity == capacity && requests == [] && fresh(policy)
    {
      this.capacity := capacity;
      policy := new LRUPolicy<Fp>();
      lbaIndex, fpIndex, cache, lastAddress, requests := map[], map[], {}, 0, [];
    }

    /** Drops the least recently touched fingerprint. */
    method EvictOne()
      requires Agrees() && policy.Keys() != []
      modifies this`fpIndex, this`cache, policy
      ensures Agrees() && policy.Keys() == old(policy.Keys())[..|old(policy.Keys())| - 1]
    {
      hide Bijection, LRUPolicy.Valid, Without, NoRepeats;
      ghost var keys := policy.Keys();
      var rawFp := policy.Oldest();
      policy.Evict(rawFp);
      LastOut(keys);
      assert rawFp in fpIndex;
      BijectionWithout(fpIndex, cache, rawFp);
      cache := cache - {fpIndex[rawFp]};
      fpIndex := fpIndex - {rawFp};
    }

    /** Takes in a fingerprint that is not cached, in front. */
    method Admit(rawFp: Fp)
      requires Agrees() && rawFp !in fpIndex
      modifies this`fpIndex, this`cache, this`lastAddress, policy
      ensures Agrees() && policy.Keys() == [rawFp] + old(policy.Keys())
    {
      hide Bijection, LRUPolicy.Valid, Without, NoRepeats;
      ghost var keys := policy.Keys();
      lastAddress := lastAddress + 1;
      BijectionWith(fpIndex, cache, rawFp, lastAddress);
      fpIndex := fpIndex[rawFp := lastAddress];
      cache := cache + {lastAddress};
      policy.Insert(rawFp);
      policy.Promote(rawFp);
      FrontIn(keys, rawFp);
    }

    method Touch(rawFp: Fp)
      requires Agrees() && rawFp in fpIndex
      modifies policy
      ensures Agrees() && policy.Keys() == Promoted(old(policy.Keys()), rawFp)
    {
      hide Bijection, LRUPolicy.Valid, Without, NoRepeats;
      ghost var keys := policy.Keys();
      policy.Promote(rawFp);
      PromotedNoRepeats(keys, rawFp);
    }

    /** Records the block's fingerprint for its address and makes it the most recent one. */
    method Put(address: U64, rawFp: Fp)
      requires Valid()
      modifies this, policy
      ensures Agrees() && requests == old(requests)
      ensures var ideal := Served(requests, capacity);
              && lbaIndex == ideal.lba[address := rawFp]
              && policy.Keys() == Cut(Recency(ideal.touched + [rawFp]), capacity)
    {
      hide Agrees, Recency;
      ghost var ideal := Served(requests, capacity);
      KeysAreIndexed(rawFp);
      if rawFp in fpIndex {
        lbaIndex := lbaIndex[address := rawFp];
        TouchKept(ideal.touched, rawFp, capacity);
        Touch(rawFp);
        return;
      }
      TouchNew(ideal.touched, rawFp, capacity);
      while capacity - |cache| <= 0
        invariant Agrees() && rawFp !in fpIndex && requests == old(requests) && lbaIndex == old(lbaIndex)
        invariant |policy.Keys()| == |cache|
        invariant |cache| < capacity ==> policy.Keys() == Cut(Recency(ideal.touched), capacity - 1)
        invariant |cache| >= capacity ==> policy.Keys() == Cut(Recency(ideal.touched), capacity)
        decreases |cache|
      {
        CutFurther(Recency(ideal.touched), capacity);
        EvictOne();
        KeysAreIndexed(rawFp);
      }
      lbaIndex := lbaIndex[address := rawFp];
      Admit(rawFp);
    }

    lemma {:induction false} KeysAreIndexed(fp: Fp)
      requires Agrees()
      ensures |cache| == |policy.Keys()|
      ensures fp in fpIndex <==> fp in policy.Keys()
      ensures fp in fpIndex ==> fpIndex[fp] in cache
    {
    }

    /** Serves a read; a miss stores the block. */
    method Read(address: U64, rawFp: Fp) returns (hit: bool)
      requires Valid()
      modifies this, policy
      ensures Valid() && requests == old(requests) + [Request.Read(address, rawFp)]
      ensures hit == Served(old(requests), capacity).Hits(address, capacity)
    {
      hide Agrees, Recency, Cut;
      ghost var ideal := Served(requests, capacity);
      hit := false;
      if address in lbaIndex {
        KeysAreIndexed(lbaIndex[address]);
        if lbaIndex[address] in fpIndex {
          assert fpIndex[lbaIndex[address]] in cache;
          hit := true;
          TouchKept(ideal.touched, lbaIndex[address], capacity);
          Touch(lbaIndex[address]);
        } else {
          Put(address, rawFp);
        }
      } else {
        Put(address, rawFp);
      }
      requests := requests + [Request.Read(address, rawFp)];
      assert requests[..|requests| - 1] == old(requests);
    }

    method Write(address: U64, rawFp: Fp)
      requires Valid()
      modifies this, policy
      ensures Valid() && requests == old(requests) + [Request.Write(address, rawFp)]
    {
      hide Agrees, Recency, Cut;
      Put(address, rawFp);
      requests := requests + [Request.Write(address, rawFp)];
      assert requests[..|requests| - 1] == old(requests);
    }
  }

  lemma {:induction false} LastOut(keys: seq<Fp>)
    requires NoRepeats(keys) && keys != []
    ensures var front := keys[..|keys| - 1];
            && Without(keys, keys[|keys| - 1]) == front && NoRepeats(front)
            && forall fp: Fp :: fp in front <==> fp in keys && fp != keys[|keys| - 1]
  {
    hide Without;
    WithoutAt(keys, |keys| - 1);
    assert keys[..|keys| - 1] + keys[|keys|..] == keys[..|keys| - 1];
  }

  lemma {:induction false} FrontIn(keys: seq<Fp>, fp: Fp)
    requires NoRepeats(keys) && fp !in keys
    ensures Promoted(Inserted(keys, fp), fp) == [fp] + keys && NoRepeats([fp] + keys)
    ensures forall k: Fp :: k in [fp] + keys <==> k in keys || k == fp
  {
    hide Without;
    WithoutBoth(keys, [fp], fp);
    WithoutAbsent(keys, fp);
    WithoutOnly(fp);
    forall i, j | 0 <= i < j < |[fp] + keys| ensures ([fp] + keys)[i] != ([fp] + keys)[j] {
      assert ([fp] + keys)[j] == keys[j - 1];
    }
  }

  lemma {:induction false} PromotedNoRepeats(keys: seq<Fp>, fp: Fp)
    requires NoRepeats(keys) && fp in keys
    ensures NoRepeats(Promoted(keys, fp)) && |Promoted(keys, fp)| == |keys|
    ensures forall k: Fp :: k in Promoted(keys, fp) <==> k in keys
  {
    hide Without;
    var i :| 0 <= i < |keys| && keys[i] == fp;
    WithoutAt(keys, i);
    var rest := keys[..i] + keys[i + 1..];
    forall a, b | 0 <= a < b < |[fp] + rest| ensures ([fp] + rest)[a] != ([fp] + rest)[b] {
      assert ([fp] + rest)[b] == rest[b - 1];
      assert rest[b - 1] == keys[if b - 1 < i then b - 1 else b];
      if a > 0 {
        assert ([fp] + rest)[a] == keys[if a - 1 < i then a - 1 else a];
      }
    }
  }
}
