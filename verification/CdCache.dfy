/** The cache itself (src/cd_cache.cpp). */
module CdCaches {
  import opened Wrappers
  import opened Bits
  import opened Words
  import BloomFilters
  import opened Cachelines
  import opened CachelineCodec
  import opened CachelineIndexes
  import opened CachelineLaws
  import opened CachePolicies
  import opened DataBlockBuffers
  import opened DetectorWatch
  import opened Devices
  import opened EvictionCosts
  import opened EvictionPlans
  import opened Evictions
  import opened FlushEstimates
  import opened FlushSteps
  import opened LineOrders
  import opened Lz77Compressor
  import opened PageManagers
  import opened PageOwnership
  import opened Pages
  import PairSerializer
  import opened Provenances
  import opened Sets
  import opened Stores
  import opened StoreRuns

  /** How a flush ends. Where the source asserts, the model stops: there is no line left to evict, or the new line finds
      no pages. */
  datatype Outcome = Done | NoVictim | NoSpace

  /** A configuration whose lines fit their 8-bit and 32-bit fields, whose blocks fit the encoder's 32-bit offset, and
      whose batches the compressor's signed positions. */
  predicate Fitting(n: nat, size: nat) {
    1 <= n < 256 && MetadataLen(n) + n * MaxStored(size) < W32 && 9 * size < W32 && n * size < 0x8000_0000
  }

  lemma {:induction false} EmptyCache(disk: seq<Byte>, pg: nat, pages: nat, n: nat, max: nat)
    requires MetadataLen(n) + n * max < W32
    ensures SmallStore(EMPTY, n, max) && AllHeld(disk, pg, map[], map[]) && Shared(Interval(0, pages), map[], pages)
  {
  }

  /** What a lookup of an address comes to. */
  datatype Location = Buffered(data: seq<Byte>) | Cached(id: Id) | Missing

  class CDCache {
    const n: nat
    const size: nat
    const hash: seq<Byte> -> Fp
    const proxy: SSDProxy
    const index: CachelineIndex
    const buffer: DataBlockBuffer
    const detector: BloomFilters.DeletableBloomFilter
    const table: LookupTable
    var fpIndex: map<Fp, FpData>
    var lbaIndex: map<U64, Fp>
    var lastId: Id

    /** All byte strings a block is ever stored as; fingerprints tell them apart. */
    ghost const seen: set<seq<Byte>>
    /** What the device is meant to hold. */
    ghost var lines: map<Id, Cacheline>
    /** All states so far. */
    ghost var trace: seq<Store>
    /** All blocks written, and those of them that left the buffer, with what was found out about them. */
    ghost var written: seq<DataBlock>
    ghost var flushed: seq<DataBlock>
    /** What befell the lines so far. */
    ghost var events: seq<Event>

    /** The configuration. */
    ghost predicate Configured() {
      && Fitting(n, size) && n * size <= table.hashList.Length && table.Valid()
      && proxy.blockCount == n && buffer.capacity == n
      && NoCollision(hash, seen)
    }

    ghost function Now(): Store
      reads this`lines, this`fpIndex, this`lastId, index`data
    {
      Store(lines, index.data, fpIndex, lastId)
    }

    /** The lines, their indexes and the device fit together, and got here by flushes and evictions. */
    ghost predicate Sound()
      reads this`lines, this`fpIndex, this`lastId, this`trace, index, index.policy, proxy.manager, proxy.device.buffer
    {
      && Configured() && index.Valid()
      && Run(trace, n, hash, seen) && trace[|trace| - 1] == Now()
      && SmallStore(Now(), n, MaxStored(size))
      && OnProxy(proxy, index.data, lines)
    }

    /** The buffer and the address index account for every write. */
    ghost predicate Accounted()
      reads this`lbaIndex, this`written, this`flushed, buffer
    {
      && buffer.Valid() && AllWithin(buffer.data, size)
      && LastFlushed(lbaIndex, flushed) && Tracks(written, flushed, buffer.data)
      && HonestBatch(flushed, hash, seen) && AllRecoverable(flushed)
    }

    /** The detector was only ever told to remove what was in it, and still holds every cached raw fingerprint. */
    ghost predicate Guarded()
      reads this`fpIndex, detector
    {
      BloomFilters.Matched(detector.ops) && Watched(fpIndex, detector.ops, true)
    }

    /** There is room for a flush, or there will be once the youngest line is gone, which nobody refers to; or there is
        no line at all. */
    ghost predicate Roomy()
      reads this`lastId, index`data, proxy.manager
    {
      proxy.PG > 0 &&
      var need := Estimate(n, size, proxy.PG);
      || need <= proxy.manager.freeBlocks
      || index.data == map[]
      || (Idle(index.data, lastId) && need <= proxy.manager.freeBlocks + |index.data[lastId].pages|)
    }

    /** Flushes put `n` blocks into a line each; the states passed through are flushes and evictions. */
    ghost predicate Tallied()
      reads this`lastId, this`trace, this`flushed, index`data
    {
      && |flushed| == n * lastId && |index.data.Keys| + |trace| == 2 * lastId + 1
      && (proxy.PG > 0 && Estimate(n, size, proxy.PG) == 0 ==> |trace| == lastId + 1)
    }

    /** The replacement order is the one the history gives. */
    ghost predicate Ordered()
      reads this`lastId, this`events, index.policy
    {
      index.policy.Keys() == Order(events) && InTurn(events, lastId)
    }

    ghost predicate Steady()
      reads this`lines, this`fpIndex, this`lastId, this`trace, this`flushed, this`events, index, index.policy,
            proxy.manager, proxy.device.buffer, detector, detector.slots, detector.collisions
    {
      && Sound() && detector.Valid() && Guarded() && Roomy() && Tallied() && Ordered()
      && AsFlushed(lines, fpIndex, flushed, n)
    }

    ghost predicate Valid()
      reads this, index, index.policy, proxy.manager, proxy.device.buffer, buffer,
            detector, detector.slots, detector.collisions
    {
      Steady() && Accounted() && |buffer.data| < n
    }

    /** Opens an empty cache on a device of `deviceSize` bytes. */
    constructor (deviceSize: nat, granularity: nat, n: nat, size: nat, hash: seq<Byte> -> Fp,
                 hashing: BloomFilters.Hashing, ghost seen: set<seq<Byte>>)
      requires granularity > 0 && hashing.size > 0 && NoCollision(hash, seen)
      ensures Fitting(n, size) ==> Valid()
      ensures written == [] && buffer.data == [] && lastId == 0 && events == []
      ensures index.data == map[] && proxy.manager.freeBlocks == proxy.manager.size
      ensures this.n == n && this.size == size && this.hash == hash && this.seen == seen
      ensures proxy.PG == 512 * granularity && proxy.manager.size == PageCount(deviceSize, proxy.PG)
      ensures fresh(proxy.manager) && fresh(proxy.device.buffer) && fresh(index) && fresh(index.policy) && fresh(buffer)
      ensures fresh(detector) && fresh(detector.slots) && fresh(detector.collisions)
      ensures fresh(table.tb) && fresh(table.hashList)
    {
      hide CDCache.Sound, CDCache.Accounted, NoCollision, PageCount, Interval, BloomFilters.DeletableBloomFilter.Valid,
           LRUPolicy.Valid, LRUPolicy.Keys, StackedDiscretePageManager.Valid, StackedDiscretePageManager.Free,
           SSDProxy.Valid, DataBlockBuffer.Valid, CachelineIndex.Valid, SSDProxy.Disk, Configured, Watched, Estimate;
      this.n, this.size, this.hash, this.seen := n, size, hash, seen;
      proxy := new SSDProxy(deviceSize, granularity, n);
      index := new CachelineIndex();
      buffer := new DataBlockBuffer(n);
      detector := new BloomFilters.DeletableBloomFilter(hashing);
      table := new LookupTable(n * size);
      fpIndex, lbaIndex, lastId := map[], map[], 0;
      lines, trace, written, flushed, events := map[], [EMPTY], [], [], [];
      new;
      if Fitting(n, size) {
        assert Configured() by { IsConfigured(); }
        StartsSound();
        StartsAccounted();
        NothingToWatch(detector.ops);
      }
    }

    lemma {:induction false} IsConfigured()
      requires Fitting(n, size) && n * size <= table.hashList.Length && table.Valid()
      requires proxy.blockCount == n && buffer.capacity == n && NoCollision(hash, seen)
      ensures Configured()
    {
    }

    lemma {:induction false} StartsSound()
      requires Configured() && index.Valid() && index.data == map[] && fpIndex == map[] && lastId == 0
      requires lines == map[] && trace == [EMPTY] && proxy.Valid()
      requires proxy.manager.Free() == Interval(0, proxy.manager.size)
      ensures Sound()
    {
      hide Shared, AllHeld, CachelineIndex.Valid, NoCollision, Step, SmallStore, SSDProxy.Valid;
      EmptyCache(proxy.Disk(), proxy.PG, proxy.manager.size, n, MaxStored(size));
      assert Fitting(n, size);
    }

    lemma {:induction false} StartsAccounted()
      requires Configured() && buffer.Valid() && buffer.data == [] && lbaIndex == map[] && written == flushed == []
      ensures Accounted()
    {
      hide DataBlockBuffer.Valid, NoCollision;
    }

    lemma {:induction false} SoundFacts()
      requires Sound()
      ensures Configured() && index.Valid() && proxy.Valid() && proxy.PG > 0
      ensures trace != [] && trace[|trace| - 1] == Now()
      ensures Run(trace, n, hash, seen) && Inv(Now(), n) && Honest(Now(), hash, seen)
      ensures SmallStore(Now(), n, MaxStored(size)) && OnProxy(proxy, index.data, lines)
      ensures lines.Keys == index.data.Keys
    {
      hide Inv, Honest, Step, Configured, SmallStore, CachelineIndex.Valid, Shared, AllHeld;
      RunIsGood(trace, n, hash, seen, |trace| - 1);
      LastIdOf(Now(), n);
    }

    // ----- eviction --------------------------------------------------------------------------

    /** Looks up the lines that refer to the victim. */
    method CollectUsers(refs: set<Id>) returns (users: map<Id, IndexData>)
      requires index.Valid()
      modifies index.policy
      ensures index.Valid() && index.policy.Keys() == old(index.policy.Keys())
      ensures users == map r | r in refs && r in index.data :: index.data[r]
    {
      hide LRUPolicy.Valid, LRUPolicy.Keys;
      users := map[];
      var rest := refs;
      while rest != {}
        invariant rest <= refs && index.Valid() && index.policy.Keys() == old(index.policy.Keys())
        invariant users == map r | r in refs - rest && r in index.data :: index.data[r]
        decreases rest
      {
        var r :| r in rest;
        var entry := index.Query(r, false);
        if entry.Some? { users := users[r := entry.value]; }
        rest := rest - {r};
      }
      assert refs - rest == refs;
    }

    /** Records the rewritten lines. */
    method InsertUsers(users: map<Id, IndexData>)
      requires index.Valid() && users.Keys <= index.data.Keys
      modifies index, index.policy
      ensures index.Valid() && index.data == old(index.data) + users
      ensures index.policy.Keys() == old(index.policy.Keys())
    {
      hide LRUPolicy.Valid, LRUPolicy.Keys;
      var rest := users.Keys;
      while rest != {}
        invariant rest <= users.Keys && index.Valid() && users.Keys <= index.data.Keys
        invariant index.policy.Keys() == old(index.policy.Keys())
        invariant index.data == old(index.data) + map u | u in users && u !in rest :: users[u]
        decreases rest
      {
        var u :| u in rest;
        index.Insert(u, users[u], false);
        rest := rest - {u};
      }
      assert users == map u | u in users && u !in rest :: users[u];
    }

    /** Deals with the victim's fingerprints, in any order. */
    method UpdateFpIndex(moved: map<Fp, Id>, id: Id)
      requires detector.Valid()
      modifies this`fpIndex, detector, detector.slots
      ensures detector.Valid() && Forgotten(old(fpIndex), fpIndex, old(detector.ops), detector.ops)
      ensures forall fp: Fp :: Find(fpIndex, fp) == FateOf(old(fpIndex), moved, id, fp)
    {
      hide BloomFilters.DeletableBloomFilter.Valid, Forgotten;
      NothingForgotten(fpIndex, detector.ops);
      var rest := moved.Keys;
      while rest != {}
        invariant rest <= moved.Keys && detector.Valid()
        invariant Forgotten(old(fpIndex), fpIndex, old(detector.ops), detector.ops)
        invariant forall fp: Fp ::
                    Find(fpIndex, fp) ==
                    if fp in rest then Find(old(fpIndex), fp) else FateOf(old(fpIndex), moved, id, fp)
        decreases rest
      {
        var fp :| fp in rest;
        assert Find(fpIndex, fp) == Find(old(fpIndex), fp);
        if fp in fpIndex {
          if moved[fp] == id {
            if fpIndex[fp].addr == id {
              var rawFp := fpIndex[fp].rawFp;
              ForgottenOneMore(old(fpIndex), fpIndex, old(detector.ops), detector.ops, fp);
              fpIndex := fpIndex - {fp};
              detector.Remove(rawFp);
            }
          } else {
            ghost var before := fpIndex;
            fpIndex := fpIndex[fp := FpData(moved[fp], 0)];
            ForgottenSameKeys(old(fpIndex), before, fpIndex, old(detector.ops), detector.ops);
          }
        }
        rest := rest - {fp};
      }
    }

    /** Evicts one line. Succeeds exactly when the free pages and the victim's cover what the survivors grow by. */
    method EvictOne(id: Id, data: IndexData) returns (ok: bool)
      requires Sound() && detector.Valid() && id in index.data && data == index.data[id]
      modifies this`fpIndex, this`lines, this`trace, index, index.policy, proxy.manager, proxy.device.buffer,
               detector, detector.slots
      ensures detector.Valid()
      ensures ok == !old(TooCostly(Now(), n, proxy.PG, proxy.manager.size, id))
      ensures ok ==> Sound() && trace == old(trace) + [Now()] && lastId == old(lastId)
      ensures ok ==> old(lines.Keys == index.data.Keys) && EvictStep(old(Now()), id, Now(), n)
      ensures ok ==> index.data.Keys == old(index.data.Keys) - {id}
      ensures ok && data.refs == {} ==> index.data == old(index.data) - {id}
      ensures ok ==> index.policy.Keys() == Without(old(index.policy.Keys()), id)
      ensures ok ==> Forgotten(old(fpIndex), fpIndex, old(detector.ops), detector.ops)
      ensures ok ==> proxy.manager.freeBlocks + old(CostOf(Now(), n, proxy.PG, id)) ==
                     old(proxy.manager.freeBlocks) + |data.pages|
      ensures !ok ==> trace == old(trace)
    {
      hide CDCache.Sound, BloomFilters.DeletableBloomFilter.Valid, CachelineIndex.Valid, Inv, Honest, SmallStore,
           OnProxy, Run, Removed, EvictionCost, EvictStep, FreePages, Configured, LRUPolicy.Keys, LRUPolicy.Valid,
           SSDProxy.Valid, Forgotten, Without, StackedDiscretePageManager.Valid, SSDProxy.Disk, NoCollision;
      ghost var s := Now();
      SoundFacts();
      ConfiguredCount();
      FreeCountIs();
      var users := CollectUsers(data.refs);
      var refs, moved;
      ghost var lines';
      ok, refs, moved, lines' := RemoveCacheline(proxy, id, data, users, s, n, MaxStored(size));
      if ok {
        RemovedKeys(s, n, id, refs, moved, lines');
        RecordRemoval(id, refs, moved, s, lines');
        assert data.refs == {} ==> refs.Keys == {} && Entries(s, id, refs) == s.meta - {id};
      }
    }

    lemma {:induction false} RemovedKeys(s: Store, n: nat, v: Id, refs: map<Id, IndexData>, moved: map<Fp, Id>,
                                         lines': map<Id, Cacheline>)
      requires s.lines.Keys == s.meta.Keys && v in s.lines && Removed(s, n, v, refs, moved, lines')
      ensures refs.Keys <= s.lines.Keys - {v} && lines'.Keys == s.lines.Keys
    {
    }

    /** The index work of an eviction, once the device is done. */
    method RecordRemoval(id: Id, refs: map<Id, IndexData>, moved: map<Fp, Id>, ghost s: Store,
                         ghost lines': map<Id, Cacheline>)
      requires Configured() && index.Valid() && detector.Valid() && s == Now() && id in s.lines
      requires Run(trace, n, hash, seen) && trace[|trace| - 1] == s && s.lines.Keys == s.meta.Keys
      requires Inv(s, n) && SmallStore(s, n, MaxStored(size)) && Removed(s, n, id, refs, moved, lines')
      requires refs.Keys <= s.lines.Keys - {id} && OnProxy(proxy, Entries(s, id, refs), lines')
      modifies this`fpIndex, this`lines, this`trace, index, index.policy, detector, detector.slots
      ensures detector.Valid() && Sound() && trace == old(trace) + [Now()] && lastId == old(lastId)
      ensures EvictStep(s, id, Now(), n) && index.data == Entries(s, id, refs)
      ensures index.policy.Keys() == Without(old(index.policy.Keys()), id)
      ensures Forgotten(old(fpIndex), fpIndex, old(detector.ops), detector.ops)
    {
      hide CDCache.Sound, BloomFilters.DeletableBloomFilter.Valid, CachelineIndex.Valid, Inv, SmallStore, OnProxy, Run,
           Removed, EvictStep, FateOf, Find, Configured, LRUPolicy.Keys, LRUPolicy.Valid, Forgotten, Without;
      index.Remove(id);
      InsertUsers(refs);
      UpdateFpIndex(moved, id);
      lines := lines' - {id};
      RemovalEvicts(s, n, id, Now(), refs, moved, lines');
      trace := trace + [Now()];
      RecordEviction(s, id, lines', old(trace));
    }

    lemma {:induction false} ConfiguredCount()
      requires Configured()
      ensures proxy.blockCount == n == buffer.capacity && 1 <= n < 256 && NoCollision(hash, seen)
      ensures MetadataLen(n) + n * MaxStored(size) < W32
    {
    }

    lemma {:induction false} FreeCountIs()
      requires Sound()
      ensures proxy.manager.freeBlocks == |FreePages(index.data, proxy.manager.size)|
    {
      hide Run, Configured, CachelineIndex.Valid, SmallStore, AllHeld, FreePages, Shared;
      FreeArePages(proxy.manager.Free(), index.data, proxy.manager.size);
      proxy.manager.FreeCount();
    }

    /** The state after an eviction is sound again. */
    lemma {:induction false} RecordEviction(s: Store, id: Id, lines': map<Id, Cacheline>, before: seq<Store>)
      requires Configured() && index.Valid()
      requires Run(before, n, hash, seen) && before[|before| - 1] == s && trace == before + [Now()]
      requires s.lines.Keys == s.meta.Keys
      requires Inv(s, n) && SmallStore(s, n, MaxStored(size)) && EvictStep(s, id, Now(), n)
      requires lines == lines' - {id} && id !in index.data && OnProxy(proxy, index.data, lines')
      ensures Sound()
    {
      hide Inv, Step, SmallStore, Configured, CachelineIndex.Valid, EvictStep, Shared, SSDProxy.Valid, Holds,
           SSDProxy.Disk;
      EvictKeepsSmall(s, n, MaxStored(size), id, Now());
      EvictionIsStep(s, id, Now(), n, hash, seen);
      RunOneMore(before, Now(), n, hash, seen);
    }

    // ----- flushing --------------------------------------------------------------------------

    /** Evicts until the estimated pages are free, one line per round. Only lines without referrers go, so nothing is
        ever rewritten here; the loop fails exactly if the device is smaller than the estimate. If the youngest line was
        not used since it came, it is the one that goes, and no other does. */
    method MakeRoom() returns (r: Outcome, ghost gone: seq<Event>)
      requires Steady()
      modifies this`fpIndex, this`lines, this`trace, this`events, index, index.policy, proxy.manager,
               proxy.device.buffer, detector, detector.slots
      ensures Steady() && proxy.PG > 0 && lastId == old(lastId)
      ensures events == old(events) + gone && OnlyGone(gone)
      ensures r == Done && Rank(old(events), lastId) < 0 ==>
                index.data == WithRoom(old(index.data), lastId,
                                       Estimate(n, size, proxy.PG) <= old(proxy.manager.freeBlocks))
      ensures r == if Enough(n, size, proxy.PG, proxy.manager.size) then Done else NoVictim
      ensures Enough(n, size, proxy.PG, old(proxy.manager.freeBlocks)) ==> gone == [] && index.data == old(index.data)
      ensures r == Done && gone == [] ==> Enough(n, size, proxy.PG, old(proxy.manager.freeBlocks))
      ensures ShortBefore(trace, |old(trace)| - 1, proxy.manager.size, Estimate(n, size, proxy.PG))
      ensures r == if Estimate(n, size, proxy.PG) > proxy.manager.size then NoVictim else Done
      ensures old(trace) <= trace && OnlyEvicts(trace, |old(trace)| - 1, n) && trace != []
      ensures r == Done ==> Estimate(n, size, proxy.PG) <= proxy.manager.freeBlocks
      ensures r == NoVictim ==> index.data == map[]
    {
      hide *;
      SteadyFacts();
      NothingEvicted(trace, n);
      var need := Estimate(n, size, proxy.PG);
      NothingShort(trace, proxy.manager.size, need);
      EnoughPages(n, size, proxy.PG, proxy.manager.size);
      EnoughPages(n, size, proxy.PG, proxy.manager.freeBlocks);
      r, gone := Done, [];
      NoneGone(events);
      ghost var rounds: nat := 0;
      while r == Done && need > proxy.manager.freeBlocks
        invariant Steady() && lastId == old(lastId) && trace != [] && (r == Done || r == NoVictim)
        invariant events == old(events) + gone && OnlyGone(gone)
        invariant rounds == 0 ==> gone == [] && events == old(events) && index.data == old(index.data) &&
                                  proxy.manager.freeBlocks == old(proxy.manager.freeBlocks)
        invariant rounds > 0 ==> need > old(proxy.manager.freeBlocks) && (r == Done ==> gone != [])
        invariant ShortBefore(trace, |old(trace)| - 1, proxy.manager.size, need)
        invariant rounds > 0 && r == Done && Rank(old(events), lastId) < 0 ==>
                    index.data == old(index.data) - {lastId} && need <= proxy.manager.freeBlocks
        invariant old(trace) <= trace && OnlyEvicts(trace, |old(trace)| - 1, n)
        invariant r == NoVictim ==> index.data == map[] && need > proxy.manager.freeBlocks
        decreases if r == Done then 1 else 0, index.data.Keys
      {
        ghost var front := gone;
        r := EvictVictim(|old(trace)| - 1);
        gone := events[|old(events)|..];
        OnlyGoneMore(old(events), front, gone, events);
        rounds := rounds + 1;
      }
      WithRoomIs(old(index.data), lastId);
      FreeIsBounded();
    }

    /** One round of `MakeRoom`. */
    method EvictVictim(ghost from: int) returns (r: Outcome)
      requires Steady() && OnlyEvicts(trace, from, n)
      requires proxy.PG > 0 && Estimate(n, size, proxy.PG) > proxy.manager.freeBlocks
      requires ShortBefore(trace, from, proxy.manager.size, Estimate(n, size, proxy.PG))
      modifies this`fpIndex, this`lines, this`trace, this`events, index, index.policy, proxy.manager,
               proxy.device.buffer, detector, detector.slots
      ensures Steady() && trace != [] && (r == Done || r == NoVictim) && lastId == old(lastId)
      ensures old(trace) <= trace && OnlyEvicts(trace, from, n)
      ensures ShortBefore(trace, from, proxy.manager.size, Estimate(n, size, proxy.PG))
      ensures r == Done ==> index.data.Keys < old(index.data.Keys)
      ensures r == Done ==> exists v :: old(IsVictim(index.data, index.policy.Keys(), v)) &&
                              index.data == old(index.data) - {v} && events == old(events) + [Gone(v)]
      ensures r == NoVictim ==> events == old(events)
      ensures r == Done && Rank(old(events), lastId) < 0 ==>
                index.data == old(index.data) - {lastId} && Estimate(n, size, proxy.PG) <= proxy.manager.freeBlocks
      ensures r == NoVictim ==> index.data == map[] && Estimate(n, size, proxy.PG) > proxy.manager.freeBlocks
    {
      hide *;
      SteadyFacts();
      ghost var s, before, ops, data, free := Now(), trace, detector.ops, index.data, proxy.manager.freeBlocks;
      ghost var keys, history := index.policy.Keys(), events;
      var victim := index.FetchOldestCacheline();
      if victim.None? {
        NobodyToEvict();
        return NoVictim;
      }
      ghost var v := victim.value.0;
      VictimIsLive(index.data, index.policy.Keys(), v);
      RoomLeft(v);
      StoreIs();
      YoungestIsVictim(history, lastId, data, keys, v);
      FreeCountIs();
      IdleIsFree(s, n, proxy.PG, proxy.manager.size, v);
      var ok := EvictOne(victim.value.0, victim.value.1);
      StoreIs();
      EvictionIsStep(s, v, Now(), n, hash, seen);
      EvictsOneMore(before, Now(), from, n);
      ShortOnceMore(before, Now(), from, proxy.manager.size, Estimate(n, size, proxy.PG));
      IdleHasNoUsers(s, n, v);
      IdleEviction(s, n, v, Now());
      FewerLines(s.lines, s.fpIndex, fpIndex, flushed, n, v);
      EvictionKeepsWatch(s, n, v, Now(), ops, detector.ops, true);
      events := events + [Gone(v)];
      AfterGone(history, lastId, v);
      StaysSteady(v, data, before, free, ops);
      r := Done;
    }

    lemma {:induction false} SteadyFacts()
      requires Steady()
      ensures Sound() && detector.Valid() && Roomy() && Tallied()
      ensures proxy.PG > 0 && trace != [] && index.Valid()
      ensures BloomFilters.Matched(detector.ops) && Watched(fpIndex, detector.ops, true)
      ensures |flushed| == n * lastId && |index.data.Keys| + |trace| == 2 * lastId + 1
      ensures AsFlushed(lines, fpIndex, flushed, n)
      ensures Inv(Now(), n) && lines.Keys == index.data.Keys && trace[|trace| - 1] == Now()
      ensures index.policy.Keys() == Order(events) && InTurn(events, lastId)
      ensures SameMembers(index.data.Keys, Order(events))
    {
      hide CDCache.Sound, BloomFilters.DeletableBloomFilter.Valid, Inv, Run, Watched, SameMembers, Order, InTurn,
           BloomFilters.Matched, Configured, Honest, SmallStore, OnProxy, SSDProxy.Valid, Estimate, LRUPolicy.Keys,
           LRUPolicy.Valid;
      SoundFacts();
    }

    lemma {:induction false} StoreIs()
      ensures Now() == Store(lines, index.data, fpIndex, lastId)
    {
    }

    /** While there is too little room the youngest line is there, and nobody refers to it; so nobody refers to the line
        with the fewest referrers either. */
    lemma {:induction false} RoomLeft(v: Id)
      requires Roomy() && proxy.PG > 0 && Estimate(n, size, proxy.PG) > proxy.manager.freeBlocks
      requires v in index.data && FewestRefs(index.data, v)
      ensures Idle(index.data, v) && index.data[v].refs == {}
      ensures lastId in index.data && Idle(index.data, lastId)
      ensures Estimate(n, size, proxy.PG) <= proxy.manager.freeBlocks + |index.data[lastId].pages|
    {
      hide Estimate;
      assert RefCount(index.data, v) <= RefCount(index.data, lastId) == 0;
    }

    lemma {:induction false} StaysSteady(v: Id, data: map<Id, IndexData>, before: seq<Store>, free: nat,
                                         ops: seq<BloomFilters.Op>)
      requires Sound() && detector.Valid() && v in data && index.data == data - {v} && trace == before + [Now()]
      requires proxy.PG > 0 && proxy.manager.freeBlocks == free + |data[v].pages|
      requires free < Estimate(n, size, proxy.PG)
      requires lastId in data && Idle(data, lastId) && Estimate(n, size, proxy.PG) <= free + |data[lastId].pages|
      requires |flushed| == n * lastId && |data.Keys| + |before| == 2 * lastId + 1
      requires BloomFilters.Matched(detector.ops) && Watched(fpIndex, detector.ops, true)
      requires AsFlushed(lines, fpIndex, flushed, n)
      requires index.policy.Keys() == Order(events) && InTurn(events, lastId)
      ensures Steady()
    {
      hide CDCache.Sound, BloomFilters.DeletableBloomFilter.Valid, Watched, BloomFilters.Matched, Estimate, Order,
           InTurn, LRUPolicy.Keys;
      assert index.data.Keys == data.Keys - {v};
      if v != lastId {
        assert index.data[lastId] == data[lastId];
      }
    }

    /** Only a cache without lines has no victim. */
    lemma {:induction false} NobodyToEvict()
      requires Roomy() && proxy.PG > 0 && Estimate(n, size, proxy.PG) > proxy.manager.freeBlocks
      requires forall u | u in index.data :: RefCount(index.data, u) >= 1_000_000
      ensures index.data == map[]
    {
      hide CDCache.Roomy, Estimate, RefCount;
      if index.data != map[] { YoungestHasNone(); }
    }

    lemma {:induction false} YoungestHasNone()
      requires Roomy() && proxy.PG > 0 && Estimate(n, size, proxy.PG) > proxy.manager.freeBlocks
      requires index.data != map[]
      ensures lastId in index.data && RefCount(index.data, lastId) == 0
    {
      hide Estimate;
    }

    /** All pages are free if there is no line, and never more than all. */
    lemma {:induction false} FreeIsBounded()
      requires Steady()
      ensures proxy.manager.freeBlocks <= proxy.manager.size
      ensures index.data == map[] ==> proxy.manager.freeBlocks == proxy.manager.size
    {
      hide Run, Configured, CachelineIndex.Valid, SmallStore, AllHeld, Shared, Estimate, Watched, BloomFilters.Matched,
           BloomFilters.DeletableBloomFilter.Valid, StackedDiscretePageManager.Free;
      proxy.manager.FreeCount();
      PageBound(proxy.manager.Free(), proxy.manager.size);
      if index.data == map[] {
        NoLinesAllFree(proxy.manager.Free(), index.data, proxy.manager.size);
      }
    }

    /** Asks the detector about every block before telling it about any. */
    method DetectBlockType(blocks: seq<DataBlock>) returns (done: seq<DataBlock>)
      requires detector.Valid()
      modifies detector, detector.slots, detector.collisions
      ensures detector.Valid() && |done| == |blocks|
      ensures forall i | 0 <= i < |blocks| ::
                done[i] == blocks[i].(rawDuplicated :=
                  BloomFilters.Reported(detector.h, old(detector.State()), blocks[i].rawFp))
      ensures detector.ops == old(detector.ops) + Insertions(blocks)
    {
      hide BloomFilters.BitsAfter, BloomFilters.Reported, BloomFilters.Matched, BloomFilters.Remaining;
      done := [];
      var i := 0;
      while i < |blocks|
        invariant 0 <= i <= |blocks| && |done| == i && detector.Valid()
        invariant detector.State() == old(detector.State()) && detector.ops == old(detector.ops)
        invariant forall k | 0 <= k < i ::
                    done[k] == blocks[k].(rawDuplicated :=
                      BloomFilters.Reported(detector.h, old(detector.State()), blocks[k].rawFp))
      {
        var raw := detector.Query(blocks[i].rawFp);
        done := done + [blocks[i].(rawDuplicated := raw)];
        i := i + 1;
      }
      i := 0;
      while i < |done|
        invariant 0 <= i <= |done| && detector.Valid()
        invariant detector.ops == old(detector.ops) + Insertions(blocks)[..i]
      {
        detector.Insert(done[i].rawFp);
        i := i + 1;
      }
    }

    method Compress(blocks: seq<DataBlock>) returns (done: seq<DataBlock>)
      requires Configured() && |blocks| == n && AllWithin(blocks, size) && 2 <= |BatchData(RawsOf(blocks))|
      modifies table.tb, table.hashList
      ensures Compressed(blocks, done, hash)
    {
      hide BatchData, CompressedBlock, NoCollision, PairsInBatch, PairSerializer.EncodedBits;
      BatchLength(RawsOf(blocks), size);
      var comp := CompressDataBlocks(table, RawsOf(blocks), DupsOf(blocks), n);
      forall i | 0 <= i < n ensures comp[i] == CompressedBlock(RawsOf(blocks), DupsOf(blocks), i) {
        FewBits(RawsOf(blocks), DupsOf(blocks), i);
      }
      done := [];
      var i := 0;
      while i < |blocks|
        invariant 0 <= i <= |blocks| && |done| == i
        invariant forall k | 0 <= k < i :: done[k] == blocks[k].(compData := comp[k], compFp := hash(comp[k]))
      {
        done := done + [blocks[i].(compData := comp[i], compFp := hash(comp[i]))];
        i := i + 1;
      }
    }

    method UpdateLBAIndex(blocks: seq<DataBlock>)
      requires LastFlushed(lbaIndex, flushed)
      modifies this`lbaIndex
      ensures LastFlushed(lbaIndex, flushed + blocks)
    {
      hide LastFlushed;
      assert flushed + blocks[..0] == flushed;
      var i := 0;
      while i < |blocks|
        invariant 0 <= i <= |blocks| && LastFlushed(lbaIndex, flushed + blocks[..i])
      {
        FlushedOneMore(lbaIndex, flushed + blocks[..i], blocks[i]);
        assert flushed + blocks[..i + 1] == flushed + blocks[..i] + [blocks[i]];
        lbaIndex := lbaIndex[blocks[i].address := blocks[i].compFp];
        i := i + 1;
      }
      assert blocks[..i] == blocks;
    }

    method DedupBlocks(blocks: seq<DataBlock>) returns (done: seq<DataBlock>)
      ensures AllSameStored(blocks, done) && Deduped(Now(), done)
    {
      done := [];
      var i := 0;
      while i < |blocks|
        invariant 0 <= i <= |blocks| && |done| == i
        invariant AllSameStored(blocks[..i], done) && Deduped(Now(), done)
      {
        var found := blocks[i].compFp in fpIndex;
        var external := if found then fpIndex[blocks[i].compFp].addr else NONE64;
        done := done + [blocks[i].(compDuplicated := found, external := external)];
        i := i + 1;
      }
      assert blocks[..i] == blocks;
    }

    /** Puts the new line on the device. */
    method WriteDataBlocks(blocks: seq<DataBlock>) returns (ok: bool, pages: seq<nat>)
      requires Sound() && lastId < NONE64 && Deduped(Now(), blocks) && GoodBatch(blocks, n)
      modifies proxy.manager, proxy.device.buffer
      ensures proxy.PG > 0
      ensures ok == (PagesFor(MetadataLen(n) + Total(FreshData(blocks)), proxy.PG) <= old(proxy.manager.freeBlocks))
      ensures ok ==> OnProxy(proxy, index.data[NextId(Now()) := IndexData(0, pages, {})],
                             lines[NextId(Now()) := LineOf(blocks)])
      ensures ok ==> proxy.manager.freeBlocks + |pages| == old(proxy.manager.freeBlocks)
    {
      hide CDCache.Sound, CachelineIndex.Valid, Inv, Honest, SmallStore, OnProxy, Run, Configured, LRUPolicy.Keys,
           LRUPolicy.Valid, NoCollision, LineOf, FreshData, Total, PagesFor, Deduped, GoodBatch, WellLaidOut,
           Consistent, Elements, Distinct, SSDProxy.Valid, SSDProxy.Disk, StackedDiscretePageManager.Free, Holds,
           PageOf, OnDevice;
      SoundFacts();
      ConfiguredCount();
      BatchIsConsistent(Now(), n, blocks);
      LineOfBatch(blocks, n);
      NewLineUnused(Now(), n, blocks);
      ghost var disk, free := proxy.Disk(), proxy.manager.Free();
      ProxyParts(proxy, index.data, lines);
      var line := FromDataBlocks(blocks);
      ok, pages := proxy.WriteCacheline(line);
      if ok {
        LineAdded(proxy, disk, free, index.data, lines, NextId(Now()), IndexData(0, pages, {}), line);
      }
    }

    /** Indexes the new line: first itself, then what it stores and whom it refers to. */
    method Record(blocks: seq<DataBlock>, pages: seq<nat>)
      requires Configured() && index.Valid() && lastId + 1 < NONE64 && |blocks| == n
      requires Inv(Now(), n) && SmallStore(Now(), n, MaxStored(size)) && Run(trace, n, hash, seen)
      requires trace[|trace| - 1] == Now()
      requires Deduped(Now(), blocks) && GoodBatch(blocks, n) && HonestBatch(blocks, hash, seen)
      requires AllSmall(FreshData(blocks), MaxStored(size))
      requires OnProxy(proxy, index.data[NextId(Now()) := IndexData(0, pages, {})],
                       lines[NextId(Now()) := LineOf(blocks)])
      modifies this`fpIndex, this`lines, this`trace, this`lastId, index, index.policy
      ensures Sound() && lastId == old(lastId) + 1 && trace == old(trace) + [Now()]
      ensures GoodFlush(old(Now()), blocks, Now(), n, hash, seen)
      ensures fpIndex == EnterFresh(old(fpIndex), blocks, lastId) && lines == old(lines)[lastId := LineOf(blocks)]
      ensures index.data.Keys == old(index.data.Keys) + {lastId} && lastId !in old(index.data)
      ensures index.data[lastId].pages == pages && Idle(index.data, lastId)
      ensures index.policy.Keys() == PromotedAll(Inserted(old(index.policy.Keys()), lastId), blocks)
    {
      hide CDCache.Sound, CachelineIndex.Valid, Inv, Honest, SmallStore, OnProxy, Run, Configured, LRUPolicy.Keys,
           LRUPolicy.Valid, LineOf, FreshData, Deduped, GoodBatch, HonestBatch, AllSmall, EnterFresh, Referred,
           FlushStep, Inserted, PromotedAll;
      ghost var s := Now();
      var id: Id := lastId + 1;
      lastId := id;
      index.Insert(id, IndexData(0, pages, {}), false);
      EnterUpTo(s, blocks, pages, id);
      lines := lines[id := LineOf(blocks)];
      RecordingFlushes(s, n, blocks, Now(), pages);
      trace := trace + [Now()];
      FlushIsStep(s, blocks, Now(), n, hash, seen);
      RunOneMore(old(trace), Now(), n, hash, seen);
      FlushKeepsSmall(s, n, MaxStored(size), blocks, Now());
      SameOwners(proxy, s.meta[id := IndexData(0, pages, {})], index.data, lines, blocks, id);
      NewLineIsIdle(s, n, blocks, pages);
      SoundFrom();
    }

    lemma {:induction false} SoundFrom()
      requires Configured() && index.Valid() && Run(trace, n, hash, seen) && trace[|trace| - 1] == Now()
      requires SmallStore(Now(), n, MaxStored(size)) && OnProxy(proxy, index.data, lines)
      ensures Sound()
    {
      hide Configured, CachelineIndex.Valid, Run, SmallStore, OnProxy;
    }

    /** One pass over the batch: fresh blocks enter the fingerprint index, duplicates tell the line they use. */
    method EnterUpTo(ghost s: Store, blocks: seq<DataBlock>, pages: seq<nat>, id: Id)
      requires index.Valid() && fpIndex == s.fpIndex && index.data == s.meta[id := IndexData(0, pages, {})]
      modifies this`fpIndex, index, index.policy
      ensures index.Valid() && fpIndex == EnterFresh(s.fpIndex, blocks, id)
      ensures index.data == Referred(s.meta[id := IndexData(0, pages, {})], blocks, id)
      ensures index.policy.Keys() == PromotedAll(old(index.policy.Keys()), blocks)
    {
      hide CachelineIndex.Valid, LRUPolicy.Valid, LRUPolicy.Keys, WithRef, Promoted;
      ghost var meta := index.data;
      assert blocks[..0] == [];
      var i := 0;
      while i < |blocks|
        invariant 0 <= i <= |blocks| && index.Valid()
        invariant fpIndex == EnterFresh(s.fpIndex, blocks[..i], id)
        invariant index.data == Referred(meta, blocks[..i], id)
        invariant index.policy.Keys() == PromotedAll(old(index.policy.Keys()), blocks[..i])
      {
        assert blocks[..i + 1][..i] == blocks[..i];
        if !blocks[i].compDuplicated {
          fpIndex := fpIndex[blocks[i].compFp := FpData(id, blocks[i].rawFp)];
        } else {
          index.AddRefToCacheline(blocks[i].external, id, true);
        }
        i := i + 1;
      }
      assert blocks[..i] == blocks;
    }

    /** Flushes a full buffer. Fails exactly if the device is smaller than the estimate, or the line finds no pages; the
        last cannot happen where the estimate covers the longest line. */
    method FlushBuffer() returns (r: Outcome, ghost ready: seq<DataBlock>, ghost gone: seq<Event>)
      requires Steady() && Accounted() && |buffer.data| == n && CanFlush(buffer.data)
      modifies this, index, index.policy, proxy.manager, proxy.device.buffer, buffer, table.tb, table.hashList,
               detector, detector.slots, detector.collisions
      ensures proxy.PG > 0 && trace != [] && old(trace) <= trace
      ensures r == NoVictim <==> Estimate(n, size, proxy.PG) > proxy.manager.size
      ensures r == Done ==> Valid() && buffer.data == [] && written == old(written) && lastId == old(lastId) + 1
      ensures r == Done ==> |old(trace)| < |trace| && OnlyEvicts(trace[..|trace| - 1], |old(trace)| - 1, n)
      ensures r == Done ==> Flushes(trace, ready, n, hash, seen) && Compressed(ready, ready, hash)
      ensures r == Done ==> old(flushed) <= flushed && AllSameStored(flushed[|old(flushed)|..], ready) && |ready| == n
      ensures r == Done ==> OnlyGone(gone) && events == old(events) + gone + FlushEvents(lastId, ready)
      ensures r == Done ==> Rank(events, lastId) < 0
      ensures r == Done && Rank(old(events), old(lastId)) < 0 ==>
                index.data.Keys == {lastId} +
                  WithRoom(old(index.data), old(lastId),
                           Estimate(n, size, proxy.PG) <= old(proxy.manager.freeBlocks)).Keys
      ensures r == NoSpace ==> OutOfPages(ready) && !Covers(n, size, proxy.PG)
    {
      hide *;
      ready := [];
      SteadyFacts();
      r, gone := MakeRoom();
      SteadyFacts();
      if r != Done { return; }
      ghost var before := trace;
      var ok;
      ok, ready := FlushBatch();
      r := if ok then Done else NoSpace;
      assert ok ==> trace[..|trace| - 1] == before;
    }

    /** The line of these blocks needs more pages than no line owns. */
    ghost predicate OutOfPages(blocks: seq<DataBlock>)
      requires proxy.PG > 0
      reads index`data
    {
      PagesFor(MetadataLen(n) + Total(FreshData(blocks)), proxy.PG) > |FreePages(index.data, proxy.manager.size)|
    }

    lemma {:induction false} NotEnough(blocks: seq<DataBlock>)
      requires proxy.PG > 0
      requires PagesFor(MetadataLen(n) + Total(FreshData(blocks)), proxy.PG) >
               |FreePages(index.data, proxy.manager.size)|
      ensures OutOfPages(blocks)
    {
    }

    /** The part of a flush that follows once there is room. */
    method FlushBatch() returns (ok: bool, ghost ready: seq<DataBlock>)
      requires Steady() && Accounted() && |buffer.data| == n && CanFlush(buffer.data)
      requires proxy.PG > 0 && Estimate(n, size, proxy.PG) <= proxy.manager.freeBlocks
      modifies this, index, index.policy, proxy.manager, proxy.device.buffer, buffer, table.tb, table.hashList,
               detector, detector.slots, detector.collisions
      ensures proxy.PG > 0 && trace != []
      ensures ok ==> Valid() && buffer.data == [] && written == old(written) && lastId == old(lastId) + 1
      ensures ok ==> trace == old(trace) + [Now()]
      ensures ok ==> Flushes(trace, ready, n, hash, seen) && Compressed(ready, ready, hash) && |ready| == n
      ensures ok ==> old(flushed) <= flushed && AllSameStored(flushed[|old(flushed)|..], ready)
      ensures ok ==> index.data.Keys == {lastId} + old(index.data.Keys)
      ensures ok ==> events == old(events) + FlushEvents(lastId, ready) && Rank(events, lastId) < 0
      ensures !ok ==> trace == old(trace) && OutOfPages(ready) && !Covers(n, size, proxy.PG)
    {
      hide *;
      SteadyFacts();
      ghost var full, done, ops := buffer.data, [], detector.ops;
      CanFlushFacts(full);
      var blocks;
      blocks, done := PrepareBatch();
      ready := blocks;
      BatchIsWatched(fpIndex, ops, full, done, blocks, lastId + 1);
      ok := StoreBatch(blocks, full, done);
      if !ok {
        EstimateCovers(n, size, proxy.PG, ready);
        NotEnough(ready);
      }
    }

    /** The hypothesis on a flush: ids are not used up, there is data, and what it is stored as was foreseen. */
    ghost predicate CanFlush(blocks: seq<DataBlock>)
      reads this`lastId
    {
      lastId + 1 < NONE64 && 2 <= |BatchData(RawsOf(blocks))| && Foreseen(RawsOf(blocks), seen)
    }

    lemma {:induction false} CanFlushFacts(blocks: seq<DataBlock>)
      requires CanFlush(blocks)
      ensures lastId + 1 < NONE64 && 2 <= |BatchData(RawsOf(blocks))| && Foreseen(RawsOf(blocks), seen)
    {
      hide BatchData, RawsOf, Foreseen;
    }

    /** Puts a prepared batch on the device and into the indexes. */
    method StoreBatch(blocks: seq<DataBlock>, ghost full: seq<DataBlock>, ghost done: seq<DataBlock>) returns (ok: bool)
      requires Sound() && detector.Valid() && n > 0 && lastId + 1 < NONE64
      requires proxy.PG > 0 && Estimate(n, size, proxy.PG) <= proxy.manager.freeBlocks
      requires Tallied() && AsFlushed(lines, fpIndex, flushed, n) && AllSameStored(done, blocks)
      requires BloomFilters.Matched(detector.ops)
      requires Watched(EnterFresh(fpIndex, blocks, lastId + 1), detector.ops, true)
      requires buffer.Valid() && buffer.data == [] && |full| == n
      requires Tracks(written, flushed, full) && AllSameWrites(done, full) && LastFlushed(lbaIndex, flushed + done)
      requires HonestBatch(flushed, hash, seen) && AllRecoverable(flushed)
      requires HonestBatch(done, hash, seen) && AllRecoverable(done)
      requires |blocks| == n && Deduped(Now(), blocks) && HonestBatch(blocks, hash, seen) && GoodBatch(blocks, n)
      requires AllSmall(FreshData(blocks), MaxStored(size))
      requires index.policy.Keys() == Order(events) && InTurn(events, lastId)
      modifies this`fpIndex, this`lines, this`trace, this`lastId, this`flushed, this`events, index, index.policy,
               proxy.manager, proxy.device.buffer
      ensures proxy.PG > 0
      ensures ok == (PagesFor(MetadataLen(n) + Total(FreshData(blocks)), proxy.PG) <= old(proxy.manager.freeBlocks))
      ensures old(proxy.manager.freeBlocks) == |FreePages(old(index.data), proxy.manager.size)|
      ensures ok ==> Valid() && lastId == old(lastId) + 1 && trace == old(trace) + [Now()]
      ensures ok ==> Flushes(trace, blocks, n, hash, seen) && flushed == old(flushed) + done
      ensures ok ==> index.data.Keys == {lastId} + old(index.data.Keys)
      ensures ok ==> events == old(events) + FlushEvents(lastId, blocks) && Rank(events, lastId) < 0
      ensures !ok ==> trace == old(trace) && index.data == old(index.data)
    {
      hide *;
      TallyIs();
      ConfiguredOf();
      ConfiguredCount();
      StoreIs();
      ghost var s := Now();
      ghost var flushed0, trace0, keys, free := flushed, trace, index.data.Keys, proxy.manager.freeBlocks;
      ok := PlaceBatch(blocks, done);
      if ok {
        SameWriteCount(done, full);
        AccountedAfter(full, flushed0, done);
        ToldAfter(s, flushed0, blocks, done);
        FlushesNow(trace0, blocks);
        ValidAfter(flushed0, done, keys, trace0, free);
      }
    }

    lemma {:induction false} ValidAfter(flushed0: seq<DataBlock>, done: seq<DataBlock>, keys: set<Id>,
                                        trace0: seq<Store>, free: nat)
      requires Sound() && detector.Valid() && Accounted() && n > 0 && buffer.data == []
      requires lastId > 0 && |flushed0| == n * (lastId - 1) && |done| == n && flushed == flushed0 + done
      requires |keys| + |trace0| == 2 * (lastId - 1) + 1 && trace == trace0 + [Now()]
      requires index.data.Keys == keys + {lastId} && lastId !in keys
      requires proxy.PG > 0 && Estimate(n, size, proxy.PG) <= free
      requires Estimate(n, size, proxy.PG) == 0 ==> |trace0| == lastId
      requires Idle(index.data, lastId) && proxy.manager.freeBlocks + |index.data[lastId].pages| == free
      requires BloomFilters.Matched(detector.ops) && Watched(fpIndex, detector.ops, true)
      requires AsFlushed(lines, fpIndex, flushed, n)
      requires index.policy.Keys() == Order(events) && InTurn(events, lastId)
      ensures Valid()
    {
      hide *;
      TallyAfter(flushed0, done, keys, trace0);
      SteadyAfter(free);
      ValidFrom();
    }

    /** The two steps of storing: on the device, then in the indexes. */
    method PlaceBatch(blocks: seq<DataBlock>, ghost done: seq<DataBlock>) returns (ok: bool)
      requires Sound() && lastId + 1 < NONE64
      requires |blocks| == n && Deduped(Now(), blocks) && HonestBatch(blocks, hash, seen) && GoodBatch(blocks, n)
      requires AllSmall(FreshData(blocks), MaxStored(size))
      requires index.policy.Keys() == Order(events) && InTurn(events, lastId)
      modifies this`fpIndex, this`lines, this`trace, this`lastId, this`flushed, this`events, index, index.policy,
               proxy.manager, proxy.device.buffer
      ensures proxy.PG > 0
      ensures ok == (PagesFor(MetadataLen(n) + Total(FreshData(blocks)), proxy.PG) <= old(proxy.manager.freeBlocks))
      ensures old(proxy.manager.freeBlocks) == |FreePages(old(index.data), proxy.manager.size)|
      ensures ok ==> Sound() && lastId == old(lastId) + 1 && old(trace) != [] && trace == old(trace) + [Now()]
      ensures ok ==> GoodFlush(old(trace[|trace| - 1]), blocks, Now(), n, hash, seen)
      ensures ok ==> lines == old(lines)[lastId := LineOf(blocks)] && flushed == old(flushed) + done
      ensures ok ==> fpIndex == EnterFresh(old(fpIndex), blocks, lastId)
      ensures ok ==> index.data.Keys == old(index.data.Keys) + {lastId} && lastId !in old(index.data)
      ensures ok ==> Idle(index.data, lastId) &&
                     proxy.manager.freeBlocks + |index.data[lastId].pages| == old(proxy.manager.freeBlocks)
      ensures ok ==> events == old(events) + FlushEvents(lastId, blocks) && Rank(events, lastId) < 0
      ensures ok ==> index.policy.Keys() == Order(events) && InTurn(events, lastId)
      ensures !ok ==> trace == old(trace) && index.data == old(index.data)
    {
      hide *;
      SoundFacts();
      ConfiguredCount();
      FreeCountIs();
      StoreIs();
      NextIdIs();
      NextIsNew(blocks);
      AfterFlush(events, lastId, lastId + 1, blocks);
      var pages;
      ok, pages := WriteDataBlocks(blocks);
      if ok {
        Record(blocks, pages);
        events, flushed := events + FlushEvents(lastId, blocks), flushed + done;
      }
    }

    lemma {:induction false} ConfiguredOf()
      requires Sound()
      ensures Configured() && trace != []
    {
      hide Configured, Run, CachelineIndex.Valid, SmallStore, OnProxy;
      SoundFacts();
    }

    lemma {:induction false} NextIdIs()
      requires lastId < NONE64
      ensures NextId(Now()) == lastId + 1
    {
    }

    lemma {:induction false} NextIsNew(blocks: seq<DataBlock>)
      requires Sound() && lastId < NONE64 && index.policy.Keys() == Order(events) && Deduped(Now(), blocks)
      ensures lastId + 1 !in Order(events) && !UsesLine(blocks, lastId + 1)
    {
      hide CDCache.Sound, SSDProxy.Valid, Inv, Order, InTurn, UsesLine, Deduped, Honest, SmallStore, OnProxy, Run,
           Configured, LRUPolicy.Valid, LRUPolicy.Keys;
      SoundFacts();
      NewLineUnused(Now(), n, blocks);
    }

    lemma {:induction false} TallyIs()
      requires Tallied()
      ensures |flushed| == n * lastId && |index.data.Keys| + |trace| == 2 * lastId + 1
      ensures proxy.PG > 0 && Estimate(n, size, proxy.PG) == 0 ==> |trace| == lastId + 1
    {
      hide Estimate;
    }

    lemma {:induction false} SteadyAfter(free: nat)
      requires Sound() && detector.Valid() && Tallied() && proxy.PG > 0 && Estimate(n, size, proxy.PG) <= free
      requires lastId in index.data && Idle(index.data, lastId)
      requires proxy.manager.freeBlocks + |index.data[lastId].pages| == free
      requires BloomFilters.Matched(detector.ops) && Watched(fpIndex, detector.ops, true)
      requires AsFlushed(lines, fpIndex, flushed, n)
      requires index.policy.Keys() == Order(events) && InTurn(events, lastId)
      ensures Steady()
    {
      hide CDCache.Sound, BloomFilters.DeletableBloomFilter.Valid, CDCache.Tallied, Estimate, BloomFilters.Matched,
           Watched, Order, InTurn, LRUPolicy.Keys;
    }

    lemma {:induction false} ToldAfter(s: Store, before: seq<DataBlock>, blocks: seq<DataBlock>, done: seq<DataBlock>)
      requires AsFlushed(s.lines, s.fpIndex, before, n) && Deduped(s, blocks) && AllSameStored(done, blocks)
      requires 1 <= n < 256 && |blocks| == n && lastId >= 1 && |before| == n * (lastId - 1)
      requires lines == s.lines[lastId := LineOf(blocks)] && fpIndex == EnterFresh(s.fpIndex, blocks, lastId)
      requires flushed == before + done
      ensures AsFlushed(lines, fpIndex, flushed, n)
    {
      hide *;
      OneMoreLine(s, before, n, blocks, done, lastId);
    }

    lemma {:induction false} FlushesNow(trace0: seq<Store>, blocks: seq<DataBlock>)
      requires trace0 != [] && trace == trace0 + [Now()]
      requires GoodFlush(trace0[|trace0| - 1], blocks, Now(), n, hash, seen)
      ensures Flushes(trace, blocks, n, hash, seen)
    {
      hide GoodFlush;
    }

    lemma {:induction false} ValidFrom()
      requires Steady() && Accounted() && |buffer.data| < n
      ensures Valid()
    {
      hide CDCache.Steady, CDCache.Accounted;
    }

    lemma {:induction false} TallyAfter(flushed0: seq<DataBlock>, done: seq<DataBlock>, keys: set<Id>,
                                        trace0: seq<Store>)
      requires lastId > 0 && |flushed0| == n * (lastId - 1) && |done| == n && flushed == flushed0 + done
      requires |keys| + |trace0| == 2 * (lastId - 1) + 1 && trace == trace0 + [Now()]
      requires index.data.Keys == keys + {lastId} && lastId !in keys
      requires proxy.PG > 0 && Estimate(n, size, proxy.PG) == 0 ==> |trace0| == lastId
      ensures Tallied()
    {
      hide Estimate;
      assert n * lastId == n * (lastId - 1) + n;
    }

    /** Empties the buffer, compresses the batch, records its addresses and finds its duplicates. */
    method PrepareBatch() returns (blocks: seq<DataBlock>, ghost done: seq<DataBlock>)
      requires Sound() && Accounted() && detector.Valid() && |buffer.data| == n
      requires Foreseen(RawsOf(buffer.data), seen) && 2 <= |BatchData(RawsOf(buffer.data))|
      modifies this`lbaIndex, buffer, table.tb, table.hashList, detector, detector.slots, detector.collisions
      ensures Sound() && detector.Valid() && Configured() && n > 0
      ensures buffer.Valid() && buffer.data == []
      ensures Tracks(written, flushed, old(buffer.data)) && AllSameWrites(done, old(buffer.data))
      ensures LastFlushed(lbaIndex, flushed + done)
      ensures HonestBatch(flushed, hash, seen) && AllRecoverable(flushed)
      ensures HonestBatch(done, hash, seen) && AllRecoverable(done)
      ensures AllSameStored(done, blocks) && |blocks| == n && Deduped(Now(), blocks)
      ensures HonestBatch(blocks, hash, seen) && GoodBatch(blocks, n)
      ensures AllSmall(FreshData(blocks), MaxStored(size)) && Compressed(blocks, blocks, hash)
      ensures detector.ops == old(detector.ops) + Insertions(old(buffer.data))
      ensures forall i: nat | i < n :: i < |done| && i < |old(buffer.data)| &&
                done[i].rawDuplicated ==
                  BloomFilters.Reported(detector.h, old(detector.State()), old(buffer.data[i].rawFp))
    {
      hide CDCache.Sound, CDCache.Accounted, BloomFilters.DeletableBloomFilter.Valid, CachelineIndex.Valid, Configured,
           Foreseen, DataBlockBuffer.Valid, Compressed, AllSameStored, Deduped, GoodBatch, HonestBatch, AllRecoverable,
           LastFlushed, Run, Inv, Honest, SmallStore, OnProxy, FreshData, LRUPolicy.Valid, SSDProxy.Valid, AllWithin,
           Tracks, NoCollision, MaxStored, SSDProxy.Disk, AllSmall, AllSameWrites, BatchData;
      AccountedFacts();
      SoundFacts();
      ConfiguredCount();
      ghost var full := buffer.data;
      blocks := buffer.PopAll();
      blocks := DetectBlockType(blocks);
      ghost var flagged := blocks;
      SameRaws(full, flagged, size);
      blocks := Compress(blocks);
      done := blocks;
      UpdateLBAIndex(blocks);
      blocks := DedupBlocks(blocks);
      BatchIsReady(full, flagged, done, blocks);
      CompressedItself(flagged, done, blocks, hash);
      forall i: nat | i < n ensures i < |done| && done[i].rawDuplicated == flagged[i].rawDuplicated {
        FlagStays(flagged, done, hash, i);
      }
    }

    // ----- requests --------------------------------------------------------------------------

    /** The hypothesis on a write: the block is no larger than configured, and if it fills the buffer, that can be
        flushed. */
    ghost predicate CanTake(b: DataBlock)
      reads this`lastId, buffer
    {
      |b.rawData| <= size && (|buffer.data| + 1 == n ==> CanFlush(buffer.data + [b]))
    }

    /** What a failed flush says about the cache; `Done` says nothing. */
    ghost predicate Explained(r: Outcome)
      reads proxy.manager
    {
      proxy.PG > 0 &&
      match r
      case Done => true
      case NoVictim => Estimate(n, size, proxy.PG) > proxy.manager.size
      case NoSpace => !Covers(n, size, proxy.PG)
    }

    /** Buffers a block, and flushes once the buffer is full. So as long as nothing but writes comes in, a full device
        keeps all its lines but the youngest, which every flush replaces. */
    method Write(b: DataBlock, readMiss: bool) returns (r: Outcome)
      requires Valid() && CanTake(b)
      modifies this, index, index.policy, proxy.manager, proxy.device.buffer, buffer, table.tb, table.hashList,
               detector, detector.slots, detector.collisions
      ensures Explained(r) && old(trace) <= trace
      ensures r == Done ==> Valid() && written == old(written) + [b] && old(flushed) <= flushed
      ensures r == Done ==> |flushed| == |old(flushed)| + if |old(buffer.data)| + 1 == n then n else 0
      ensures |old(buffer.data)| + 1 < n ==> r == Done && events == old(events) && index.data == old(index.data)
      ensures r == Done && |old(buffer.data)| + 1 == n ==> lastId == old(lastId) + 1 && Rank(events, lastId) < 0
      ensures r == Done && |old(buffer.data)| + 1 == n && Rank(old(events), old(lastId)) < 0 ==>
                index.data.Keys == {lastId} +
                  WithRoom(old(index.data), old(lastId),
                           Estimate(n, size, proxy.PG) <= old(proxy.manager.freeBlocks)).Keys
    {
      hide *;
      var full := BufferBlock(b);
      if !full {
        return Done;
      }
      ghost var ready, gone;
      ghost var before := flushed;
      r, ready, gone := FlushBuffer();
      if r == Done { SameCount(flushed[|before|..], ready); }
      ExplainedBy(r);
    }

    method BufferBlock(b: DataBlock) returns (full: bool)
      requires Valid() && CanTake(b)
      modifies this`written, buffer
      ensures Steady() && Accounted() && |buffer.data| <= n && full == (|buffer.data| == n) && Explained(Done)
      ensures buffer.data == old(buffer.data) + [b] && written == old(written) + [b]
      ensures full ==> CanFlush(buffer.data)
      ensures !full ==> Valid()
    {
      hide *;
      ValidFacts();
      ghost var before := buffer.data;
      CanTakeFacts(b);
      buffer.WriteLogicalBlock(b);
      written := written + [b];
      assert written[..|written| - 1] == old(written);
      AccountedWith(b, before);
      full := IsFull();
      BufferFacts(b, before, full);
    }

    lemma {:induction false} CanTakeFacts(b: DataBlock)
      requires CanTake(b)
      ensures |b.rawData| <= size && (|buffer.data| + 1 == n ==> CanFlush(buffer.data + [b]))
    {
      hide CDCache.CanFlush;
    }

    predicate IsFull()
      reads buffer
    {
      buffer.IsFull()
    }

    lemma {:induction false} ValidFacts()
      requires Valid()
      ensures Steady() && Accounted() && |buffer.data| < n && buffer.Valid() && proxy.PG > 0
      ensures AllWithin(buffer.data, size) && Tracks(written, flushed, buffer.data) && LastFlushed(lbaIndex, flushed)
      ensures HonestBatch(flushed, hash, seen) && AllRecoverable(flushed)
    {
      hide CDCache.Steady, HonestBatch, AllRecoverable, LastFlushed, Tracks, AllWithin, DataBlockBuffer.Valid;
      SteadyFacts();
    }

    lemma {:induction false} AccountedWith(b: DataBlock, before: seq<DataBlock>)
      requires buffer.Valid() && buffer.data == before + [b] && |b.rawData| <= size && AllWithin(before, size)
      requires |written| > 0 && written[|written| - 1] == b && Tracks(written[..|written| - 1], flushed, before)
      requires LastFlushed(lbaIndex, flushed) && HonestBatch(flushed, hash, seen) && AllRecoverable(flushed)
      ensures Accounted()
    {
      hide LastFlushed, HonestBatch, AllRecoverable, DataBlockBuffer.Valid;
      assert written == written[..|written| - 1] + [b];
      assert written[|flushed|..] == buffer.data;
    }

    lemma {:induction false} BufferFacts(b: DataBlock, before: seq<DataBlock>, full: bool)
      requires Steady() && Accounted() && buffer.data == before + [b] && |before| < n && full == IsFull()
      requires |b.rawData| <= size && (|before| + 1 == n ==> CanFlush(before + [b]))
      ensures full == (|buffer.data| == n) && (full ==> CanFlush(buffer.data)) && (!full ==> Valid()) && Explained(Done)
    {
      hide CDCache.Accounted, CDCache.CanFlush, CDCache.Steady;
      SteadyFacts();
      CapacityIs();
    }

    lemma {:induction false} CapacityIs()
      requires Sound()
      ensures buffer.capacity == n
    {
      hide Run, CachelineIndex.Valid, SmallStore, OnProxy, NoCollision;
    }

    lemma {:induction false} ExplainedBy(r: Outcome)
      requires proxy.PG > 0
      requires r == NoVictim ==> Estimate(n, size, proxy.PG) > proxy.manager.size
      requires r == NoSpace ==> !Covers(n, size, proxy.PG)
      ensures Explained(r)
    {
    }

    /** What a lookup of an address finds: buffered raw bytes, or a fingerprint whose line is cached. */
    ghost predicate Finds(address: U64)
      reads this`flushed, this`fpIndex, buffer
    {
      || LastAt(buffer.data, address).Some?
      || (LastAt(flushed, address).Some? && LastAt(flushed, address).value.compFp in fpIndex)
    }

    /** The line an address leads to by way of its fingerprint. */
    function LineFor(address: U64): Id
      reads this`lbaIndex, this`fpIndex
    {
      if address in lbaIndex && lbaIndex[address] in fpIndex then fpIndex[lbaIndex[address]].addr else NONE64
    }

    /** Serves a read. `raw` is the block's raw data afterwards; a miss writes the block back. */
    method Read(b: DataBlock) returns (r: Outcome, hit: bool, raw: seq<Byte>)
      requires Valid() && (!Finds(b.address) ==> CanTake(b))
      modifies this, index, index.policy, proxy.manager, proxy.device.buffer, buffer, table.tb, table.hashList,
               detector, detector.slots, detector.collisions
      ensures hit == old(Finds(b.address)) && Explained(r) && old(trace) <= trace
      ensures hit ==> r == Done && Valid() && Now() == old(Now()) && written == old(written) && flushed == old(flushed)
      ensures hit ==> buffer.data == old(buffer.data)
      ensures hit ==> raw == old(if LastAt(buffer.data, b.address).Some? then RawAt(written, b.address) else b.rawData)
      ensures hit && old(LastAt(buffer.data, b.address).None?) ==>
                index.policy.Keys() == Promoted(old(index.policy.Keys()), old(LineFor(b.address)))
      ensures hit ==> events == old(if LastAt(buffer.data, b.address).Some? then events
                                    else events + [Used(LineFor(b.address))])
      ensures !hit ==> raw == []
      ensures !hit && r == Done ==> Valid() && written == old(written) + [b] && old(flushed) <= flushed
      ensures !hit && r == Done ==> |flushed| == |old(flushed)| + if |old(buffer.data)| + 1 == n then n else 0
    {
      hide *;
      raw := [];
      var found := Lookup(b.address);
      match found
      case Buffered(data) =>
        r, hit, raw := Done, true, data;
      case Cached(id) =>
        Promote(id);
        r, hit, raw := Done, true, b.rawData;
      case Missing =>
        hit := false;
        r := Write(b, true);
    }

    /** Where the latest write to an address is. */
    method Lookup(address: U64) returns (found: Location)
      requires Valid()
      ensures Explained(Done)
      ensures found.Buffered? <==> LastAt(buffer.data, address).Some?
      ensures found.Buffered? ==> found.data == RawAt(written, address)
      ensures found.Cached? ==> found.id in index.data && found.id == LineFor(address)
      ensures found.Missing? <==> !Finds(address)
    {
      hide CDCache.Steady, HonestBatch, AllRecoverable, LastAt, DataBlockBuffer.Valid, Tracks, Inv, AllWithin, Estimate,
           BloomFilters.Matched, Watched, CDCache.Sound, BloomFilters.DeletableBloomFilter.Valid, CachelineIndex.Valid;
      SteadyFacts();
      LatestWrite(written, flushed, buffer.data, address);
      var buffered := buffer.TryReadLogicalDataBlock(address);
      if buffered.Some? {
        return Buffered(buffered.value);
      }
      if address in lbaIndex {
        var compFp := lbaIndex[address];
        if compFp in fpIndex {
          IndexedFp(Now(), n, compFp);
          return Cached(fpIndex[compFp].addr);
        }
      }
      return Missing;
    }

    /** The line of a hit comes to the front; the assertion that it is there cannot fail. */
    method Promote(id: Id)
      requires Valid() && id in index.data
      modifies this`events, index.policy
      ensures Valid() && Now() == old(Now()) && events == old(events) + [Used(id)]
      ensures index.policy.Keys() == Promoted(old(index.policy.Keys()), id)
    {
      hide CDCache.Accounted, BloomFilters.DeletableBloomFilter.Valid, Run, Configured, CachelineIndex.Valid, Inv,
           SmallStore, Honest, OnProxy, SSDProxy.Valid, Promoted, LRUPolicy.Keys, CDCache.Guarded, CDCache.Roomy,
           CDCache.Tallied, Order, InTurn, AsFlushed;
      SoundFacts();
      OneMoreEvent(events, Used(id));
      AfterEvent(events, lastId, Used(id));
      var entry := index.Query(id, true);
      assert entry.Some?;
      events := events + [Used(id)];
      SoundFrom();
    }

    // ----- what a valid cache promises -------------------------------------------------------

    /** A lookup finds an address exactly if the latest write to it is still in the buffer, or its compressed
        fingerprint is cached; the raw data it may return are those of that write. */
    lemma {:induction false} FindsLatest(address: U64)
      requires Valid()
      ensures |flushed| + |buffer.data| == |written|
      ensures Finds(address) <==> exists i: nat :: LatestFor(written, address, i) &&
                                    (i >= |flushed| || (i < |flushed| && flushed[i].compFp in fpIndex))
      ensures forall i: nat | LatestFor(written, address, i) ::
                i < |written| && RawAt(written, address) == written[i].rawData
    {
      hide *;
      ValidFacts();
      TracksSizes(written, flushed, buffer.data);
      forall i: nat | LatestFor(written, address, i)
        ensures i < |written| && RawAt(written, address) == written[i].rawData
        ensures Finds(address) <==> (i >= |flushed| || (i < |flushed| && flushed[i].compFp in fpIndex))
      {
        LatestIsAt(written, flushed, buffer.data, address, i);
        FindsIs(address);
      }
      if Finds(address) {
        FindsIs(address);
        var i := FindLatest(written, flushed, buffer.data, address);
      }
    }

    lemma {:induction false} FindsIs(address: U64)
      ensures Finds(address) <==>
              || LastAt(buffer.data, address).Some?
              || (LastAt(flushed, address).Some? && LastAt(flushed, address).value.compFp in fpIndex)
    {
    }

    /** A lookup that misses the buffer but finds a cached fingerprint leads to a line, on the device, that stores the
        compressed bytes of the latest write. If they expand on their own they expand to its raw data, and they do so
        where that write was flagged as a duplicate. */
    lemma {:induction false} LatestIsCached(address: U64)
      requires Valid() && LastAt(buffer.data, address).None? && Finds(address)
      ensures address in lbaIndex && lbaIndex[address] in fpIndex
      ensures LineFor(address) == fpIndex[lbaIndex[address]].addr
      ensures var fp, id := lbaIndex[address], fpIndex[lbaIndex[address]].addr;
              && id in lines && id in index.data && HasStored(lines[id].infos, fp)
              && StoredBytes(lines[id], fp) == LastAt(flushed, address).value.compData
              && LastAt(flushed, address).value.rawData == RawAt(written, address)
              && (LastAt(flushed, address).value.rawDuplicated ==> Expand(StoredBytes(lines[id], fp)).Some?)
              && (Expand(StoredBytes(lines[id], fp)).Some? ==>
                    Expand(StoredBytes(lines[id], fp)) == Some(RawAt(written, address)))
              && proxy.PG > 0 && AllOnDevice(|proxy.Disk()|, proxy.PG, index.data[id].pages)
              && LineFrom(ReadPages(proxy.Disk(), proxy.PG, index.data[id].pages), n) == Some(lines[id])
    {
      hide CDCache.Sound, BloomFilters.DeletableBloomFilter.Valid, Run, LastAt, Inv, SmallStore, Expand, Honest,
           OnProxy, AllWithin, SSDProxy.Valid, HasStored, StoredBytes, LineFrom, ReadPages, AllOnDevice,
           CachelineIndex.Valid, DataBlockBuffer.Valid, Tracks, SSDProxy.Disk, CDCache.Guarded, CDCache.Roomy,
           CDCache.Tallied;
      SoundFacts();
      LatestWrite(written, flushed, buffer.data, address);
      var b := LastAt(flushed, address).value;
      var i := LastAtIsIn(flushed, address);
      assert Recoverable(flushed[i]);
      IndexedFp(Now(), n, b.compFp);
      var id := fpIndex[b.compFp].addr;
      HonestOwner(Now(), n, hash, seen, id, b.compFp);
      assert b.compData in seen && hash(b.compData) == b.compFp;
      OnDeviceIs(id);
    }

    /** Every line can be read back from its pages. */
    lemma {:induction false} OnDeviceIs(id: Id)
      requires Sound() && id in lines
      ensures id in index.data && proxy.PG > 0 && AllOnDevice(|proxy.Disk()|, proxy.PG, index.data[id].pages)
      ensures LineFrom(ReadPages(proxy.Disk(), proxy.PG, index.data[id].pages), n) == Some(lines[id])
    {
      hide CDCache.Sound, Run, Inv, SmallStore, Honest, OnProxy, SSDProxy.Valid, LineFrom, ReadPages, AllOnDevice,
           Holds, CachelineIndex.Valid, SSDProxy.Disk, WellLaidOut, Configured, WellFormed;
      SoundFacts();
      ProxyParts(proxy, index.data, lines);
      var pages := index.data[id].pages;
      HeldLine(proxy.Disk(), proxy.PG, index.data, lines, id);
      LineIsGood(Now(), n, id);
      PagesHeld(proxy.Disk(), proxy.PG, pages, lines[id], n);
      NothingChanged(proxy.Disk(), proxy.PG, pages);
      StorageRoundTrip(proxy.Disk(), proxy.Disk(), proxy.PG, pages, lines[id], n);
    }

    /** The detector flags every raw block whose fingerprint is cached. */
    lemma {:induction false} CachedIsReported(fp: Fp)
      requires Valid() && fp in fpIndex
      ensures BloomFilters.Reported(detector.h, detector.State(), fpIndex[fp].rawFp)
    {
      hide CDCache.Sound, CDCache.Accounted, CDCache.Roomy, CDCache.Tallied, BloomFilters.Matched,
           BloomFilters.Remaining, BloomFilters.Reported, BloomFilters.BitsAfter;
      var r := fpIndex[fp].rawFp;
      assert fp in Under(fpIndex, r);
      assert r in BloomFilters.Remaining(detector.ops);
      BloomFilters.RemainingIsReported(detector.h, detector.ops, r);
    }

    /** An index entry has the raw fingerprint of a write its line was flushed from, the last of those with its
        compressed fingerprint: this is what the detector is told when the entry is forgotten. */
    lemma {:induction false} EntryIsOfWrite(fp: Fp) returns (k: nat)
      requires Valid() && fp in fpIndex
      ensures var id := fpIndex[fp].addr;
              && k < |BatchOf(flushed, n, id)| == |BatchOf(written, n, id)|
              && fpIndex[fp].rawFp == BatchOf(written, n, id)[k].rawFp && BatchOf(flushed, n, id)[k].compFp == fp
              && forall j | k < j < |BatchOf(flushed, n, id)| :: BatchOf(flushed, n, id)[j].compFp != fp
    {
      hide *;
      ValidFacts();
      SteadyFacts();
      k := EntryFrom(lines, fpIndex, flushed, n, fp);
      BatchOfWrites(written, flushed, buffer.data, n, fpIndex[fp].addr);
      SameRawFp(BatchOf(flushed, n, fpIndex[fp].addr)[k], BatchOf(written, n, fpIndex[fp].addr)[k]);
    }

    /** Each block of a line keeps the fingerprint and the length of the raw block it was written as. */
    lemma {:induction false} LineIsOfWrites(id: Id, i: nat)
      requires Valid() && id in lines && i < |lines[id].infos|
      ensures |BatchOf(flushed, n, id)| == |BatchOf(written, n, id)| == |lines[id].infos|
      ensures var info, b := lines[id].infos[i], BatchOf(written, n, id)[i];
              && info.rawFp == b.rawFp && info.rawLen == |b.rawData| % 0x1_0000_0000
              && info.compFp == BatchOf(flushed, n, id)[i].compFp
    {
      hide *;
      ValidFacts();
      SteadyFacts();
      LineEntryFrom(lines, fpIndex, flushed, n, id, i);
      BatchOfWrites(written, flushed, buffer.data, n, id);
      SameRawFp(BatchOf(flushed, n, id)[i], BatchOf(written, n, id)[i]);
    }

    /** Evicting any line with at most one live referrer more than there are free pages would succeed. */
    lemma {:induction false} FewReferrersSucceed(v: Id)
      requires Sound() && v in index.data && |LiveReferrers(Now(), v)| <= proxy.manager.freeBlocks + 1
      ensures !TooCostly(Now(), n, proxy.PG, proxy.manager.size, v)
    {
      hide CDCache.Sound, Run, Inv, SmallStore, Honest, OnProxy, SSDProxy.Valid, Configured, WellLaidOut, WellFormed,
           CachelineIndex.Valid, FreePages, TooCostly, LiveReferrers;
      SoundFacts();
      FreeCountIs();
      LineIsGood(Now(), n, v);
      PagesOnProxy(proxy, index.data, lines, v, n);
      FewReferrersSuffice(Now(), n, proxy.PG, proxy.manager.size, v);
    }

    /** With an estimate of zero nothing is ever evicted, so a device of `P` pages takes at most `P` flushes; the next
        one finds no pages. */
    lemma {:induction false} ZeroEstimateFillsUp()
      requires Valid() && Estimate(n, size, proxy.PG) == 0
      ensures |trace| == lastId + 1 && |index.data.Keys| == lastId <= proxy.manager.size
      ensures |flushed| == n * lastId
    {
      hide CDCache.Accounted, CDCache.Sound, CDCache.Guarded, CDCache.Roomy, Estimate, Run, Inv, SmallStore, Honest,
           OnProxy, SSDProxy.Valid, Configured, WellLaidOut, CachelineIndex.Valid, PagesFor, Shared, AllHeld,
           BloomFilters.DeletableBloomFilter.Valid, WellFormed, StackedDiscretePageManager.Free, AsFlushed;
      SoundFacts();
      ProxyParts(proxy, index.data, lines);
      forall id | id in index.data ensures index.data[id].pages != [] {
        LineIsGood(Now(), n, id);
        PagesOnProxy(proxy, index.data, lines, id, n);
        PagesForLeast(MetadataLen(n) + Total(lines[id].data), proxy.PG, 0);
      }
      LinesFit(proxy.manager.Free(), index.data, proxy.manager.size);
    }

    /** Page conservation: free pages and the pages of the live lines are disjoint, without repetition, and all there
        are; the counter of free pages is right. */
    lemma {:induction false} PagesAreConserved()
      requires Valid()
      ensures Shared(proxy.manager.Free(), index.data, proxy.manager.size)
      ensures |proxy.manager.Free()| == proxy.manager.freeBlocks
      ensures proxy.manager.Free() == FreePages(index.data, proxy.manager.size)
    {
      hide CDCache.Accounted, BloomFilters.DeletableBloomFilter.Valid, Run, SmallStore, CachelineIndex.Valid, AllHeld,
           Shared, FreePages, Configured, StackedDiscretePageManager.Free, CDCache.Guarded, CDCache.Roomy,
           CDCache.Tallied;
      FreeArePages(proxy.manager.Free(), index.data, proxy.manager.size);
      proxy.manager.FreeCount();
    }

    lemma {:induction false} AccountedFacts()
      requires Accounted()
      ensures buffer.Valid() && AllWithin(buffer.data, size)
      ensures LastFlushed(lbaIndex, flushed) && Tracks(written, flushed, buffer.data)
      ensures HonestBatch(flushed, hash, seen) && AllRecoverable(flushed)
    {
      hide DataBlockBuffer.Valid, AllWithin, LastFlushed, Tracks, HonestBatch, AllRecoverable;
    }

    /** A batch out of the compressor can be flushed. */
    lemma {:induction false} BatchIsReady(full: seq<DataBlock>, flagged: seq<DataBlock>, done: seq<DataBlock>,
                                          ready: seq<DataBlock>)
      requires Configured() && |full| == n && Foreseen(RawsOf(full), seen) && RawsOf(flagged) == RawsOf(full)
      requires AllWithin(flagged, size) && AllSameWrites(flagged, full)
      requires Compressed(flagged, done, hash) && AllSameStored(done, ready)
      ensures HonestBatch(done, hash, seen) && AllRecoverable(done) && AllSameWrites(done, full)
      ensures HonestBatch(ready, hash, seen) && GoodBatch(ready, n) && |ready| == n
      ensures AllSmall(FreshData(ready), MaxStored(size))
    {
      hide HonestBatch, AllRecoverable, GoodBatch, AllSmall, Foreseen, NoCollision, FreshData, AllWithin,
           CompressedBlock, LookupTable.Valid, MaxStored;
      CompressedBatch(flagged, done, hash, seen, size);
      MarkingKeepsBatch(done, ready, hash, seen, MaxStored(size));
      BatchIsGood(ready, n, MaxStored(size), hash, seen);
    }

    lemma {:induction false} AccountedAfter(full: seq<DataBlock>, before: seq<DataBlock>, done: seq<DataBlock>)
      requires buffer.Valid() && buffer.data == [] && flushed == before + done
      requires Tracks(written, before, full) && AllSameWrites(done, full) && LastFlushed(lbaIndex, flushed)
      requires HonestBatch(before, hash, seen) && AllRecoverable(before)
      requires HonestBatch(done, hash, seen) && AllRecoverable(done)
      ensures Accounted()
    {
      hide DataBlockBuffer.Valid, LastFlushed, Tracks, Recoverable;
      TracksFlush(written, before, full, done);
    }
  }

  /** If the youngest line was not used since it came, and nobody refers to it, it is the victim. */
  lemma {:induction false} YoungestIsVictim(events: seq<Event>, last: Id, data: map<Id, IndexData>, keys: seq<Id>,
                                            v: Id)
    requires keys == Order(events) && InTurn(events, last) && SameMembers(data.Keys, keys)
    requires IsVictim(data, keys, v) && last in data && Idle(data, last)
    ensures Rank(events, last) < 0 ==> v == last
  {
    hide Order, Rank, InTurn;
    if Rank(events, last) < 0 {
      YoungestIsLast(events, last);
      assert RefCount(data, last) == 0;
    }
  }

  lemma {:induction false} AfterGone(events: seq<Event>, last: Id, v: Id)
    requires InTurn(events, last)
    ensures Order(events + [Gone(v)]) == Without(Order(events), v) && InTurn(events + [Gone(v)], last)
  {
    hide Order, Rank, Without, InTurn;
    OneMoreEvent(events, Gone(v));
    AfterEvent(events, last, Gone(v));
  }

  lemma {:induction false} NoneGone(events: seq<Event>)
    ensures events == events + [] && OnlyGone([])
  {
  }

  lemma {:induction false} OnlyGoneMore(start: seq<Event>, front: seq<Event>, gone: seq<Event>, all: seq<Event>)
    requires OnlyGone(front) && (all == start + front || exists v :: all == start + front + [Gone(v)])
    requires gone == all[|start|..]
    ensures all == start + gone && OnlyGone(gone)
  {
  }

  /** The lines left once there is room, if the youngest was not used: without room it goes. */
  function WithRoom(data: map<Id, IndexData>, last: Id, room: bool): map<Id, IndexData> {
    if room then data else data - {last}
  }

  lemma {:induction false} WithRoomIs(data: map<Id, IndexData>, last: Id)
    ensures WithRoom(data, last, true) == data && WithRoom(data, last, false) == data - {last}
  {
  }

  lemma {:induction false} FlagStays(blocks: seq<DataBlock>, done: seq<DataBlock>, hash: seq<Byte> -> Fp, i: nat)
    requires Compressed(blocks, done, hash) && i < |blocks|
    ensures i < |done| && done[i].rawDuplicated == blocks[i].rawDuplicated
  {
    hide CompressedBlock;
  }

  lemma {:induction false} SameWriteCount(a: seq<DataBlock>, b: seq<DataBlock>)
    requires AllSameWrites(a, b)
    ensures |a| == |b|
  {
  }

  /** The raw data of the last write to an address. */
  function RawAt(blocks: seq<DataBlock>, address: U64): seq<Byte> {
    match LastAt(blocks, address)
    case None => []
    case Some(b) => b.rawData
  }

  /** Write `i` is the latest to this address. */
  predicate LatestFor(written: seq<DataBlock>, address: U64, i: nat) {
    i < |written| && written[i].address == address && forall j | i < j < |written| :: written[j].address != address
  }

  lemma {:induction false} TracksSizes(written: seq<DataBlock>, flushed: seq<DataBlock>, buffered: seq<DataBlock>)
    requires Tracks(written, flushed, buffered)
    ensures |flushed| + |buffered| == |written|
  {
  }

  lemma {:induction false} LatestIsAt(written: seq<DataBlock>, flushed: seq<DataBlock>, buffered: seq<DataBlock>,
                                      address: U64, i: nat)
    requires Tracks(written, flushed, buffered) && LatestFor(written, address, i)
    ensures i < |written| && RawAt(written, address) == written[i].rawData
    ensures i >= |flushed| <==> LastAt(buffered, address).Some?
    ensures i < |flushed| ==> LastAt(flushed, address) == Some(flushed[i])
  {
    hide LastAt;
    var k := |flushed|;
    LastIsLast(written, address, i);
    RawOf(written, address, written[i]);
    if i >= k {
      assert buffered[i - k] == written[i];
      LastIsLast(buffered, address, i - k);
    } else {
      forall j | 0 <= j < |buffered| ensures buffered[j].address != address {
        assert written[k + j] == buffered[j];
      }
      NoLast(buffered, address);
      assert SameWrite(flushed[i], written[i]);
      forall j | i < j < k ensures flushed[j].address != address { assert SameWrite(flushed[j], written[j]); }
      LastIsLast(flushed, address, i);
    }
  }

  lemma {:induction false} RawOf(blocks: seq<DataBlock>, address: U64, b: DataBlock)
    requires LastAt(blocks, address) == Some(b)
    ensures RawAt(blocks, address) == b.rawData
  {
  }

  lemma {:induction false} FindLatest(written: seq<DataBlock>, flushed: seq<DataBlock>, buffered: seq<DataBlock>,
                                      address: U64) returns (i: nat)
    requires Tracks(written, flushed, buffered)
    requires LastAt(buffered, address).Some? || LastAt(flushed, address).Some?
    ensures LatestFor(written, address, i)
  {
    hide LastAt;
    LatestWrite(written, flushed, buffered, address);
    var k := LastAtIsIn(written, address);
    i := LatestFrom(written, address, k);
  }

  lemma {:induction false} LatestFrom(written: seq<DataBlock>, address: U64, k: nat) returns (i: nat)
    requires k < |written| && written[k].address == address
    ensures LatestFor(written, address, i)
    decreases |written| - k
  {
    i := k;
    if j :| k < j < |written| && written[j].address == address { i := LatestFrom(written, address, j); }
  }

  predicate AllSameWrites(a: seq<DataBlock>, b: seq<DataBlock>) {
    |a| == |b| && forall i | 0 <= i < |a| :: SameWrite(a[i], b[i])
  }

  /** The last step of the run flushes these blocks. */
  ghost predicate Flushes(trace: seq<Store>, blocks: seq<DataBlock>, n: nat, hash: seq<Byte> -> Fp,
                          seen: set<seq<Byte>>) {
    |trace| >= 2 && GoodFlush(trace[|trace| - 2], blocks, trace[|trace| - 1], n, hash, seen)
  }

  lemma {:induction false} BatchIsWatched(index: map<Fp, FpData>, ops: seq<BloomFilters.Op>, full: seq<DataBlock>,
                                          done: seq<DataBlock>, blocks: seq<DataBlock>, id: Id)
    requires BloomFilters.Matched(ops) && Watched(index, ops, true)
    requires AllSameWrites(done, full) && AllSameStored(done, blocks)
    ensures BloomFilters.Matched(ops + Insertions(full))
    ensures Watched(EnterFresh(index, blocks, id), ops + Insertions(full), true)
  {
    hide Watched, BloomFilters.Matched, BloomFilters.Remaining, EnterFresh, Insertions;
    AfterInsertions(ops, full);
    forall i | 0 <= i < |blocks| ensures full[i].rawFp == blocks[i].rawFp {
      assert SameWrite(done[i], full[i]) && SameStored(done[i], blocks[i]);
    }
    FlushKeepsWatch(index, ops, full, blocks, id, true);
  }

  lemma {:induction false} SameRaws(full: seq<DataBlock>, flagged: seq<DataBlock>, size: nat)
    requires |flagged| == |full| && AllWithin(full, size)
    requires forall i | 0 <= i < |full| :: flagged[i] == full[i].(rawDuplicated := flagged[i].rawDuplicated)
    ensures RawsOf(flagged) == RawsOf(full) && AllWithin(flagged, size) && AllSameWrites(flagged, full)
  {
    forall i | 0 <= i < |full| ensures SameWrite(flagged[i], full[i]) {
      assert flagged[i] == full[i].(rawDuplicated := flagged[i].rawDuplicated);
    }
  }

  /** Where the estimate covers the longest line it covers the line of the batch. */
  lemma {:induction false} EstimateCovers(n: nat, size: nat, pg: nat, blocks: seq<DataBlock>)
    requires pg > 0 && |blocks| == n && AllSmall(FreshData(blocks), MaxStored(size))
    ensures Covers(n, size, pg) ==> PagesFor(MetadataLen(n) + Total(FreshData(blocks)), pg) <= Estimate(n, size, pg)
  {
    hide *;
    FreshCount(blocks);
    if Covers(n, size, pg) { CoversAll(n, size, pg, FreshData(blocks)); }
  }

  lemma {:induction false} FreshCount(blocks: seq<DataBlock>)
    ensures |FreshData(blocks)| <= |blocks|
  {
  }

  lemma {:induction false} NewLineIsIdle(s: Store, n: nat, blocks: seq<DataBlock>, pages: seq<nat>)
    requires Inv(s, n) && s.lastId < NONE64 && Deduped(s, blocks)
    ensures var data := Referred(s.meta[NextId(s) := IndexData(0, pages, {})], blocks, NextId(s));
            && data.Keys == s.meta.Keys + {NextId(s)} && NextId(s) !in s.meta
            && data[NextId(s)].pages == pages && Idle(data, NextId(s))
  {
    hide Inv, Deduped, Referred, UsesLine;
    NewLineUnused(s, n, blocks);
    LastIdOf(s, n);
    ReferredIs(s.meta[NextId(s) := IndexData(0, pages, {})], blocks, NextId(s), NextId(s));
  }

  lemma {:induction false} LineOfBatch(blocks: seq<DataBlock>, n: nat)
    requires GoodBatch(blocks, n) && Consistent(blocks)
    ensures WellLaidOut(LineOf(blocks), n) && LineOf(blocks).data == FreshData(blocks)
  {
    hide Consistent, Coherent, GroupsAgree, SlotsMatch, GoodInfo;
    FreshLineWellFormed(blocks, n);
  }

  lemma {:induction false} ProxyParts(proxy: SSDProxy, meta: map<Id, IndexData>, lines: map<Id, Cacheline>)
    requires OnProxy(proxy, meta, lines)
    ensures proxy.Valid() && meta.Keys <= lines.Keys && Shared(proxy.manager.Free(), meta, proxy.manager.size)
    ensures AllHeld(proxy.Disk(), proxy.PG, meta, lines)
  {
    hide Shared, AllHeld;
  }

  /** A line written to free pages joins the lines on the device. */
  lemma {:induction false} LineAdded(proxy: SSDProxy, disk: seq<Byte>, free: set<nat>, meta: map<Id, IndexData>,
                                     lines: map<Id, Cacheline>, id: Id, entry: IndexData, line: Cacheline)
    requires proxy.Valid() && meta.Keys <= lines.Keys && id !in meta && |disk| == |proxy.Disk()|
    requires Shared(free, meta, proxy.manager.size) && AllHeld(disk, proxy.PG, meta, lines)
    requires Distinct(entry.pages) && Elements(entry.pages) <= free
    requires proxy.manager.Free() == free - Elements(entry.pages) && Holds(proxy.Disk(), proxy.PG, entry.pages, line)
    requires forall q: nat | q !in entry.pages && OnDevice(|disk|, proxy.PG, q) ::
               PageOf(proxy.Disk(), proxy.PG, q) == PageOf(disk, proxy.PG, q)
    ensures OnProxy(proxy, meta[id := entry], lines[id := line])
  {
    hide Shared, AllHeld, Distinct, Elements, Holds, PageOf, OnDevice, SSDProxy.Valid, SSDProxy.Disk,
         StackedDiscretePageManager.Free;
    assert forall q: nat :: q in Elements(entry.pages) <==> q in entry.pages;
    OthersHeld(disk, proxy.Disk(), proxy.PG, free, meta, lines, proxy.manager.size, id);
    ShareTaken(free, meta, proxy.manager.size, id, entry);
    HeldAgain(proxy.Disk(), proxy.PG, meta, lines, id, entry, line);
  }

  /** Telling lines about their referrers moves no pages. */
  lemma {:induction false} SameOwners(proxy: SSDProxy, meta: map<Id, IndexData>, meta': map<Id, IndexData>,
                                      lines: map<Id, Cacheline>, blocks: seq<DataBlock>, id: Id)
    requires OnProxy(proxy, meta, lines) && meta' == Referred(meta, blocks, id)
    ensures OnProxy(proxy, meta', lines)
  {
    hide Shared, Holds, Referred, UsesLine, SSDProxy.Valid, SSDProxy.Disk, StackedDiscretePageManager.Free;
    ReferredIs(meta, blocks, id, id);
    forall u | u in meta ensures u in meta' && meta'[u].pages == meta[u].pages {
      ReferredIs(meta, blocks, id, u);
    }
    SharePagesOnly(proxy.manager.Free(), meta, meta', proxy.manager.size);
  }

  lemma {:induction false} PageBound(free: set<nat>, size: nat)
    requires free <= Interval(0, size)
    ensures |free| <= size
  {
    SubsetSize(free, Interval(0, size));
  }

  lemma {:induction false} NothingToWatch(ops: seq<BloomFilters.Op>)
    requires ops == []
    ensures BloomFilters.Matched(ops) && Watched(map[], ops, true)
  {
    forall r: Fp ensures Under(map[], r) == {} { }
  }

  lemma {:induction false} NothingEvicted(trace: seq<Store>, n: nat)
    ensures OnlyEvicts(trace, |trace| - 1, n)
  {
  }

  lemma {:induction false} VictimIsLive(data: map<Id, IndexData>, keys: seq<Id>, id: Id)
    requires IsVictim(data, keys, id)
    ensures id in data && FewestRefs(data, id)
  {
  }

  /** No line has fewer referrers. */
  ghost predicate FewestRefs(data: map<Id, IndexData>, v: Id) {
    v in data && RefCount(data, v) < 1_000_000 && forall u | u in data :: RefCount(data, v) <= RefCount(data, u)
  }

  lemma {:induction false} BatchLength(raws: seq<seq<Byte>>, size: nat)
    requires forall i | 0 <= i < |raws| :: |raws[i]| <= size
    ensures |BatchData(raws)| <= |raws| * size
    decreases |raws|
  {
    if raws != [] {
      BatchLength(raws[..|raws| - 1], size);
      assert |raws| * size == (|raws| - 1) * size + size;
    }
  }
}
