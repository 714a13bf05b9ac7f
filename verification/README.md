# A model of CDCache

CDCache simulates a flash cache that compresses data blocks in batches and then removes duplicates. This project models
its four linked cores and proves what they keep.

* **The cache-line store** (`Cacheline*`, `Store*`, `PageManager`, `Pages`, `PageOwnership`, `Device`, `EvictionPlan`,
  `Eviction`, `EvictionCost`, `EvictionFails`, `CachelineIndex`, `FlushEstimate`, `WorstCase`, `FlushSteps`,
  `DetectorWatch`, `LineFormat`, `LineOrder`, `Provenance`, `DataBlockBuffer`, `CdCache`). A flushed batch becomes one
  cache line on fresh device pages. A block is stored in its line, refers to an older line, or duplicates another
  block of its line. Evicting a line moves every block that is still referred to into its first user and redirects the
  others. `Store` is the whole state as one value; `FlushStep` and `EvictStep` say what a flush and an eviction are,
  `Inv` is what they keep, `Resolve` the compressed bytes a block stands for, `Run` any sequence of them from the
  empty cache. The class `CDCache` with the objects it is made of is the program; its ghost field `trace` is the run
  it went through, and each of its methods is proved to take such steps, on pages it owns.
* **The LZ77 batch compressor** (`Lz77Spec`, `Lz77Parse`, `Lz77Compressor`, `Lz77Dedup`). `Lz77Spec` searches
  positions one by one; the methods with the bucket table, the array of pairs and the lazy loop are proved equal to
  it, and `Lz77Parse` says what it computes by what every choice must be.
* **The bit-level pair codec** (`Bits`, `Bitstream`, `PairSerializer`).
* **Replacement and membership** (`CachePolicy`, `DedupCache`, `BloomFilter`).

A failed assertion of the source is a result here: `None`, or an `Outcome` other than `Done`. After such an outcome the
model promises nothing more about the cache; the conditions under which it arises are stated exactly.

Two hypotheses run through the results on `CDCache`. Fingerprints of compressed bytes come from an arbitrary function
`hash` that tells the byte strings of a finite set `seen` apart (`NoCollision`), and what a batch is stored as, whatever
the duplicate detector answers, lies in that set (`Foreseen`). And line ids are not used up. `CanTake` says so for
each write. The hash functions of the Bloom filter are arbitrary, without any hypothesis. Where the source walks an
unordered container, the model picks in any order.

Findings worth a maintainer's eye:

* `CdCaches.CDCache.MakeRoom`: the evictions of a flush never rewrite anything. The victim is a line with fewest
  referrers; the line flushed last has none; and once it is gone there is as much room as before its flush. So only
  lines nobody refers to are evicted, no block is ever moved (`AsFlushed`), and the part of `removeCacheline` from
  line 230 on is never reached from `CDCache`. The eviction results hold all the same, for any victim.
* `CdCaches.CDCache.Write` with `LineOrders.YoungestIsLast`: a new line enters the replacement order at the back and
  stays there until it is used. So once the device is full, a workload of writes alone keeps every old line, and each
  flush replaces only the line of the flush before it: the youngest goes first.
* `EvictionFails.OldestCannotBeEvicted`: for another choice of victim the ignored result of `writeCacheline` would
  matter. Four flushes of ten one-byte blocks each fill five pages of 512 bytes, without an eviction, with a line that
  cannot go: the rewrites of its three users need a page more each, and its own two come free.
  `Evictions.RemoveCacheline` has the exact condition, `CdCaches.CDCache.FewReferrersSucceed` a guard to read off the
  index.
* `DetectorWatch.MovedThenForgotten`: a block that was moved and is evicted later is removed from the detector as
  fingerprint 0, which does not match unless 0 is in; `BloomFilters.RemovalHides` says when such a removal hides a
  value. Since no block is ever moved, the detector of a `CDCache` is only told of matching removals, and flags every
  block whose fingerprint is cached (`CdCaches.CDCache.CachedIsReported`).
* `Lz77Dedup.UnflaggedBlocksCollide`: two different raw blocks that the detector did not flag can be stored as the
  same bytes, since both lean on the block in front of them. `DedupIsRightIffFlagged` has the exact condition on the
  flags.
* `WorstCases.GuardIsExact`: the page estimate of a flush is enough for every batch exactly if it is enough for blocks
  that do not compress at all: the pages of M + n * ceil(9 * size / 8) bytes, where M is the metadata, must not exceed
  the estimate. One block of 4096 bytes on 4096-byte pages fails that (`FlushEstimates.GuardsDiffer`), and then the
  assertion on `writeDataBlocks` can fail. Where the estimate is zero, because a page is larger than one and a half
  batches, nothing is ever evicted, and a device of P pages takes at most P flushes
  (`CdCaches.CDCache.ZeroEstimateFillsUp`).
* `PairSerializer.CodecRoundTrip`: the bit offsets have 32 bits. What is encoded comes back exactly up to 2^32 - 8
  bits; `PairSerializer.EncodeLz77` says what becomes of longer encodings, which are cut down to their length modulo
  2^32.

## Model

| member | source | states |
|---|---|---|
| CdCaches.CDCache.constructor | src/cd_cache.cpp:17-23 | a new cache owns fresh objects and, if its blocks and lines fit their 8-bit and 32-bit fields, is valid with all pages free |
| CdCaches.CDCache.EvictOne | src/cd_cache.cpp:31-86 | succeeds exactly if the survivors' growth fits the free and the victim's pages; then the run takes one `EvictStep`, the victim alone leaves the index, and the detector is told once of each fingerprint that was forgotten and of no other |
| CdCaches.CDCache.CollectUsers | src/cd_cache.cpp:32-40 | finds the entries of exactly the live referrers and promotes nobody |
| CdCaches.CDCache.UpdateFpIndex | src/cd_cache.cpp:60-81 | every fingerprint ends where the removal sent it: forgotten, redirected with raw fingerprint 0, or untouched, whatever the order |
| CdCaches.CDCache.RecordRemoval | src/cd_cache.cpp:52-82 | the index work of an eviction turns a removal on the device into an `EvictStep` and gives a sound state again |
| CdCaches.CDCache.MakeRoom | src/cd_cache.cpp:112-119 | the eviction loop terminates, takes away one line per round, each without referrers, so that nothing is rewritten; it takes none if one and a half batches with their metadata are less than one page more than is free, and only then if it succeeds; it takes each only while pages are short, and fails exactly if the device is too small for the estimate; if the youngest line was not used since it came, that line goes and no other |
| CdCaches.CDCache.EvictVictim | src/cd_cache.cpp:115-119 | one round evicts exactly the line the index picks: the youngest, if it was not used since it came |
| EvictionCosts.NotTooCostly | src/ssd_proxy.cpp:321-402 | whole pages for every moved block, free or of the victim, suffice for an eviction to succeed |
| EvictionCosts.CostByHeads | src/ssd_proxy.cpp:321-402 | an eviction costs at most the victim's own pages and one more for every line but one that blocks move into; nothing if none moves |
| EvictionCosts.FewReferrersSuffice | src/ssd_proxy.cpp:321-402 | live referrers at most one more than the free pages suffice for an eviction to succeed |
| EvictionCosts.IdleIsFree | src/ssd_proxy.cpp:220-228 | evicting a line without referrers costs nothing |
| EvictionFails.OneByteBlock | src/compression/lz77_comperssor.cpp:117-145 | a block of one byte is stored as the same literal in every batch, flagged or not |
| EvictionFails.FullIsReachable | src/cd_cache.cpp:126-147 | the example's store is reached by four flushes of batches as the compressor makes them, under a fingerprint function that tells their blocks apart; its lines share out all pages |
| EvictionFails.PagesTaken | src/cd_cache.cpp:110-131 | before each of these flushes the estimated page is free, so nothing is evicted, and the new line takes exactly the pages it needs from the free ones |
| EvictionFails.OldestCannotBeEvicted | src/ssd_proxy.cpp:396-402 | in that store the rewrites for evicting the first line need three pages, and its own two come free |
| DetectorWatch.EvictionKeepsWatch | src/cd_cache.cpp:60-81 | no non-zero raw fingerprint is cached more often than it remains in the detector, and an eviction keeps that; its removals all match exactly if the entries of fingerprint 0 that lead to the victim and have no user do not outnumber the remaining zeros; without users zeros are kept in check too |
| DetectorWatch.MovedThenForgotten | src/cd_cache.cpp:60-81 | a fingerprint moved by one eviction and forgotten by a later one is removed as 0, which does not match unless 0 is in |
| DetectorWatch.FlushKeepsWatch | src/cd_cache.cpp:158-164 | inserting the raw fingerprints of a batch and caching its fresh blocks keeps the detector ahead of the index |
| CdCaches.CDCache.NobodyToEvict | src/cd_cache.cpp:115-119 | while there is too little room, only a cache without lines has no victim; the assertion on a missing victim needs a million referrers on the youngest line, which has none |
| CdCaches.CDCache.RoomLeft | src/index/cacheline_index.cpp:8-26 | while there is too little room the youngest line is live and without referrers, and so is any line with fewest referrers |
| CdCaches.CDCache.DetectBlockType | src/cd_cache.cpp:158-164 | flags are the detector's answers before any block of the batch was inserted; then all are inserted in order |
| CdCaches.CDCache.Compress | src/compression/main_compressor.cpp:15-22 | each block gets the bytes the batch compressor stores for it and their fingerprint |
| CdCaches.CDCache.UpdateLBAIndex | src/cd_cache.cpp:185-191 | keeps the address index at the latest flushed write of every address |
| CdCaches.CDCache.DedupBlocks | src/cd_cache.cpp:167-183 | marks exactly the blocks whose compressed fingerprint is cached, with the line that stores it, and changes no bytes |
| CdCaches.CDCache.WriteDataBlocks | src/ssd_proxy.cpp:63-67 | the new line joins the lines on the device; fails exactly if its pages exceed the free ones |
| CdCaches.CDCache.Record | src/cd_cache.cpp:135-147 | indexing the new line is a `FlushStep`; the line enters at the back and the lines it uses come to the front in turn |
| CdCaches.CDCache.EnterUpTo | src/cd_cache.cpp:139-147 | the loop over the batch equals its recursive account in both indexes and in the replacement order |
| StoreRuns.EnteredAs | src/cd_cache.cpp:139-143 | a fresh fingerprint is entered with the new line and the raw fingerprint of the last fresh block that has it |
| CdCaches.CDCache.EntryIsOfWrite | src/cd_cache.cpp:139-143 | after whatever requests, an index entry has the raw fingerprint of the last write with its compressed fingerprint among those its line was flushed from |
| CdCaches.CDCache.LineIsOfWrites | src/ssd_proxy.cpp:24-47 | after whatever requests, block i of a line has the raw fingerprint and raw length of the i-th write the line was flushed from |
| Provenances.OneMoreLine | src/cd_cache.cpp:129-147 | a flush enters its batch so in the index and the new line, and leaves the older ones |
| Provenances.FewerLines | src/cd_cache.cpp:52-82 | evicting a line without referrers keeps all that |
| CdCaches.CDCache.PrepareBatch | src/cd_cache.cpp:121-127 | the emptied batch keeps its writes, carries the detector's answers, is compressed under its own fingerprints, expands back where flagged, and is small enough for one line |
| CdCaches.CDCache.FlushBatch | src/cd_cache.cpp:121-147 | with the estimated pages free: one flush of exactly the buffered blocks, after which the new line is the youngest and not used; fails exactly if its pages exceed the free ones, which means that the estimate does not cover the longest line |
| CdCaches.CDCache.StoreBatch | src/cd_cache.cpp:129-147 | exact success condition; then the cache is valid again, with its detector, its room and its counts, and the batch is the last flush of its run |
| CdCaches.CDCache.PlaceBatch | src/cd_cache.cpp:129-147 | the new line is on the device and in the indexes, nobody refers to it, and its pages are what the free ones lost |
| CdCaches.CDCache.FlushBuffer | src/cd_cache.cpp:104-154 | evictions of lines without referrers only, then one flush of exactly the buffered blocks; fails exactly if the device is smaller than the estimate or the line exceeds the free pages, and the latter only where the estimate does not cover n blocks that do not compress; the replacement order goes through these evictions, the new line and the uses of its duplicates, and an unused youngest line is the only one replaced |
| CdCaches.CDCache.Write | src/cd_cache.cpp:91-102 | the write is accounted for; a flush happens exactly when the buffer becomes full, and takes exactly as many blocks as configured; if the youngest line was not used since its flush, it alone makes room for the new one |
| CdCaches.CDCache.Read | src/cd_cache.cpp:194-224 | hits exactly if the address is buffered or its latest flushed fingerprint is cached; a buffered read returns the latest write; a cached read promotes the owning line and nothing else; a miss is a write |
| LineOrders.OrderIsByRank | src/include/cache_policy.h:51-74 | the replacement order lists the live lines, the used ones by their latest use and behind them the unused ones by age, whatever befell them |
| LineOrders.YoungestIsLast | src/cd_cache.cpp:135-147 | as long as the youngest line was not used it is at the very end |
| LineOrders.AfterFlush | src/cd_cache.cpp:135-147 | a flush adds its line at the end and brings the lines its duplicates refer to to the front, in turn |
| LineOrders.UsesAreRanked | src/cd_cache.cpp:139-147 | after a flush the lines its duplicates use stand in front of all others, the one used last first |
| CdCaches.YoungestIsVictim | src/index/cacheline_index.cpp:8-26 | a youngest line that was not used, and that nobody refers to, is the victim |
| CdCaches.CDCache.Lookup | src/cd_cache.cpp:196-221 | the lookup tells buffered, cached and missing apart, and finds a live line for a cached fingerprint |
| CdCaches.CDCache.FindsLatest | src/cd_cache.cpp:194-224 | an address is found exactly if the latest write to it is in the buffer or its compressed fingerprint is cached |
| CdCaches.CDCache.Promote | src/cd_cache.cpp:218-221 | the assertion that the line of a hit is in the index cannot fail; only the order changes |
| CdCaches.CDCache.LatestIsCached | src/cd_cache.cpp:194-224 | whatever happened before, a cached lookup leads to a line readable from the device that stores the compressed bytes of the latest write; expanded, if they can be, they are its raw data |
| CdCaches.CDCache.OnDeviceIs | src/ssd_proxy.cpp:139-160 | every live line can be read back from its pages |
| CdCaches.CDCache.PagesAreConserved | src/page_manager.cpp:3-36 | free pages and pages of live lines are disjoint, without repetition and together all pages, and the counter is the number of free ones |
| CdCaches.CDCache.CachedIsReported | src/cd_cache.cpp:158-164 | the detector flags every raw block whose fingerprint is cached |
| CdCaches.CDCache.FewReferrersSucceed | src/ssd_proxy.cpp:321-402 | evicting any line with at most one live referrer more than there are free pages would succeed |
| CdCaches.CDCache.ZeroEstimateFillsUp | src/cd_cache.cpp:110-119 | with an estimate of zero no line is ever evicted, and there are never more flushes than pages |
| FlushSteps.CompressedBatch | src/compression/main_compressor.cpp:15-22 | a compressed batch holds small blocks under their own fingerprints that give back what they stand for |
| FlushSteps.BatchIsParsed | src/compression/main_compressor.cpp:15-22 | each block is stored as the packed pairs of its one parse, behind the blocks in front of it and under its own flag |
| FlushSteps.BatchIsGood | src/cd_cache.cpp:121-131 | such a batch fits one line, and equal fingerprints in it mean equal bytes |
| FlushSteps.LatestWrite | src/data_block_buffer.cpp:3-22 | last writer wins: the latest write is the buffered one, else the flushed one |
| FlushSteps.FatesEvict | src/cd_cache.cpp:60-81 | the fates `evictOne` records are those an eviction demands |
| FlushSteps.RemovalEvicts | src/cd_cache.cpp:31-86 | what a removal reports, recorded in the indexes, is an `EvictStep` |
| FlushSteps.IdleEviction | src/ssd_proxy.cpp:220-228 | evicting a line without referrers leaves all other lines as they are and forgets exactly the fingerprints that led to it |
| FlushSteps.ReferredIs | src/index/cacheline_index.cpp:53-62 | after the pass over a batch a line has the new referrer exactly if the batch uses it, and nothing else changed |
| FlushSteps.RecordingFlushes | src/cd_cache.cpp:135-147 | what the loop over a batch records is a `FlushStep` |
| FlushSteps.EvictKeepsSmall | src/ssd_proxy.cpp:343-393 | evictions move blocks and make none longer |
| FlushEstimates.EstimateIsFloor | src/cd_cache.cpp:110-112 | the estimated pages hold at most one and a half batches with their metadata, and one page more would hold more |
| FlushEstimates.EnoughPages | src/cd_cache.cpp:112-119 | a number of pages reaches the estimate exactly if one and a half batches with their metadata are less than one page more |
| FlushEstimates.EstimateIsExact | src/cd_cache.cpp:110-132 | every data a line can hold fits the estimated pages exactly if n blocks of the greatest stored length do |
| FlushEstimates.EstimateSuffices | src/cd_cache.cpp:110-132 | whole bytes and 3R + 4M >= 8P, for raw bytes R, metadata M and page size P, are enough for that |
| FlushEstimates.GuardsDiffer | src/cd_cache.cpp:110-112 | neither is needed: an estimate of one page can be too small, and blocks of 4095 bytes can be covered |
| FlushEstimates.TinyBatchesAreNotCovered | src/cd_cache.cpp:110-112 | the estimate is zero exactly for batches smaller than two thirds of a page, and then too small for every line |
| WorstCases.WorstIsStored | src/compression/lz77_comperssor.cpp:117-145 | for every configuration there is a batch no block of which compresses, under any flags: the bound on stored bytes is reached |
| WorstCases.GuardIsExact | src/cd_cache.cpp:110-132 | what the compressor makes of any batch fits the estimate exactly if the configuration meets that guard |
| DataBlockBuffers.DataBlockBuffer.WriteLogicalBlock | src/data_block_buffer.cpp:3-6 | appends the block and keeps the index at the last block of each address |
| DataBlockBuffers.DataBlockBuffer.TryReadLogicalDataBlock | src/data_block_buffer.cpp:8-14 | returns the raw bytes of the last buffered write to the address, or none |
| DataBlockBuffers.DataBlockBuffer.PopAll | src/data_block_buffer.cpp:16-22 | gives up all blocks in order and forgets the index with them |
| CachelineIndexes.CachelineIndex.FetchOldestCacheline | src/index/cacheline_index.cpp:8-26 | picks a live line with fewest referrers, the furthest back of them, and fails exactly if all have a million or more |
| CachelineIndexes.CachelineIndex.Remove | src/index/cacheline_index.cpp:28-31 | takes the line out of the index and the order |
| CachelineIndexes.CachelineIndex.Query | src/index/cacheline_index.cpp:33-44 | returns the entry, and promotes only on request |
| CachelineIndexes.CachelineIndex.Insert | src/index/cacheline_index.cpp:45-51 | a known line keeps its place, a new one goes to the back, unless promoted |
| CachelineIndexes.CachelineIndex.AddRefToCacheline | src/index/cacheline_index.cpp:53-62 | adds the referrer and promotes regardless of the flag; an unknown line is left alone |
| CachePolicies.LRUPolicy.Oldests | src/include/cache_policy.h:40-49 | the whole order from the back, whatever number was asked for |
| CachePolicies.LRUPolicy.Promote | src/include/cache_policy.h:51-60 | brings a known key to the front, keeps the order of the others and the map of positions |
| CachePolicies.LRUPolicy.Evict | src/include/cache_policy.h:61-67 | takes the key out and keeps the order of the others |
| CachePolicies.LRUPolicy.Insert | src/include/cache_policy.h:68-74 | puts an unknown key at the back |
| CachePolicies.WithoutAt | src/include/cache_policy.h:56 | unlinking the node of a key removes that key and joins the rest |
| CachePolicies.LinkedWithout | src/include/cache_policy.h:61-67 | unlinking keeps list and map in agreement |
| DedupCaches.DedupCache.Read | src/baseline_cache.cpp:55-71 | hits exactly when an ideal LRU cache with the same history does; the first assertion cannot fail |
| DedupCaches.DedupCache.Write | src/baseline_cache.cpp:73-111 | keeps the cache equal to the ideal LRU cache |
| DedupCaches.DedupCache.Put | src/baseline_cache.cpp:81-110 | the kept keys are the recency order cut to the capacity; keys and addresses stay one to one |
| DedupCaches.DedupCache.EvictOne | src/baseline_cache.cpp:93-97 | drops the least recent key with its address; the second assertion cannot fail |
| DedupCaches.RecencyIsByLastTouch | src/baseline_cache.cpp:55-111 | the recency order lists every touched key once, later touches in front |
| DedupCaches.TouchKept | src/baseline_cache.cpp:83-87 | promoting a kept key is touching it in the cut recency order |
| DedupCaches.TouchNew | src/baseline_cache.cpp:91-106 | making room, inserting and promoting is touching a new key in the cut recency order |
| DedupCaches.KeptIffRecent | src/baseline_cache.cpp:91-106 | a fingerprint is kept exactly if fewer others than the capacity were touched since |
| DedupCaches.ServedIsLru | src/baseline_cache.cpp:55-111 | from the requests alone: each touches its own block, or on a hit what its address had; an address leads to what its latest request touched, and hits exactly if fewer other fingerprints than the capacity were touched since |
| DedupCaches.LruIsUnique | src/baseline_cache.cpp:55-111 | that leaves no choice in what is touched |
| DedupCaches.ServedThenHits | src/baseline_cache.cpp:63-67 | the address of any request hits right after it; a missed block was written back |
| BloomFilters.RemainingIsReported | src/include/deletable_bloom_filter.h:25-52 | no false negatives after any matched run, for any hash functions |
| BloomFilters.QueryIsExact | src/include/deletable_bloom_filter.h:45-52 | after a matched run a value is reported exactly if each of its slots was in use twice at some time or is in use by a remaining value |
| BloomFilters.RunCounts | src/include/deletable_bloom_filter.h:25-43 | after a matched run a slot used twice has collided, and one that never collided is set exactly if it is used |
| BloomFilters.CollidedExactly | src/include/deletable_bloom_filter.h:25-43 | after a matched run a collision bit is set exactly if after some beginning of the run the values then in it used the slot at least twice |
| BloomFilters.MarkedExactly | src/include/deletable_bloom_filter.h:25-34 | an insertion sets the slots it hits; those collide that were set before, or that it hits twice, and no others |
| BloomFilters.RemainingCounts | src/include/deletable_bloom_filter.h:25-43 | after a matched run a value is in as often as it was inserted and not removed |
| BloomFilters.MatchedExactly | src/include/deletable_bloom_filter.h:36-43 | a run matches exactly if no beginning of it removes a value more often than it inserts it |
| BloomFilters.RemovalHides | src/include/deletable_bloom_filter.h:36-43 | after any matched run, for any hash functions: removing any y hides a remaining x exactly if they share a slot that was never in use twice |
| BloomFilters.UnmatchedRemovalLosesAValue | src/include/deletable_bloom_filter.h:36-43 | for any hash functions and any number of slots: removing y, which is not in, hides x exactly if it hits a slot that exactly one function of x hits |
| BloomFilters.OneSlotLosesAValue | src/include/deletable_bloom_filter.h:36-43 | with one slot and one function it always hides it |
| BloomFilters.MatchedBoth | src/include/deletable_bloom_filter.h:25-43 | a run matches exactly if its beginning does and the rest goes on so |
| BloomFilters.CollisionsStay | src/include/deletable_bloom_filter.h:25-43 | neither operation clears a collision bit |
| BloomFilters.DeletableBloomFilter.Insert | src/include/deletable_bloom_filter.h:25-34 | the bits are those of the run with this insertion |
| BloomFilters.DeletableBloomFilter.Remove | src/include/deletable_bloom_filter.h:36-43 | the bits are those of the run with this removal |
| BloomFilters.DeletableBloomFilter.Query | src/include/deletable_bloom_filter.h:45-52 | counting set slots decides whether all are set; a remaining value is found |
| Stores.EvictKeepsInv | src/ssd_proxy.cpp:202-335 | eviction keeps the invariant: well-formed lines, direct references to older owners that know them, an exact index |
| Stores.EvictKeepsMeaning | src/ssd_proxy.cpp:202-405 | eviction leaves every block of every surviving line standing for the same compressed bytes |
| Stores.ExactSurvival | src/cd_cache.cpp:59-82 | eviction forgets exactly the fingerprints the victim stored and nobody used, and sends each used one to its user with the smallest id |
| Stores.HeadIsLeast | src/ssd_proxy.cpp:245-253 | since time stamps are never set, the first user is the one with the smallest id |
| StoreRuns.FlushKeepsInv | src/cd_cache.cpp:104-154 | a flush keeps the invariant |
| StoreRuns.FlushKeepsMeaning | src/cd_cache.cpp:135-147 | a flush changes the meaning of no older block |
| StoreRuns.FlushStoresBatch | src/cd_cache.cpp:126-147 | in its line every flushed block stands for its own compressed bytes, stored or not |
| StoreRuns.RunIsGood | src/cd_cache.cpp:104-154 | every reachable state satisfies the invariant and stores bytes only under their own fingerprint |
| StoreRuns.IndexIsExact | src/cd_cache.cpp:139-143 | in every reachable state the index sends a fingerprint to a line exactly if that line is live and stores it |
| StoreRuns.ReferencesAreDirect | src/ssd_proxy.cpp:264-273 | in every reachable state a reference leads straight to an older live owner that lists the referrer |
| StoreRuns.LiveThroughout | src/cd_cache.cpp:11-15 | ids are not used twice: an old id that is live has been live all along |
| StoreRuns.RunKeepsMeaning | src/cd_cache.cpp:31-154 | over any run a block of a line that is still there stands for the same bytes |
| StoreRuns.FlushedForGood | src/cd_cache.cpp:31-154 | from its flush until its line is evicted a block stands for its own compressed bytes |
| EvictionPlans.PlanRewrites | src/ssd_proxy.cpp:295-308 | the commands an eviction makes are ones the line can take |
| EvictionPlans.PlanEvicts | src/ssd_proxy.cpp:343-393 | carrying out a complete command list, in whatever order it was made, evicts the victim from the line |
| EvictionPlans.PlanBytes | src/ssd_proxy.cpp:295-300 | the bytes appended to a line are those of the fingerprints it is first user of |
| EvictionPlans.Untouched | src/ssd_proxy.cpp:320-334 | a line that uses nothing of the victim needs no rewriting |
| EvictionPlans.GrowthBound | src/ssd_proxy.cpp:375-402 | moving blocks costs the survivors at most whole pages for each block |
| Evictions.CollectStored | src/ssd_proxy.cpp:210-218 | the table knows exactly the stored fingerprints, at a position that stores them, and every fingerprint starts as not moved |
| Evictions.AddUser | src/ssd_proxy.cpp:264-273 | one line is entered under exactly the fingerprints it uses of the victim; the assertion cannot fail |
| Evictions.BuildRefTable | src/ssd_proxy.cpp:258-274 | the table lists exactly the users of each fingerprint |
| Evictions.PickHead | src/ssd_proxy.cpp:289-290 | the first of the ordered set is its least element by time stamp and id |
| Evictions.DispatchOne | src/ssd_proxy.cpp:289-309 | one fingerprint: its first user gets the bytes and the other users as referrers, they are sent to it |
| Evictions.BuildCommands | src/ssd_proxy.cpp:276-310 | the command lists serve every used fingerprint once, in any order |
| Evictions.ModifyCacheline | src/ssd_proxy.cpp:343-405 | rewrites one line on the device and disturbs no other; exact success condition |
| Evictions.RewriteUser | src/ssd_proxy.cpp:321-334 | one rewrite succeeds exactly if the line's growth fits the free pages |
| Evictions.ApplyCommands | src/ssd_proxy.cpp:320-334 | all rewrites succeed exactly if the total growth fits the free pages, in any order |
| Evictions.RemoveCacheline | src/ssd_proxy.cpp:202-335 | removes the victim from the device, with the rewritten lines, their new pages and the fate of every fingerprint; exact success condition and exact number of free pages afterwards |
| PageOwnership.ShareReleased | src/page_manager.cpp:12-18 | giving back a line's pages keeps the partition of all pages |
| PageOwnership.ShareTaken | src/page_manager.cpp:3-11 | putting a line on free pages keeps the partition of all pages |
| PageOwnership.OthersHeld | src/ssd_proxy.cpp:69-91 | writing to free pages or a line's own leaves all other lines in place |
| PageOwnership.LinesFit | src/page_manager.cpp:3-36 | lines and free pages together are no more than all pages |
| PageManagers.StackedDiscretePageManager.constructor | src/include/page_manager.h:30-33 | all pages are free and come in ascending order |
| PageManagers.StackedDiscretePageManager.AllocateOne | src/page_manager.cpp:20-34 | takes the next page of the range, or the one reclaimed last when the range is used up; fails exactly if none is free |
| PageManagers.StackedDiscretePageManager.Allocate | src/page_manager.cpp:3-11 | all or nothing: the next pages in that order exactly if enough are free; its assertion cannot fail |
| PageManagers.StackedDiscretePageManager.Reclaim | src/page_manager.cpp:12-18 | the page is free again, and comes first after the range |
| PageManagers.StackedDiscretePageManager.FreeCount | src/page_manager.cpp:36 | without double frees the counter is the number of free pages |
| Devices.MemBlockDevice.Write | src/device.cpp:174-181 | overwrites exactly the addressed bytes, cut off at the end |
| Devices.MemBlockDevice.Read | src/device.cpp:183-189 | returns exactly the addressed bytes, cut off at the end |
| Devices.SSDProxy.constructor | src/ssd_proxy.cpp:94-99 | the device is divided into whole pages of 512 bytes times the granularity, all of them free |
| Devices.SSDProxy.WriteAllocatedPage | src/ssd_proxy.cpp:101-107 | sector by sector the page becomes the data and no other page changes |
| Devices.SSDProxy.ReadAllocatedPage | src/ssd_proxy.cpp:109-119 | returns the page |
| Devices.SSDProxy.WriteCacheline | src/ssd_proxy.cpp:69-91 | the line is on the next free pages, no other page changed; fails exactly if too few pages are free, and then changes nothing |
| Devices.SSDProxy.ReadCacheline | src/ssd_proxy.cpp:139-160 | parses the pages in their order |
| Devices.SSDProxy.ReadStored | src/ssd_proxy.cpp:139-160 | a stored line is read back unchanged |
| Devices.SSDProxy.ReclaimAll | src/ssd_proxy.cpp:233-235 | exactly the given pages become free, in their order; the allocator's assertions cannot fail |
| Pages.PaddedLength | src/ssd_proxy.cpp:73-76 | padding fills the last page and no more |
| Pages.PagesForLeast | src/ssd_proxy.cpp:77 | the number of pages is the least that holds the bytes |
| Pages.NoPageMore | src/ssd_proxy.cpp:97 | the pages counted on a device are all the whole ones |
| Pages.ByteOnDevice | src/ssd_proxy.cpp:69-91 | every byte of a line, and every zero behind it, is where its page and offset say |
| Pages.StorageRoundTrip | src/ssd_proxy.cpp:69-160 | a well-formed line reads back as itself after any writes to other pages |
| Cachelines.FromDataBlocks | src/ssd_proxy.cpp:21-61 | the loop builds the line of the batch: `StoreRuns.FlushedEntry` and `LineFormats.LineFormat` say which |
| Cachelines.FillSpaces | src/ssd_proxy.cpp:48-53 | unused layout slots are marked and come last |
| StoreRuns.FlushedEntry | src/ssd_proxy.cpp:24-47 | every block is recorded with its own two fingerprints and raw length, and either with the id of the line it refers to or with the slot that holds its bytes; the other field is all ones |
| CachelineLaws.FreshLineWellFormed | src/ssd_proxy.cpp:21-61 | the line of a batch is well formed and each fresh block's slot holds its bytes |
| CachelineLaws.FreeSlot | src/ssd_proxy.cpp:355-356 | a line with a reference left has a free slot, right behind the used ones |
| CachelineLaws.AppendKeeps | src/ssd_proxy.cpp:374-391 | appending keeps the line well formed |
| CachelineLaws.RedirectKeeps | src/ssd_proxy.cpp:368-372 | redirecting keeps the line well formed |
| CachelineLaws.RewriteKeeps | src/ssd_proxy.cpp:343-393 | any command list an eviction builds keeps the line well formed, says what became of each block, and grows it by the appended bytes |
| CachelineUpdates.GroupByFp | src/ssd_proxy.cpp:347-353 | lists the positions of every fingerprint in order |
| CachelineUpdates.Redirect | src/ssd_proxy.cpp:368-372 | exactly the blocks of the fingerprint refer to the new line |
| CachelineUpdates.AppendInto | src/ssd_proxy.cpp:374-391 | the first block of the fingerprint becomes stored, the others local |
| CachelineUpdates.UpdateLine | src/ssd_proxy.cpp:343-393 | the loop with its running slot equals the commands one by one |
| CachelineCodec.Serialize | src/ssd_proxy.cpp:445-460 | writes the line's bytes, or fails exactly on a wrong block count or length |
| CachelineCodec.Serializable | src/ssd_proxy.cpp:445-460 | for a well-formed line neither assertion fails, and the length is metadata plus data |
| CachelineCodec.Deserialize | src/ssd_proxy.cpp:414-443 | the loop parses header, entries, layout and data up to the first unused slot |
| CachelineCodec.LineBack | src/ssd_proxy.cpp:414-460 | a well-formed line reads back as itself, whatever bytes follow |
| LineFormats.LineFormat | src/ssd_proxy.cpp:445-460 | the byte position of everything: the header with the lengths of the parts, 40 bytes a block, 8 bytes a slot with where its bytes are, then the data; all numbers little-endian |
| LineFormats.ReadingFails | src/ssd_proxy.cpp:414-424 | parsing fails exactly if byte 16 is not the configured number of blocks |
| Lz77Compressor.LookupTable.Insert | src/include/lz77_compressor.h:38-41 | notes the hash of the position and appends it to its bucket |
| Lz77Compressor.LookupTable.Clear | src/include/lz77_compressor.h:49-51 | empties all buckets |
| Lz77Compressor.InitCompressor | src/compression/lz77_comperssor.cpp:56-62 | the buckets list exactly the positions of each hash, ascending, whatever they held before |
| Lz77Compressor.ScanBucket | src/compression/lz77_comperssor.cpp:73-94 | going through the bucket with its cut-offs finds what searching all positions finds |
| Lz77Compressor.FindLongestMatch | src/compression/lz77_comperssor.cpp:64-96 | the table search equals the search without a table, also on the early exits |
| Lz77Compressor.GetOneMatch | src/compression/lz77_comperssor.cpp:98-115 | the lazy loop terminates and equals its recursive form |
| Lz77Compressor.CompressStep | src/compression/lz77_comperssor.cpp:119-143 | one round writes the pairs of one step and stays inside the array |
| Lz77Compressor.CompressOneDataBlock | src/compression/lz77_comperssor.cpp:117-145 | the array holds the block's pairs and is long enough |
| Lz77Compressor.BuildDataBlockSlices | src/compression/lz77_comperssor.cpp:147-160 | slices cover the batch data block by block |
| Lz77Compressor.CompressDataBlocks | src/compression/lz77_comperssor.cpp:164-188 | stores for each block what the specification says exactly if its bits fit the encoder's 32-bit offset; the encoder's assertion cannot fail |
| Lz77Compressor.FewBits | src/compression/pair_serializer.cpp:12-24 | they do for every block of fewer than 2^32 / 9 bytes |
| Lz77Compressor.CopyBytes | src/compression/main_compressor.cpp:42-44 | the byte-wise copy, reading from its own output where it overlaps |
| Lz77Compressor.Lz77DecompressByteArray | src/compression/main_compressor.cpp:33-48 | the decoder, failing exactly on a distance before the start |
| Lz77Spec.CopyIsPeriodic | src/compression/main_compressor.cpp:42-44 | an overlapping copy repeats the bytes one distance before |
| Lz77Spec.PairDecompresses | src/compression/main_compressor.cpp:35-46 | what a literal, a match and an unused slot do to the output, and when a match fails |
| Lz77Spec.LongestMatchAgrees | src/compression/lz77_comperssor.cpp:64-96 | every match found is one: within its block, of allowed length and distance, with equal bytes |
| Lz77Spec.LongestMatchIsBest | src/compression/lz77_comperssor.cpp:64-96 | of the candidates the cut-offs leave it is the nearest of the longest, and there is none exactly if none of them is three bytes long |
| Lz77Spec.LazyMatchAgrees | src/compression/lz77_comperssor.cpp:98-115 | so is the lazily chosen one |
| Lz77Spec.LazyMatchIsLazy | src/compression/lz77_comperssor.cpp:98-115 | lazy matching goes on exactly while the next position gives a longer match of fewer than 32 bytes, and ends with the best match where it stops |
| Lz77Spec.HashesAgree | src/compression/lz77_comperssor.cpp:49-54 | positions are candidates of each other exactly if three bytes agree in their low five bits |
| Lz77Spec.MatchLengthIsGreatest | src/compression/lz77_comperssor.cpp:80-87 | a match is extended until the block ends, a byte differs, or 253 bytes agree |
| Lz77Parses.LimitIsReach | src/compression/lz77_comperssor.cpp:123 | the limit keeps a flagged block within itself, and excludes nothing for any other |
| Lz77Parses.StepIsRound | src/compression/lz77_comperssor.cpp:117-145 | one round, by what it must choose: a literal without a match, else literals up to the lazily chosen best match, and that match |
| Lz77Parses.RoundIsUnique | src/compression/lz77_comperssor.cpp:117-145 | that leaves no choice |
| Lz77Parses.BlockIsParsed | src/compression/lz77_comperssor.cpp:117-145 | the pairs of a block are those of such rounds from its first byte to its last |
| Lz77Parses.ParseIsUnique | src/compression/lz77_comperssor.cpp:117-145 | a block can be parsed in one way only |
| Lz77Parses.StoredIsParsed | src/compression/lz77_comperssor.cpp:164-188 | a block of a batch is stored as the packed pairs of its parse, where it stands in the batch data |
| Lz77Spec.OneStep | src/compression/lz77_comperssor.cpp:119-143 | each round moves on, needs no more pairs than bytes, and makes only pairs the encoder takes |
| Lz77Spec.BlockPairs | src/compression/lz77_comperssor.cpp:117-145 | a block needs at most one pair per byte, each of them encodable |
| Lz77Spec.BlockRoundTrip | src/compression/lz77_comperssor.cpp:117-145 | a block's pairs restore it behind what precedes it; a duplicate-flagged block's also on their own |
| Lz77Spec.ContextIndependence | src/compression/lz77_comperssor.cpp:56-145 | two duplicate-flagged blocks with equal bytes have equal pairs, wherever they stand |
| Lz77Spec.BlockBits | src/compression/pair_serializer.cpp:12-23 | a block needs at most nine bits per byte |
| Lz77Compressor.BatchRoundTrip | src/compression/main_compressor.cpp:33-48 | the pair lists of a batch decompress to its raw data |
| Lz77Compressor.DuplicateBlockAlone | src/compression/main_compressor.cpp:33-48 | what is stored for a duplicate-flagged block decodes and decompresses to it on its own |
| Lz77Compressor.DuplicatesCompressAlike | src/compression/lz77_comperssor.cpp:117-145 | among duplicate-flagged blocks of any batches, equal stored bytes mean equal raw bytes and the other way round |
| Lz77Compressor.CompressedSize | src/compression/pair_serializer.cpp:12-25 | L bytes are stored in at most ceil(9L / 8) |
| Lz77Dedup.DecompressBehind | src/compression/main_compressor.cpp:33-48 | bytes in front do not disturb a decompression that does without them |
| Lz77Dedup.ExpandsToBlock | src/compression/main_compressor.cpp:33-48 | stored bytes that expand on their own expand to their block, flagged or not |
| Lz77Dedup.StoredBytesDetermineBlock | src/cd_cache.cpp:167-183 | where stored bytes expand on their own, equal stored bytes mean equal raw bytes across all batches |
| Lz77Dedup.RepeatIsOnePair | src/compression/lz77_comperssor.cpp:117-145 | an unflagged repetition of a three-byte block is stored as one pair, whatever the bytes |
| Lz77Dedup.UnflaggedBlocksCollide | src/cd_cache.cpp:167-183 | two different blocks that are stored as the same bytes |
| Lz77Dedup.DedupIsRightIffFlagged | src/cd_cache.cpp:167-183 | for two duplicate flags: equal stored bytes always mean equal raw bytes exactly if one of the flags is set |
| Bitstream.Mask | third/bitstream.h:101-109 | sets exactly the given bits, counted from the left |
| Bitstream.BitstreamWriter.constructor | third/bitstream.h:189-192 | clears the buffer |
| Bitstream.BitstreamWriter.Put | third/bitstream.h:196-227 | appends exactly the field, at every offset in a byte, and clears nothing |
| Bitstream.BitstreamReader.Get | third/bitstream.h:125-158 | returns the number the next bits spell, at every offset in a byte |
| PairSerializer.PutPair | src/compression/pair_serializer.cpp:12-23 | appends the 9 or 25 bits of a pair |
| PairSerializer.EncodeLz77 | src/compression/pair_serializer.cpp:9-26 | fails exactly on a pair the assertion refuses; returns as many bytes as the bits modulo 2^32 fill, and the packed bits of all valid pairs exactly if these are fewer than 2^32 |
| PairSerializer.Accepts | src/compression/pair_serializer.cpp:14-16 | the pairs the assertion lets pass, by their numbers |
| PairSerializer.ValidPairsOfBoth | src/compression/pair_serializer.cpp:14 | unused slots, and only they, are skipped; the others stay in order |
| PairSerializer.GetPair | src/compression/pair_serializer.cpp:33-42 | reads one pair, or fails exactly on a cut-off distance |
| PairSerializer.DecodeLz77 | src/compression/pair_serializer.cpp:28-45 | reads pairs while nine of the bits counted in 32 bits are left |
| PairSerializer.EncodingIsUnique | src/compression/pair_serializer.cpp:9-26 | the encoding fixes every bit |
| PairSerializer.PackedEncodes | src/compression/pair_serializer.cpp:24-25 | the bits, padded with fewer than eight zeros |
| PairSerializer.EncodeDecode | src/compression/pair_serializer.cpp:9-45 | decoding an encoding gives back the valid pairs; the padding is never read as a pair |
| PairSerializer.CutOffFails | src/compression/pair_serializer.cpp:32-38 | encoded pairs with fewer than nine bits behind them decode to these pairs; a match that is cut off behind them fails |
| PairSerializer.LiteralBytes | src/compression/pair_serializer.cpp:18-19 | a literal alone is its byte and a zero byte |
| PairSerializer.MatchBytes | src/compression/pair_serializer.cpp:17-22 | a match alone is four bytes: the length less one, then the flag and the sixteen bits of the distance from the left |
| PairSerializer.CodecRoundTrip | src/compression/pair_serializer.cpp:9-45 | with 32-bit counts on both sides the valid pairs come back exactly if their bits are at most 2^32 - 8 |

## Left out

- CdCaches.CDCache.EvictOne: after a failed rewrite nothing is promised; the source would go on with a line that has
  no pages. No flush gets there.
- CdCaches.CDCache.LatestIsCached: speaks of compressed bytes where a block was not flagged and leans on its batch;
  the source does not decompress on reads.
- CdCaches.CDCache.constructor: with more than 255 blocks in a batch, or blocks or batches too large for 32 bits, a
  cache can be made but is not promised to be valid; the header could not hold the count, and the first flush would
  fail an assertion.
- CdCaches.CDCache.Write: blocks larger than configured are excluded, which would overrun the hash list; so are
  flushes of fewer than two raw bytes, for which `size - 2` in `_initCompressor` wraps around.
- CdCaches.CDCache.Read: on a miss the same blocks and flushes are excluded as for a write.
- CdCaches.CDCache.MakeRoom: the estimate is exact rational arithmetic rounded down; the source multiplies and divides
  doubles, which agrees while the sizes are far below 2^53.
- Lz77Compressor.CompressDataBlocks: positions are unbounded; the source's `int` holds for batches below 2 GB, and
  overflow beyond is undefined.
- DedupCaches.DedupCache.Write: addresses are unbounded; the source's 64-bit counter would wrap around.
- Devices.MemBlockDevice.Write: the device starts out zeroed instead of with arbitrary bytes; nothing is read before
  it is written.
- `std::list` iterators are modelled as handles that stay valid while other nodes come and go.
- `raw_len` is taken to be the length of the raw data, as the constructors of `DataBlock` with data set it.
- XXH64 is an arbitrary function; raw fingerprints come with the blocks.
- Struct layout is a fixed-width little-endian field codec with zero padding.
- The LZ77 thread pool, Huffman and LZ4 stubs, `createSlice`, `CMSketch`, `MapCounter` and `SetDetector` are not on
  the modelled path.
- File devices, system calls, trace parsing, configuration files, logging and statistics.
- `BaselineCache` adds little beyond `DedupCache`; `AdaptedBaselineCache` drops fingerprints from the policy while
  copies remain, so it is not an LRU cache.
- `DataBlockBuffer::clear`, which leaves its index stale, and the replacement policies that are commented out.
- The decompression path of `CDCache::read` that is commented out.
