/** Lines on a paged device: `MemBlockDevice` (src/device.cpp:174-190) and the reading and writing half of
    `SSDProxy` (src/ssd_proxy.cpp:69-160). */
module Devices {
  import opened Wrappers
  import opened Bits
  import opened Cachelines
  import opened CachelineCodec
  import opened PageManagers
  import opened Pages

  const SECTOR := 512

  class MemBlockDevice {
    const buffer: array<Byte>

    constructor (size: nat)
      ensures buffer.Length == size && fresh(buffer)
    {
      buffer := new Byte[size](_ => 0);
    }

    /** Copies sectors in; what runs over the end is cut off. */
    method Write(addr: nat, data: seq<Byte>) returns (len: nat)
      requires addr % SECTOR == 0 && |data| % SECTOR == 0 && addr <= buffer.Length
      modifies buffer
      ensures len == if addr + |data| > buffer.Length then buffer.Length - addr else |data|
      ensures buffer[..] == old(buffer[..])[..addr] + data[..len] + old(buffer[..])[addr + len..]
    {
      len := |data|;
      if addr + len > buffer.Length { len := len - (addr + len - buffer.Length); }
      forall i | 0 <= i < len { buffer[addr + i] := data[i]; }
    }

    method Read(addr: nat, want: nat) returns (data: seq<Byte>)
      requires addr % SECTOR == 0 && want % SECTOR == 0 && addr <= buffer.Length
      ensures data == buffer[..][addr..if addr + want > buffer.Length then buffer.Length else addr + want]
    {
      var len := want;
      if addr + len > buffer.Length { len := len - (addr + len - buffer.Length); }
      data := buffer[addr..addr + len];
    }
  }

  /** Sector `i` of page `p`, in bytes. */
  lemma {:induction false} SectorAddress(p: nat, g: nat, i: nat)
    ensures (p * g + i) * SECTOR == p * (SECTOR * g) + SECTOR * i
  {
  }

  class SSDProxy {
    const device: MemBlockDevice
    const manager: StackedDiscretePageManager
    const granularity: nat
    const PG: nat
    const blockCount: nat

    ghost predicate Valid()
      reads manager
    {
      && granularity > 0 && PG == SECTOR * granularity && blockCount < 256
      && manager.Valid() && Distinct(manager.recycled)
      && manager.size == PageCount(device.buffer.Length, PG)
    }

    function Disk(): (disk: seq<Byte>)
      reads device.buffer
      ensures |disk| == device.buffer.Length
    {
      device.buffer[..]
    }

    /** The pages hold the line. */
    ghost predicate Stores(pages: seq<nat>, line: Cacheline)
      reads device.buffer
    {
      Holds(Disk(), PG, pages, line)
    }

    constructor (size: nat, granularity: nat, blockCount: nat)
      requires granularity > 0
      ensures blockCount < 256 ==> Valid()
      ensures this.blockCount == blockCount && PG == 512 * granularity
      ensures manager.size == PageCount(size, PG) && manager.Free() == Interval(0, manager.size)
      ensures manager.freeBlocks == manager.size && manager.Upcoming() == Ascending(0, manager.size)
      ensures fresh(manager) && fresh(device.buffer)
    {
      this.granularity, this.blockCount := granularity, blockCount;
      PG := SECTOR * granularity;
      var d := new MemBlockDevice(size);
      var m := new StackedDiscretePageManager(PageCount(d.buffer.Length, SECTOR * granularity));
      device, manager := d, m;
    }

    /** The `i`-th sector of a page at byte `base`; the write is complete. */
    method WriteSector(address: nat, data: seq<Byte>, i: nat, ghost before: seq<Byte>, ghost base: nat)
      requires PG == SECTOR * granularity && SECTOR * i + SECTOR <= |data|
      requires base == address * PG && base + |data| <= |before| == device.buffer.Length
      requires Disk() == before[..base] + data[..SECTOR * i] + before[base + SECTOR * i..]
      modifies device.buffer
      ensures Disk() == before[..base] + data[..SECTOR * (i + 1)] + before[base + SECTOR * (i + 1)..]
    {
      SectorAddress(address, granularity, i);
      ghost var now := Disk();
      var addr := (address * granularity + i) * SECTOR;
      assert addr == base + SECTOR * i;
      var sector := data[SECTOR * i..SECTOR * i + SECTOR];
      var n := device.Write(addr, sector);
      SectorWritten(before, now, Disk(), base, data, i);
    }

    /** Writes one page, sector by sector. */
    method WriteAllocatedPage(address: nat, data: seq<Byte>)
      requires granularity > 0 && PG == SECTOR * granularity && |data| == PG
      requires OnDevice(device.buffer.Length, PG, address)
      modifies device.buffer
      ensures PageOf(Disk(), PG, address) == data
      ensures forall q: nat | q != address && OnDevice(device.buffer.Length, PG, q) ::
                PageOf(Disk(), PG, q) == PageOf(old(Disk()), PG, q)
    {
      hide PageOf;
      ghost var before, base := Disk(), address * PG;
      var i := 0;
      while i < granularity
        invariant 0 <= i <= granularity
        invariant Disk() == before[..base] + data[..SECTOR * i] + before[base + SECTOR * i..]
      {
        WriteSector(address, data, i, before, base);
        i := i + 1;
      }
      assert data[..SECTOR * i] == data;
      WritePage(before, Disk(), PG, address, data);
    }

    method ReadAllocatedPage(address: nat) returns (data: seq<Byte>)
      requires granularity > 0 && PG == SECTOR * granularity
      requires OnDevice(device.buffer.Length, PG, address)
      ensures data == PageOf(Disk(), PG, address)
    {
      data := [];
      ghost var base := address * PG;
      var i := 0;
      while i < granularity
        invariant 0 <= i <= granularity && SECTOR * i <= PG
        invariant data == Disk()[base..base + SECTOR * i]
      {
        SectorAddress(address, granularity, i);
        var sector := device.Read((address * granularity + i) * SECTOR, SECTOR);
        assert |sector| == SECTOR;
        data := data + sector;
        i := i + 1;
      }
    }

    /** Puts the line on fresh pages: fails, changing nothing, exactly when too few pages are free. */
    method WriteCacheline(line: Cacheline) returns (ok: bool, pages: seq<nat>)
      requires Valid() && WellLaidOut(line, blockCount)
      modifies manager, device.buffer
      ensures Valid()
      ensures ok == (PagesFor(MetadataLen(blockCount) + Total(line.data), PG) <= old(manager.freeBlocks))
      ensures !ok ==> pages == [] && manager.freeBlocks == old(manager.freeBlocks) &&
                      manager.Free() == old(manager.Free()) && Disk() == old(Disk())
      ensures ok ==> Stores(pages, line) && Distinct(pages) && Elements(pages) <= old(manager.Free())
      ensures ok ==> manager.Free() == old(manager.Free()) - Elements(pages) &&
                     manager.freeBlocks == old(manager.freeBlocks) - |pages|
      ensures ok ==> old(manager.Upcoming()) == pages + manager.Upcoming()
      ensures ok ==> forall q: nat | q !in pages && OnDevice(device.buffer.Length, PG, q) ::
                PageOf(Disk(), PG, q) == PageOf(old(Disk()), PG, q)
    {
      hide LineBytes, WellLaidOut, ReadPages, Total, Padded, PagesFor, PageCount, PageOf, IsChunk, Elements, Distinct;
      Serializable(line, blockCount);
      var s := Serialize(line, blockCount);
      var bytes := Padded(s.value, PG);
      PaddedLength(s.value, PG);
      FullPages(PagesFor(|s.value|, PG), PG);
      ok, pages := manager.Allocate(|bytes| / PG);
      if !ok {
        SameFree();
        return;
      }
      ghost var size := device.buffer.Length;
      forall p | p in pages ensures OnDevice(size, PG, p) {
        PageFits(size, PG, p);
      }
      WriteAll(bytes, pages);
      ReadChunks(Disk(), PG, pages, bytes);
    }

    twostate lemma SameFree()
      requires manager.begin == old(manager.begin) && manager.recycled == old(manager.recycled)
      ensures manager.Free() == old(manager.Free())
    {
    }

    method WriteAll(bytes: seq<Byte>, pages: seq<nat>)
      requires granularity > 0 && PG == SECTOR * granularity && |bytes| == |pages| * PG && Distinct(pages)
      requires AllOnDevice(device.buffer.Length, PG, pages)
      modifies device.buffer
      ensures forall j: nat | j < |pages| :: IsChunk(bytes, PG, j, PageOf(Disk(), PG, pages[j]))
      ensures forall q: nat | q !in pages && OnDevice(device.buffer.Length, PG, q) ::
                PageOf(Disk(), PG, q) == PageOf(old(Disk()), PG, q)
    {
      hide PageOf, OnDevice, IsChunk;
      var i := 0;
      while i < |pages|
        invariant 0 <= i <= |pages|
        invariant forall j: nat | j < i :: IsChunk(bytes, PG, j, PageOf(Disk(), PG, pages[j]))
        invariant forall q: nat | q !in pages && OnDevice(device.buffer.Length, PG, q) ::
                    PageOf(Disk(), PG, q) == PageOf(old(Disk()), PG, q)
      {
        var chunk := ChunkAt(bytes, i, |pages|);
        assert pages[i] in pages;
        WriteAllocatedPage(pages[i], chunk);
        forall j: nat | j < i ensures IsChunk(bytes, PG, j, PageOf(Disk(), PG, pages[j])) {
          assert pages[j] in pages && pages[j] != pages[i];
        }
        i := i + 1;
      }
    }

    method ChunkAt(bytes: seq<Byte>, i: nat, count: nat) returns (chunk: seq<Byte>)
      requires |bytes| == count * PG && i < count
      ensures |chunk| == PG && IsChunk(bytes, PG, i, chunk)
    {
      ChunkFits(bytes, PG, count, i);
      assert i * PG + PG == (i + 1) * PG;
      chunk := bytes[i * PG..i * PG + PG];
    }

    /** Reads the pages and parses them; `None` is a failed assertion. */
    method ReadCacheline(pages: seq<nat>) returns (r: Option<Cacheline>)
      requires granularity > 0 && PG == SECTOR * granularity && pages != []
      requires AllOnDevice(device.buffer.Length, PG, pages)
      ensures r == LineFrom(ReadPages(Disk(), PG, pages), blockCount)
    {
      hide PageOf, OnDevice, LineFrom;
      var s: seq<Byte> := [];
      var i := 0;
      while i < |pages|
        invariant 0 <= i <= |pages| && AllOnDevice(device.buffer.Length, PG, pages[..i])
        invariant s == ReadPages(Disk(), PG, pages[..i])
      {
        assert pages[i] in pages && pages[..i + 1][..i] == pages[..i];
        var page := ReadAllocatedPage(pages[i]);
        s := s + page;
        i := i + 1;
      }
      assert pages[..i] == pages;
      r := Deserialize(s, blockCount);
    }

    /** A stored line is read back unchanged. */
    method ReadStored(pages: seq<nat>, ghost line: Cacheline) returns (r: Cacheline)
      requires granularity > 0 && PG == SECTOR * granularity
      requires WellLaidOut(line, blockCount) && Stores(pages, line)
      ensures r == line
    {
      hide LineBytes, WellLaidOut, ReadPages, LineFrom, PageOf;
      PagesHeld(Disk(), PG, pages, line, blockCount);
      NothingChanged(Disk(), PG, pages);
      StorageRoundTrip(Disk(), Disk(), PG, pages, line, blockCount);
      var read := ReadCacheline(pages);
      r := read.value;
    }

    /** Gives back pages that are in use. */
    method ReclaimAll(pages: seq<nat>)
      requires Valid() && Distinct(pages) && Elements(pages) !! manager.Free()
      requires forall p | p in pages :: p < manager.size
      modifies manager
      ensures Valid() && manager.Free() == old(manager.Free()) + Elements(pages)
      ensures manager.freeBlocks == old(manager.freeBlocks) + |pages|
      ensures manager.recycled == old(manager.recycled) + pages && manager.begin == old(manager.begin)
    {
      hide Distinct, PageCount, Elements, StackedDiscretePageManager.Free, Interval;
      NoPages();
      var i := 0;
      assert pages[..0] == [];
      while i < |pages|
        invariant 0 <= i <= |pages| && Valid()
        invariant manager.Free() == old(manager.Free()) + Elements(pages[..i])
        invariant manager.freeBlocks == old(manager.freeBlocks) + i
        invariant manager.recycled == old(manager.recycled) + pages[..i] && manager.begin == old(manager.begin)
      {
        assert pages[..i + 1] == pages[..i] + [pages[i]];
        OneMorePage(pages[..i], pages[i]);
        DistinctPrefix(pages, i + 1);
        assert pages[i] in Elements(pages) && pages[i] !in Elements(pages[..i]);
        assert pages[i] in pages;
        NotFree(pages[i]);
        manager.Reclaim(pages[i]);
        i := i + 1;
      }
      assert pages[..i] == pages;
    }

    lemma {:induction false} NotFree(p: nat)
      requires manager.Valid() && p < manager.size && p !in manager.Free()
      ensures p < manager.begin
    {
    }
  }

  lemma {:induction false} NothingChanged(disk: seq<Byte>, pg: nat, pages: seq<nat>)
    requires AllOnDevice(|disk|, pg, pages)
    ensures SamePages(disk, disk, pg, pages)
  {
  }

  lemma {:induction false} DistinctPrefix(pages: seq<nat>, k: nat)
    requires Distinct(pages) && k <= |pages|
    ensures Distinct(pages[..k])
  {
  }

  lemma {:induction false} FullPages(k: nat, pg: nat)
    requires pg > 0
    ensures (k * pg) / pg == k
  {
    var q, r := (k * pg) / pg, (k * pg) % pg;
    assert k * pg == q * pg + r;
    if q < k { PagesApart(pg, q, k); }
    if k < q { PagesApart(pg, k, q); }
  }

  /** One more sector of a page is in place. */
  lemma {:induction false} SectorWritten(before: seq<Byte>, now: seq<Byte>, after: seq<Byte>, base: nat,
                                         data: seq<Byte>, i: nat)
    requires base + |data| <= |before| && SECTOR * i + SECTOR <= |data|
    requires now == before[..base] + data[..SECTOR * i] + before[base + SECTOR * i..]
    requires after == now[..base + SECTOR * i] + data[SECTOR * i..SECTOR * i + SECTOR][..SECTOR] +
                      now[base + SECTOR * i + SECTOR..]
    ensures after == before[..base] + data[..SECTOR * (i + 1)] + before[base + SECTOR * (i + 1)..]
  {
    assert SECTOR * (i + 1) == SECTOR * i + SECTOR;
  }
}
