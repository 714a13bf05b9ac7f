/** Pages of a byte device, and lines spread over them. */
module Pages {
  import opened Wrappers
  import opened Bits
  import opened Words
  import opened Cachelines
  import opened CachelineCodec
  import opened PageManagers

  /** Page `p` lies on a device of `size` bytes. */
  predicate OnDevice(size: nat, pg: nat, p: nat) {
    p * pg + pg <= size
  }

  function PageOf(disk: seq<Byte>, pg: nat, p: nat): (r: seq<Byte>)
    requires OnDevice(|disk|, pg, p)
    ensures |r| == pg
  {
    disk[p * pg..p * pg + pg]
  }

  predicate AllOnDevice(size: nat, pg: nat, pages: seq<nat>) {
    forall p | p in pages :: OnDevice(size, pg, p)
  }

  function ReadPages(disk: seq<Byte>, pg: nat, pages: seq<nat>): seq<Byte>
    requires AllOnDevice(|disk|, pg, pages)
  {
    if pages == [] then []
    else
      assert pages[|pages| - 1] in pages;
      ReadPages(disk, pg, pages[..|pages| - 1]) + PageOf(disk, pg, pages[|pages| - 1])
  }

  /** Different pages do not overlap. */
  lemma {:induction false} PagesApart(pg: nat, p: nat, q: nat)
    requires p < q
    ensures p * pg + pg <= q * pg
    decreases q
  {
    if q == p + 1 {
      assert q * pg == p * pg + pg;
    } else {
      PagesApart(pg, p, q - 1);
      assert q * pg == (q - 1) * pg + pg;
    }
  }

  /** How many whole pages a device has. */
  function PageCount(size: nat, pg: nat): nat
    requires pg > 0
  {
    size / pg
  }

  /** They are all the whole pages there are. */
  lemma {:induction false} NoPageMore(size: nat, pg: nat, p: nat)
    requires pg > 0 && p >= PageCount(size, pg)
    ensures !OnDevice(size, pg, p)
  {
    assert size < (size / pg) * pg + pg;
    if p > size / pg { PagesApart(pg, size / pg, p); }
  }

  lemma {:induction false} PageFits(size: nat, pg: nat, p: nat)
    requires pg > 0 && p < PageCount(size, pg)
    ensures OnDevice(size, pg, p)
  {
    assert (size / pg) * pg <= size;
    if p + 1 < size / pg { PagesApart(pg, p + 1, size / pg); }
    assert (p + 1) * pg <= (size / pg) * pg;
    assert p * pg + pg == (p + 1) * pg;
  }

  /** Writing one page changes that page and no other. */
  lemma {:induction false} WritePage(disk: seq<Byte>, disk': seq<Byte>, pg: nat, p: nat, data: seq<Byte>)
    requires OnDevice(|disk|, pg, p) && |data| == pg
    requires disk' == disk[..p * pg] + data + disk[p * pg + pg..]
    ensures |disk'| == |disk| && PageOf(disk', pg, p) == data
    ensures forall q: nat | q != p && OnDevice(|disk|, pg, q) :: PageOf(disk', pg, q) == PageOf(disk, pg, q)
  {
    forall q: nat | q != p && OnDevice(|disk|, pg, q) ensures PageOf(disk', pg, q) == PageOf(disk, pg, q) {
      if q < p { PagesApart(pg, q, p); } else { PagesApart(pg, p, q); }
    }
  }

  ghost predicate SamePages(disk: seq<Byte>, disk': seq<Byte>, pg: nat, pages: seq<nat>)
    requires AllOnDevice(|disk|, pg, pages)
  {
    |disk'| == |disk| && forall p | p in pages :: PageOf(disk', pg, p) == PageOf(disk, pg, p)
  }

  lemma {:induction false} ReadSame(disk: seq<Byte>, disk': seq<Byte>, pg: nat, pages: seq<nat>)
    requires AllOnDevice(|disk|, pg, pages) && SamePages(disk, disk', pg, pages)
    ensures ReadPages(disk', pg, pages) == ReadPages(disk, pg, pages)
    decreases |pages|
  {
    if pages != [] {
      assert pages[|pages| - 1] in pages;
      ReadSame(disk, disk', pg, pages[..|pages| - 1]);
    }
  }

  /** The bytes of `s` that go to the `j`-th page. */
  function Chunk(s: seq<Byte>, pg: nat, j: nat): seq<Byte>
    requires (j + 1) * pg <= |s|
  {
    assert j * pg + pg == (j + 1) * pg;
    s[j * pg..j * pg + pg]
  }

  lemma {:induction false} ChunkFits(s: seq<Byte>, pg: nat, n: nat, j: nat)
    requires |s| == n * pg && j < n
    ensures (j + 1) * pg <= |s|
  {
    if j + 1 < n { PagesApart(pg, j + 1, n); }
  }

  /** `page` is what `s` puts on its `j`-th page. */
  predicate IsChunk(s: seq<Byte>, pg: nat, j: nat, page: seq<Byte>) {
    (j + 1) * pg <= |s| && page == Chunk(s, pg, j)
  }

  lemma {:induction false} ReadChunks(disk: seq<Byte>, pg: nat, pages: seq<nat>, s: seq<Byte>)
    requires AllOnDevice(|disk|, pg, pages) && |s| == |pages| * pg
    requires forall j: nat | j < |pages| :: IsChunk(s, pg, j, PageOf(disk, pg, pages[j]))
    ensures ReadPages(disk, pg, pages) == s
    decreases |pages|
  {
    hide PageOf, Chunk;
    if pages == [] {
      assert |s| == 0;
    } else {
      var k := |pages| - 1;
      assert k * pg + pg == |s|;
      var front := s[..k * pg];
      forall j: nat | j < k
        ensures IsChunk(front, pg, j, PageOf(disk, pg, pages[..k][j]))
      {
        ChunkOfFront(s, front, pg, k, j);
        assert pages[..k][j] == pages[j] && IsChunk(s, pg, j, PageOf(disk, pg, pages[j]));
      }
      ReadChunks(disk, pg, pages[..k], front);
      LastChunk(s, pg, k);
      assert IsChunk(s, pg, k, PageOf(disk, pg, pages[k]));
    }
  }

  lemma {:induction false} ChunkOfFront(s: seq<Byte>, front: seq<Byte>, pg: nat, k: nat, j: nat)
    requires k * pg <= |s| && front == s[..k * pg] && j < k
    ensures (j + 1) * pg <= |front| && Chunk(front, pg, j) == Chunk(s, pg, j)
  {
    ChunkFits(front, pg, k, j);
    assert j * pg + pg == (j + 1) * pg;
  }

  lemma {:induction false} LastChunk(s: seq<Byte>, pg: nat, k: nat)
    requires |s| == (k + 1) * pg
    ensures k * pg <= |s| && s == s[..k * pg] + Chunk(s, pg, k)
  {
    assert k * pg + pg == (k + 1) * pg;
  }

  lemma {:induction false} ReadLength(disk: seq<Byte>, pg: nat, pages: seq<nat>)
    requires AllOnDevice(|disk|, pg, pages)
    ensures |ReadPages(disk, pg, pages)| == |pages| * pg
    decreases |pages|
  {
    if pages != [] {
      ReadLength(disk, pg, pages[..|pages| - 1]);
      assert (|pages| - 1) * pg + pg == |pages| * pg;
    }
  }

  // ----- padding -----------------------------------------------------------------------------

  /** How many pages `len` bytes need. */
  function PagesFor(len: nat, pg: nat): nat
    requires pg > 0
  {
    if len % pg == 0 then len / pg else len / pg + 1
  }

  function Padded(s: seq<Byte>, pg: nat): seq<Byte>
    requires pg > 0
  {
    if |s| % pg == 0 then s else s + Zeros(pg - |s| % pg)
  }

  lemma {:induction false} PaddedLength(s: seq<Byte>, pg: nat)
    requires pg > 0
    ensures |Padded(s, pg)| == PagesFor(|s|, pg) * pg
    ensures s <= Padded(s, pg)
  {
    assert |s| == |s| / pg * pg + |s| % pg;
    assert (|s| / pg + 1) * pg == |s| / pg * pg + pg;
  }

  /** `k` pages are enough exactly when they hold `len` bytes. */
  lemma {:induction false} PagesForLeast(len: nat, pg: nat, k: nat)
    requires pg > 0
    ensures PagesFor(len, pg) <= k <==> len <= k * pg
  {
    var q, r := len / pg, len % pg;
    assert len == q * pg + r;
    if k < q {
      PagesApart(pg, k, q);
    } else if q < k {
      PagesApart(pg, q, k);
    }
  }

  /** Pages for two pieces together are at most the pages for each. */
  lemma {:induction false} PagesForBoth(a: nat, b: nat, pg: nat)
    requires pg > 0
    ensures PagesFor(a, pg) <= PagesFor(a + b, pg) <= PagesFor(a, pg) + PagesFor(b, pg)
  {
    var x, y, z := PagesFor(a, pg), PagesFor(b, pg), PagesFor(a + b, pg);
    PagesForLeast(a, pg, x);
    PagesForLeast(b, pg, y);
    assert (x + y) * pg == x * pg + y * pg;
    PagesForLeast(a + b, pg, x + y);
    PagesForLeast(a + b, pg, z);
    PagesForLeast(a, pg, z);
  }

  lemma {:induction false} MorePages(a: nat, b: nat, pg: nat)
    requires pg > 0 && a <= b
    ensures PagesFor(a, pg) <= PagesFor(b, pg)
  {
    hide PagesFor;
    PagesForBoth(a, b - a, pg);
  }

  lemma {:induction false} SameFactor(a: nat, b: nat, pg: nat)
    requires pg > 0 && a * pg == b * pg
    ensures a == b
  {
    if a < b { PagesApart(pg, a, b); }
    if b < a { PagesApart(pg, b, a); }
  }

  // ----- lines on pages ----------------------------------------------------------------------

  /** The pages hold the line, padded with zeros. */
  ghost predicate Holds(disk: seq<Byte>, pg: nat, pages: seq<nat>, line: Cacheline) {
    && pg > 0 && AllOnDevice(|disk|, pg, pages)
    && ReadPages(disk, pg, pages) == Padded(LineBytes(line), pg)
  }

  lemma {:induction false} HoldsStays(disk: seq<Byte>, disk': seq<Byte>, pg: nat, pages: seq<nat>, line: Cacheline)
    requires Holds(disk, pg, pages, line) && SamePages(disk, disk', pg, pages)
    ensures Holds(disk', pg, pages, line)
  {
    ReadSame(disk, disk', pg, pages);
  }

  /** A line takes the pages its bytes need: header, block records, and data. */
  lemma {:induction false} PagesHeld(disk: seq<Byte>, pg: nat, pages: seq<nat>, line: Cacheline, n: nat)
    requires Holds(disk, pg, pages, line) && WellLaidOut(line, n)
    ensures |pages| == PagesFor(MetadataLen(n) + Total(line.data), pg) && pages != []
  {
    hide LineBytes, WellLaidOut, Padded, ReadPages;
    Serializable(line, n);
    ReadLength(disk, pg, pages);
    PaddedLength(LineBytes(line), pg);
    SameFactor(|pages|, PagesFor(MetadataLen(n) + Total(line.data), pg), pg);
    PagesForLeast(MetadataLen(n) + Total(line.data), pg, 0);
  }

  /** Page `j` of what was read. */
  lemma {:induction false} PageRead(disk: seq<Byte>, pg: nat, pages: seq<nat>, j: nat)
    requires AllOnDevice(|disk|, pg, pages) && j < |pages|
    ensures OnDevice(|disk|, pg, pages[j]) && j * pg + pg <= |ReadPages(disk, pg, pages)|
    ensures ReadPages(disk, pg, pages)[j * pg..j * pg + pg] == PageOf(disk, pg, pages[j])
    decreases |pages|
  {
    hide PageOf, OnDevice;
    var front, last := pages[..|pages| - 1], pages[|pages| - 1];
    assert pages[j] in pages && last in pages;
    assert forall p | p in front :: p in pages;
    ReadLength(disk, pg, front);
    var read, page := ReadPages(disk, pg, front), PageOf(disk, pg, last);
    assert ReadPages(disk, pg, pages) == read + page;
    hide ReadPages;
    if j < |front| {
      PageRead(disk, pg, front, j);
    }
  }

  lemma {:induction false} ByteRead(disk: seq<Byte>, pg: nat, pages: seq<nat>, j: nat, o: nat)
    requires AllOnDevice(|disk|, pg, pages) && j < |pages| && o < pg
    ensures pages[j] * pg + o < |disk| && j * pg + o < |ReadPages(disk, pg, pages)|
    ensures ReadPages(disk, pg, pages)[j * pg + o] == disk[pages[j] * pg + o]
  {
    hide ReadPages;
    PageRead(disk, pg, pages, j);
    assert ReadPages(disk, pg, pages)[j * pg..j * pg + pg][o] == PageOf(disk, pg, pages[j])[o];
  }

  /** Where a line is on the device, byte by byte: byte `o` of its `j`-th page is byte `j * pg + o` of the line, or a
      zero behind its end. */
  lemma {:induction false} ByteOnDevice(disk: seq<Byte>, pg: nat, pages: seq<nat>, line: Cacheline, j: nat, o: nat)
    requires Holds(disk, pg, pages, line) && j < |pages| && o < pg
    ensures pages[j] * pg + o < |disk|
    ensures disk[pages[j] * pg + o] ==
            if j * pg + o < |LineBytes(line)| then LineBytes(line)[j * pg + o] else 0
  {
    hide LineBytes, ReadPages;
    ByteRead(disk, pg, pages, j, o);
  }

  /** Reading a line back from its pages, after whatever was written elsewhere, gives the same line. */
  lemma {:induction false} StorageRoundTrip(disk: seq<Byte>, disk': seq<Byte>, pg: nat, pages: seq<nat>,
                                            line: Cacheline, n: nat)
    requires WellLaidOut(line, n) && Holds(disk, pg, pages, line) && SamePages(disk, disk', pg, pages)
    ensures AllOnDevice(|disk'|, pg, pages) && LineFrom(ReadPages(disk', pg, pages), n) == Some(line)
  {
    hide LineBytes, WellLaidOut, ReadPages, LineFrom, SamePages;
    SameSize(disk, disk', pg, pages);
    HoldsStays(disk, disk', pg, pages, line);
    var s := LineBytes(line);
    PaddedLength(s, pg);
    var rest := Padded(s, pg)[|s|..];
    assert Padded(s, pg) == s + rest;
    LineBack(line, n, rest);
  }

  lemma {:induction false} SameSize(disk: seq<Byte>, disk': seq<Byte>, pg: nat, pages: seq<nat>)
    requires AllOnDevice(|disk|, pg, pages) && SamePages(disk, disk', pg, pages)
    ensures |disk'| == |disk|
  {
  }
}
