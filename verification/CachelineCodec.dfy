/** Cache lines as bytes (src/ssd_proxy.cpp:414-460): fixed-width little-endian fields, padding written as zero. */
module CachelineCodec {
  import opened Wrappers
  import opened Bits
  import opened Words
  import opened Cachelines

  function HeaderBytes(h: Header): (s: seq<Byte>)
    ensures |s| == HEADER_SIZE
  {
    LittleEndian(h.headerLen, 4) + LittleEndian(h.infoLen, 4) + LittleEndian(h.layoutLen, 4) +
    LittleEndian(h.dataLen, 4) + LittleEndian(h.number, 1) + Zeros(3)
  }

  function HeaderFrom(s: seq<Byte>): Header
    requires |s| == HEADER_SIZE
  {
    Header(Read32(s[0..4]), Read32(s[4..8]), Read32(s[8..12]), Read32(s[12..16]), Read8(s[16..17]))
  }

  function InfoBytes(i: BlockInfo): (s: seq<Byte>)
    ensures |s| == INFO_SIZE
  {
    LittleEndian(i.compFp, 8) + LittleEndian(i.rawFp, 8) + LittleEndian(i.rawLen, 4) + LittleEndian(i.kind, 1) +
    Zeros(3) + LittleEndian(i.posIndex, 4) + Zeros(4) + LittleEndian(i.external, 8)
  }

  function InfoFrom(s: seq<Byte>): BlockInfo
    requires |s| == INFO_SIZE
  {
    BlockInfo(Read64(s[0..8]), Read64(s[8..16]), Read32(s[16..20]), Read8(s[20..21]), Read32(s[24..28]),
              Read64(s[32..40]))
  }

  function LayoutBytes(l: Layout): (s: seq<Byte>)
    ensures |s| == LAYOUT_SIZE
  {
    LittleEndian(l.offset, 4) + LittleEndian(l.len, 4)
  }

  function LayoutFrom(s: seq<Byte>): Layout
    requires |s| == LAYOUT_SIZE
  {
    Layout(Read32(s[0..4]), Read32(s[4..8]))
  }

  lemma {:induction false} HeaderBack(h: Header)
    ensures HeaderFrom(HeaderBytes(h)) == h
  {
    hide LittleEndian, Read32, Read8;
    var s := HeaderBytes(h);
    ReadsBack(h.number, h.headerLen, 0);
    ReadsBack(0, h.infoLen, 0);
    ReadsBack(0, h.layoutLen, 0);
    ReadsBack(0, h.dataLen, 0);
    assert s[0..4] == LittleEndian(h.headerLen, 4) && s[4..8] == LittleEndian(h.infoLen, 4);
    assert s[8..12] == LittleEndian(h.layoutLen, 4) && s[12..16] == LittleEndian(h.dataLen, 4);
    assert s[16..17] == LittleEndian(h.number, 1);
  }

  lemma {:induction false} InfoBack(i: BlockInfo)
    ensures InfoFrom(InfoBytes(i)) == i
  {
    hide LittleEndian, Read32, Read8, Read64;
    var s := InfoBytes(i);
    ReadsBack(i.kind, i.rawLen, i.compFp);
    ReadsBack(0, i.posIndex, i.rawFp);
    ReadsBack(0, 0, i.external);
    assert s[0..8] == LittleEndian(i.compFp, 8) && s[8..16] == LittleEndian(i.rawFp, 8);
    assert s[16..20] == LittleEndian(i.rawLen, 4) && s[20..21] == LittleEndian(i.kind, 1);
    assert s[24..28] == LittleEndian(i.posIndex, 4) && s[32..40] == LittleEndian(i.external, 8);
  }

  lemma {:induction false} LayoutBack(l: Layout)
    ensures LayoutFrom(LayoutBytes(l)) == l
  {
    hide LittleEndian, Read32;
    var s := LayoutBytes(l);
    ReadsBack(0, l.offset, 0);
    ReadsBack(0, l.len, 0);
    assert s[0..4] == LittleEndian(l.offset, 4) && s[4..8] == LittleEndian(l.len, 4);
  }

  // ----- arrays of records -------------------------------------------------------------------

  function InfosBytes(infos: seq<BlockInfo>): (s: seq<Byte>)
    ensures |s| == INFO_SIZE * |infos|
  {
    if infos == [] then [] else InfoBytes(infos[0]) + InfosBytes(infos[1..])
  }

  function InfosFrom(s: seq<Byte>): (infos: seq<BlockInfo>)
    requires |s| % INFO_SIZE == 0
    ensures INFO_SIZE * |infos| == |s|
  {
    if s == [] then [] else [InfoFrom(s[..INFO_SIZE])] + InfosFrom(s[INFO_SIZE..])
  }

  function LayoutsBytes(layout: seq<Layout>): (s: seq<Byte>)
    ensures |s| == LAYOUT_SIZE * |layout|
  {
    if layout == [] then [] else LayoutBytes(layout[0]) + LayoutsBytes(layout[1..])
  }

  function LayoutsFrom(s: seq<Byte>): (layout: seq<Layout>)
    requires |s| % LAYOUT_SIZE == 0
    ensures LAYOUT_SIZE * |layout| == |s|
  {
    if s == [] then [] else [LayoutFrom(s[..LAYOUT_SIZE])] + LayoutsFrom(s[LAYOUT_SIZE..])
  }

  lemma {:induction false} InfosBack(infos: seq<BlockInfo>)
    ensures InfosFrom(InfosBytes(infos)) == infos
  {
    if infos != [] {
      hide InfoFrom, InfoBytes;
      var s := InfosBytes(infos);
      InfoBack(infos[0]);
      InfosBack(infos[1..]);
      assert s[..INFO_SIZE] == InfoBytes(infos[0]) && s[INFO_SIZE..] == InfosBytes(infos[1..]);
    }
  }

  lemma {:induction false} LayoutsBack(layout: seq<Layout>)
    ensures LayoutsFrom(LayoutsBytes(layout)) == layout
  {
    if layout != [] {
      hide LayoutFrom, LayoutBytes;
      var s := LayoutsBytes(layout);
      LayoutBack(layout[0]);
      LayoutsBack(layout[1..]);
      assert s[..LAYOUT_SIZE] == LayoutBytes(layout[0]) && s[LAYOUT_SIZE..] == LayoutsBytes(layout[1..]);
    }
  }

  // ----- data --------------------------------------------------------------------------------

  function Joined(data: seq<seq<Byte>>): (s: seq<Byte>)
    ensures |s| == Total(data)
  {
    if data == [] then [] else Joined(data[..|data| - 1]) + data[|data| - 1]
  }

  /** Slots up to the first unused one, each as long as its layout says. */
  function DataFrom(layout: seq<Layout>, s: seq<Byte>): seq<seq<Byte>> {
    if layout == [] || layout[0] == NO_LAYOUT then []
    else [Take(s, layout[0].len)] + DataFrom(layout[1..], Skip(s, layout[0].len))
  }

  lemma {:induction false} JoinedFirst(data: seq<seq<Byte>>)
    requires data != []
    ensures Joined(data) == data[0] + Joined(data[1..])
    decreases |data|
  {
    if |data| > 1 {
      var front := data[..|data| - 1];
      JoinedFirst(front);
      assert front[1..] == data[1..][..|data| - 2];
    } else {
      assert data[..0] == [] && data[1..] == [];
    }
  }

  /** The layouts of used slots from `k` on, then unused ones. */
  ghost predicate Describes(layout: seq<Layout>, data: seq<seq<Byte>>) {
    && |data| <= |layout|
    && (forall j | 0 <= j < |data| :: layout[j].len == |data[j]| && layout[j] != NO_LAYOUT)
    && (forall j | |data| <= j < |layout| :: layout[j] == NO_LAYOUT)
  }

  lemma {:induction false} DataBack(layout: seq<Layout>, data: seq<seq<Byte>>, rest: seq<Byte>)
    requires Describes(layout, data)
    ensures DataFrom(layout, Joined(data) + rest) == data
    decreases |layout|
  {
    if data != [] {
      var s := Joined(data) + rest;
      JoinedFirst(data);
      var len := layout[0].len;
      assert s == data[0] + (Joined(data[1..]) + rest);
      assert Take(s, len) == data[0] && Skip(s, len) == Joined(data[1..]) + rest;
      DataBack(layout[1..], data[1..], rest);
    }
  }

  // ----- lines -------------------------------------------------------------------------------

  function LineBytes(line: Cacheline): (s: seq<Byte>)
    ensures |s| == HEADER_SIZE + INFO_SIZE * |line.infos| + LAYOUT_SIZE * |line.layout| + Total(line.data)
  {
    HeaderBytes(line.header) + InfosBytes(line.infos) + LayoutsBytes(line.layout) + Joined(line.data)
  }

  /** `None` is the failed assertion on the number of blocks. */
  function LineFrom(s: seq<Byte>, n: nat): Option<Cacheline> {
    var header := HeaderFrom(Take(s, HEADER_SIZE));
    if header.number != n then None
    else
      var s1 := Skip(s, HEADER_SIZE);
      var s2 := Skip(s1, INFO_SIZE * n);
      var s3 := Skip(s2, LAYOUT_SIZE * n);
      var layout := LayoutsFrom(Take(s2, LAYOUT_SIZE * n));
      Some(Cacheline(header, InfosFrom(Take(s1, INFO_SIZE * n)), layout, DataFrom(layout, s3)))
  }

  lemma {:induction false} LayoutDescribes(line: Cacheline, n: nat)
    requires WellLaidOut(line, n)
    ensures Describes(line.layout, line.data)
  {
    hide Total;
    forall j | 0 <= j < |line.data|
      ensures line.layout[j].len == |line.data[j]| && line.layout[j] != NO_LAYOUT
    {
      LayoutEntry(line, n, j);
    }
    forall j | |line.data| <= j < |line.layout| ensures line.layout[j] == NO_LAYOUT {
      assert line.layout[j] == SlotLayout(line.data, j);
    }
  }

  lemma {:induction false} LayoutEntry(line: Cacheline, n: nat, j: nat)
    requires WellLaidOut(line, n) && j < |line.data|
    ensures j < |line.layout| && line.layout[j].len == |line.data[j]| && line.layout[j] != NO_LAYOUT
  {
    hide Total;
    assert line.layout[j] == SlotLayout(line.data, j);
    PartOfTotal(line.data, j);
    var total := Total(line.data);
    assert |line.data[j]| <= total < NONE32;
  }

  lemma {:induction false} PartOfTotal(data: seq<seq<Byte>>, j: nat)
    requires j < |data|
    ensures |data[j]| <= Total(data)
    decreases |data|
  {
    if j < |data| - 1 {
      PartOfTotal(data[..|data| - 1], j);
    }
  }

  lemma {:induction false} TakeAndSkip(a: seq<Byte>, b: seq<Byte>)
    ensures Take(a + b, |a|) == a && Skip(a + b, |a|) == b
  {
  }

  /** Reading a line back, with whatever follows it, gives the same line. */
  lemma {:induction false} LineBack(line: Cacheline, n: nat, rest: seq<Byte>)
    requires WellLaidOut(line, n)
    ensures LineFrom(LineBytes(line) + rest, n) == Some(line)
  {
    hide HeaderFrom, HeaderBytes, InfosBytes, InfosFrom, LayoutsBytes, LayoutsFrom, Joined, DataFrom, Take, Skip;
    var s := LineBytes(line) + rest;
    var s3 := Joined(line.data) + rest;
    var s2 := LayoutsBytes(line.layout) + s3;
    var s1 := InfosBytes(line.infos) + s2;
    assert s == HeaderBytes(line.header) + s1;
    TakeAndSkip(HeaderBytes(line.header), s1);
    TakeAndSkip(InfosBytes(line.infos), s2);
    TakeAndSkip(LayoutsBytes(line.layout), s3);
    HeaderBack(line.header);
    InfosBack(line.infos);
    LayoutsBack(line.layout);
    LayoutDescribes(line, n);
    DataBack(line.layout, line.data, rest);
  }

  // ----- the methods -------------------------------------------------------------------------

  /** `None` is a failed assertion: a wrong number of blocks, or a header length that is not what was written. */
  method Serialize(line: Cacheline, n: nat) returns (r: Option<seq<Byte>>)
    ensures r == if line.header.number == n && |LineBytes(line)| == line.header.TotalLen()
                 then Some(LineBytes(line)) else None
  {
    if line.header.number != n { return None; }
    var s := HeaderBytes(line.header) + InfosBytes(line.infos) + LayoutsBytes(line.layout);
    ghost var front := s;
    var i := 0;
    while i < |line.data|
      invariant 0 <= i <= |line.data| && s == front + Joined(line.data[..i])
    {
      assert line.data[..i + 1][..i] == line.data[..i];
      s := s + line.data[i];
      i := i + 1;
    }
    assert line.data[..i] == line.data;
    r := if |s| == line.header.TotalLen() then Some(s) else None;
  }

  /** A well-formed line passes both assertions. */
  lemma {:induction false} Serializable(line: Cacheline, n: nat)
    requires WellLaidOut(line, n)
    ensures line.header.number == n && |LineBytes(line)| == line.header.TotalLen()
    ensures |LineBytes(line)| == MetadataLen(n) + Total(line.data)
  {
    hide LayoutOf, Total, LineBytes;
    HeaderAddsUp(n, Total(line.data));
  }

  lemma {:induction false} HeaderAddsUp(n: nat, dataLen: nat)
    requires n < 256 && MetadataLen(n) + dataLen < W32
    ensures HeaderOf(n, dataLen).number == n && HeaderOf(n, dataLen).TotalLen() == MetadataLen(n) + dataLen
  {
    assert Trunc32(INFO_SIZE * n) == INFO_SIZE * n;
    assert Trunc32(LAYOUT_SIZE * n) == LAYOUT_SIZE * n;
    assert Trunc32(dataLen) == dataLen;
  }

  method Deserialize(s: seq<Byte>, n: nat) returns (r: Option<Cacheline>)
    ensures r == LineFrom(s, n)
  {
    hide HeaderFrom, InfosFrom, LayoutsFrom;
    var header := HeaderFrom(Take(s, HEADER_SIZE));
    if header.number != n { return None; }
    var s1 := Skip(s, HEADER_SIZE);
    var infos := InfosFrom(Take(s1, INFO_SIZE * n));
    var s2 := Skip(s1, INFO_SIZE * n);
    var layout := LayoutsFrom(Take(s2, LAYOUT_SIZE * n));
    var data := ReadData(layout, Skip(s2, LAYOUT_SIZE * n));
    r := Some(Cacheline(header, infos, layout, data));
  }

  method ReadData(layout: seq<Layout>, s: seq<Byte>) returns (data: seq<seq<Byte>>)
    ensures data == DataFrom(layout, s)
  {
    hide Take, Skip;
    data := [];
    var left := s;
    var i := 0;
    assert layout[0..] == layout;
    while i < |layout|
      invariant 0 <= i <= |layout|
      invariant DataFrom(layout, s) == data + DataFrom(layout[i..], left)
    {
      assert layout[i..][1..] == layout[i + 1..];
      if layout[i].len == NONE32 && layout[i].offset == NONE32 {
        break;
      }
      ghost var rest := DataFrom(layout[i + 1..], Skip(left, layout[i].len));
      assert data + ([Take(left, layout[i].len)] + rest) == (data + [Take(left, layout[i].len)]) + rest;
      data := data + [Take(left, layout[i].len)];
      left := Skip(left, layout[i].len);
      i := i + 1;
    }
    assert DataFrom(layout[i..], left) == [];
  }
}
