/** Where everything of a line is in its bytes: the layout on the device that the structs of
    src/include/ssd_proxy.h:48-92 give, with the sizes and offsets as numbers. */
module LineFormats {
  import opened Bits
  import opened Words
  import opened Cachelines
  import opened CachelineCodec
  import opened CachelineLaws

  /** The number four bytes spell, the least significant first. */
  function Spelled(s: seq<Byte>, at: nat): nat
    requires at + 4 <= |s|
  {
    var a: nat, b: nat, c: nat, d: nat := s[at], s[at + 1], s[at + 2], s[at + 3];
    a + 0x100 * b + 0x1_0000 * c + 0x100_0000 * d
  }

  predicate U32At(s: seq<Byte>, at: nat, v: nat) {
    at + 4 <= |s| && v == Spelled(s, at)
  }

  predicate U64At(s: seq<Byte>, at: nat, v: nat) {
    at + 8 <= |s| && v == Spelled(s, at) + 0x1_0000_0000 * Spelled(s, at + 4)
  }

  lemma {:induction false} LowFour(s: seq<Byte>)
    requires |s| >= 4
    ensures FromLittleEndian(s) == Spelled(s, 0) + 0x1_0000_0000 * FromLittleEndian(s[4..])
  {
    assert s[1..][1..] == s[2..] && s[2..][1..] == s[3..] && s[3..][1..] == s[4..];
    assert FromLittleEndian(s[3..]) == s[3] + 256 * FromLittleEndian(s[4..]);
    assert FromLittleEndian(s[2..]) == s[2] + 256 * FromLittleEndian(s[3..]);
    assert FromLittleEndian(s[1..]) == s[1] + 256 * FromLittleEndian(s[2..]);
  }

  lemma {:induction false} U32Written(v: U32)
    ensures U32At(LittleEndian(v, 4), 0, v)
  {
    hide LittleEndian;
    var s := LittleEndian(v, 4);
    ReadsBack(0, v, 0);
    LowFour(s);
    assert FromLittleEndian(s[4..]) == 0;
  }

  lemma {:induction false} U64Written(v: U64)
    ensures U64At(LittleEndian(v, 8), 0, v)
  {
    hide LittleEndian;
    var s := LittleEndian(v, 8);
    ReadsBack(0, 0, v);
    LowFour(s);
    LowFour(s[4..]);
    assert FromLittleEndian(s[4..][4..]) == 0;
  }

  /** What is spelled in a part is spelled in the whole. */
  lemma {:induction false} InPart(s: seq<Byte>, from: nat, part: seq<Byte>, at: nat, v: nat)
    requires from + |part| <= |s| && s[from..from + |part|] == part
    ensures U32At(part, at, v) ==> U32At(s, from + at, v)
    ensures U64At(part, at, v) ==> U64At(s, from + at, v)
  {
    assert forall k | 0 <= k < |part| :: part[k] == s[from + k];
  }

  // ----- records -----------------------------------------------------------------------------

  ghost predicate HeaderAt(s: seq<Byte>, h: Header) {
    && U32At(s, 0, h.headerLen) && U32At(s, 4, h.infoLen) && U32At(s, 8, h.layoutLen) && U32At(s, 12, h.dataLen)
    && 17 <= |s| && s[16] == h.number
  }

  ghost predicate InfoAt(s: seq<Byte>, at: nat, info: BlockInfo) {
    && U64At(s, at, info.compFp) && U64At(s, at + 8, info.rawFp) && U32At(s, at + 16, info.rawLen)
    && at + 20 < |s| && s[at + 20] == info.kind
    && U32At(s, at + 24, info.posIndex) && U64At(s, at + 32, info.external)
  }

  lemma {:induction false} HeaderWritten(h: Header)
    ensures HeaderAt(HeaderBytes(h), h)
  {
    hide LittleEndian, U32At;
    var s := HeaderBytes(h);
    FieldWritten(s, 0, h.headerLen);
    FieldWritten(s, 4, h.infoLen);
    FieldWritten(s, 8, h.layoutLen);
    FieldWritten(s, 12, h.dataLen);
    ByteWritten(h.number);
    assert s[16..17] == LittleEndian(h.number, 1);
    assert s[16] == s[16..17][0];
  }

  lemma {:induction false} FieldWritten(s: seq<Byte>, at: nat, v: U32)
    requires at + 4 <= |s|
    ensures s[at..at + 4] == LittleEndian(v, 4) ==> U32At(s, at, v)
  {
    hide LittleEndian, U32At, U64At;
    U32Written(v);
    if s[at..at + 4] == LittleEndian(v, 4) { InPart(s, at, LittleEndian(v, 4), 0, v); }
  }

  lemma {:induction false} WideFieldWritten(s: seq<Byte>, at: nat, v: U64)
    requires at + 8 <= |s|
    ensures s[at..at + 8] == LittleEndian(v, 8) ==> U64At(s, at, v)
  {
    hide LittleEndian, U32At, U64At;
    U64Written(v);
    if s[at..at + 8] == LittleEndian(v, 8) { InPart(s, at, LittleEndian(v, 8), 0, v); }
  }

  lemma {:induction false} ByteWritten(v: U8)
    ensures LittleEndian(v, 1)[0] == v
  {
  }

  lemma {:induction false} InfoWritten(info: BlockInfo)
    ensures InfoAt(InfoBytes(info), 0, info)
  {
    hide LittleEndian, U32At, U64At;
    var s := InfoBytes(info);
    WideFieldWritten(s, 0, info.compFp);
    WideFieldWritten(s, 8, info.rawFp);
    FieldWritten(s, 16, info.rawLen);
    FieldWritten(s, 24, info.posIndex);
    WideFieldWritten(s, 32, info.external);
    ByteWritten(info.kind);
    assert s[0..8] == LittleEndian(info.compFp, 8) && s[8..16] == LittleEndian(info.rawFp, 8);
    assert s[16..20] == LittleEndian(info.rawLen, 4) && s[20..21] == LittleEndian(info.kind, 1);
    assert s[24..28] == LittleEndian(info.posIndex, 4) && s[32..40] == LittleEndian(info.external, 8);
    assert s[20] == s[20..21][0];
  }

  lemma {:induction false} InfoInPart(s: seq<Byte>, from: nat, part: seq<Byte>, info: BlockInfo)
    requires from + |part| <= |s| && s[from..from + |part|] == part && InfoAt(part, 0, info)
    ensures InfoAt(s, from, info)
  {
    hide U32At, U64At;
    InPart(s, from, part, 0, info.compFp);
    InPart(s, from, part, 8, info.rawFp);
    InPart(s, from, part, 16, info.rawLen);
    InPart(s, from, part, 24, info.posIndex);
    InPart(s, from, part, 32, info.external);
    assert s[from + 20] == s[from..from + |part|][20];
  }

  lemma {:induction false} InfoSlice(infos: seq<BlockInfo>, i: nat)
    requires i < |infos|
    ensures 40 * i + 40 <= |InfosBytes(infos)| && InfosBytes(infos)[40 * i..40 * i + 40] == InfoBytes(infos[i])
  {
    hide InfoBytes;
    if i > 0 {
      InfoSlice(infos[1..], i - 1);
      var rest := InfosBytes(infos[1..]);
      assert InfosBytes(infos)[40 * i..40 * i + 40] == rest[40 * (i - 1)..40 * (i - 1) + 40];
    }
  }

  lemma {:induction false} LayoutSlice(layout: seq<Layout>, j: nat)
    requires j < |layout|
    ensures 8 * j + 8 <= |LayoutsBytes(layout)|
    ensures LayoutsBytes(layout)[8 * j..8 * j + 8] == LayoutBytes(layout[j])
  {
    hide LayoutBytes;
    if j > 0 {
      LayoutSlice(layout[1..], j - 1);
      var rest := LayoutsBytes(layout[1..]);
      assert LayoutsBytes(layout)[8 * j..8 * j + 8] == rest[8 * (j - 1)..8 * (j - 1) + 8];
    }
  }

  lemma {:induction false} LayoutWritten(s: seq<Byte>, at: nat, l: Layout)
    requires at + 8 <= |s| && s[at..at + 8] == LayoutBytes(l)
    ensures U32At(s, at, l.offset) && U32At(s, at + 4, l.len)
  {
    hide LittleEndian, U32At;
    var part := LayoutBytes(l);
    assert part[0..4] == LittleEndian(l.offset, 4) && part[4..8] == LittleEndian(l.len, 4);
    assert s[at..at + 4] == part[0..4] && s[at + 4..at + 8] == part[4..8];
    FieldWritten(s, at, l.offset);
    FieldWritten(s, at + 4, l.len);
  }

  /** The offset of a slot is where its bytes are. */
  lemma {:induction false} DataSlice(data: seq<seq<Byte>>, j: nat)
    requires j < |data|
    ensures Total(data[..j]) + |data[j]| <= |Joined(data)|
    ensures Joined(data)[Total(data[..j])..Total(data[..j]) + |data[j]|] == data[j]
    decreases |data|
  {
    var front := data[..|data| - 1];
    if j < |front| {
      DataSlice(front, j);
      assert front[..j] == data[..j];
    }
  }

  /** Reading fails exactly if the byte that counts the blocks is not the configured number; bytes that are missing read
      as zero. */
  lemma {:induction false} ReadingFails(s: seq<Byte>, n: nat)
    ensures LineFrom(s, n).None? <==> (if 16 < |s| then s[16] else 0) != n
  {
    var front := Take(s, 20);
    assert FromLittleEndian(front[16..17]) == front[16] + 256 * FromLittleEndian(front[16..17][1..]);
    assert front[16..17][1..] == [] && FromLittleEndian([]) == 0;
    assert HeaderFrom(front).number == front[16];
  }

  // ----- the line ----------------------------------------------------------------------------

  /** The entry of slot `j`: where its bytes are behind the metadata, and how many; all ones for an unused slot. */
  ghost predicate SlotAt(s: seq<Byte>, n: nat, data: seq<seq<Byte>>, j: nat) {
    var at := 20 + 40 * n + 8 * j;
    if j < |data| then
      exists offset: nat ::
        && U32At(s, at, offset) && U32At(s, at + 4, |data[j]|)
        && 20 + 48 * n + offset + |data[j]| <= |s|
        && s[20 + 48 * n + offset..20 + 48 * n + offset + |data[j]|] == data[j]
    else U32At(s, at, 0xffff_ffff) && U32At(s, at + 4, 0xffff_ffff)
  }

  /** The whole format: the header with the lengths of the three parts behind it, 40 bytes for every block, 8 for every
      slot, then the data. */
  lemma {:induction false} LineFormat(line: Cacheline, n: nat)
    requires WellLaidOut(line, n)
    ensures var s := LineBytes(line);
            && |s| == 20 + 48 * n + Total(line.data)
            && HeaderAt(s, Header(20, 40 * n, 8 * n, Total(line.data), n))
            && (forall i: nat | i < n :: InfoAt(s, 20 + 40 * i, line.infos[i]))
            && (forall j: nat | j < n :: SlotAt(s, n, line.data, j))
  {
    hide HeaderBytes, HeaderAt, InfosBytes, InfoBytes, InfoAt, LayoutsBytes, Joined, Total, SlotAt, SlotLayout;
    var s, infos, layouts := LineBytes(line), InfosBytes(line.infos), LayoutsBytes(line.layout);
    HeaderWritten(line.header);
    HeaderInLine(line);
    HeaderNumbers(n, Total(line.data));
    forall i: nat | i < n ensures InfoAt(s, 20 + 40 * i, line.infos[i]) {
      InfoSlice(line.infos, i);
      InfoWritten(line.infos[i]);
      assert s[20 + 40 * i..20 + 40 * i + 40] == infos[40 * i..40 * i + 40];
      InfoInPart(s, 20 + 40 * i, InfoBytes(line.infos[i]), line.infos[i]);
    }
    forall j: nat | j < n ensures SlotAt(s, n, line.data, j) {
      SlotInLine(line, n, j);
    }
  }

  lemma {:induction false} HeaderInLine(line: Cacheline)
    requires HeaderAt(HeaderBytes(line.header), line.header)
    ensures HeaderAt(LineBytes(line), line.header)
  {
    hide HeaderBytes, InfosBytes, LayoutsBytes, Joined, U32At, U64At;
    var s, part, h := LineBytes(line), HeaderBytes(line.header), line.header;
    assert s[0..0 + 20] == part;
    InPart(s, 0, part, 0, h.headerLen);
    InPart(s, 0, part, 4, h.infoLen);
    InPart(s, 0, part, 8, h.layoutLen);
    InPart(s, 0, part, 12, h.dataLen);
    assert s[16] == s[0..20][16];
  }

  lemma {:induction false} HeaderNumbers(n: nat, total: nat)
    requires n < 256 && MetadataLen(n) + total < W32
    ensures HeaderOf(n, total) == Header(20, 40 * n, 8 * n, total, n)
  {
  }

  lemma {:induction false} SlotNumbers(line: Cacheline, n: nat, j: nat)
    requires WellLaidOut(line, n) && j < n
    ensures var l := line.layout[j];
            if j < |line.data| then l.offset == Total(line.data[..j]) && l.len == |line.data[j]|
            else l.offset == 0xffff_ffff && l.len == 0xffff_ffff
  {
    hide Total;
    assert line.layout[j] == SlotLayout(line.data, j);
    if j < |line.data| { SlotBelowTotal(line.data, j); }
  }

  lemma {:induction false} IsSlot(s: seq<Byte>, n: nat, data: seq<seq<Byte>>, j: nat, offset: nat)
    requires j < |data| && U32At(s, 20 + 40 * n + 8 * j, offset) && U32At(s, 20 + 40 * n + 8 * j + 4, |data[j]|)
    requires 20 + 48 * n + offset + |data[j]| <= |s|
    requires s[20 + 48 * n + offset..20 + 48 * n + offset + |data[j]|] == data[j]
    ensures SlotAt(s, n, data, j)
  {
    hide U32At;
  }

  lemma {:induction false} IsNoSlot(s: seq<Byte>, n: nat, data: seq<seq<Byte>>, j: nat)
    requires j >= |data|
    requires U32At(s, 20 + 40 * n + 8 * j, 0xffff_ffff) && U32At(s, 20 + 40 * n + 8 * j + 4, 0xffff_ffff)
    ensures SlotAt(s, n, data, j)
  {
    hide U32At;
  }

  lemma {:induction false} SlotInLine(line: Cacheline, n: nat, j: nat)
    requires WellLaidOut(line, n) && j < n
    ensures SlotAt(LineBytes(line), n, line.data, j)
  {
    var s, at := LineBytes(line), 20 + 40 * n + 8 * j;
    hide HeaderBytes, InfosBytes, LayoutsBytes, LayoutBytes, Joined, Total, U32At, WellLaidOut, SlotLayout,
         LineBytes, SlotAt;
    LineSizes(line, n);
    SlotNumbers(line, n, j);
    EntryInLine(line, n, j);
    LayoutWritten(s, at, line.layout[j]);
    if j < |line.data| {
      DataInLine(line, n, j);
      IsSlot(s, n, line.data, j, Total(line.data[..j]));
    } else {
      IsNoSlot(s, n, line.data, j);
    }
  }

  lemma {:induction false} LineSizes(line: Cacheline, n: nat)
    requires WellLaidOut(line, n)
    ensures |line.infos| == |line.layout| == n && |LineBytes(line)| == 20 + 48 * n + Total(line.data)
  {
    hide Total, HeaderBytes, InfosBytes, LayoutsBytes, Joined;
  }

  lemma {:induction false} EntryInLine(line: Cacheline, n: nat, j: nat)
    requires |line.infos| == |line.layout| == n && j < n
    ensures var at := 20 + 40 * n + 8 * j;
            at + 8 <= |LineBytes(line)| && LineBytes(line)[at..at + 8] == LayoutBytes(line.layout[j])
  {
    hide HeaderBytes, InfosBytes, LayoutsBytes, LayoutBytes, Joined, Total;
    LayoutSlice(line.layout, j);
    var front, layouts := HeaderBytes(line.header) + InfosBytes(line.infos), LayoutsBytes(line.layout);
    assert LineBytes(line) == front + (layouts + Joined(line.data));
    PartOfWhole(front, layouts, Joined(line.data), 8 * j, 8);
  }

  lemma {:induction false} DataInLine(line: Cacheline, n: nat, j: nat)
    requires |line.infos| == |line.layout| == n && j < |line.data|
    ensures var at := 20 + 48 * n + Total(line.data[..j]);
            at + |line.data[j]| <= |LineBytes(line)| && LineBytes(line)[at..at + |line.data[j]|] == line.data[j]
  {
    hide HeaderBytes, InfosBytes, LayoutsBytes, Joined, Total;
    DataSlice(line.data, j);
    var front := HeaderBytes(line.header) + InfosBytes(line.infos) + LayoutsBytes(line.layout);
    assert LineBytes(line) == front + (Joined(line.data) + []);
    PartOfWhole(front, Joined(line.data), [], Total(line.data[..j]), |line.data[j]|);
  }

  lemma {:induction false} PartOfWhole(a: seq<Byte>, b: seq<Byte>, c: seq<Byte>, at: nat, len: nat)
    requires at + len <= |b|
    ensures (a + (b + c))[|a| + at..|a| + at + len] == b[at..at + len]
  {
  }
}
