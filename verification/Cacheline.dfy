/** Cache lines, their byte format, and how they are built and rewritten
    (src/include/ssd_proxy.h, src/ssd_proxy.cpp). */
module Cachelines {
  import opened Bits
  import opened Words

  type Fp = U64
  type Id = U64

  /** A data block on its way through the cache. */
  datatype DataBlock = DataBlock(address: U64, rawFp: Fp, rawData: seq<Byte>, rawDuplicated: bool,
                                 compFp: Fp, compData: seq<Byte>, compDuplicated: bool, external: Id)

  // The kinds of block in a line.
  const REF: U8 := 0     // stored in the line `external`
  const STORED: U8 := 1  // stored here, in slot `posIndex`
  const LOCAL: U8 := 2   // another block of this line stores the same bytes

  datatype BlockInfo = BlockInfo(compFp: Fp, rawFp: Fp, rawLen: U32, kind: U8, posIndex: U32, external: Id)

  datatype Layout = Layout(offset: U32, len: U32)

  const NO_LAYOUT := Layout(NONE32, NONE32)

  datatype Header = Header(headerLen: U32, infoLen: U32, layoutLen: U32, dataLen: U32, number: U8) {
    /** Added up in 32 bits. */
    function TotalLen(): U32 { (headerLen + infoLen + layoutLen + dataLen) % W32 }
  }

  datatype Cacheline = Cacheline(header: Header, infos: seq<BlockInfo>, layout: seq<Layout>, data: seq<seq<Byte>>)

  const HEADER_SIZE := 20
  const INFO_SIZE := 40
  const LAYOUT_SIZE := 8

  function MetadataLen(n: nat): nat { HEADER_SIZE + n * (INFO_SIZE + LAYOUT_SIZE) }

  function Total(data: seq<seq<Byte>>): nat {
    if data == [] then 0 else Total(data[..|data| - 1]) + |data[|data| - 1]|
  }

  /** Offsets are prefix sums; slots without data are marked. */
  function LayoutOf(data: seq<seq<Byte>>, n: nat): (layout: seq<Layout>)
    ensures |layout| == n
  {
    seq(n, j requires 0 <= j => SlotLayout(data, j))
  }

  function HeaderOf(n: nat, dataLen: nat): Header {
    Header(HEADER_SIZE, Trunc32(INFO_SIZE * n), Trunc32(LAYOUT_SIZE * n), Trunc32(dataLen), n % 256)
  }

  // ----- well-formed lines -------------------------------------------------------------------

  /** Header, layout and slots agree, and everything fits its field. */
  ghost predicate WellLaidOut(line: Cacheline, n: nat) {
    && |line.infos| == n < 256 && |line.data| <= n
    && line.layout == LayoutOf(line.data, n)
    && line.header == HeaderOf(n, Total(line.data))
    && MetadataLen(n) + Total(line.data) < W32
  }

  ghost predicate GoodInfo(info: BlockInfo, slots: nat) {
    || (info.kind == REF && info.posIndex == NONE32 && info.external != NONE64)
    || (info.kind == STORED && info.posIndex < slots && info.external == NONE64)
    || (info.kind == LOCAL && info.posIndex == NONE32 && info.external == NONE64)
  }

  ghost predicate SlotUsed(infos: seq<BlockInfo>, slot: nat) {
    exists i :: 0 <= i < |infos| && infos[i].kind == STORED && infos[i].posIndex == slot
  }

  /** Stored blocks and slots match one to one. */
  ghost predicate SlotsMatch(line: Cacheline) {
    && (forall i, j | 0 <= i < j < |line.infos| && line.infos[i].kind == STORED && line.infos[j].kind == STORED ::
          line.infos[i].posIndex != line.infos[j].posIndex)
    && (forall s: nat | s < |line.data| :: SlotUsed(line.infos, s))
  }

  predicate HasStored(infos: seq<BlockInfo>, fp: Fp) {
    exists i :: 0 <= i < |infos| && infos[i].kind == STORED && infos[i].compFp == fp
  }

  /** Entries of one fingerprint are all references to one line, or none is and one of them is stored. */
  ghost predicate GroupsAgree(infos: seq<BlockInfo>) {
    && (forall i, j | 0 <= i < |infos| && 0 <= j < |infos| && infos[i].compFp == infos[j].compFp &&
          infos[i].kind == REF :: infos[j].kind == REF && infos[j].external == infos[i].external)
    && (forall i | 0 <= i < |infos| && infos[i].kind != REF :: HasStored(infos, infos[i].compFp))
  }

  /** The bytes in a block's slot. */
  function SlotData(line: Cacheline, info: BlockInfo): seq<Byte> {
    if info.posIndex < |line.data| then line.data[info.posIndex] else []
  }

  /** Blocks stored under one fingerprint hold the same bytes. */
  ghost predicate Coherent(line: Cacheline) {
    forall i, j | 0 <= i < |line.infos| && 0 <= j < |line.infos| && line.infos[i].compFp == line.infos[j].compFp &&
      line.infos[i].kind == STORED && line.infos[j].kind == STORED ::
      SlotData(line, line.infos[i]) == SlotData(line, line.infos[j])
  }

  ghost predicate WellFormed(line: Cacheline, n: nat) {
    && WellLaidOut(line, n)
    && (forall i | 0 <= i < n :: GoodInfo(line.infos[i], |line.data|))
    && SlotsMatch(line) && GroupsAgree(line.infos) && Coherent(line)
  }

  // ----- building a line from a batch --------------------------------------------------------

  /** The data a batch stores in its line. */
  function FreshData(blocks: seq<DataBlock>): (data: seq<seq<Byte>>)
    ensures |data| <= |blocks|
  {
    if blocks == [] then []
    else
      var last := blocks[|blocks| - 1];
      FreshData(blocks[..|blocks| - 1]) + if last.compDuplicated then [] else [last.compData]
  }

  function InfoFor(b: DataBlock, slot: nat): BlockInfo {
    if b.compDuplicated
    then BlockInfo(b.compFp, b.rawFp, Trunc32(|b.rawData|), REF, NONE32, b.external)
    else BlockInfo(b.compFp, b.rawFp, Trunc32(|b.rawData|), STORED, Trunc32(slot), NONE64)
  }

  function InfosFor(blocks: seq<DataBlock>): (infos: seq<BlockInfo>)
    ensures |infos| == |blocks|
  {
    if blocks == [] then []
    else
      var front := blocks[..|blocks| - 1];
      InfosFor(front) + [InfoFor(blocks[|blocks| - 1], |FreshData(front)|)]
  }

  function LineOf(blocks: seq<DataBlock>): Cacheline {
    var data := FreshData(blocks);
    Cacheline(HeaderOf(|blocks|, Total(data)), InfosFor(blocks), LayoutOf(data, |blocks|), data)
  }

  function SlotLayout(data: seq<seq<Byte>>, j: nat): Layout {
    if j < |data| then Layout(Trunc32(Total(data[..j])), Trunc32(|data[j]|)) else NO_LAYOUT
  }

  lemma {:induction false} TotalGrows(data: seq<seq<Byte>>, d: seq<Byte>)
    ensures Total(data + [d]) == Total(data) + |d|
  {
    assert (data + [d])[..|data|] == data;
  }

  lemma {:induction false} SlotLayoutGrows(data: seq<seq<Byte>>, d: seq<Byte>, j: nat)
    ensures SlotLayout(data + [d], j) ==
            if j == |data| then Layout(Trunc32(Total(data)), Trunc32(|d|)) else SlotLayout(data, j)
  {
    hide Total, Trunc32;
    if j <= |data| {
      assert (data + [d])[..j] == data[..j];
      assert data[..|data|] == data;
    }
  }

  lemma {:induction false} LayoutGrows(data: seq<seq<Byte>>, d: seq<Byte>, n: nat)
    requires |data| < n
    ensures LayoutOf(data + [d], n) == LayoutOf(data, n)[|data| := Layout(Trunc32(Total(data)), Trunc32(|d|))]
    ensures LayoutOf(data + [d], |data| + 1) == LayoutOf(data, |data|) + [Layout(Trunc32(Total(data)), Trunc32(|d|))]
  {
    hide SlotLayout, Trunc32, Total;
    forall j: nat ensures SlotLayout(data + [d], j) ==
                          if j == |data| then Layout(Trunc32(Total(data)), Trunc32(|d|)) else SlotLayout(data, j) {
      SlotLayoutGrows(data, d, j);
    }
  }

  /** One loop round of `FromDataBlocks`. */
  lemma {:induction false} OneMoreBlock(blocks: seq<DataBlock>, b: DataBlock)
    ensures FreshData(blocks + [b]) == FreshData(blocks) + if b.compDuplicated then [] else [b.compData]
    ensures InfosFor(blocks + [b]) == InfosFor(blocks) + [InfoFor(b, |FreshData(blocks)|)]
  {
    assert (blocks + [b])[..|blocks|] == blocks;
  }

  method FromDataBlocks(blocks: seq<DataBlock>) returns (line: Cacheline)
    ensures line == LineOf(blocks)
  {
    hide Trunc32, Total, LayoutOf, FreshData, InfosFor;
    var dataLen := 0;
    var infos: seq<BlockInfo>, layout: seq<Layout>, data: seq<seq<Byte>> := [], [], [];
    EmptyLine();
    var i := 0;
    while i < |blocks|
      invariant 0 <= i <= |blocks|
      invariant data == FreshData(blocks[..i]) && infos == InfosFor(blocks[..i])
      invariant layout == LayoutOf(data, |data|) && dataLen == Total(data)
    {
      var b := blocks[i];
      assert blocks[..i + 1] == blocks[..i] + [b];
      OneMoreBlock(blocks[..i], b);
      if !b.compDuplicated {
        LayoutGrows(data, b.compData, |data| + 1);
        TotalGrows(data, b.compData);
        infos := infos + [BlockInfo(b.compFp, b.rawFp, Trunc32(|b.rawData|), STORED, Trunc32(|layout|), NONE64)];
        layout := layout + [Layout(Trunc32(dataLen), Trunc32(|b.compData|))];
        data := data + [b.compData];
        dataLen := dataLen + |b.compData|;
      } else {
        infos := infos + [BlockInfo(b.compFp, b.rawFp, Trunc32(|b.rawData|), REF, NONE32, b.external)];
      }
      i := i + 1;
    }
    assert blocks[..i] == blocks;
    layout := FillSpaces(layout, |infos| - |layout|, data);
    line := Cacheline(Header(HEADER_SIZE, Trunc32(INFO_SIZE * |blocks|), Trunc32(LAYOUT_SIZE * |blocks|),
                             Trunc32(dataLen), |blocks| % 256), infos, layout, data);
  }

  lemma {:induction false} EmptyLine()
    ensures FreshData([]) == [] && InfosFor([]) == [] && LayoutOf([], 0) == [] && Total([]) == 0
  {
  }

  /** Marks the slots without data. */
  method FillSpaces(used: seq<Layout>, spaces: int, ghost data: seq<seq<Byte>>) returns (layout: seq<Layout>)
    requires used == LayoutOf(data, |data|) && spaces >= 0
    ensures layout == LayoutOf(data, |data| + spaces)
  {
    hide Trunc32, Total;
    layout := used;
    var k := 0;
    while k < spaces
      invariant 0 <= k <= spaces && layout == LayoutOf(data, |data| + k)
    {
      layout := layout + [NO_LAYOUT];
      k := k + 1;
    }
  }
}
