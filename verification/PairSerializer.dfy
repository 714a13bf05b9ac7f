/** LZ77 pairs as a packed bit stream and back (src/compression/pair_serializer.cpp). */
module PairSerializer {
  import opened Wrappers
  import opened Bits
  import opened Bitstream
  import opened Words

  /** `dist == 0` is the literal `lit`; `dist > 0` copies `lit` bytes from `dist` back; (-1,-1) is an unused slot. */
  datatype LZ77Pair = LZ77Pair(dist: int, lit: int) {
    predicate Valid() { !(dist == -1 && lit == -1) }

    /** What the encoder asserts of a pair it writes. */
    predicate Encodable() {
      (dist == 0 && 0 <= lit <= 255) || (0 < dist < 32768 && 1 <= lit <= 256)
    }
  }

  predicate AllEncodable(pairs: seq<LZ77Pair>) {
    forall p | p in pairs :: p.Valid() ==> p.Encodable()
  }

  /** The pairs without the unused slots. */
  function ValidPairs(pairs: seq<LZ77Pair>): (r: seq<LZ77Pair>)
    ensures |r| <= |pairs|
  {
    if pairs == [] then []
    else if pairs[|pairs| - 1].Valid() then ValidPairs(pairs[..|pairs| - 1]) + [pairs[|pairs| - 1]]
    else ValidPairs(pairs[..|pairs| - 1])
  }

  /** What the encoder accepts: unused slots, literals of a byte, matches of up to 256 bytes at most 32767 back. */
  lemma {:induction false} Accepts(pairs: seq<LZ77Pair>)
    ensures AllEncodable(pairs) <==>
            forall p | p in pairs ::
              || (p.dist == -1 && p.lit == -1)
              || (p.dist == 0 && 0 <= p.lit <= 255)
              || (1 <= p.dist <= 32767 && 1 <= p.lit <= 256)
  {
  }

  /** Unused slots, and only they, leave no trace; the others stay in order. */
  lemma {:induction false} ValidPairsOfBoth(a: seq<LZ77Pair>, b: seq<LZ77Pair>)
    ensures ValidPairs(a + b) == ValidPairs(a) + ValidPairs(b)
    ensures forall p :: ValidPairs([p]) == if p.dist == -1 && p.lit == -1 then [] else [p]
    decreases |b|
  {
    forall p ensures ValidPairs([p]) == if p.dist == -1 && p.lit == -1 then [] else [p] {
      assert [p][..0] == [] && [] + [p] == [p];
    }
    if b == [] {
      assert a + b == a;
    } else {
      assert (a + b)[..|a + b| - 1] == a + b[..|b| - 1];
      ValidPairsOfBoth(a, b[..|b| - 1]);
    }
  }

  function PairBits(p: LZ77Pair): (bits: seq<bool>)
    requires p.Encodable()
    ensures |bits| == if p.dist == 0 then 9 else 25
  {
    if p.dist == 0 then Field(p.lit, 8) + [false]
    else Field(p.lit - 1, 8) + [true] + Field(p.dist, 16)
  }

  /** The encoded stream before padding. */
  function EncodedBits(pairs: seq<LZ77Pair>): (bits: seq<bool>)
    requires AllEncodable(pairs)
    ensures |bits| <= 25 * |pairs|
  {
    if pairs == [] then []
    else
      var last := pairs[|pairs| - 1];
      var before := EncodedBits(pairs[..|pairs| - 1]);
      if last.Valid() then before + PairBits(last) else before
  }

  /** The number written in a field of bits. */
  function Number(bits: seq<bool>): nat {
    if bits == [] then 0
    else 2 * Number(bits[..|bits| - 1]) + if bits[|bits| - 1] then 1 else 0
  }

  /** Pairs in front of what the rest of the stream decodes to. */
  function Onto(front: seq<LZ77Pair>, rest: Option<seq<LZ77Pair>>): Option<seq<LZ77Pair>> {
    match rest
    case None => None
    case Some(ps) => Some(front + ps)
  }

  /** Pairs are read while at least 9 bits are left; a pair cut short is a failed assertion. */
  function DecodedPairs(bits: seq<bool>): (r: Option<seq<LZ77Pair>>)
    decreases |bits|
  {
    if |bits| < 9 then Some([])
    else if !bits[8] then Onto([LZ77Pair(0, Number(bits[..8]))], DecodedPairs(bits[9..]))
    else if |bits| < 25 then None
    else Onto([LZ77Pair(Number(bits[9..25]), Number(bits[..8]) + 1)], DecodedPairs(bits[25..]))
  }

  lemma {:induction false} OntoNothing(rest: Option<seq<LZ77Pair>>)
    ensures Onto([], rest) == rest
  {
    if rest.Some? { assert [] + rest.value == rest.value; }
  }

  lemma {:induction false} OntoTwice(front: seq<LZ77Pair>, p: LZ77Pair, rest: Option<seq<LZ77Pair>>)
    ensures Onto(front, Onto([p], rest)) == Onto(front + [p], rest)
  {
    if rest.Some? { assert front + ([p] + rest.value) == front + [p] + rest.value; }
  }

  // ----- numbers and fields ------------------------------------------------------------------

  lemma {:induction false} NumberOfField(v: nat, n: nat)
    requires v < Shl(1, n)
    ensures Number(Field(v, n)) == v
  {
    if n > 0 {
      var bits := Field(v, n);
      forall j: nat | j < n - 1 ensures bits[j] == Field(v / 2, n - 1)[j] {
        assert Bit(v, n - 1 - j) == Bit(v / 2, n - 2 - j);
      }
      assert bits[..n - 1] == Field(v / 2, n - 1);
      NumberOfField(v / 2, n - 1);
      assert bits[n - 1] == Bit(v, 0);
    }
  }

  /** A number read from the buffer is the number of the bits it was read from. */
  lemma {:induction false} NumberOfBits(bits: seq<bool>, s: nat)
    ensures Bit(Number(bits), s) == (s < |bits| && bits[|bits| - 1 - s])
    decreases |bits|
  {
    if bits == [] {
      BitZero(s);
    } else {
      var front := bits[..|bits| - 1];
      assert Number(bits) / 2 == Number(front);
      if s > 0 { NumberOfBits(front, s - 1); }
    }
  }

  lemma {:induction false} ReadsNumber(r: nat, data: seq<Byte>, from: nat, to: nat)
    requires from <= to <= 8 * |data| && Reads(r, data, from, to)
    ensures r == Number(BitsOf(data)[from..to])
  {
    var bits := BitsOf(data)[from..to];
    forall s: nat ensures Bit(r, s) == Bit(Number(bits), s) {
      NumberOfBits(bits, s);
    }
    SameBits(r, Number(bits));
  }

  // ----- round trip --------------------------------------------------------------------------

  /** Decoding a stream that starts with one encoded pair yields that pair first. */
  lemma {:induction false} DecodesFirst(p: LZ77Pair, rest: seq<bool>)
    requires p.Encodable()
    ensures DecodedPairs(PairBits(p) + rest) == Onto([p], DecodedPairs(rest))
  {
    hide Field, Number, Onto;
    var bits := PairBits(p) + rest;
    assert Shl(1, 8) == 256 && Shl(1, 16) == 65536;
    if p.dist == 0 {
      assert bits[..8] == Field(p.lit, 8) && bits[9..] == rest;
      NumberOfField(p.lit, 8);
    } else {
      assert bits[..8] == Field(p.lit - 1, 8) && bits[9..25] == Field(p.dist, 16) && bits[25..] == rest;
      NumberOfField(p.lit - 1, 8);
      NumberOfField(p.dist, 16);
    }
  }

  lemma {:induction false} DecodesAll(pairs: seq<LZ77Pair>, tail: seq<bool>)
    requires AllEncodable(pairs)
    ensures DecodedPairs(EncodedBits(pairs) + tail) == Onto(ValidPairs(pairs), DecodedPairs(tail))
    decreases |pairs|
  {
    hide DecodedPairs, PairBits, Onto;
    if pairs == [] {
      assert EncodedBits(pairs) + tail == tail;
      OntoNothing(DecodedPairs(tail));
    } else {
      var p, front := pairs[|pairs| - 1], pairs[..|pairs| - 1];
      if p.Valid() {
        DecodesAll(front, PairBits(p) + tail);
        DecodesFirst(p, tail);
        OntoTwice(ValidPairs(front), p, DecodedPairs(tail));
        assert EncodedBits(front) + (PairBits(p) + tail) == EncodedBits(pairs) + tail;
      } else {
        DecodesAll(front, tail);
      }
    }
  }

  /** `data` is the packed form of `pairs`: the encoded bits, then fewer than 8 zero bits up to a byte boundary. */
  ghost predicate Encodes(data: seq<Byte>, pairs: seq<LZ77Pair>)
    requires AllEncodable(pairs)
  {
    var bits := EncodedBits(pairs);
    && |bits| <= 8 * |data| < |bits| + 8
    && BitsOf(data)[..|bits|] == bits
    && forall i: nat | |bits| <= i < 8 * |data| :: !BitAt(data, i)
  }

  /** The packed form is unique: equal pairs give equal bytes. */
  lemma {:induction false} EncodingIsUnique(a: seq<Byte>, b: seq<Byte>, pairs: seq<LZ77Pair>)
    requires AllEncodable(pairs) && Encodes(a, pairs) && Encodes(b, pairs)
    ensures a == b
  {
    assert |a| == |b|;
    forall j: nat | j < |a| ensures a[j] == b[j] {
      forall s: nat ensures Bit(a[j], s) == Bit(b[j], s) {
        if s < 8 {
          var i := 8 * j + 7 - s;
          assert i / 8 == j && i % 8 == 7 - s;
          assert BitsOf(a)[i] == BitAt(a, i) && BitsOf(b)[i] == BitAt(b, i);
          if i < |EncodedBits(pairs)| {
            assert BitsOf(a)[i] == BitsOf(a)[..|EncodedBits(pairs)|][i];
            assert BitsOf(b)[i] == BitsOf(b)[..|EncodedBits(pairs)|][i];
          }
        } else {
          assert Shl(1, 8) == 256;
          HighBitsClear(a[j], 8, s);
          HighBitsClear(b[j], 8, s);
        }
      }
      SameBits(a[j], b[j]);
    }
  }

  /** Bit `i` of a stream padded with zeros. */
  predicate PaddedBit(bits: seq<bool>, i: nat) {
    i < |bits| && bits[i]
  }

  /** The byte that shows eight bits of a padded stream. */
  function PackedByte(bits: seq<bool>, j: nat): Byte {
    var eight := seq(8, k requires 0 <= k < 8 => PaddedBit(bits, 8 * j + k));
    NumberBound(eight);
    assert Shl(1, 8) == 256;
    Number(eight)
  }

  lemma {:induction false} NumberBound(bits: seq<bool>)
    ensures Number(bits) < Shl(1, |bits|)
    decreases |bits|
  {
    if bits != [] {
      NumberBound(bits[..|bits| - 1]);
    }
  }

  /** The packed form of a list of pairs. */
  function Packed(pairs: seq<LZ77Pair>): (data: seq<Byte>)
    requires AllEncodable(pairs)
    ensures |data| == (|EncodedBits(pairs)| + 7) / 8
  {
    var bits := EncodedBits(pairs);
    seq((|bits| + 7) / 8, j requires 0 <= j => PackedByte(bits, j))
  }

  lemma {:induction false} PackedEncodes(pairs: seq<LZ77Pair>)
    requires AllEncodable(pairs)
    ensures Encodes(Packed(pairs), pairs)
  {
    var bits, data := EncodedBits(pairs), Packed(pairs);
    forall i: nat | i < 8 * |data| ensures BitAt(data, i) == PaddedBit(bits, i) {
      var j, k := i / 8, i % 8;
      var eight := seq(8, k requires 0 <= k < 8 => PaddedBit(bits, 8 * j + k));
      assert data[j] == Number(eight);
      NumberOfBits(eight, 7 - k);
      assert 8 * j + k == i;
    }
    assert BitsOf(data)[..|bits|] == bits;
  }

  /** Decoding what was encoded gives back the pairs; the padding is never read as one. */
  lemma {:induction false} EncodeDecode(pairs: seq<LZ77Pair>)
    requires AllEncodable(pairs)
    ensures DecodedPairs(BitsOf(Packed(pairs))) == Some(ValidPairs(pairs))
  {
    var bits, data := EncodedBits(pairs), Packed(pairs);
    PackedEncodes(pairs);
    var padding := BitsOf(data)[|bits|..];
    assert BitsOf(data) == bits + padding;
    assert |padding| < 9;
    DecodesAll(pairs, padding);
    assert ValidPairs(pairs) + [] == ValidPairs(pairs);
  }

  /** A stream of encoded pairs with fewer than nine bits behind them gives these pairs; it fails if a match begins in
      what is behind them and is cut off. */
  lemma {:induction false} CutOffFails(pairs: seq<LZ77Pair>, rest: seq<bool>)
    requires AllEncodable(pairs) && |rest| < 25 && (|rest| >= 9 ==> rest[8])
    ensures DecodedPairs(EncodedBits(pairs) + rest) == if |rest| < 9 then Some(ValidPairs(pairs)) else None
  {
    hide EncodedBits;
    DecodesAll(pairs, rest);
    assert ValidPairs(pairs) + [] == ValidPairs(pairs);
  }

  // ----- the bytes ---------------------------------------------------------------------------

  lemma {:induction false} NumberOfBoth(a: seq<bool>, b: seq<bool>)
    ensures Number(a + b) == Number(a) * Shl(1, |b|) + Number(b)
    decreases |b|
  {
    if b == [] {
      assert a + b == a;
    } else {
      var front := b[..|b| - 1];
      assert (a + b)[..|a + b| - 1] == a + front;
      NumberOfBoth(a, front);
      assert Number(a) * Shl(1, |b|) == 2 * (Number(a) * Shl(1, |front|)) by { TwiceTimes(Number(a), Shl(1, |front|)); }
    }
  }

  lemma {:induction false} TwiceTimes(a: nat, b: nat)
    ensures a * (2 * b) == 2 * (a * b)
  {
  }

  lemma {:induction false} NumberOfZeros(bits: seq<bool>)
    requires forall i | 0 <= i < |bits| :: !bits[i]
    ensures Number(bits) == 0
    decreases |bits|
  {
    if bits != [] { NumberOfZeros(bits[..|bits| - 1]); }
  }

  lemma {:induction false} EightBits(bits: seq<bool>, j: nat, eight: seq<bool>)
    requires |eight| == 8 && forall k: nat | k < 8 :: eight[k] == PaddedBit(bits, 8 * j + k)
    ensures PackedByte(bits, j) == Number(eight)
  {
    assert eight == seq(8, k requires 0 <= k < 8 => PaddedBit(bits, 8 * j + k));
  }

  /** The bytes of a literal: the byte itself, then the flag bit, which is zero like the padding behind it. */
  lemma {:induction false} LiteralBytes(lit: Byte)
    ensures Packed([LZ77Pair(0, lit)]) == [lit, 0]
  {
    hide Number, Field, PackedByte;
    var pairs := [LZ77Pair(0, lit)];
    assert pairs[..0] == [];
    var bits := EncodedBits(pairs);
    assert bits == Field(lit, 8) + [false];
    EightBits(bits, 0, Field(lit, 8));
    assert Shl(1, 8) == 256;
    NumberOfField(lit, 8);
    var none := seq(8, _ => false);
    EightBits(bits, 1, none);
    NumberOfZeros(none);
  }

  /** The three numbers that make up a field of sixteen bits cut at the seventh and fifteenth. */
  lemma {:induction false} SixteenBits(v: nat)
    requires v < 65536
    ensures var f := Field(v, 16);
            Number(f[..7]) == v / 512 && Number(f[7..15]) == v / 2 % 256 && Number(f[15..]) == v % 2
  {
    hide Number, Field;
    var f := Field(v, 16);
    assert Shl(1, 16) == 65536 && Shl(1, 9) == 512 && Shl(1, 8) == 256 && Shl(1, 1) == 2;
    NumberOfField(v, 16);
    NumberOfBoth(f[..7], f[7..]);
    NumberOfBoth(f[7..15], f[15..]);
    assert f == f[..7] + f[7..] && f[7..] == f[7..15] + f[15..];
    NumberBound(f[7..15]);
    NumberBound(f[15..]);
    Digits(v, Number(f[..7]), Number(f[7..15]), Number(f[15..]));
  }

  lemma {:induction false} Digits(v: nat, x: nat, y: nat, z: nat)
    requires v == x * 512 + (y * 2 + z) && y < 256 && z < 2
    ensures x == v / 512 && y == v / 2 % 256 && z == v % 2
  {
    HalfOf(v, x * 256 + y, z);
    LastDigit(v / 2, x, y);
  }

  lemma {:induction false} HalfOf(v: nat, h: nat, z: nat)
    requires v == 2 * h + z && z < 2
    ensures v / 2 == h && v % 2 == z && v / 512 == h / 256
  {
  }

  lemma {:induction false} LastDigit(h: nat, x: nat, y: nat)
    requires h == x * 256 + y && y < 256
    ensures h / 256 == x && h % 256 == y
  {
  }

  lemma {:induction false} MatchBits(dist: nat, len: nat)
    requires 1 <= dist < 32768 && 1 <= len <= 256
    ensures EncodedBits([LZ77Pair(dist, len)]) == Field(len - 1, 8) + [true] + Field(dist, 16)
  {
    hide Field;
    assert [LZ77Pair(dist, len)][..0] == [];
  }

  /** The four bytes of a stream of 25 bits. */
  lemma {:induction false} FourBytes(bits: seq<bool>, head: seq<bool>, f: seq<bool>)
    requires bits == head + [true] + f && |head| == 8 && |f| == 16
    ensures PackedByte(bits, 0) == Number(head) && PackedByte(bits, 1) == 128 + Number(f[..7])
    ensures PackedByte(bits, 2) == Number(f[7..15]) && PackedByte(bits, 3) == Number(f[15..]) * 128
  {
    hide Number, PackedByte;
    assert Shl(1, 7) == 128;
    EightBits(bits, 0, head);
    EightBits(bits, 1, [true] + f[..7]);
    NumberOfBoth([true], f[..7]);
    OneBit(true);
    EightBits(bits, 2, f[7..15]);
    var none := seq(7, _ => false);
    EightBits(bits, 3, f[15..] + none);
    NumberOfBoth(f[15..], none);
    NumberOfZeros(none);
  }

  /** The bytes of a match: its length less one, then the flag bit, which is one, and the distance, all from the
      left. */
  lemma {:induction false} MatchBytes(dist: nat, len: nat)
    requires 1 <= dist < 32768 && 1 <= len <= 256
    ensures Packed([LZ77Pair(dist, len)]) == [len - 1, 128 + dist / 512, dist / 2 % 256, dist % 2 * 128]
  {
    hide Number, Field, PackedByte, EncodedBits;
    assert Shl(1, 8) == 256;
    NumberOfField(len - 1, 8);
    MatchBits(dist, len);
    FourBytes(EncodedBits([LZ77Pair(dist, len)]), Field(len - 1, 8), Field(dist, 16));
    SixteenBits(dist);
  }

  lemma {:induction false} OneBit(b: bool)
    ensures Number([b]) == if b then 1 else 0
  {
    assert [b][..0] == [];
  }

  // ----- the imperative codec ----------------------------------------------------------------

  method PutPair(w: BitstreamWriter, p: LZ77Pair)
    requires w.Valid() && p.Encodable() && w.count + 25 <= 8 * w.data.Length
    modifies w`offset, w`count, w.data
    ensures w.Valid() && w.count == old(w.count) + |PairBits(p)|
    ensures w.count < W32 ==> w.Written() == old(w.Written()) + PairBits(p)
  {
    var d, l := p.dist, p.lit;
    if d > 0 { l := l - 1; }
    w.Put(8, l);
    w.Put(1, if d > 0 then 1 else 0);
    assert Field(1, 1)[0] == Bit(1, 0) && Field(0, 1)[0] == Bit(0, 0);
    assert Field(1, 1) == [true] && Field(0, 1) == [false];
    if d > 0 {
      w.Put(16, d);
    }
  }

  /** `None` is the failed assertion on a pair that does not fit its fields. From 2^32 bits on the position starts over,
      and only what comes after that is counted: the result is right exactly below. */
  method EncodeLz77(pairs: seq<LZ77Pair>) returns (r: Option<seq<Byte>>)
    ensures r.Some? <==> AllEncodable(pairs)
    ensures r.Some? ==> |r.value| == (|EncodedBits(pairs)| % W32 + 7) / 8
    ensures r.Some? ==> (r.value == Packed(pairs) <==> |EncodedBits(pairs)| < W32)
  {
    hide PairBits;
    var buffer := new Byte[4 * |pairs|](_ => 0);
    var w := new BitstreamWriter(buffer);
    var i := 0;
    while i < |pairs|
      invariant 0 <= i <= |pairs| && fresh(w) && fresh(buffer) && w.data == buffer && w.Valid()
      invariant AllEncodable(pairs[..i]) && w.count == |EncodedBits(pairs[..i])|
      invariant w.count < W32 ==> w.Written() == EncodedBits(pairs[..i])
    {
      var p := pairs[i];
      assert pairs[..i + 1][..i] == pairs[..i];
      if p.Valid() {
        if !p.Encodable() {
          assert p in pairs;
          return None;
        }
        PutPair(w, p);
      }
      i := i + 1;
    }
    assert pairs[..i] == pairs;
    var len := if w.offset % 8 == 0 then w.offset / 8 else w.offset / 8 + 1;
    WrapIsLess(w.count);
    var data := buffer[..len];
    if w.count < W32 {
      WrapIsSame(w.count);
      PackedIs(pairs, buffer[..], data);
    }
    r := Some(data);
  }

  /** The bytes up to the write position are the packed form. */
  lemma {:induction false} PackedIs(pairs: seq<LZ77Pair>, buffer: seq<Byte>, data: seq<Byte>)
    requires AllEncodable(pairs) && |EncodedBits(pairs)| <= 8 * |buffer|
    requires var n := |EncodedBits(pairs)|;
             && BitsOf(buffer)[..n] == EncodedBits(pairs) && (n + 7) / 8 <= |buffer| && data == buffer[..(n + 7) / 8]
             && forall i: nat | n <= i < 8 * |buffer| :: !BitAt(buffer, i)
    ensures data == Packed(pairs)
  {
    var n := |EncodedBits(pairs)|;
    forall j: nat | j < 8 * |data| ensures BitAt(data, j) == BitAt(buffer, j) { }
    assert BitsOf(data)[..n] == BitsOf(buffer)[..n];
    PackedEncodes(pairs);
    EncodingIsUnique(data, Packed(pairs), pairs);
  }

  /** One pair off the front of the bits left before `total`. */
  method GetPair(reader: BitstreamReader, total: nat) returns (r: Option<LZ77Pair>)
    requires reader.offset + 9 <= total <= 8 * |reader.data| && total < W32
    modifies reader`offset
    ensures var left := BitsOf(reader.data)[old(reader.offset)..total];
            if !left[8] then r == Some(LZ77Pair(0, Number(left[..8]))) && reader.offset == old(reader.offset) + 9
            else if |left| < 25 then r == None
            else r == Some(LZ77Pair(Number(left[9..25]), Number(left[..8]) + 1)) &&
                 reader.offset == old(reader.offset) + 25
  {
    hide Reads, BitAt;
    ghost var data, from := reader.data, reader.offset;
    ghost var all := BitsOf(data);
    ghost var left := all[from..total];
    var lit := reader.Get(8);
    WrapIsSame(from + 8);
    ReadsNumber(lit, data, from, from + 8);
    assert left[..8] == all[from..from + 8];
    var flag := reader.Get(1);
    WrapIsSame(from + 9);
    ReadsNumber(flag, data, from + 8, from + 9);
    assert all[from + 8..from + 9] == [left[8]];
    assert Number([left[8]]) == if left[8] then 1 else 0;
    if flag == 0 {
      return Some(LZ77Pair(0, lit));
    }
    if total - reader.offset < 16 {
      return None;
    }
    var dist := reader.Get(16);
    WrapIsSame(from + 25);
    ReadsNumber(dist, data, from + 9, from + 25);
    assert left[9..25] == all[from + 9..from + 25];
    return Some(LZ77Pair(dist, lit + 1));
  }

  /** The bits of a byte string a 32-bit count makes out. */
  function CountedBits(data: seq<Byte>): (bits: seq<bool>)
    ensures |bits| == (8 * |data|) % W32
  {
    WrapIsLess(8 * |data|);
    BitsOf(data)[..(8 * |data|) % W32]
  }

  /** `None` is the failed assertion on a pair cut short. */
  method DecodeLz77(data: seq<Byte>) returns (r: Option<seq<LZ77Pair>>)
    ensures r == DecodedPairs(CountedBits(data))
  {
    var reader := new BitstreamReader(data);
    var res: seq<LZ77Pair> := [];
    var total := (|data| % W32 * 8) % W32;
    TotalBits(|data|);
    WrapIsLess(8 * |data|);
    ghost var all := CountedBits(data);
    OntoNothing(DecodedPairs(all));
    assert all[0..] == all;
    while total - reader.offset >= 9
      invariant fresh(reader) && reader.data == data && reader.offset <= total
      invariant DecodedPairs(all) == Onto(res, DecodedPairs(all[reader.offset..]))
    {
      ghost var from := reader.offset;
      var p := GetPair(reader, total);
      assert BitsOf(data)[from..total] == all[from..];
      if p == None {
        return None;
      }
      assert all[from..][reader.offset - from..] == all[reader.offset..];
      OntoTwice(res, p.value, DecodedPairs(all[reader.offset..]));
      res := res + [p.value];
    }
    assert res + [] == res;
    r := Some(res);
  }

  lemma {:induction false} TotalBits(n: nat)
    ensures (n % W32 * 8) % W32 == (8 * n) % W32
  {
    var q := n / W32;
    assert n == q * W32 + n % W32;
    assert 8 * n == 8 * q * W32 + n % W32 * 8;
    WrapMultiple(8 * q, n % W32 * 8);
  }

  lemma {:induction false} WrapMultiple(q: nat, a: nat)
    ensures (q * W32 + a) % W32 == a % W32
  {
  }

  lemma {:induction false} AllCounted(data: seq<Byte>)
    requires 8 * |data| < W32
    ensures CountedBits(data) == BitsOf(data)
  {
    WrapIsSame(8 * |data|);
  }

  /** What the codec gives back, with its 32-bit counts: the pairs exactly if their bits, rounded up to bytes, are fewer
      than 2^32. */
  lemma {:induction false} CodecRoundTrip(pairs: seq<LZ77Pair>)
    requires AllEncodable(pairs) && |EncodedBits(pairs)| < W32
    ensures DecodedPairs(CountedBits(Packed(pairs))) == Some(ValidPairs(pairs)) <==> |EncodedBits(pairs)| <= W32 - 8
  {
    hide DecodedPairs, EncodedBits, BitsOf, ValidPairs, Packed;
    var n, data := |EncodedBits(pairs)|, Packed(pairs);
    PackedLength(pairs);
    if n <= W32 - 8 {
      AllCounted(data);
      EncodeDecode(pairs);
    } else {
      assert 8 * |data| == W32;
      assert CountedBits(data) == [];
      NothingDecoded(pairs);
    }
  }

  lemma {:induction false} PackedLength(pairs: seq<LZ77Pair>)
    requires AllEncodable(pairs)
    ensures |Packed(pairs)| == (|EncodedBits(pairs)| + 7) / 8
  {
  }

  lemma {:induction false} NothingDecoded(pairs: seq<LZ77Pair>)
    requires AllEncodable(pairs) && |EncodedBits(pairs)| > 0
    ensures DecodedPairs([]) == Some([]) && ValidPairs(pairs) != []
    decreases |pairs|
  {
    if !pairs[|pairs| - 1].Valid() { NothingDecoded(pairs[..|pairs| - 1]); }
  }
}
