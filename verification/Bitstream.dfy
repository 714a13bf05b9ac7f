/** Unaligned bit fields in a byte buffer, most significant bit first (third/bitstream.h). */
module Bitstream {
  import opened Bits
  import opened Words

  /** Bit `k` of a byte, counted from the left. */
  predicate LeftBit(x: nat, k: nat)
    requires k < 8
  {
    Bit(x, 7 - k)
  }

  /** Bit `i` of a buffer, counted from the first bit of its first byte. */
  predicate BitAt(data: seq<Byte>, i: nat)
    requires i < 8 * |data|
  {
    LeftBit(data[i / 8], i % 8)
  }

  function BitsOf(data: seq<Byte>): (bits: seq<bool>)
    ensures |bits| == 8 * |data|
  {
    seq(8 * |data|, i requires 0 <= i < 8 * |data| => BitAt(data, i))
  }

  /** The low `n` bits of `v`, most significant first. */
  function Field(v: nat, n: nat): (bits: seq<bool>)
    ensures |bits| == n
  {
    seq(n, j requires 0 <= j < n => Bit(v, n - 1 - j))
  }

  /** Seen from the left, byte `x` holds the `m` bits of `v` from bit `top` down, at offset `o`, and nothing else. */
  ghost predicate Piece(x: nat, o: nat, m: nat, v: nat, top: nat)
    requires o + m <= 8 && m <= top + 1
  {
    forall k: nat | k < 8 :: LeftBit(x, k) == (o <= k < o + m && Bit(v, top - (k - o)))
  }

  /** A byte with `length` bits set from bit `from` on, counted from the left. */
  method Mask(from: nat, length: nat) returns (res: Byte)
    requires from + length <= 8
    ensures forall s: nat :: Bit(res, s) == (8 - (from + length) <= s < 8 - from)
  {
    res := 0;
    var i := 0;
    forall s: nat ensures !Bit(0, s) { BitZero(s); }
    while i < length
      invariant 0 <= i <= length
      invariant forall s: nat :: Bit(res, s) == (s < i)
    {
      var next := ToByte(Or(res, Shl(1, i)));
      forall s: nat ensures Bit(next, s) == (s < i + 1) {
        BitLow(Or(res, Shl(1, i)), 8, s);
        BitOr(res, Shl(1, i), s);
        BitShl(1, i, s);
        if s > i { HighBitsClear(1, 1, s - i); }
      }
      res := next;
      i := i + 1;
    }
    var shifted := ToByte(Shl(res, 8 - (from + length)));
    forall s: nat ensures Bit(shifted, s) == (8 - (from + length) <= s < 8 - from) {
      BitLow(Shl(res, 8 - (from + length)), 8, s);
      BitShl(res, 8 - (from + length), s);
    }
    res := shifted;
  }

  // ----- the pieces `put` computes -----------------------------------------------------------

  lemma {:induction false} PieceWithin(v: nat, n: nat, o: nat)
    requires 1 <= n && o + n <= 8
    ensures Piece(Shl(And(v, Ones(n)), 8 - o - n), o, n, v, n - 1)
  {
    var x := Shl(And(v, Ones(n)), 8 - o - n);
    forall k: nat | k < 8
      ensures LeftBit(x, k) == (o <= k < o + n && Bit(v, n - 1 - (k - o)))
    {
      BitShl(And(v, Ones(n)), 8 - o - n, 7 - k);
      if k < o + n {
        BitAnd(v, Ones(n), n - 1 + o - k);
        BitOnes(n, n - 1 + o - k);
      }
    }
  }

  lemma {:induction false} PieceHead(v: nat, n: nat, o: nat, m: Byte)
    requires o < 8 && 8 - o < n
    requires forall s: nat :: Bit(m, s) == (s < 8 - o)
    ensures Piece(And(Shr(v, n - (8 - o)), m), o, 8 - o, v, n - 1)
  {
    var x := And(Shr(v, n - (8 - o)), m);
    forall k: nat | k < 8
      ensures LeftBit(x, k) == (o <= k < o + (8 - o) && Bit(v, n - 1 - (k - o)))
    {
      BitAnd(Shr(v, n - (8 - o)), m, 7 - k);
      BitShr(v, n - (8 - o), 7 - k);
    }
  }

  lemma {:induction false} PieceMiddle(v: nat, left: nat)
    requires 8 < left
    ensures Piece(Shr(v, left - 8), 0, 8, v, left - 1)
  {
    var x := Shr(v, left - 8);
    forall k: nat | k < 8 ensures LeftBit(x, k) == Bit(v, left - 1 - (k - 0)) {
      BitShr(v, left - 8, 7 - k);
    }
  }

  lemma {:induction false} PieceTail(v: nat, left: nat, m: Byte)
    requires 0 < left <= 8
    requires forall s: nat :: Bit(m, s) == (8 - left <= s < 8)
    ensures Piece(And(Shl(v, 8 - left), m), 0, left, v, left - 1)
  {
    var x := And(Shl(v, 8 - left), m);
    forall k: nat | k < 8
      ensures LeftBit(x, k) == (0 <= k < 0 + left && Bit(v, left - 1 - (k - 0)))
    {
      BitAnd(Shl(v, 8 - left), m, 7 - k);
      BitShl(v, 8 - left, 7 - k);
    }
  }

  /** Or-ing a piece into a byte adds exactly its bits. */
  lemma {:induction false} OrByte(b: Byte, x: nat, o: nat, m: nat, v: nat, top: nat, k: nat)
    requires o + m <= 8 && m <= top + 1 && Piece(x, o, m, v, top) && k < 8
    ensures LeftBit(ToByte(Or(b, x)), k) == (LeftBit(b, k) || (o <= k < o + m && Bit(v, top - (k - o))))
  {
    BitLow(Or(b, x), 8, 7 - k);
    BitOr(b, x, 7 - k);
    assert LeftBit(x, k) == (o <= k < o + m && Bit(v, top - (k - o)));
  }

  /** `data'` is `data` with bits `from .. from + m` also set where `v`, from bit `top` down, has them set. */
  ghost predicate Merged(data: seq<Byte>, data': seq<Byte>, from: nat, m: nat, v: nat, top: nat)
    requires m <= top + 1
  {
    |data'| == |data| &&
    forall i: nat | i < 8 * |data| ::
      BitAt(data', i) == (BitAt(data, i) || (from <= i < from + m && Bit(v, top - (i - from))))
  }

  lemma {:induction false} OrPiece(data: seq<Byte>, index: nat, x: nat, o: nat, m: nat, v: nat, top: nat)
    requires index < |data| && o + m <= 8 && m <= top + 1 && Piece(x, o, m, v, top)
    ensures Merged(data, data[index := ToByte(Or(data[index], x))], 8 * index + o, m, v, top)
  {
    var data' := data[index := ToByte(Or(data[index], x))];
    var from := 8 * index + o;
    forall i: nat | i < 8 * |data|
      ensures BitAt(data', i) == (BitAt(data, i) || (from <= i < from + m && Bit(v, top - (i - from))))
    {
      var k := i % 8;
      assert i == 8 * (i / 8) + k;
      if i / 8 == index {
        assert i - from == k - o;
        OrByte(data[index], x, o, m, v, top, k);
      } else {
        assert data'[i / 8] == data[i / 8];
      }
    }
  }

  lemma {:induction false} MergedTwice(a: seq<Byte>, b: seq<Byte>, c: seq<Byte>, from: nat, m: nat, next: nat, v: nat,
                                       top: nat)
    requires next >= 1 && m + next <= top + 1
    requires Merged(a, b, from, m, v, top) && Merged(b, c, from + m, next, v, top - m)
    ensures Merged(a, c, from, m + next, v, top)
  {
    forall i: nat | i < 8 * |a|
      ensures BitAt(c, i) == (BitAt(a, i) || (from <= i < from + (m + next) && Bit(v, top - (i - from))))
    {
      assert BitAt(c, i) ==
             (BitAt(b, i) || (from + m <= i < from + m + next && Bit(v, (top - m) - (i - (from + m)))));
    }
  }

  /** Merging a field into clear bits appends it to what stands before. */
  lemma {:induction false} MergedAppends(data: seq<Byte>, data': seq<Byte>, from: nat, n: nat, v: nat)
    requires 1 <= n && from + n <= 8 * |data| && Merged(data, data', from, n, v, n - 1)
    requires forall i: nat | from <= i < 8 * |data| :: !BitAt(data, i)
    ensures BitsOf(data')[..from + n] == BitsOf(data)[..from] + Field(v, n)
    ensures forall i: nat | from + n <= i < 8 * |data'| :: !BitAt(data', i)
  {
    forall i: nat | i < from + n
      ensures BitsOf(data')[..from + n][i] == (BitsOf(data)[..from] + Field(v, n))[i]
    {
      assert BitAt(data', i) == (BitAt(data, i) || (from <= i && Bit(v, n - 1 - (i - from))));
    }
  }

  /** The write position is counted in 32 bits, and starts over when they are used up. */
  class BitstreamWriter {
    const data: array<Byte>
    var offset: U32
    /** How many bits were put. */
    ghost var count: nat

    /** While the position has not started over, everything past it is still zero. */
    ghost predicate Valid()
      reads this, data
    {
      && count <= 8 * data.Length && offset == count % W32
      && (count < W32 ==> forall i: nat | count <= i < 8 * data.Length :: !BitAt(data[..], i))
    }

    ghost function Written(): (bits: seq<bool>)
      requires Valid()
      reads this, data
      ensures |bits| == count
    {
      BitsOf(data[..])[..count]
    }

    constructor (buffer: array<Byte>)
      modifies buffer
      ensures Valid() && data == buffer && Written() == []
    {
      data := buffer;
      offset, count := 0, 0;
      new;
      forall i | 0 <= i < buffer.Length { buffer[i] := 0; }
      forall i: nat | i < 8 * data.Length ensures !BitAt(data[..], i) { BitZero(7 - i % 8); }
    }

    method OrInto(index: nat, x: nat, ghost o: nat, ghost m: nat, ghost v: nat, ghost top: nat)
      requires index < data.Length && o + m <= 8 && m <= top + 1 && Piece(x, o, m, v, top)
      modifies data
      ensures Merged(old(data[..]), data[..], 8 * index + o, m, v, top)
    {
      OrPiece(data[..], index, x, o, m, v, top);
      ghost var before := data[..];
      data[index] := ToByte(Or(data[index], x));
      assert data[..] == before[index := ToByte(Or(before[index], x))];
    }

    /** The next byte's share of the `left` bits of `value` still to be written. */
    method PutByte(index: nat, value: nat, left: nat, take: nat)
      requires index < data.Length && 0 < left && take == if left <= 8 then left else 8
      modifies data
      ensures Merged(old(data[..]), data[..], 8 * index, take, value, left - 1)
    {
      if left <= 8 {
        var tail := Mask(0, left);
        PieceTail(value, left, tail);
        OrInto(index, And(Shl(value, 8 - left), tail), 0, left, value, left - 1);
      } else {
        PieceMiddle(value, left);
        OrInto(index, Shr(value, left - 8), 0, 8, value, left - 1);
      }
    }

    /** A field that runs over the end of its first byte. */
    method PutAcross(n: nat, value: nat)
      requires offset + n <= 8 * data.Length && offset % 8 + n > 8
      modifies this`offset, data
      ensures offset == (old(offset) + n) % W32
      ensures Merged(old(data[..]), data[..], old(offset), n, value, n - 1)
    {
      hide Merged, Piece, Bit;
      ghost var before, start, done := data[..], offset, 8 - offset % 8;
      var index := offset / 8;
      var offsetInByte := offset % 8;
      var spaceLeftInFirstByte := 8 - offsetInByte;
      var remainingBits := n - spaceLeftInFirstByte;
      var m := Mask(offsetInByte, spaceLeftInFirstByte);
      PieceHead(value, n, offsetInByte, m);
      OrInto(index, And(Shr(value, n - spaceLeftInFirstByte), m), offsetInByte, spaceLeftInFirstByte, value, n - 1);
      index := index + 1;
      offset := (offset + spaceLeftInFirstByte) % W32;
      while remainingBits > 0
        invariant 0 <= remainingBits < n && done + remainingBits == n && offset == (start + done) % W32
        invariant remainingBits > 0 ==> start + done == 8 * index
        invariant Merged(before, data[..], start, done, value, n - 1)
      {
        ghost var now := data[..];
        var take := if remainingBits <= 8 then remainingBits else 8;
        PutByte(index, value, remainingBits, take);
        MergedTwice(before, now, data[..], start, done, take, value, n - 1);
        index := index + 1;
        WrapTwice(start + done, take);
        offset := (offset + take) % W32;
        done := done + take;
        remainingBits := remainingBits - take;
      }
    }

    /** Appends the low `n` bits of `value`, as long as the position does not start over. */
    method Put(n: nat, value: nat)
      requires Valid() && n >= 1 && count + n <= 8 * data.Length
      modifies this`offset, this`count, data
      ensures Valid() && count == old(count) + n
      ensures count < W32 ==> Written() == old(Written()) + Field(value, n)
    {
      ghost var before, start := data[..], offset;
      WrapIsLess(count);
      if n <= 8 - offset % 8 {
        PieceWithin(value, n, offset % 8);
        OrInto(offset / 8, Shl(And(value, Ones(n)), 8 - offset % 8 - n), offset % 8, n, value, n - 1);
        offset := (offset + n) % W32;
      } else {
        PutAcross(n, value);
      }
      WrapTwice(count, n);
      count := count + n;
      if count < W32 {
        WrapIsSame(old(count));
        MergedAppends(before, data[..], start, n, value);
      }
    }
  }

  lemma {:induction false} WrapTwice(a: nat, b: nat)
    ensures (a % W32 + b) % W32 == (a + b) % W32
  {
  }

  lemma {:induction false} WrapIsLess(a: nat)
    ensures a % W32 <= a
  {
  }

  lemma {:induction false} WrapIsSame(a: nat)
    requires a < W32
    ensures a % W32 == a
  {
  }

  /** `r` is the number whose bits are bits `from .. to` of the buffer. */
  ghost predicate Reads(r: nat, data: seq<Byte>, from: nat, to: nat)
    requires from <= to <= 8 * |data|
  {
    forall s: nat :: Bit(r, s) == (s < to - from && BitAt(data, to - 1 - s))
  }

  /** The byte under a mask, shifted down to bit 0. */
  lemma {:induction false} ReadPiece(data: seq<Byte>, index: nat, o: nat, m: nat, mask: Byte)
    requires index < |data| && o + m <= 8
    requires forall s: nat :: Bit(mask, s) == (8 - (o + m) <= s < 8 - o)
    ensures Reads(Shr(And(data[index], mask), 8 - (o + m)), data, 8 * index + o, 8 * index + o + m)
  {
    var b, r, to := And(data[index], mask), Shr(And(data[index], mask), 8 - (o + m)), 8 * index + o + m;
    forall s: nat ensures Bit(r, s) == (s < m && BitAt(data, to - 1 - s)) {
      BitShr(b, 8 - (o + m), s);
      BitAnd(data[index], mask, s + 8 - (o + m));
      if s < m {
        var i := to - 1 - s;
        assert i == 8 * index + (o + m - 1 - s);
        assert i / 8 == index && i % 8 == o + m - 1 - s;
      }
    }
  }

  lemma {:induction false} ReadByte(data: seq<Byte>, index: nat)
    requires index < |data|
    ensures Reads(data[index], data, 8 * index, 8 * index + 8)
  {
    var to := 8 * index + 8;
    forall s: nat ensures Bit(data[index], s) == (s < 8 && BitAt(data, to - 1 - s)) {
      if s < 8 {
        assert (to - 1 - s) / 8 == index && (to - 1 - s) % 8 == 7 - s;
      } else {
        assert Shl(1, 8) == 256;
        HighBitsClear(data[index], 8, s);
      }
    }
  }

  /** `(r << take) | low` within `width` bits: the bits of `r` move up and the `take` new bits fill in. */
  lemma {:induction false} ReadsJoined(r: nat, low: nat, width: nat, data: seq<Byte>, from: nat, mid: nat, to: nat)
    requires from <= mid <= to <= 8 * |data| && to - from <= width
    requires Reads(r, data, from, mid) && Reads(low, data, mid, to)
    ensures Reads(Low(Or(Low(Shl(r, to - mid), width), low), width), data, from, to)
  {
    var take := to - mid;
    var up := Low(Shl(r, take), width);
    var res := Low(Or(up, low), width);
    forall s: nat ensures Bit(res, s) == (s < to - from && BitAt(data, to - 1 - s)) {
      BitLow(Or(up, low), width, s);
      BitOr(up, low, s);
      BitLow(Shl(r, take), width, s);
      BitShl(r, take, s);
      assert Bit(low, s) == (s < to - mid && BitAt(data, to - 1 - s));
      if s >= take {
        assert Bit(r, s - take) == (s - take < mid - from && BitAt(data, mid - 1 - (s - take)));
      }
    }
  }

  /** The read position is counted in 32 bits too. */
  class BitstreamReader {
    const data: seq<Byte>
    var offset: U32

    constructor (bytes: seq<Byte>)
      ensures data == bytes && offset == 0
    {
      data := bytes;
      offset := 0;
    }

    /** One more byte's share of a field: `(res << take) | piece`, truncated to the result type. */
    method TakeByte(res: nat, index: nat, left: nat, take: nat, width: nat, ghost from: nat) returns (res': nat)
      requires index < |data| && 0 < left && take == if left <= 8 then left else 8
      requires from <= 8 * index && 8 * index + take - from <= width
      requires Reads(res, data, from, 8 * index)
      ensures Reads(res', data, from, 8 * index + take)
    {
      if left <= 8 {
        var tail := Mask(0, left);
        var masked := And(data[index], tail);
        ReadPiece(data, index, 0, left, tail);
        ReadsJoined(res, Shr(masked, 8 - left), width, data, from, 8 * index, 8 * index + take);
        res' := Low(Or(Low(Shl(res, left), width), Shr(masked, 8 - left)), width);
      } else {
        ReadByte(data, index);
        ReadsJoined(res, data[index], width, data, from, 8 * index, 8 * index + take);
        res' := Low(Or(Low(Shl(res, 8), width), data[index]), width);
      }
    }

    /** The part of an `n`-bit field that lies in the current byte. */
    method TakeFirst(n: nat) returns (res: nat, bits: nat)
      requires n >= 1 && offset + n <= 8 * |data|
      ensures bits == if n < 8 - offset % 8 then n else 8 - offset % 8
      ensures Reads(res, data, offset, offset + bits)
    {
      var index := offset / 8;
      var offsetInByte := offset % 8;
      bits := if n < 8 - offsetInByte then n else 8 - offsetInByte;
      var m := Mask(offsetInByte, bits);
      res := And(data[index], m);
      ReadPiece(data, index, offsetInByte, bits, m);
      if n == bits {
        res := Shr(res, 8 - (n + offsetInByte));
      }
    }

    /** The next `n` bits as a number. */
    method Get(n: nat) returns (res: nat)
      requires n >= 1 && offset + n <= 8 * |data|
      modifies this`offset
      ensures offset == (old(offset) + n) % W32
      ensures Reads(res, data, old(offset), old(offset) + n)
    {
      hide Reads;
      var width := 8 * ((n - 1) / 8 + 1);
      ghost var start := offset;
      var index := offset / 8 + 1;
      var bits;
      res, bits := TakeFirst(n);
      ghost var done := bits;
      offset := (offset + bits) % W32;
      var remainingBits := n - bits;
      while remainingBits > 0
        invariant 0 <= remainingBits < n && done + remainingBits == n && offset == (start + done) % W32
        invariant remainingBits > 0 ==> start + done == 8 * index
        invariant Reads(res, data, start, start + done)
      {
        var take := if remainingBits <= 8 then remainingBits else 8;
        res := TakeByte(res, index, remainingBits, take, width, start);
        index := index + 1;
        WrapTwice(start + done, take);
        offset := (offset + take) % W32;
        done := done + take;
        remainingBits := remainingBits - take;
      }
    }
  }
}
