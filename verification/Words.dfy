/** Fixed-width unsigned integers and their little-endian bytes. */
module Words {
  import opened Bits

  const W32: nat := 0x1_0000_0000
  const W64: nat := 0x1_0000_0000_0000_0000

  type U8 = x: nat | x < 256
  type U32 = x: nat | x < W32
  type U64 = x: nat | x < W64

  /** The all-ones values that stand for "none". */
  const NONE32: U32 := W32 - 1
  const NONE64: U64 := W64 - 1

  function Trunc32(n: nat): U32 { n % W32 }

  function Power(width: nat): nat {
    if width == 0 then 1 else 256 * Power(width - 1)
  }

  /** The low `width` bytes of `n`, least significant first. */
  function LittleEndian(n: nat, width: nat): (s: seq<Byte>)
    ensures |s| == width
  {
    if width == 0 then [] else [n % 256] + LittleEndian(n / 256, width - 1)
  }

  function FromLittleEndian(s: seq<Byte>): (n: nat)
    ensures n < Power(|s|)
  {
    if s == [] then 0 else s[0] + 256 * FromLittleEndian(s[1..])
  }

  lemma {:induction false} LittleEndianRoundTrip(n: nat, width: nat)
    requires n < Power(width)
    ensures FromLittleEndian(LittleEndian(n, width)) == n
  {
    if width > 0 {
      LittleEndianRoundTrip(n / 256, width - 1);
      assert LittleEndian(n, width)[1..] == LittleEndian(n / 256, width - 1);
    }
  }

  lemma {:induction false} Powers()
    ensures Power(1) == 256 && Power(4) == W32 && Power(8) == W64
  {
    assert Power(4) == 256 * Power(3);
    assert Power(8) == 256 * Power(7);
  }

  function Read8(s: seq<Byte>): U8
    requires |s| == 1
  {
    Powers();
    FromLittleEndian(s)
  }

  function Read32(s: seq<Byte>): U32
    requires |s| == 4
  {
    Powers();
    FromLittleEndian(s)
  }

  function Read64(s: seq<Byte>): U64
    requires |s| == 8
  {
    Powers();
    FromLittleEndian(s)
  }

  lemma {:induction false} ReadsBack(a: U8, b: U32, c: U64)
    ensures Read8(LittleEndian(a, 1)) == a && Read32(LittleEndian(b, 4)) == b && Read64(LittleEndian(c, 8)) == c
  {
    Powers();
    LittleEndianRoundTrip(a, 1);
    LittleEndianRoundTrip(b, 4);
    LittleEndianRoundTrip(c, 8);
  }

  function Zeros(n: nat): (s: seq<Byte>)
    ensures |s| == n
  {
    seq(n, _ => 0)
  }

  /** `n` bytes read off the front of a stream; past its end the reader's buffer keeps its zeros. */
  function Take(s: seq<Byte>, n: nat): (r: seq<Byte>)
    ensures |r| == n
  {
    if n <= |s| then s[..n] else s + Zeros(n - |s|)
  }

  /** What is left of the stream after reading `n` bytes. */
  function Skip(s: seq<Byte>, n: nat): seq<Byte> {
    if n <= |s| then s[n..] else []
  }
}
