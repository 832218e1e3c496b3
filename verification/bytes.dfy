/** Fixed-width integers and the byte writes of `java.io.DataOutputStream`,
    which is big-endian, together with the byte swaps `Integer.reverseBytes`
    and `Short.reverseBytes` that the WAV encoder uses to get little-endian
    fields out of it. */
module Bytes {

  type Byte = b: int | 0 <= b < 0x100

  const TwoTo15: int := 0x8000
  const TwoTo16: int := 0x1_0000
  const TwoTo31: int := 0x8000_0000
  const TwoTo32: int := 0x1_0000_0000

  /** Wrap-around to a 32-bit two's-complement `Int`. */
  function ToInt32(x: int): (r: int)
    ensures -TwoTo31 <= r < TwoTo31
    ensures r % TwoTo32 == x % TwoTo32
    ensures -TwoTo31 <= x < TwoTo31 ==> r == x
  {
    var u := x % TwoTo32;
    if u >= TwoTo31 then u - TwoTo32 else u
  }

  /** Wrap-around to a 16-bit two's-complement `Short` (Kotlin's `toShort()`). */
  function ToInt16(x: int): (r: int)
    ensures -TwoTo15 <= r < TwoTo15
    ensures r % TwoTo16 == x % TwoTo16
    ensures -TwoTo15 <= x < TwoTo15 ==> r == x
  {
    var u := x % TwoTo16;
    if u >= TwoTo15 then u - TwoTo16 else u
  }

  /** Byte `k` (0 = least significant) of the 32-bit pattern of `x`. */
  function ByteOf(x: int, k: nat): Byte
    requires k < 4
  {
    var u := x % TwoTo32;
    if k == 0 then u % 0x100
    else if k == 1 then (u / 0x100) % 0x100
    else if k == 2 then (u / 0x1_0000) % 0x100
    else u / 0x100_0000
  }

  /** `Integer.reverseBytes`: the four bytes of `x` in the opposite order. */
  function ReverseBytes32(x: int): int {
    ToInt32(ByteOf(x, 0) * 0x100_0000 + ByteOf(x, 1) * 0x1_0000 + ByteOf(x, 2) * 0x100 + ByteOf(x, 3))
  }

  /** `Short.reverseBytes`: the two bytes of the 16-bit pattern of `x` swapped. */
  function ReverseBytes16(x: int): int {
    var u := x % TwoTo16;
    ToInt16((u % 0x100) * 0x100 + u / 0x100)
  }

  /** `DataOutputStream.writeInt`: the 32-bit pattern, most significant byte first. */
  function WriteInt(v: int): seq<Byte> {
    [ByteOf(v, 3), ByteOf(v, 2), ByteOf(v, 1), ByteOf(v, 0)]
  }

  /** `DataOutputStream.writeShort`: the low 16 bits, most significant byte first. */
  function WriteShort(v: int): seq<Byte> {
    var u := v % TwoTo16;
    [u / 0x100, u % 0x100]
  }

  /** `DataOutputStream.writeBytes`: the low eight bits of each character. */
  function WriteBytes(s: string): (r: seq<Byte>)
    ensures |r| == |s|
  {
    seq(|s|, i requires 0 <= i < |s| => (s[i] as int) % 0x100)
  }

  lemma WriteBytesAppend(a: string, b: string)
    ensures WriteBytes(a + b) == WriteBytes(a) + WriteBytes(b)
  {
  }

  /** The little-endian 32-bit encoding of `x`. */
  function Le32(x: int): (r: seq<Byte>)
    ensures |r| == 4
  {
    var u := x % TwoTo32;
    [u % 0x100, (u / 0x100) % 0x100, (u / 0x1_0000) % 0x100, u / 0x100_0000]
  }

  /** The little-endian 16-bit encoding of `x`. */
  function Le16(x: int): (r: seq<Byte>)
    ensures |r| == 2
  {
    var u := x % TwoTo16;
    [u % 0x100, u / 0x100]
  }

  /** Reads four little-endian bytes as an unsigned number. */
  function DecodeLe32(b: seq<Byte>): int
    requires |b| == 4
  {
    (b[0] as int) + 0x100 * (b[1] as int) + 0x1_0000 * (b[2] as int) + 0x100_0000 * (b[3] as int)
  }

  /** Reads two little-endian bytes as an unsigned number. */
  function DecodeLe16(b: seq<Byte>): int
    requires |b| == 2
  {
    (b[0] as int) + 0x100 * (b[1] as int)
  }

  /** Reads two little-endian bytes as a signed 16-bit number. */
  function DecodeLe16Signed(b: seq<Byte>): int
    requires |b| == 2
  {
    ToInt16(DecodeLe16(b))
  }

  /** Writing the byte-swapped `Int` on the big-endian stream puts the value
      out little-endian. */
  lemma WriteIntOfReversed(x: int)
    ensures WriteInt(ReverseBytes32(x)) == Le32(x)
  {
    var b0: int, b1: int, b2: int, b3: int := ByteOf(x, 0), ByteOf(x, 1), ByteOf(x, 2), ByteOf(x, 3);
    var w: int := b0 * 0x100_0000 + b1 * 0x1_0000 + b2 * 0x100 + b3;
    var r := ReverseBytes32(x);
    assert r % TwoTo32 == w;
    DivModUnique(w, 0x100, b0 * 0x1_0000 + b1 * 0x100 + b2, b3);
    DivModUnique(b0 * 0x1_0000 + b1 * 0x100 + b2, 0x100, b0 * 0x100 + b1, b2);
    DivModUnique(w, 0x1_0000, b0 * 0x100 + b1, b2 * 0x100 + b3);
    DivModUnique(b0 * 0x100 + b1, 0x100, b0, b1);
    DivModUnique(w, 0x100_0000, b0, b1 * 0x1_0000 + b2 * 0x100 + b3);
  }

  /** Quotient and remainder are determined by `w == q * d + r` with `0 <= r < d`. */
  lemma DivModUnique(w: int, d: int, q: int, r: int)
    requires 0 < d && 0 <= r < d && w == q * d + r
    ensures w / d == q && w % d == r
  {
    var q', r' := w / d, w % d;
    assert q' * d + r' == q * d + r;
    assert (q' - q) * d == r - r' by {
      assert q' * d - q * d == (q' - q) * d;
    }
    if q' > q {
      MulAtLeast(q' - q, d);
    } else if q' < q {
      MulAtLeast(q - q', d);
    }
  }

  lemma MulAtLeast(k: int, d: int)
    requires k >= 1 && d > 0
    ensures k * d >= d
  {
    assert k * d == (k - 1) * d + d;
  }

  /** Adding the same amount keeps two values congruent modulo 2^32. */
  lemma AddCongruent32(a: int, b: int, c: int)
    requires a % TwoTo32 == b % TwoTo32
    ensures (c + a) % TwoTo32 == (c + b) % TwoTo32
  {
    var qa, qb := a / TwoTo32, b / TwoTo32;
    var r := a % TwoTo32;
    var q := (c + r) / TwoTo32;
    var r' := (c + r) % TwoTo32;
    DivModUnique(c + a, TwoTo32, q + qa, r');
    DivModUnique(c + b, TwoTo32, q + qb, r');
  }

  /** Writing the byte-swapped `Short` on the big-endian stream puts the value
      out little-endian. */
  lemma WriteShortOfReversed(x: int)
    ensures WriteShort(ReverseBytes16(x)) == Le16(x)
  {
    var u := x % TwoTo16;
    var w := (u % 0x100) * 0x100 + u / 0x100;
    var r := ReverseBytes16(x);
    assert r % TwoTo16 == w;
  }

  /** `writeInt(Integer.reverseBytes(x))`: the value put out little-endian. */
  function WriteIntReversed(x: int): (r: seq<Byte>)
    ensures r == Le32(x)
  {
    WriteIntOfReversed(x);
    WriteInt(ReverseBytes32(x))
  }

  /** `writeShort(Short.reverseBytes(x))`: the value put out little-endian. */
  function WriteShortReversed(x: int): (r: seq<Byte>)
    ensures r == Le16(x)
  {
    WriteShortOfReversed(x);
    WriteShort(ReverseBytes16(x))
  }

  /** Decoding the little-endian 32-bit encoding gives back the value modulo 2^32. */
  lemma Le32RoundTrip(x: int)
    ensures DecodeLe32(Le32(x)) == x % TwoTo32
    ensures 0 <= x < TwoTo32 ==> DecodeLe32(Le32(x)) == x
  {
    var u := x % TwoTo32;
    var q1 := u / 0x100;
    var q2 := q1 / 0x100;
    var q3 := q2 / 0x100;
    var r0, r1, r2 := u % 0x100, q1 % 0x100, q2 % 0x100;
    assert u == r0 + 0x100 * r1 + 0x1_0000 * q2 by {
      assert q1 == r1 + 0x100 * q2;
    }
    DivModUnique(u, 0x1_0000, q2, r0 + 0x100 * r1);
    assert q2 == r2 + 0x100 * q3;
    DivModUnique(u, 0x100_0000, q3, r0 + 0x100 * r1 + 0x1_0000 * r2);
  }

  /** Decoding the little-endian 16-bit encoding gives back every `Short`. */
  lemma Le16RoundTrip(x: int)
    ensures DecodeLe16(Le16(x)) == x % TwoTo16
    ensures -TwoTo15 <= x < TwoTo15 ==> DecodeLe16Signed(Le16(x)) == x
  {
  }
}
