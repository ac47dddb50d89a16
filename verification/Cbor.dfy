/** CBOR items as the generated codecs read and write them: headers, integers and byte strings (RFC 8949). */
module Cbor {
  import opened Prelude

  const TWO_63: int := 0x8000_0000_0000_0000
  const TWO_64: int := 0x1_0000_0000_0000_0000
  const MAX_LENGTH: nat := 8192
  const BYTE_ARRAY_MAX_LEN: nat := 0x20_0000
  const CBOR_NULL: Byte := 0xf6

  const MAJ_UNSIGNED: nat := 0
  const MAJ_NEGATIVE: nat := 1
  const MAJ_BYTES: nat := 2
  const MAJ_TEXT: nat := 3
  const MAJ_ARRAY: nat := 4
  const MAJ_MAP: nat := 5
  const MAJ_OTHER: nat := 7

  /** A 64-bit value read as a signed integer. */
  function Int64(x: int): (r: int)
    ensures -TWO_63 <= r < TWO_63
    ensures -TWO_63 <= x < TWO_63 ==> r == x
  {
    (x + TWO_63) % TWO_64 - TWO_63
  }

  function Uint64(x: int): (r: nat)
    ensures r < TWO_64
    ensures 0 <= x < TWO_64 ==> r == x
  {
    x % TWO_64
  }

  // Big-endian numbers -------------------------------------------------------------------------------------------

  function Pow256(width: nat): nat {
    if width == 0 then 1 else 256 * Pow256(width - 1)
  }

  function BigEndian(n: nat, width: nat): (b: Bytes)
    ensures |b| == width
  {
    if width == 0 then [] else BigEndian(n / 256, width - 1) + [n % 256]
  }

  function Number(b: Bytes): nat {
    if b == [] then 0 else Number(b[..|b| - 1]) * 256 + b[|b| - 1]
  }

  lemma {:induction false} BigEndianNumber(n: nat, width: nat)
    requires n < Pow256(width)
    ensures Number(BigEndian(n, width)) == n
    decreases width
  {
    if width > 0 {
      BigEndianNumber(n / 256, width - 1);
      assert BigEndian(n, width)[..width - 1] == BigEndian(n / 256, width - 1);
    }
  }

  lemma {:induction false} NumberBigEndian(b: Bytes)
    ensures Number(b) < Pow256(|b|) && BigEndian(Number(b), |b|) == b
    decreases |b|
  {
    if b != [] {
      var rest := b[..|b| - 1];
      NumberBigEndian(rest);
      assert Number(b) / 256 == Number(rest) && Number(b) % 256 == b[|b| - 1];
    }
  }

  lemma Pow256Values()
    ensures Pow256(1) == 0x100 && Pow256(2) == 0x1_0000 && Pow256(4) == 0x1_0000_0000 && Pow256(8) == TWO_64
  {
    assert Pow256(3) == 0x100_0000 && Pow256(6) == 0x1_0000_0000_0000;
  }

  // Headers ------------------------------------------------------------------------------------------------------

  /** The number of argument bytes after the initial byte, in the shortest form. */
  function Width(n: nat): nat {
    if n < 24 then 0 else if n < 0x100 then 1 else if n < 0x1_0000 then 2 else if n < 0x1_0000_0000 then 4 else 8
  }

  /** Additional information 24 to 27 announces 1, 2, 4 or 8 argument bytes. */
  function WidthOf(low: nat): nat
    requires 24 <= low <= 27
  {
    if low == 24 then 1 else if low == 25 then 2 else if low == 26 then 4 else 8
  }

  function Low(n: nat): (low: nat)
    ensures low <= 27
  {
    if n < 24 then n else if n < 0x100 then 24 else if n < 0x1_0000 then 25 else if n < 0x1_0000_0000 then 26 else 27
  }

  function Header(maj: nat, n: nat): (b: Bytes)
    requires maj < 8
    ensures |b| == 1 + Width(n) && b[0] == maj * 32 + Low(n)
  {
    [maj * 32 + Low(n)] + BigEndian(n, Width(n))
  }

  /** Reads a header; longer forms than needed are refused. */
  function ReadHeader(b: Bytes): Option<(nat, nat, Bytes)> {
    if b == [] then None
    else
      var maj, low := b[0] / 32, b[0] % 32;
      if low < 24 then Some((maj, low, b[1..]))
      else if low > 27 || |b| < 1 + WidthOf(low) then None
      else
        var n := Number(b[1..1 + WidthOf(low)]);
        if Low(n) != low then None else Some((maj, n, b[1 + WidthOf(low)..]))
  }

  lemma InitialByte(maj: nat, low: nat)
    requires maj < 8 && low < 32
    ensures (maj * 32 + low) / 32 == maj && (maj * 32 + low) % 32 == low
  {
  }

  lemma WidthFits(n: nat)
    requires 24 <= n < TWO_64
    ensures 24 <= Low(n) <= 27 && WidthOf(Low(n)) == Width(n) && Number(BigEndian(n, Width(n))) == n
  {
    Pow256Values();
    BigEndianNumber(n, Width(n));
  }

  lemma HeaderReads(maj: nat, n: nat, rest: Bytes)
    requires maj < 8 && n < TWO_64
    ensures ReadHeader(Header(maj, n) + rest) == Some((maj, n, rest))
  {
    var b, w := Header(maj, n) + rest, Width(n);
    InitialByte(maj, Low(n));
    assert b[0] == maj * 32 + Low(n) && b[1 + w..] == rest;
    if n >= 24 {
      WidthFits(n);
      assert b[1..1 + w] == BigEndian(n, w);
    }
  }

  /** Two, four and eight bytes as numbers, the most significant one first (section 3 of RFC 8949). */
  function U16(a: int, b: int): int {
    a * 0x100 + b
  }

  function U32(a: int, b: int, c: int, d: int): int {
    U16(a, b) * 0x1_0000 + U16(c, d)
  }

  lemma {:induction false} NetworkOrder(b: Bytes)
    ensures |b| == 1 ==> Number(b) == b[0]
    ensures |b| == 2 ==> Number(b) == U16(b[0], b[1])
    ensures |b| == 4 ==> Number(b) == U32(b[0], b[1], b[2], b[3])
    ensures |b| == 8 ==> Number(b) == U32(b[0], b[1], b[2], b[3]) * 0x1_0000_0000 + U32(b[4], b[5], b[6], b[7])
  {
    if |b| == 2 { assert b[..1][..0] == [] && Number(b[..1]) == b[0]; }
    if |b| == 4 { FourBytes(b); }
    if |b| == 8 {
      FourBytes(b[..4]);
      assert b[..5][..4] == b[..4] && b[..6][..5] == b[..5] && b[..7][..6] == b[..6] && b[..8] == b;
      assert Number(b[..5]) == Number(b[..4]) * 256 + b[4];
      assert Number(b[..6]) == Number(b[..5]) * 256 + b[5];
      assert Number(b[..7]) == Number(b[..6]) * 256 + b[6];
    }
  }

  lemma {:induction false} FourBytes(b: Bytes)
    requires |b| == 4
    ensures Number(b) == U32(b[0], b[1], b[2], b[3])
  {
    assert b[..2][..1] == b[..1] && b[..3][..2] == b[..2] && b[..1][..0] == [];
    assert Number(b[..1]) == b[0] && Number(b[..2]) == Number(b[..1]) * 256 + b[1] && Number(b[..3]) == Number(b[..2]) * 256 + b[2];
  }

  lemma ArgumentIsUnique(b: Bytes, low: nat)
    requires 24 <= low <= 27 && |b| == WidthOf(low) && Low(Number(b)) == low
    ensures Number(b) < TWO_64 && Width(Number(b)) == |b| && BigEndian(Number(b), |b|) == b
  {
    NumberBigEndian(b);
    Pow256Values();
  }

  /** What is read as a header is the one encoding of it: no two inputs mean the same. */
  lemma HeaderIsUnique(b: Bytes)
    requires ReadHeader(b).Some?
    ensures var (maj, n, rest) := ReadHeader(b).value; maj < 8 && n < TWO_64 && b == Header(maj, n) + rest
  {
    var (maj, n, rest) := ReadHeader(b).value;
    var low := b[0] % 32;
    if low >= 24 {
      var w := WidthOf(low);
      ArgumentIsUnique(b[1..1 + w], low);
      assert b == [b[0]] + b[1..1 + w] + rest;
    }
  }

  /** The bytes of a header: the major type and the shortest form of the argument, most significant byte first. */
  lemma {:induction false} HeaderBytes(maj: nat, n: nat)
    requires maj < 8 && n < TWO_64
    ensures var b := Header(maj, n);
      if n < 24 then b == [maj * 32 + n]
      else if n < 0x100 then b == [maj * 32 + 24, n]
      else if n < 0x1_0000 then |b| == 3 && b[0] == maj * 32 + 25 && n == U16(b[1], b[2])
      else if n < 0x1_0000_0000 then |b| == 5 && b[0] == maj * 32 + 26 && n == U32(b[1], b[2], b[3], b[4])
      else
        && |b| == 9 && b[0] == maj * 32 + 27
        && U32(b[1], b[2], b[3], b[4]) == n / 0x1_0000_0000
        && U32(b[5], b[6], b[7], b[8]) == n % 0x1_0000_0000
  {
    if n >= 24 {
      WidthFits(n);
      NetworkOrder(BigEndian(n, Width(n)));
    }
  }

  /** Which argument bytes leave no shorter form. */
  lemma ShortestForm(a: Byte, b: Byte, c: Byte, d: Byte)
    ensures Low(a) == 24 <==> a >= 24
    ensures U16(a, b) >= 0 && (Low(U16(a, b)) == 25 <==> a != 0)
    ensures 0 <= U32(a, b, c, d) < 0x1_0000_0000 && (Low(U32(a, b, c, d)) == 26 <==> a != 0 || b != 0)
    ensures U32(a, b, c, d) == 0 <==> a == 0 && b == 0 && c == 0 && d == 0
  {
  }

  lemma LongForm(hi: nat, lo: nat)
    requires lo < 0x1_0000_0000
    ensures Low(hi * 0x1_0000_0000 + lo) == 27 <==> hi != 0
  {
  }

  lemma {:induction false} ReadArgument(b: Bytes, low: nat)
    requires |b| > 0 && b[0] % 32 == low && 24 <= low <= 27
    ensures |b| < 1 + WidthOf(low) ==> ReadHeader(b) == None
    ensures |b| >= 1 + WidthOf(low) ==>
      var n := Number(b[1..1 + WidthOf(low)]);
      ReadHeader(b) == if Low(n) != low then None else Some((b[0] / 32, n, b[1 + WidthOf(low)..]))
  {
  }

  /** What a header means, from its bytes: an argument in the initial byte, or in the 1, 2, 4 or 8 bytes after it. */
  lemma {:induction false} ReadShortBytes(b: Bytes)
    requires |b| > 0
    ensures b[0] % 32 < 24 ==> ReadHeader(b) == Some((b[0] / 32, b[0] % 32, b[1..]))
    ensures b[0] % 32 > 27 ==> ReadHeader(b) == None
    ensures b[0] % 32 == 24 ==> ReadHeader(b) == if |b| < 2 || b[1] < 24 then None else Some((b[0] / 32, b[1], b[2..]))
    ensures b[0] % 32 == 25 ==> ReadHeader(b) == if |b| < 3 || b[1] == 0 then None else Some((b[0] / 32, U16(b[1], b[2]), b[3..]))
  {
    if b[0] % 32 == 24 {
      ReadArgument(b, 24);
      if |b| >= 2 {
        NetworkOrder(b[1..2]);
        ShortestForm(b[1], 0, 0, 0);
      }
    } else if b[0] % 32 == 25 {
      ReadArgument(b, 25);
      if |b| >= 3 {
        NetworkOrder(b[1..3]);
        ShortestForm(b[1], b[2], 0, 0);
      }
    }
  }

  lemma {:induction false} FourByteArgument(b: Bytes)
    requires |b| >= 5
    ensures var n := U32(b[1], b[2], b[3], b[4]);
      0 <= n == Number(b[1..5]) && (Low(n) == 26 <==> b[1] != 0 || b[2] != 0)
  {
    NetworkOrder(b[1..5]);
    ShortestForm(b[1], b[2], b[3], b[4]);
  }

  lemma U32Range(a: Byte, b: Byte, c: Byte, d: Byte)
    ensures 0 <= U32(a, b, c, d) < 0x1_0000_0000
  {
  }

  lemma {:induction false} ReadFourBytes(b: Bytes)
    requires |b| > 0 && b[0] % 32 == 26
    ensures ReadHeader(b) == if |b| < 5 || (b[1] == 0 && b[2] == 0) then None else Some((b[0] / 32, U32(b[1], b[2], b[3], b[4]), b[5..]))
  {
    ReadArgument(b, 26);
    if |b| >= 5 { FourByteArgument(b); }
  }

  lemma {:induction false} EightByteArgument(b: Bytes, hi: nat, lo: nat)
    requires |b| == 8 && hi == U32(b[0], b[1], b[2], b[3]) && lo == U32(b[4], b[5], b[6], b[7])
    ensures Number(b) == hi * 0x1_0000_0000 + lo
  {
    NetworkOrder(b);
  }

  lemma {:induction false} ReadEightBytes(b: Bytes, hi: nat, lo: nat)
    requires |b| > 0 && b[0] % 32 == 27
    requires |b| >= 9 ==> hi == U32(b[1], b[2], b[3], b[4]) && lo == U32(b[5], b[6], b[7], b[8])
    ensures ReadHeader(b) == if |b| < 9 || hi == 0 then None else Some((b[0] / 32, hi * 0x1_0000_0000 + lo, b[9..]))
  {
    ReadArgument(b, 27);
    if |b| >= 9 {
      U32Range(b[5], b[6], b[7], b[8]);
      EightByteArgument(b[1..9], hi, lo);
      LongForm(hi, lo);
    }
  }

  lemma DigitsUnique(a: Byte, b: Byte, c: Byte, d: Byte, a': Byte, b': Byte, c': Byte, d': Byte)
    requires U32(a, b, c, d) == U32(a', b', c', d')
    ensures a == a' && b == b' && c == c' && d == d'
  {
  }

  /** Examples of Appendix A of RFC 8949. */
  lemma {:induction false} ExampleHeaders()
    ensures Header(0, 100) == [0x18, 0x64] && Header(0, 1000) == [0x19, 0x03, 0xe8]
    ensures Header(0, 1000000) == [0x1a, 0x00, 0x0f, 0x42, 0x40]
  {
    HeaderBytes(0, 100);
    var b := Header(0, 1000);
    HeaderBytes(0, 1000);
    assert U16(b[1], b[2]) == U16(0x03, 0xe8);
    var c := Header(0, 1000000);
    HeaderBytes(0, 1000000);
    DigitsUnique(c[1], c[2], c[3], c[4], 0x00, 0x0f, 0x42, 0x40);
  }

  // Integers -----------------------------------------------------------------------------------------------------

  /** The argument written for a negative number, in 64-bit arithmetic. */
  function NegativeArgument(i: int): nat {
    Uint64(Int64(Int64(-i) - 1))
  }

  /** Both negations wrap at the least number, and the argument is still exact. */
  lemma NegativeArgumentExact(i: int)
    requires -TWO_63 <= i < 0
    ensures NegativeArgument(i) == -1 - i
  {
    if i == -TWO_63 {
      assert Int64(-i) == -TWO_63;
      assert Int64(-TWO_63 - 1) == TWO_63 - 1;
    }
  }

  function EncodeInt(i: int): Bytes {
    if i >= 0 then Header(MAJ_UNSIGNED, Uint64(i)) else Header(MAJ_NEGATIVE, NegativeArgument(i))
  }

  function DecodeInt(b: Bytes): Option<(int, Bytes)> {
    var h := ReadHeader(b);
    if h.None? then None
    else
      var (maj, extra, rest) := h.value;
      if maj == MAJ_UNSIGNED then if Int64(extra) < 0 then None else Some((Int64(extra), rest))
      else if maj == MAJ_NEGATIVE then if Int64(extra) < 0 then None else Some((-1 - Int64(extra), rest))
      else None
  }

  lemma IntReads(i: int, b: Bytes, rest: Bytes)
    requires -TWO_63 <= i < TWO_63
    requires ReadHeader(b) == Some(if i >= 0 then (MAJ_UNSIGNED, i, rest) else (MAJ_NEGATIVE, -1 - i, rest))
    ensures DecodeInt(b) == Some((i, rest))
  {
    assert Int64(if i >= 0 then i else -1 - i) == if i >= 0 then i else -1 - i;
  }

  /** Every int64 comes back, the least one included. */
  lemma IntRoundTrip(i: int, rest: Bytes)
    requires -TWO_63 <= i < TWO_63
    ensures DecodeInt(EncodeInt(i) + rest) == Some((i, rest))
  {
    if i >= 0 {
      HeaderReads(MAJ_UNSIGNED, i, rest);
    } else {
      NegativeArgumentExact(i);
      HeaderReads(MAJ_NEGATIVE, -1 - i, rest);
    }
    IntReads(i, EncodeInt(i) + rest, rest);
  }

  // Strings ------------------------------------------------------------------------------------------------------

  function ReadText(b: Bytes): Option<(Bytes, Bytes)> {
    var h := ReadHeader(b);
    if h.None? then None
    else
      var (maj, n, rest) := h.value;
      if maj != MAJ_TEXT || n > MAX_LENGTH || |rest| < n then None else Some((rest[..n], rest[n..]))
  }

  function Text(name: Bytes): Bytes {
    Header(MAJ_TEXT, |name|) + name
  }

  /** A short text is its length plus 96 in one byte, and the text. */
  lemma {:induction false} ShortText(name: Bytes)
    requires |name| < 24
    ensures Text(name) == [96 + |name|] + name
  {
    HeaderBytes(3, |name|);
  }

  lemma TextReads(name: Bytes, rest: Bytes)
    requires |name| <= MAX_LENGTH
    ensures ReadText(Text(name) + rest) == Some((name, rest))
  {
    HeaderReads(MAJ_TEXT, |name|, name + rest);
    assert Text(name) + rest == Header(MAJ_TEXT, |name|) + (name + rest);
    assert (name + rest)[..|name|] == name && (name + rest)[|name|..] == rest;
  }
}
