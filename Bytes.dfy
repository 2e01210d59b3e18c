/**
 * Bytes and the fixed-width integers of a class file: big-endian unsigned values
 * (DataInputStream.readUnsignedShort, readInt, ...), their Java two's-complement
 * readings (readShort, readInt, readLong) and Integer.toHexString.
 */
module Bytes {
  import opened Wrappers

  /** One octet of the input, as DataInputStream.readUnsignedByte sees it. */
  type Byte = b: int | 0 <= b < 256

  function Pow256(n: nat): (p: nat)
    ensures p >= 1
  {
    if n == 0 then 1 else 256 * Pow256(n - 1)
  }

  /** The unsigned big-endian value of `bs`. */
  function BigEndian(bs: seq<Byte>): (v: nat)
    ensures v < Pow256(|bs|)
  {
    if |bs| == 0 then 0
    else
      var hi := BigEndian(bs[..|bs| - 1]);
      assert hi * 256 <= (Pow256(|bs| - 1) - 1) * 256;
      hi * 256 + bs[|bs| - 1]
  }

  /** The `n` low-order bytes of `v`, most significant first. */
  function ToBigEndian(v: nat, n: nat): (bs: seq<Byte>)
    ensures |bs| == n
  {
    if n == 0 then [] else ToBigEndian(v / 256, n - 1) + [v % 256]
  }

  lemma {:induction false} BigEndianOfToBigEndian(v: nat, n: nat)
    requires v < Pow256(n)
    ensures BigEndian(ToBigEndian(v, n)) == v
  {
    if n > 0 {
      assert v / 256 < Pow256(n - 1);
      BigEndianOfToBigEndian(v / 256, n - 1);
      var bs := ToBigEndian(v, n);
      assert bs[..n - 1] == ToBigEndian(v / 256, n - 1);
    }
  }

  lemma {:induction false} ToBigEndianOfBigEndian(bs: seq<Byte>)
    ensures ToBigEndian(BigEndian(bs), |bs|) == bs
  {
    if |bs| > 0 {
      var p := bs[..|bs| - 1];
      ToBigEndianOfBigEndian(p);
      var v := BigEndian(bs);
      assert v == BigEndian(p) * 256 + bs[|bs| - 1];
      assert v / 256 == BigEndian(p);
      assert v % 256 == bs[|bs| - 1];
      assert bs == p + [bs[|bs| - 1]];
    }
  }

  /** The Java reading of an `n`-byte two's-complement value (readShort, readInt, readLong). */
  function Signed(v: nat, n: nat): (s: int)
    requires 0 < n && v < Pow256(n)
    ensures -(Pow256(n) as int) / 2 <= s < Pow256(n) / 2
    ensures s >= 0 ==> s == v
    ensures s < 0 ==> s == v - Pow256(n)
  {
    if v < Pow256(n) / 2 then v else v - Pow256(n)
  }

  /** The bit pattern of a two's-complement value: the inverse of Signed. */
  function Unsigned(s: int, n: nat): (v: nat)
    requires 0 < n && -(Pow256(n) as int) / 2 <= s < Pow256(n) / 2
    ensures v < Pow256(n)
  {
    if s >= 0 then s else s + Pow256(n)
  }

  lemma UnsignedOfSigned(v: nat, n: nat)
    requires 0 < n && v < Pow256(n)
    ensures Unsigned(Signed(v, n), n) == v
  {
  }

  lemma SignedRoundTrip(s: int, n: nat)
    requires 0 < n && -(Pow256(n) as int) / 2 <= s < Pow256(n) / 2
    ensures Signed(Unsigned(s, n), n) == s
  {
  }

  /**
   * ClassFileUtils.getShortBytes, whose code is not part of this model, taken as
   * the two low-order bytes of the index, high byte first.
   */
  function ShortBytes(index: nat): (bs: seq<Byte>)
    ensures |bs| == 2
    ensures index < 0x1_0000 ==> BigEndian(bs) == index
  {
    assert Pow256(2) == 0x1_0000;
    BigEndianOfToBigEndian(index % 0x1_0000, 2);
    ToBigEndian(index % 0x1_0000, 2)
  }

  // ---------------------------------------------------------------------
  // Integer.toHexString on a non-negative int

  /** The lower-case digit for a value below 16, as in "0123456789abcdef". */
  function HexDigit(d: nat): char
    requires d < 16
  {
    if d < 10 then ('0' as int + d) as char else ('a' as int + d - 10) as char
  }

  /** Integer.toHexString(n) for n >= 0: lower-case digits, no leading zeros. */
  function Hex(n: nat): (s: string)
    ensures |s| >= 1
    ensures n >= 16 ==> s[0] != '0'
    decreases n
  {
    if n < 16 then [HexDigit(n)] else Hex(n / 16) + [HexDigit(n % 16)]
  }

  function DigitValue(c: char): (d: Option<nat>)
    ensures d.Some? ==> d.value < 16 && HexDigit(d.value) == c
  {
    if '0' <= c <= '9' then Some(c as int - '0' as int)
    else if 'a' <= c <= 'f' then Some(c as int - 'a' as int + 10)
    else None
  }

  /** Reads a lower-case hexadecimal numeral back; None unless every character is a digit. */
  function HexValue(s: string): Option<nat>
  {
    if |s| == 0 then None
    else if |s| == 1 then DigitValue(s[0])
    else match (HexValue(s[..|s| - 1]), DigitValue(s[|s| - 1]))
      case (Some(hi), Some(lo)) => Some(hi * 16 + lo)
      case _ => None
  }

  lemma {:induction false} HexRoundTrip(n: nat)
    ensures HexValue(Hex(n)) == Some(n)
    decreases n
  {
    if n < 16 {
      assert DigitValue(HexDigit(n)) == Some(n);
    } else {
      HexRoundTrip(n / 16);
      var s := Hex(n);
      assert s[..|s| - 1] == Hex(n / 16);
      assert DigitValue(s[|s| - 1]) == Some(n % 16);
    }
  }

  // ---------------------------------------------------------------------
  // String.getBytes(UTF_8)

  /**
   * The standard UTF-8 encoding of a string (a sequence of Unicode scalar values):
   * how a Java string is compared with the bytes of a UTF8 pool entry.
   */
  function Utf8Encode(s: string): (bs: seq<Byte>)
    ensures |bs| >= |s|
  {
    if |s| == 0 then [] else EncodeChar(s[0]) + Utf8Encode(s[1..])
  }

  function EncodeChar(c: char): (bs: seq<Byte>)
    ensures 1 <= |bs| <= 4
  {
    var v := c as int;
    if v < 0x80 then [v]
    else if v < 0x800 then [0xC0 + v / 0x40, 0x80 + v % 0x40]
    else if v < 0x1_0000 then [0xE0 + v / 0x1000, 0x80 + (v / 0x40) % 0x40, 0x80 + v % 0x40]
    else [0xF0 + v / 0x4_0000, 0x80 + (v / 0x1000) % 0x40, 0x80 + (v / 0x40) % 0x40, 0x80 + v % 0x40]
  }

  /** An ASCII string encodes byte for byte. */
  lemma {:induction false} Utf8EncodeAscii(s: string)
    requires forall i :: 0 <= i < |s| ==> s[i] < 128 as char
    ensures |Utf8Encode(s)| == |s|
    ensures forall i :: 0 <= i < |s| ==> Utf8Encode(s)[i] == s[i] as int
  {
    if |s| > 0 {
      Utf8EncodeAscii(s[1..]);
    }
  }
}
