/** Fixed-width integers and the big-endian, two's-complement byte
    assembly that every reader of the region and NBT formats performs. */
module Bytes {

  type uint8 = x: int | 0 <= x < 0x100
  type uint16 = x: int | 0 <= x < 0x1_0000
  type uint32 = x: int | 0 <= x < 0x1_0000_0000
  type uint64 = x: int | 0 <= x < 0x1_0000_0000_0000_0000
  type int8 = x: int | -0x80 <= x < 0x80
  type int16 = x: int | -0x8000 <= x < 0x8000
  type int32 = x: int | -0x8000_0000 <= x < 0x8000_0000
  type int64 = x: int | -0x8000_0000_0000_0000 <= x < 0x8000_0000_0000_0000

  /** 256 to the power n: the number of values n bytes can hold. */
  function Pow256(n: nat): (p: nat)
    ensures p >= 1
  {
    if n == 0 then 1 else 256 * Pow256(n - 1)
  }

  lemma Pow256Values()
    ensures Pow256(1) == 0x100 && Pow256(2) == 0x1_0000
    ensures Pow256(4) == 0x1_0000_0000
    ensures Pow256(8) == 0x1_0000_0000_0000_0000
  {
  }

  /** The unsigned value of a byte string read high byte first. */
  function BigEndian(s: seq<uint8>): (v: nat)
    ensures v < Pow256(|s|)
  {
    if s == [] then 0 else BigEndian(s[..|s| - 1]) * 256 + s[|s| - 1]
  }

  /** The width bytes that hold v, high byte first. */
  function ToBigEndian(v: nat, width: nat): (s: seq<uint8>)
    requires v < Pow256(width)
    ensures |s| == width
  {
    if width == 0 then [] else ToBigEndian(v / 256, width - 1) + [v % 256]
  }

  lemma {:induction false} BigEndianRoundTrip(v: nat, width: nat)
    requires v < Pow256(width)
    ensures BigEndian(ToBigEndian(v, width)) == v
  {
    if width > 0 {
      var s := ToBigEndian(v, width);
      assert s[..|s| - 1] == ToBigEndian(v / 256, width - 1);
      BigEndianRoundTrip(v / 256, width - 1);
    }
  }

  lemma BigEndian2(s: seq<uint8>)
    requires |s| == 2
    ensures BigEndian(s) == s[0] as int * 0x100 + s[1]
  {
    assert s[..1][..0] == [];
  }

  lemma BigEndian4(s: seq<uint8>)
    requires |s| == 4
    ensures BigEndian(s) == s[0] as int * 0x100_0000 + s[1] as int * 0x1_0000 + s[2] as int * 0x100 + s[3]
  {
    assert s[..3][..2] == s[..2];
    BigEndian2(s[..2]);
  }

  lemma BigEndian8(s: seq<uint8>)
    requires |s| == 8
    ensures BigEndian(s) == s[0] as int * 0x100_0000_0000_0000 + s[1] as int * 0x1_0000_0000_0000
      + s[2] as int * 0x100_0000_0000 + s[3] as int * 0x1_0000_0000 + s[4] as int * 0x100_0000
      + s[5] as int * 0x1_0000 + s[6] as int * 0x100 + s[7]
  {
    assert s[..7][..6] == s[..6];
    assert s[..6][..5] == s[..5];
    assert s[..5][..4] == s[..4];
    BigEndian4(s[..4]);
  }

  /** The two's-complement reading of the width-byte pattern u. */
  function Signed(u: nat, width: nat): (v: int)
    requires 1 <= width && u < Pow256(width)
    ensures -(Pow256(width) as int) / 2 <= v < Pow256(width) / 2
  {
    if u < Pow256(width) / 2 then u else u - Pow256(width)
  }

  /** The width-byte two's-complement pattern of v. */
  function Unsigned(v: int, width: nat): (u: nat)
    requires 1 <= width && -(Pow256(width) as int) / 2 <= v < Pow256(width) / 2
    ensures u < Pow256(width)
  {
    if v < 0 then v + Pow256(width) else v
  }

  /** A C++ conversion of an int8_t value to uint8_t: reduction modulo 256. */
  function ToUint8(v: int8): (b: uint8)
    ensures Signed(b, 1) == v
  {
    Pow256Values();
    v % 0x100
  }

  /** The bytes of a std::string, one char per byte. */
  function Text(bytes: seq<uint8>): (s: string)
    ensures |s| == |bytes|
    ensures forall i :: 0 <= i < |bytes| ==> s[i] as int == bytes[i]
  {
    seq(|bytes|, i requires 0 <= i < |bytes| => bytes[i] as char)
  }

  /** Text whose every char fits in a byte, as every string read from a byte buffer does. */
  predicate IsByteText(s: string) {
    forall i :: 0 <= i < |s| ==> s[i] as int < 0x100
  }

  /** The bytes of a byte-sized text; the inverse of Text. */
  function TextBytes(s: string): (bytes: seq<uint8>)
    requires IsByteText(s)
    ensures |bytes| == |s|
    ensures Text(bytes) == s
  {
    seq(|s|, i requires 0 <= i < |s| => s[i] as int)
  }
}
