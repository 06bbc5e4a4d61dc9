/**
 Integers on the wire: network byte order, two's complement, and the conversion
 from host memory that OutBuffer performs (outbuffer.h, numericfield.h).
 Sections 4.2.5.1 and 4.2.5.4 of AMQP 0-9-1.
 */
module Wire {

  type byte = b: int | 0 <= b < 256

  type bytes = seq<byte>

  const TWO_TO_THE_32 := 0x1_0000_0000

  /** The number of values an unsigned integer of `width` octets can take. */
  function Limit(width: nat): (l: nat)
    ensures l > 0
    ensures width > 0 ==> l % 256 == 0
  {
    if width == 0 then 1 else 256 * Limit(width - 1)
  }

  /** The low `width` octets of v, most significant first. */
  function BigEndian(width: nat, v: nat): (bs: bytes)
    ensures |bs| == width
  {
    if width == 0 then [] else BigEndian(width - 1, v / 256) + [v % 256]
  }

  function BigEndianValue(bs: bytes): nat {
    if bs == [] then 0 else BigEndianValue(bs[..|bs| - 1]) * 256 + bs[|bs| - 1]
  }

  lemma {:induction false} BigEndianValueInvertsBigEndian(width: nat, v: nat)
    requires v < Limit(width)
    ensures BigEndianValue(BigEndian(width, v)) == v
  {
    if width > 0 {
      BigEndianValueInvertsBigEndian(width - 1, v / 256);
      assert BigEndian(width, v)[..width - 1] == BigEndian(width - 1, v / 256);
    }
  }

  lemma {:induction false} BigEndianInvertsBigEndianValue(bs: bytes)
    ensures BigEndianValue(bs) < Limit(|bs|)
    ensures BigEndian(|bs|, BigEndianValue(bs)) == bs
  {
    if bs != [] {
      BigEndianInvertsBigEndianValue(bs[..|bs| - 1]);
    }
  }

  // Host memory

  datatype Host = LittleEndianHost | BigEndianHost

  function Reversed(bs: bytes): (r: bytes)
    ensures |r| == |bs|
    ensures forall i :: 0 <= i < |bs| ==> r[i] == bs[|bs| - 1 - i]
  {
    seq(|bs|, i requires 0 <= i < |bs| => bs[|bs| - 1 - i])
  }

  /** The octets a host keeps in memory for an unsigned integer. */
  function MemoryImage(host: Host, width: nat, v: nat): bytes {
    match host
    case BigEndianHost => BigEndian(width, v)
    case LittleEndianHost => Reversed(BigEndian(width, v))
  }

  /** htobe16, htobe32, htobe64: swap the octets unless the host is big-endian. */
  function HostToBig(host: Host, width: nat, v: nat): nat {
    match host
    case BigEndianHost => v
    case LittleEndianHost => BigEndianValue(Reversed(BigEndian(width, v)))
  }

  /** Appending the memory of a converted integer writes network byte order on every host. */
  lemma ConvertedMemoryIsNetworkOrder(host: Host, width: nat, v: nat)
    ensures MemoryImage(host, width, HostToBig(host, width, v)) == BigEndian(width, v)
  {
    if host.LittleEndianHost? {
      var swapped := Reversed(BigEndian(width, v));
      BigEndianInvertsBigEndianValue(swapped);
      assert Reversed(swapped) == BigEndian(width, v);
    }
  }

  // The eight integer field types

  datatype IntType = IntType(width: nat, signed: bool) {
    predicate Valid() {
      width in {1, 2, 4, 8}
    }

    predicate Holds(v: int) {
      if signed then -(Limit(width) / 2) <= v < Limit(width) / 2 else 0 <= v < Limit(width)
    }
  }

  const UOCTET := IntType(1, false)
  const ULONG := IntType(4, false)
  const TIMESTAMP := IntType(8, false)

  /** The conversion of an integer to the unsigned type of the same width. */
  function ToUnsigned(t: IntType, v: int): (u: nat)
    requires t.Holds(v)
    ensures u < Limit(t.width)
  {
    if v < 0 then v + Limit(t.width) else v
  }

  function EncodeInt(t: IntType, v: int): (bs: bytes)
    requires t.Holds(v)
    ensures |bs| == t.width
  {
    BigEndian(t.width, ToUnsigned(t, v))
  }

  /** Reinterpret an unsigned integer of t's width as a value of t. */
  function FromUnsigned(t: IntType, u: nat): (v: int)
    requires u < Limit(t.width)
  {
    if t.signed && u >= Limit(t.width) / 2 then u - Limit(t.width) else u
  }

  function DecodeInt(t: IntType, bs: bytes): int
    requires |bs| == t.width
  {
    BigEndianInvertsBigEndianValue(bs);
    FromUnsigned(t, BigEndianValue(bs))
  }

  /** Two's complement: the signed and the unsigned reading of an octet string determine each other. */
  lemma TwosComplement(t: IntType, u: nat)
    requires t.width > 0 && u < Limit(t.width)
    ensures t.Holds(FromUnsigned(t, u))
    ensures ToUnsigned(t, FromUnsigned(t, u)) == u
  {
    var l := Limit(t.width);
    assert l == l / 2 * 2;
  }

  /** Every integer field is read back from its octets, negative values included. */
  lemma DecodeInvertsEncodeInt(t: IntType, v: int)
    requires t.Valid() && t.Holds(v)
    ensures DecodeInt(t, EncodeInt(t, v)) == v
  {
    BigEndianValueInvertsBigEndian(t.width, ToUnsigned(t, v));
    var l := Limit(t.width);
    assert l == l / 2 * 2;
  }

  /** Every octet string of the right width is the encoding of exactly the integer it decodes to. */
  lemma EncodeInvertsDecodeInt(t: IntType, bs: bytes)
    requires t.Valid() && |bs| == t.width
    ensures t.Holds(DecodeInt(t, bs))
    ensures EncodeInt(t, DecodeInt(t, bs)) == bs
  {
    BigEndianInvertsBigEndianValue(bs);
    TwosComplement(t, BigEndianValue(bs));
  }

  // The octets spelled out

  lemma BigEndianValueOfLast(bs: bytes)
    requires |bs| > 0
    ensures BigEndianValue(bs) == 256 * BigEndianValue(bs[..|bs| - 1]) + bs[|bs| - 1]
  {
  }

  /** The value of two octets, the first one weighing more. */
  function TwoOctets(high: byte, low: byte): nat {
    0x100 * (high as int) + low as int
  }

  function FourOctets(a: byte, b: byte, c: byte, d: byte): nat {
    0x100_0000 * (a as int) + 0x1_0000 * (b as int) + 0x100 * (c as int) + d as int
  }

  lemma BigEndianValueOfTwo(bs: bytes)
    requires |bs| >= 2
    ensures BigEndianValue(bs)
         == 0x1_0000 * BigEndianValue(bs[..|bs| - 2]) + TwoOctets(bs[|bs| - 2], bs[|bs| - 1])
  {
    BigEndianValueOfLast(bs);
    BigEndianValueOfLast(bs[..|bs| - 1]);
    assert bs[..|bs| - 1][..|bs| - 2] == bs[..|bs| - 2];
  }

  lemma BigEndianValueOfFour(bs: bytes)
    requires |bs| >= 4
    ensures BigEndianValue(bs)
         == 0x1_0000_0000 * BigEndianValue(bs[..|bs| - 4])
            + FourOctets(bs[|bs| - 4], bs[|bs| - 3], bs[|bs| - 2], bs[|bs| - 1])
  {
    hide BigEndianValue;
    BigEndianValueOfTwo(bs);
    BigEndianValueOfTwo(bs[..|bs| - 2]);
    assert bs[..|bs| - 2][..|bs| - 4] == bs[..|bs| - 4];
  }

  function Signed(t: IntType, half: nat, u: nat): int {
    if t.signed && u >= half then u - 2 * half else u
  }

  /** The weight of every octet and the sign, for the four widths. */
  lemma IntegersOnTheWire(t: IntType, bs: bytes)
    requires t.Valid() && |bs| == t.width
    ensures DecodeInt(t, bs) ==
            match t.width
            case 1 => Signed(t, 0x80, bs[0])
            case 2 => Signed(t, 0x8000, TwoOctets(bs[0], bs[1]))
            case 4 => Signed(t, 0x8000_0000, FourOctets(bs[0], bs[1], bs[2], bs[3]))
            case _ => Signed(t, 0x8000_0000_0000_0000,
                             0x1_0000_0000 * FourOctets(bs[0], bs[1], bs[2], bs[3])
                             + FourOctets(bs[4], bs[5], bs[6], bs[7]))
  {
    WidthsAndLimits();
    assert BigEndianValue([]) == 0;
    hide BigEndianValue, Limit;
    if t.width == 1 {
      BigEndianValueOfLast(bs);
      assert bs[..0] == [];
    } else if t.width == 2 {
      BigEndianValueOfTwo(bs);
      assert bs[..0] == [];
    } else {
      BigEndianValueOfFour(bs);
      if t.width == 8 {
        BigEndianValueOfFour(bs[..4]);
        assert bs[..4][..0] == [];
      } else {
        assert bs[..0] == [];
      }
    }
  }

  lemma WidthsAndLimits()
    ensures Limit(1) == 0x100 && Limit(2) == 0x1_0000 && Limit(4) == 0x1_0000_0000
    ensures Limit(8) == 0x1_0000_0000_0000_0000
  {
    assert Limit(8) == 256 * 256 * 256 * 256 * Limit(4);
  }
}
