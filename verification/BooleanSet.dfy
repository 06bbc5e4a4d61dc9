/** Eight booleans in one octet (booleanset.h); section 4.2.5.2 of AMQP 0-9-1. */
module BooleanSets {
  import opened Wire

  // Octets as booleans, the most significant bit first

  function Number(b: bool): nat {
    if b then 1 else 0
  }

  function Power(width: nat): nat {
    if width == 0 then 1 else 2 * Power(width - 1)
  }

  /** The low `width` bits of v. */
  function Bits(width: nat, v: nat): (fs: seq<bool>)
    ensures |fs| == width
  {
    if width == 0 then [] else Bits(width - 1, v / 2) + [v % 2 == 1]
  }

  function BitsValue(fs: seq<bool>): nat {
    if fs == [] then 0 else 2 * BitsValue(fs[..|fs| - 1]) + Number(fs[|fs| - 1])
  }

  lemma {:induction false} BitsValueFits(fs: seq<bool>)
    ensures BitsValue(fs) < Power(|fs|)
  {
    if fs != [] {
      BitsValueFits(fs[..|fs| - 1]);
    }
  }

  lemma {:induction false} BitsInvertsBitsValue(fs: seq<bool>)
    ensures Bits(|fs|, BitsValue(fs)) == fs
  {
    if fs != [] {
      BitsInvertsBitsValue(fs[..|fs| - 1]);
    }
  }

  lemma {:induction false} BitsValueInvertsBits(width: nat, v: nat)
    requires v < Power(width)
    ensures BitsValue(Bits(width, v)) == v
  {
    if width > 0 {
      BitsValueInvertsBits(width - 1, v / 2);
      assert Bits(width, v)[..width - 1] == Bits(width - 1, v / 2);
    }
  }

  function OctetOf(fs: seq<bool>): byte
    requires |fs| == 8
  {
    assert Power(8) == 2 * Power(7) == 256;
    BitsValueFits(fs);
    BitsValue(fs)
  }

  function Booleans(b: byte): (fs: seq<bool>)
    ensures |fs| == 8
  {
    Bits(8, b)
  }

  /** Octets and octuples of booleans determine each other. */
  lemma OctetRoundTrips(b: byte, fs: seq<bool>)
    requires |fs| == 8
    ensures OctetOf(Booleans(b)) == b
    ensures Booleans(OctetOf(fs)) == fs
  {
    assert Power(8) == 2 * Power(7) == 256;
    BitsValueInvertsBits(8, b);
    BitsInvertsBitsValue(fs);
  }

  lemma BitsValueOfAppended(init: seq<bool>, last: bool)
    ensures BitsValue(init + [last]) == 2 * BitsValue(init) + Number(last)
  {
    assert (init + [last])[..|init|] == init;
  }

  lemma BitsValueOfTwoMore(init: seq<bool>, a: bool, b: bool)
    ensures BitsValue(init + [a, b]) == 4 * BitsValue(init) + 2 * Number(a) + Number(b)
  {
    BitsValueOfAppended(init, a);
    BitsValueOfAppended(init + [a], b);
    assert init + [a] + [b] == init + [a, b];
  }

  lemma BitsValueOfFourMore(init: seq<bool>, low: seq<bool>)
    requires |low| == 4
    ensures BitsValue(init + low)
         == 16 * BitsValue(init) + 8 * Number(low[0]) + 4 * Number(low[1]) + 2 * Number(low[2]) + Number(low[3])
  {
    BitsValueOfTwoMore(init, low[0], low[1]);
    BitsValueOfTwoMore(init + [low[0], low[1]], low[2], low[3]);
    assert init + [low[0], low[1]] + [low[2], low[3]] == init + low;
  }

  lemma BitsValueOfEight(f: seq<bool>)
    requires |f| == 8
    ensures BitsValue(f) == 128 * Number(f[0]) + 64 * Number(f[1]) + 32 * Number(f[2]) + 16 * Number(f[3])
                          + 8 * Number(f[4]) + 4 * Number(f[5]) + 2 * Number(f[6]) + Number(f[7])
  {
    assert f == f[..4] + f[4..] && f[..4] == [] + f[..4];
    BitsValueOfFourMore([], f[..4]);
    BitsValueOfFourMore(f[..4], f[4..]);
  }

  /** The eight booleans of an octet by their weight. */
  lemma OctetByWeight(f: seq<bool>)
    requires |f| == 8
    ensures OctetOf(f) == (if f[0] then 128 else 0) + (if f[1] then 64 else 0) + (if f[2] then 32 else 0)
                        + (if f[3] then 16 else 0) + (if f[4] then 8 else 0) + (if f[5] then 4 else 0)
                        + (if f[6] then 2 else 0) + (if f[7] then 1 else 0)
  {
    hide BitsValue;
    BitsValueOfEight(f);
  }

  // Bit manipulation

  function Mask(index: nat): bv8
    requires index <= 7
  {
    1 << index
  }

  predicate Bit(bits: bv8, index: nat) {
    index <= 7 && 0 != Mask(index) & bits
  }

  function WithBit(bits: bv8, index: nat, value: bool): bv8 {
    if index > 7 then bits
    else if value then bits | Mask(index)
    else bits & !Mask(index)
  }

  lemma MaskValues()
    ensures Mask(0) == 1 && Mask(1) == 2 && Mask(2) == 4 && Mask(3) == 8
    ensures Mask(4) == 16 && Mask(5) == 32 && Mask(6) == 64 && Mask(7) == 128
  {
  }

  lemma OneBit(m: bv8, o: bv8, bits: bv8)
    requires m != 0 && m & (m - 1) == 0
    requires o != 0 && o & (o - 1) == 0
    ensures 0 != o & (bits | m) <==> o == m || 0 != o & bits
    ensures 0 != o & (bits & !m) <==> o != m && 0 != o & bits
  {
  }

  lemma MasksAreSingleBits(index: nat, other: nat)
    requires index <= 7 && other <= 7
    ensures Mask(index) != 0 && Mask(index) & (Mask(index) - 1) == 0
    ensures Mask(index) == Mask(other) <==> index == other
  {
    MaskValues();
    var table: seq<bv8> := [1, 2, 4, 8, 16, 32, 64, 128];
    assert Mask(index) == table[index] && Mask(other) == table[other];
  }

  /** Writing one boolean changes that boolean and no other; an index above 7 changes none. */
  lemma BitOfWithBit(bits: bv8, index: nat, value: bool, other: nat)
    ensures Bit(WithBit(bits, index, value), other)
         == if other == index <= 7 then value else Bit(bits, other)
  {
    if index <= 7 && other <= 7 {
      MasksAreSingleBits(index, other);
      MasksAreSingleBits(other, index);
      OneBit(Mask(index), Mask(other), bits);
    }
  }

  /** The eight booleans in the order in which the octet carries them. */
  function Flags(bits: bv8): (fs: seq<bool>)
    ensures |fs| == 8
    ensures forall i :: 0 <= i < 8 ==> fs[i] == Bit(bits, 7 - i)
  {
    seq(8, i requires 0 <= i < 8 => Bit(bits, 7 - i))
  }

  lemma FlagsListed(bits: bv8)
    ensures Flags(bits) == [Bit(bits, 7), Bit(bits, 6), Bit(bits, 5), Bit(bits, 4),
                            Bit(bits, 3), Bit(bits, 2), Bit(bits, 1), Bit(bits, 0)]
  {
    hide Bit;
  }

  lemma FlagsOfWithBit(bits: bv8, index: nat, value: bool)
    ensures Flags(WithBit(bits, index, value)) == if index <= 7 then Flags(bits)[7 - index := value] else Flags(bits)
  {
    forall i | 0 <= i < 8
      ensures Flags(WithBit(bits, index, value))[i] == if 7 - i == index then value else Flags(bits)[i]
    {
      BitOfWithBit(bits, index, value, 7 - i);
    }
  }

  lemma OctetAsSum(bits: bv8)
    ensures bits as int == 128 * Number(0 != 128 & bits) + 64 * Number(0 != 64 & bits)
                         + 32 * Number(0 != 32 & bits) + 16 * Number(0 != 16 & bits)
                         + 8 * Number(0 != 8 & bits) + 4 * Number(0 != 4 & bits)
                         + 2 * Number(0 != 2 & bits) + Number(0 != 1 & bits)
  {
  }

  lemma OctetAsBits(bits: bv8)
    ensures var f := Flags(bits);
            bits as int == 128 * Number(f[0]) + 64 * Number(f[1]) + 32 * Number(f[2]) + 16 * Number(f[3])
                         + 8 * Number(f[4]) + 4 * Number(f[5]) + 2 * Number(f[6]) + Number(f[7])
  {
    MaskValues();
    OctetAsSum(bits);
  }

  /** Boolean i is the bit of weight 2^i of the octet on the wire. */
  lemma OctetOfFlags(bits: bv8)
    ensures OctetOf(Flags(bits)) == bits as int
  {
    OctetAsBits(bits);
    BitsValueOfEight(Flags(bits));
  }

  /** The bit vector with the first n of the given booleans, the most significant first. */
  function Packed(fs: seq<bool>, n: nat): bv8
    requires n <= |fs| == 8
  {
    if n == 0 then 0 else WithBit(Packed(fs, n - 1), 8 - n, fs[n - 1])
  }

  lemma {:induction false} FlagsOfPacked(fs: seq<bool>, n: nat)
    requires n <= |fs| == 8
    ensures Flags(Packed(fs, n)) == seq(8, i requires 0 <= i < 8 => i < n && fs[i])
  {
    if n > 0 {
      FlagsOfPacked(fs, n - 1);
      FlagsOfWithBit(Packed(fs, n - 1), 8 - n, fs[n - 1]);
    }
  }

  /** The octet b as a bit vector: its booleans are the binary digits of b. */
  function OfOctet(b: byte): (bits: bv8)
    ensures bits as int == b
    ensures Flags(bits) == Booleans(b)
  {
    var bits := Packed(Booleans(b), 8);
    FlagsOfPacked(Booleans(b), 8);
    assert Flags(bits) == Booleans(b);
    OctetOfFlags(bits);
    OctetRoundTrips(b, Booleans(b));
    bits
  }

  class BooleanSet {
    var bits: bv8

    constructor ()
      ensures Flags(bits) == seq(8, _ => false)
    {
      bits := 0;
    }

    predicate Get(index: nat)
      reads this
    {
      Bit(bits, index)
    }

    method Set(index: nat, value: bool)
      modifies this
      ensures Flags(bits) == if index <= 7 then old(Flags(bits))[7 - index := value] else old(Flags(bits))
    {
      FlagsOfWithBit(bits, index, value);
      bits := WithBit(bits, index, value);
    }

    /** The octet that fill writes. */
    method Value() returns (b: byte)
      ensures b == OctetOf(Flags(bits))
    {
      OctetOfFlags(bits);
      b := bits as int;
    }

    /** The constructor on incoming data, once the octet has been read. */
    method Load(b: byte)
      modifies this
      ensures Flags(bits) == Booleans(b) && bits as int == b
    {
      bits := OfOctet(b);
    }
  }
}
