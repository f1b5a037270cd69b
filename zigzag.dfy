/**
 * The zigzag mapping between int64 and uint64 used by every varint of the
 * object file: bit 0 of the unsigned value carries the sign, so that small
 * magnitudes of either sign encode in few bytes.
 */
module Zigzag {
  import opened Ints

  /** Go `uint64(v<<1) ^ uint64(v>>63)`. */
  function Encode(v: int64): (u: uint64)
  {
    Xor64(ToUint64(ToInt64(2 * v)), ToUint64(v / TWO_63))
  }

  /** Go `int64(v<<63)>>63 ^ int64(v>>1)`. */
  function Decode(u: uint64): (v: int64)
  {
    ToInt64(Xor64(ToUint64(ToInt64(Shl64(u, 63)) / TWO_63), ToUint64(ToInt64(u / 2))))
  }

  /** What zigzag encoding yields: a non-negative v becomes 2v, a negative v becomes -2v-1. */
  function Unsigned(v: int64): (u: uint64)
  {
    if v >= 0 then 2 * v else -2 * v - 1
  }

  /** What zigzag decoding yields: an even u becomes u/2, an odd u becomes -(u/2)-1. */
  function Signed(u: uint64): (v: int64)
  {
    if u % 2 == 0 then u / 2 else -(u / 2) - 1
  }

  /** Go's bitwise encoding computes `Unsigned`. */
  lemma EncodeValue(v: int64)
    ensures Encode(v) == Unsigned(v)
  {
    if v >= 0 {
      assert v / TWO_63 == 0;
      assert ToInt64(2 * v) == 2 * v - (if 2 * v >= TWO_63 then TWO_64 else 0);
    } else {
      assert v / TWO_63 == -1;
      assert ToInt64(2 * v) == 2 * v + (if 2 * v < -TWO_63 then TWO_64 else 0);
    }
  }

  /** Shifting a uint64 left by 63 keeps only its lowest bit, now in bit 63. */
  lemma ShiftToTop(u: uint64)
    ensures Shl64(u, 63) == (u % 2) * TWO_63
  {
    Pow2Of64();
    assert Pow2(64) == 2 * Pow2(63);
    assert Shl64(u, 63) == (u * TWO_63) % TWO_64;
    hide Shl64, Pow2;
    var q, r := u / 2, u % 2;
    assert u * TWO_63 == q * TWO_64 + r * TWO_63;
    WideMod(q, r * TWO_63);
  }

  /** Go's bitwise decoding computes `Signed`. */
  lemma DecodeValue(u: uint64)
    ensures Decode(u) == Signed(u)
  {
    ShiftToTop(u);
    if u % 2 == 0 {
      DecodeEven(u);
    } else {
      DecodeOdd(u);
    }
  }

  lemma DecodeEven(u: uint64)
    requires u % 2 == 0 && Shl64(u, 63) == 0
    ensures Decode(u) == u / 2
  {
    assert ToUint64(ToInt64(Shl64(u, 63)) / TWO_63) == 0;
  }

  lemma DecodeOdd(u: uint64)
    requires u % 2 == 1 && Shl64(u, 63) == TWO_63
    ensures Decode(u) == -(u / 2) - 1
  {
    hide Xor64, ToInt64, ToUint64, Shl64;
    var half := u / 2;
    SignMaskOfTop();
    var mask := ToUint64(ToInt64(Shl64(u, 63)) / TWO_63);
    assert mask == TWO_64 - 1;
    var low := ToUint64(ToInt64(half));
    assert low == half;
    assert Xor64(mask, low) == TWO_64 - 1 - half;
    ToInt64Wrap(TWO_64 - 1 - half);
  }

  /** Go `int64(1<<63)>>63` is -1, an all-ones mask once seen as uint64. */
  lemma SignMaskOfTop()
    ensures ToUint64(ToInt64(TWO_63) / TWO_63) == TWO_64 - 1
  {
    assert ToInt64(TWO_63) == -TWO_63;
    assert -TWO_63 / TWO_63 == -1;
  }

  /** Decoding undoes encoding for every int64, the extremes included. */
  lemma DecodeEncode(v: int64)
    ensures Decode(Encode(v)) == v
  {
    var u := Encode(v);
    EncodeValue(v);
    DecodeValue(u);
    SignedUnsigned(v);
  }

  /** `Signed` undoes `Unsigned`. */
  lemma SignedUnsigned(v: int64)
    ensures Signed(Unsigned(v)) == v
  {
    var u := Unsigned(v);
    if v >= 0 {
      assert u % 2 == 0 && u / 2 == v;
    } else {
      assert u % 2 == 1 && u / 2 + v + 1 == 0;
    }
  }

  /** Encoding undoes decoding for every uint64: the two maps are inverse bijections. */
  lemma EncodeDecode(u: uint64)
    ensures Encode(Decode(u)) == u
  {
    DecodeValue(u);
    EncodeValue(Decode(u));
    UnsignedSigned(u);
  }

  /** `Unsigned` undoes `Signed`. */
  lemma UnsignedSigned(u: uint64)
    ensures Unsigned(Signed(u)) == u
  {
    var v := Signed(u);
    if u % 2 == 0 {
      assert v == u / 2 && v >= 0;
    } else {
      assert v == -(u / 2) - 1 && v < 0;
    }
  }
}
