/**
 * Go's fixed-width integer semantics, written on Dafny's unbounded integers.
 *
 * The decoder works on bytes, uint64 accumulators and int64 fields. Every
 * wrap-around, truncating conversion and bit operation the source relies on is
 * spelled out here: a conversion to uint64 is `% 2^64`, a conversion to int64
 * wraps into [-2^63, 2^63), a right shift is floor division by a power of two
 * (Dafny's `/` is Euclidean, which is floor division for a positive divisor),
 * and XOR is defined bit by bit.
 */
module Ints {

  const TWO_7: int := 0x80
  const TWO_31: int := 0x8000_0000
  const TWO_32: int := 0x1_0000_0000
  const TWO_63: int := 0x8000_0000_0000_0000
  const TWO_64: int := 0x1_0000_0000_0000_0000

  /** An octet of the input stream (Go `byte`). */
  type byte = x: int | 0 <= x < 0x100

  /** Go `int64`. */
  type int64 = x: int | -TWO_63 <= x < TWO_63

  /** Go `uint64`. */
  type uint64 = x: int | 0 <= x < TWO_64

  /** Go `int32`, the representation of `RelocType`. */
  type int32 = x: int | -TWO_31 <= x < TWO_31

  function Pow2(k: nat): (r: nat)
    ensures r >= 1
  {
    if k == 0 then 1 else 2 * Pow2(k - 1)
  }

  lemma {:induction false} Pow2Add(a: nat, b: nat)
    ensures Pow2(a + b) == Pow2(a) * Pow2(b)
  {
    if b > 0 {
      Pow2Add(a, b - 1);
      assert Pow2(a + b) == 2 * Pow2(a + b - 1);
    }
  }

  lemma {:induction false} Pow2Monotone(a: nat, b: nat)
    requires a <= b
    ensures Pow2(a) <= Pow2(b)
  {
    if a < b {
      Pow2Monotone(a, b - 1);
    }
  }

  lemma Pow2Of64()
    ensures Pow2(64) == TWO_64
  {
    var p8 := Pow2(8);
    assert p8 == 0x100;
    Pow2Add(8, 8);
    var p16 := Pow2(16);
    assert p16 == p8 * p8;
    Pow2Add(16, 16);
    var p32 := Pow2(32);
    assert p32 == p16 * p16;
    Pow2Add(32, 32);
  }

  /** Go's conversion of an integer to uint64: keep the low 64 bits. */
  function ToUint64(x: int): (r: uint64)
    ensures 0 <= x < TWO_64 ==> r == x
    ensures (x - r) % TWO_64 == 0
  {
    x % TWO_64
  }

  /** Go's conversion of an integer to int64: keep the low 64 bits, two's complement. */
  function ToInt64(x: int): (r: int64)
    ensures -TWO_63 <= x < TWO_63 ==> r == x
    ensures (x - r) % TWO_64 == 0
  {
    var u := x % TWO_64;
    if u < TWO_63 then u else u - TWO_64
  }

  /** An int64 conversion of a value in the upper half of the uint64 range subtracts 2^64. */
  lemma ToInt64Wrap(x: int)
    requires TWO_63 <= x < TWO_64
    ensures ToInt64(x) == x - TWO_64
  {
  }

  /** Euclidean division is unique: a quotient and remainder in range are the ones `/` and `%` give. */
  lemma DivUnique(x: int, d: int, q: int, r: int)
    requires d > 0 && 0 <= r < d && x == q * d + r
    ensures x / d == q && x % d == r
  {
    var q', r' := x / d, x % d;
    assert (q - q') * d == r' - r;
    if q > q' {
      MulAtLeast(q - q', d);
    } else if q < q' {
      MulAtLeast(q' - q, d);
    }
  }

  /** Adding an even multiple of p to v keeps the parity of the quotient by p. */
  lemma EvenShiftParity(u: int, v: int, p: int, m: int)
    requires p > 0 && m % 2 == 0 && u == v + p * m
    ensures (u / p) % 2 == (v / p) % 2
  {
    var q, r := v / p, v % p;
    DivUnique(u, p, q + m, r);
    DivUnique(q + m, 2, q / 2 + m / 2, q % 2);
  }

  /** 2^64 splits as 2^k times an even power of two. */
  lemma Pow2Split(k: nat)
    requires k < 64
    ensures Pow2(k) * Pow2(64 - k) == TWO_64 && Pow2(64 - k) % 2 == 0
  {
    assert Pow2(64 - k) == 2 * Pow2(63 - k);
    hide Pow2;
    Pow2Add(k, 64 - k);
    Pow2Of64();
  }

  /** A negative int64 reads as itself plus 2^64 when taken as a uint64. */
  lemma UnsignedOfNegative(v: int64)
    requires v < 0
    ensures ToUint64(v) == v + TWO_64
  {
  }

  /** A positive multiple of d is at least d. */
  lemma MulAtLeast(a: int, d: int)
    requires a >= 1 && d > 0
    ensures a * d >= d
  {
    assert a * d == (a - 1) * d + d;
  }

  /** Adding a multiple of 2^64 leaves the low 64 bits unchanged. */
  lemma WideMod(q: int, x: int)
    requires 0 <= x < TWO_64
    ensures (q * TWO_64 + x) % TWO_64 == x
  {
  }

  /** Go's conversion of an int64 to int32: keep the low 32 bits, two's complement. */
  function ToInt32(x: int): (r: int32)
    ensures -TWO_31 <= x < TWO_31 ==> r == x
    ensures (x - r) % TWO_32 == 0
  {
    var u := x % TWO_32;
    if u < TWO_31 then u else u - TWO_32
  }

  /** int64 addition, which wraps around on overflow. */
  function Add64(a: int64, b: int64): (r: int64)
    ensures -TWO_63 <= a + b < TWO_63 ==> r == a + b
  {
    ToInt64(a + b)
  }

  /** Go's `x << k` on a uint64: bits shifted past bit 63 are lost, and a shift of 64 or more gives 0. */
  function Shl64(x: uint64, k: nat): (r: uint64)
  {
    if k < 64 then (x * Pow2(k)) % TWO_64 else 0
  }

  /** A shift by 64 or more agrees with the truncated product too, since 2^64 divides 2^k. */
  lemma Shl64IsTruncatedProduct(x: uint64, k: nat)
    ensures Shl64(x, k) == (x * Pow2(k)) % TWO_64
  {
    if k >= 64 {
      Pow2Add(64, k - 64);
      Pow2Of64();
      var m := x * Pow2(k - 64);
      assert Pow2(k) == TWO_64 * Pow2(k - 64);
      MulAssoc(x, TWO_64, Pow2(k - 64));
      MultipleMod(m);
    }
  }

  lemma MulAssoc(a: int, b: int, c: int)
    ensures a * (b * c) == (a * c) * b
  {
  }

  lemma MultipleMod(m: int)
    ensures (m * TWO_64) % TWO_64 == 0
  {
  }

  /** Accumulating modulo 2^64 term by term equals reducing the whole sum once. */
  lemma AddMod64(a: int, b: int)
    ensures (a % TWO_64 + b % TWO_64) % TWO_64 == (a + b) % TWO_64
  {
    var qa, qb := a / TWO_64, b / TWO_64;
    assert a == qa * TWO_64 + a % TWO_64;
    assert b == qb * TWO_64 + b % TWO_64;
    assert a + b == (qa + qb) * TWO_64 + (a % TWO_64 + b % TWO_64);
  }

  /** Bitwise exclusive or of two non-negative integers. */
  function Xor(a: nat, b: nat): (r: nat)
    decreases a + b
  {
    if a == 0 && b == 0 then 0
    else (if a % 2 == b % 2 then 0 else 1) + 2 * Xor(a / 2, b / 2)
  }

  /** XOR with zero is the identity. */
  lemma {:induction false} XorZero(a: nat)
    ensures Xor(a, 0) == a
  {
    if a != 0 {
      XorZero(a / 2);
    }
  }

  /** XOR with n one-bits complements an n-bit value: the `^ 0xfff...f` of a sign mask. */
  lemma {:induction false} XorOnes(a: nat, n: nat)
    requires a < Pow2(n)
    ensures Xor(a, Pow2(n) - 1) == Pow2(n) - 1 - a
  {
    if n > 0 {
      var half := Pow2(n - 1);
      var ones := Pow2(n) - 1;
      assert ones == 2 * half - 1;
      assert ones / 2 == half - 1 && ones % 2 == 1;
      assert a / 2 < half;
      XorOnes(a / 2, n - 1);
      assert Xor(a, ones) == (if a % 2 == 1 then 0 else 1) + 2 * Xor(a / 2, half - 1);
      assert a == 2 * (a / 2) + a % 2;
    }
  }

  /** XOR is symmetric. */
  lemma {:induction false} XorSymmetric(a: nat, b: nat)
    ensures Xor(a, b) == Xor(b, a)
    decreases a + b
  {
    if a != 0 || b != 0 {
      XorSymmetric(a / 2, b / 2);
    }
  }

  /** Go's `x ^ y` on uint64 operands. */
  function Xor64(a: uint64, b: uint64): (r: uint64)
    ensures b == 0 ==> r == a
    ensures b == TWO_64 - 1 ==> r == TWO_64 - 1 - a
    ensures a == 0 ==> r == b
    ensures a == TWO_64 - 1 ==> r == TWO_64 - 1 - b
  {
    XorZero(a);
    XorZero(b);
    XorSymmetric(a, b);
    Pow2Of64();
    XorBound(a, b, 64);
    XorOnes(a, 64);
    XorOnes(b, 64);
    Xor(a, b)
  }

  /** XOR of two n-bit values is an n-bit value. */
  lemma {:induction false} XorBound(a: nat, b: nat, n: nat)
    requires a < Pow2(n) && b < Pow2(n)
    ensures Xor(a, b) < Pow2(n)
    decreases n
  {
    if n == 0 {
      assert a == 0 && b == 0;
    } else if a != 0 || b != 0 {
      XorBound(a / 2, b / 2, n - 1);
    }
  }
}
