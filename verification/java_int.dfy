/** Java's 32-bit `int` arithmetic, stated over Dafny's unbounded integers.

    A Java `int` is an integer in [-2^31, 2^31). Addition and left shift
    wrap modulo 2^32; `%` truncates toward zero, so the remainder takes the
    sign of the dividend. The bit pattern of an `int` is read here as the
    unsigned integer in [0, 2^32) congruent to it. */
module JavaInt {

  const TWO_31: int := 0x8000_0000
  const TWO_32: int := 0x1_0000_0000
  const INT_MIN: int := -0x8000_0000
  const INT_MAX: int := 0x7FFF_FFFF

  /** The values of a Java `int`. */
  type int32 = x: int | -0x8000_0000 <= x < 0x8000_0000

  /** Two's complement reduction: the `int` congruent to `x` modulo 2^32. */
  function Wrap(x: int): (r: int32)
    ensures (x - r) % TWO_32 == 0
    ensures INT_MIN <= x <= INT_MAX ==> r == x
  {
    (x + TWO_31) % TWO_32 - TWO_31
  }

  /** Java `a + b` on `int`. */
  function Add(a: int32, b: int32): (r: int32)
    ensures (a + b - r) % TWO_32 == 0
    ensures INT_MIN <= a + b <= INT_MAX ==> r == a + b
  {
    Wrap(a + b)
  }

  /** Java `a % b` on `int` for a positive divisor (section 15.17.3 of the
      Java Language Specification): `a - r` is a multiple of `b`, and the
      remainder truncates toward zero, so it has the sign of the dividend
      and is smaller than `b` in magnitude. */
  function Rem(a: int32, b: int32): (r: int32)
    requires b > 0
    ensures (a - r) % b == 0
    ensures -b < r < b
    ensures 0 <= a ==> 0 <= r
    ensures a <= 0 ==> r <= 0
  {
    TruncatedCongruent(a, b);
    if a >= 0 then a % b else -((-(a as int)) % b)
  }

  /** `b` divides every multiple of `b`. */
  lemma MultipleMod(k: int, b: int)
    requires b > 0
    ensures (k * b) % b == 0
  {
    var q, r := (k * b) / b, (k * b) % b;
    var d := k - q;
    assert d * b == k * b - q * b;
    assert d * b == r;
  }

  /** Both branches of the truncated remainder differ from `a` by a multiple of `b`. */
  lemma TruncatedCongruent(a: int, b: int)
    requires b > 0
    ensures 0 <= a ==> (a - a % b) % b == 0
    ensures a < 0 ==> (a + (-a) % b) % b == 0
  {
    if 0 <= a {
      var q := a / b;
      assert a - a % b == q * b;
      MultipleMod(q, b);
    } else {
      var q := (-a) / b;
      assert a + (-a) % b == (-q) * b;
      MultipleMod(-q, b);
    }
  }

  /** The contract of `Rem` leaves exactly one value: any `r` with the same
      congruence, bound and sign is `Rem(a, b)`. */
  lemma RemDetermined(a: int32, b: int32, r: int)
    requires b > 0
    requires (a - r) % b == 0 && -b < r < b
    requires 0 <= a ==> 0 <= r
    requires a <= 0 ==> r <= 0
    ensures r == Rem(a, b)
  {
    CongruentClose(a, b, r, Rem(a, b));
  }

  /** Two numbers congruent to `a` modulo `b` and less than `b` apart are equal. */
  lemma CongruentClose(a: int, b: int, r: int, t: int)
    requires b > 0 && (a - r) % b == 0 && (a - t) % b == 0
    requires -b < t - r < b
    ensures r == t
  {
    var q1, q2 := (a - r) / b, (a - t) / b;
    assert a - r == q1 * b;
    assert a - t == q2 * b;
    var d := q1 - q2;
    assert d * b == q1 * b - q2 * b;
    SmallMultiple(d, b);
  }

  /** The only multiple of `b` strictly between `-b` and `b` is 0. */
  lemma SmallMultiple(d: int, b: int)
    requires b > 0 && -b < d * b < b
    ensures d == 0
  {
  }

  /** Java `a << 28` on `int`: the bits moved past bit 31 are lost, so the
      result is `a * 2^28` reduced modulo 2^32. */
  function ShiftLeft28(a: int32): (r: int32)
    ensures (a * 0x1000_0000 - r) % TWO_32 == 0
  {
    Wrap(a * 0x1000_0000)
  }

  /** The bit pattern of `x` as an unsigned 32-bit number. */
  function Unsigned(x: int32): (r: nat)
    ensures r < TWO_32
    ensures (r - x) % TWO_32 == 0
    ensures 0 <= x ==> r == x
  {
    if x < 0 then x + TWO_32 else x
  }

  /** Bits 28..31 of `x`. */
  function TopNibble(x: int32): (r: nat)
    ensures r < 16
  {
    Unsigned(x) / 0x1000_0000
  }

  /** Bits 0..27 of `x`. */
  function Low28(x: int32): (r: nat)
    ensures r < 0x1000_0000
  {
    Unsigned(x) % 0x1000_0000
  }

  /** Distinct `int`s have distinct bit patterns. */
  lemma UnsignedInjective(x: int32, y: int32)
    ensures Unsigned(x) == Unsigned(y) <==> x == y
  {
  }

  /** 16 divides 2^32, so reduction modulo 2^32 keeps the residue modulo 16. */
  lemma CongruentMod16(a: int, b: int)
    requires (a - b) % TWO_32 == 0
    ensures a % 16 == b % 16
  {
    var q := (a - b) / TWO_32;
    assert a - b == 16 * (q * 0x1000_0000);
  }

  /** Adding 2^32 does not change the two's complement reduction. */
  lemma WrapPeriodic(x: int)
    ensures Wrap(x + TWO_32) == Wrap(x)
  {
  }

  /** The truncated remainder by 16 is the Euclidean one, or 16 below it. */
  lemma RemBy16(a: int32)
    ensures Rem(a, 16) == a % 16 || Rem(a, 16) == a % 16 - 16
  {
  }

  /** A number in [0, 2^32) congruent to `v` is `v` reduced modulo 2^32. */
  lemma ReduceCongruent(u: int, v: int)
    requires 0 <= u < TWO_32 && (u - v) % TWO_32 == 0
    ensures u == v % TWO_32
  {
    var q := (u - v) / TWO_32;
    assert v == u + (-q) * TWO_32;
  }
}
