/**
  Java `int` semantics on top of Dafny's unbounded integers: two's-complement
  wrap-around of `+`, `*` and `-`, division that truncates toward zero, and
  the decimal rendering used by string concatenation.
 */
module JavaInt {

  const Modulus: int := 0x1_0000_0000
  const MinInt: int := -0x8000_0000
  const MaxInt: int := 0x7FFF_FFFF

  /** The values a Java `int` (or an unboxed `Integer`) can hold. */
  type int32 = x: int | MinInt <= x <= MaxInt

  /** Reduces a mathematical integer to the 32-bit two's-complement value Java computes. */
  function Wrap(x: int): (r: int32)
    ensures x - r == Modulus * ((x - MinInt) / Modulus)
    ensures MinInt <= x <= MaxInt ==> r == x
  {
    (x - MinInt) % Modulus + MinInt
  }

  /** The count a 32-bit counter stands for, read as an unsigned number (used for `threshold - 1` loops). */
  function Unsigned(x: int): (r: nat)
    ensures r < Modulus
    ensures 0 <= x < Modulus ==> r == x
  {
    x % Modulus
  }

  /** Adding a multiple of 2^32 does not change the wrapped value. */
  lemma WrapShift(x: int, k: int)
    ensures Wrap(x + Modulus * k) == Wrap(x)
  {
    assert (x + Modulus * k - MinInt) % Modulus == (x - MinInt) % Modulus;
  }

  /** Wrapping an intermediate sum does not change the wrapped total. */
  lemma WrapAdd(a: int, b: int)
    ensures Wrap(Wrap(a) + b) == Wrap(a + b)
  {
    var q := (a - MinInt) / Modulus;
    assert Wrap(a) + b == a + b + Modulus * (-q);
    WrapShift(a + b, -q);
  }

  /** Wrapping an intermediate product does not change the wrapped total. */
  lemma WrapMul(a: int, b: int)
    ensures Wrap(Wrap(a) * b) == Wrap(a * b)
  {
    var q := (a - MinInt) / Modulus;
    assert Wrap(a) == a - Modulus * q;
    calc {
      Wrap(a) * b;
      (a - Modulus * q) * b;
      a * b + Modulus * (-(q * b));
    }
    WrapShift(a * b, -(q * b));
  }

  /** Java's `/` on `int`: the quotient is truncated toward zero. */
  function TruncDiv(a: int, b: int): (q: int)
    requires b > 0
    ensures a >= 0 ==> 0 <= a - b * q < b
    ensures a < 0 ==> -b < a - b * q <= 0
    ensures a >= 0 ==> 0 <= q <= a
    ensures a < 0 ==> a <= q <= 0
  {
    var m := if a >= 0 then a else -a;
    DivBounds(m, b);
    if a >= 0 then m / b else -(m / b)
  }

  lemma {:induction false} MulAtLeast(b: int, q: nat)
    requires b >= 1
    ensures b * q >= q
    decreases q
  {
    if q > 0 {
      MulAtLeast(b, q - 1);
      assert b * q == b * (q - 1) + b;
    }
  }

  /** Euclidean division of a natural number by a positive one stays between 0 and the dividend. */
  lemma DivBounds(m: nat, b: int)
    requires b > 0
    ensures 0 <= m / b <= m
    ensures 0 <= m - b * (m / b) < b
  {
    var q := m / b;
    var r := m % b;
    assert m == b * q + r && 0 <= r < b;
    assert q >= 0;
    MulAtLeast(b, q);
    assert m - b * q == r;
  }

  /** Decimal digits of a natural number. */
  function Digits(n: nat): (s: string)
    ensures |s| >= 1
    ensures forall i :: 0 <= i < |s| ==> '0' <= s[i] <= '9'
  {
    var d := [('0' as int + n % 10) as char];
    if n < 10 then d else Digits(n / 10) + d
  }

  /** `"" + n` for a Java `int`: an optional minus sign followed by the decimal digits. */
  function DecimalString(n: int): string
  {
    if n < 0 then "-" + Digits(-n) else Digits(n)
  }
}
