/**
 * C integer arithmetic used by berry's placement code: truncating division
 * and remainder, 32-bit unsigned wrap-around, and the `ceil10` snap that
 * centring applies to a coordinate.
 */
module Geometry {
  import opened Config

  /** C's `/` on `int`: the quotient is truncated toward zero. */
  function CDiv(a: int, b: int): (q: int)
    requires b > 0
    ensures a >= 0 ==> 0 <= a - b * q < b
    ensures a < 0 ==> -b < a - b * q <= 0
  {
    if a >= 0 then a / b else -((-a) / b)
  }

  /** C's `%` on `int`: the remainder takes the sign of the dividend. */
  function CMod(a: int, b: int): (r: int)
    requires b > 0
    ensures a >= 0 ==> 0 <= r < b
    ensures a < 0 ==> -b < r <= 0
    ensures (a - r) % b == 0
  {
    var q := CDiv(a, b);
    MultipleMod(q, b);
    a - b * q
  }

  /** A multiple of `b` leaves no remainder. */
  lemma MultipleMod(q: int, b: int)
    requires b > 0
    ensures (b * q) % b == 0
  {
    var d := (b * q) / b;
    var m := (b * q) % b;
    assert b * q == b * d + m;
    var k := q - d;
    assert b * k == m by { assert b * k == b * q - b * d; }
    if k > 0 {
      MulNonneg(b, k - 1);
    } else if k < 0 {
      MulNonneg(b, -k - 1);
    }
  }

  lemma MulNonneg(x: int, y: int)
    requires x >= 0 && y >= 0
    ensures x * y >= 0
  {
  }

  /** Conversion of an `unsigned int` back to a two's-complement `int`. */
  function ToInt32(v: int): (r: int)
    requires 0 <= v < U32Modulus
    ensures -0x8000_0000 <= r < 0x8000_0000
    ensures (r - v) % U32Modulus == 0
  {
    if v < 0x8000_0000 then v else v - U32Modulus
  }

  /** `ceil10` exactly as written, with C's truncating `%` (wm.c). */
  function Ceil10AsWritten(n: int): (r: int)
    ensures r % 10 == 0
    ensures n + 9 >= 0 ==> n <= r < n + 10
  {
    var q := CDiv(n + 9, 10);
    assert (n + 9) - CMod(n + 9, 10) == 10 * q;
    (n + 9) - CMod(n + 9, 10)
  }

  /** Round up to the next multiple of ten: what `ceil10` is meant to compute. */
  function Ceil10(n: int): (r: int)
    ensures r % 10 == 0
    ensures n <= r < n + 10
  {
    (n + 9) - (n + 9) % 10
  }

  /** The two agree on every input from -9 upwards. */
  lemma Ceil10AgreesFromMinusNine(n: int)
    requires n >= -9
    ensures Ceil10AsWritten(n) == Ceil10(n)
  {
  }

  /** For a negative coordinate the C remainder rounds toward zero and overshoots by ten. */
  lemma Ceil10AsWrittenOvershoots()
    ensures Ceil10AsWritten(-15) == 0 && Ceil10(-15) == -10
    ensures Ceil10AsWritten(-15) >= -15 + 10
  {
    assert CDiv(-6, 10) == 0;
  }

  /**
   * The coordinate `client_center_in_rect` computes along one axis, as written:
   * `origin + (lo - hi) / 2 + span / 2 - size / 2` where the gaps `lo`, `hi`
   * and the span are `unsigned`, so the whole sum is computed modulo 2^32 and
   * reinterpreted as `int` when passed to `ceil10`.
   */
  function CenterCoordAsWritten(origin: int, lo: U32, hi: U32, span: U32, size: int): (r: int)
    ensures r % 10 == 0
  {
    var gap := ((lo - hi) % U32Modulus) / 2;
    var sum := (origin + gap + span / 2 - CDiv(size, 2)) % U32Modulus;
    Ceil10AsWritten(ToInt32(sum))
  }

  /**
   * The intended coordinate: the window of extent `size` is centred in
   * `[origin + lo, origin + span - hi]` and snapped up to a multiple of ten.
   * Measured in doubled units, its centre lies within -3..20 of the centre
   * of that interval.
   */
  function CenterCoord(origin: int, lo: U32, hi: U32, span: U32, size: int): (r: int)
    ensures r % 10 == 0
    ensures -3 <= 2 * r + size - (2 * origin + lo + span - hi) <= 20
  {
    Ceil10(origin + CDiv(lo - hi, 2) + span / 2 - CDiv(size, 2))
  }

  /** Wrapping an in-range `int` to `unsigned` and back gives it back. */
  lemma WrapRoundTrip(v: int)
    requires -0x8000_0000 <= v < 0x8000_0000
    ensures ToInt32(v % U32Modulus) == v
  {
    if v < 0 {
      assert v % U32Modulus == v + U32Modulus;
    }
  }

  /** When `hi <= lo` and nothing overflows or goes below -9, the code as written is right. */
  lemma CenterCoordAgrees(origin: int, lo: U32, hi: U32, span: U32, size: int)
    requires hi <= lo
    requires -9 <= origin + (lo - hi) / 2 + span / 2 - CDiv(size, 2) < 0x8000_0000
    ensures CenterCoordAsWritten(origin, lo, hi, span, size) == CenterCoord(origin, lo, hi, span, size)
  {
    var v := origin + (lo - hi) / 2 + span / 2 - CDiv(size, 2);
    var gap := ((lo - hi) % U32Modulus) / 2;
    assert gap == (lo - hi) / 2 == CDiv(lo - hi, 2);
    var sum := (origin + gap + span / 2 - CDiv(size, 2)) % U32Modulus;
    assert sum == v % U32Modulus;
    WrapRoundTrip(v);
    assert CenterCoordAsWritten(origin, lo, hi, span, size) == Ceil10AsWritten(v);
    assert CenterCoord(origin, lo, hi, span, size) == Ceil10(v);
    Ceil10AgreesFromMinusNine(v);
  }

  /**
   * A right gap wider than the left one wraps the unsigned difference: on a
   * 1080-wide span with gaps (0, 30), a 600-wide window lands near -2^31
   * instead of at 230.
   */
  lemma CenterCoordWrapsOnWiderRightGap()
    ensures CenterCoordAsWritten(0, 0, 30, 1080, 600) == -2147483410
    ensures CenterCoord(0, 0, 30, 1080, 600) == 230
  {
    assert CDiv(600, 2) == 300;
    assert CDiv(-30, 2) == -15;
    assert (0 - 30) % U32Modulus == 4294967266;
    assert (0 + 2147483633 + 540 - 300) % U32Modulus == 2147483873;
    assert ToInt32(2147483873) == -2147483423;
    assert CDiv(-2147483414, 10) == -214748341;
  }
}
