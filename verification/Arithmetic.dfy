/** Nonlinear facts: rows of a row-major table, quotients and remainders, rounding. */
module Arithmetic {

  lemma {:induction false} ProductPositive(a: nat, b: nat)
    ensures a * b >= 0
  {
    if a > 0 {
      ProductPositive(a - 1, b);
      assert a * b == (a - 1) * b + b;
    }
  }

  /** Row k lies before the end of the table. */
  lemma RowInside(k: nat, rows: nat, width: nat)
    requires k < rows
    ensures k * width + width <= rows * width
  {
    ProductPositive(rows - k - 1, width);
    assert rows * width == (rows - k - 1) * width + k * width + width;
  }

  /** A number written as q * step + m has that quotient and that remainder. */
  lemma DivModUnique(x: nat, step: nat, q: nat, m: nat)
    requires x == q * step + m && m < step
    ensures x / step == q && x % step == m
  {
    var d := x / step - q;
    assert d * step == m - x % step;
    assert d >= 1 ==> d * step >= step;
    assert d <= -1 ==> d * step + step <= 0;
  }

  /** A number is its quotient's row plus its remainder. */
  lemma DivModRow(x: nat, rows: nat, step: nat)
    requires step > 0 && x < rows * step
    ensures x / step < rows && x % step < step && x == x / step * step + x % step
  {
    var d := x / step - rows;
    assert d * step == x - x % step - rows * step;
    assert d >= 0 ==> d * step >= 0;
  }

  lemma Distributes(d: int, a: int, b: int)
    ensures d * (a + b) == d * a + d * b
  {
  }

  /** A quotient is at least n exactly when n divisors fit. */
  lemma QuotientAtLeast(x: nat, d: nat, n: nat)
    requires d > 0
    ensures x / d >= n <==> x >= d * n
  {
    var q := x / d;
    assert x == d * q + x % d;
    if q >= n {
      Distributes(d, n, q - n);
      ProductPositive(d, q - n);
    } else {
      Distributes(d, q + 1, n - q - 1);
      Distributes(d, q, 1);
      ProductPositive(d, n - q - 1);
    }
  }

  // ---- rounding to integers -----------------------------------------------------------------

  function Abs(x: real): (a: real)
    ensures a >= 0.0 && (a == x || a == -x)
  {
    if x < 0.0 then -x else x
  }

  /** Rounds to the nearest integer, halves away from zero. */
  function RoundAway(x: real): (n: int)
    ensures -0.5 <= n as real - x <= 0.5
    ensures n as real - x == 0.5 ==> x > 0.0
    ensures n as real - x == -0.5 ==> x < 0.0
  {
    if x >= 0.0 then (x + 0.5).Floor else -((0.5 - x).Floor)
  }

  /** Rounds to the nearest integer, halves to even. */
  function RoundEven(x: real): (n: int)
    ensures -0.5 <= n as real - x <= 0.5
    ensures n as real - x in {-0.5, 0.5} ==> n % 2 == 0
  {
    var f := x.Floor;
    var rest := x - f as real;
    if rest < 0.5 || (rest == 0.5 && f % 2 == 0) then f else f + 1
  }

  /** Rounding an integer does nothing; rounding stays within integer bounds. */
  lemma RoundEvenWithin(x: real, lo: int, hi: int)
    requires lo as real <= x <= hi as real
    ensures lo <= RoundEven(x) <= hi
  {
  }

  lemma RoundAwayWithin(x: real, lo: int, hi: int)
    requires lo as real <= x <= hi as real
    ensures lo <= RoundAway(x) <= hi
  {
  }

  lemma RoundEvenInteger(n: int)
    ensures RoundEven(n as real) == n
  {
  }

  function Clamp(n: int, lo: int, hi: int): (r: int)
    requires lo <= hi
    ensures lo <= r <= hi && (lo <= n <= hi ==> r == n)
  {
    if n < lo then lo else if n > hi then hi else n
  }

  /** A rounded and clamped number is the nearest integer within the bounds. */
  lemma NearestWithin(x: real, n: int, lo: int, hi: int, m: int)
    requires -0.5 <= n as real - x <= 0.5 && lo <= m <= hi
    ensures Abs(Clamp(n, lo, hi) as real - x) <= Abs(m as real - x)
  {
    if n < lo {
      assert x <= n as real + 0.5 <= lo as real - 0.5;
    } else if n > hi {
      assert x >= n as real - 0.5 >= hi as real + 0.5;
    } else if m != n {
      assert m as real - n as real >= 1.0 || m as real - n as real <= -1.0;
    }
  }

  /** How far so many scales are from x. */
  function Miss(a: real, scale: real, x: real): real {
    Abs(a * scale - x)
  }

  /** A rounded and clamped quotient gives the nearest multiple of the scale within the bounds. */
  lemma NearestMultiple(x: real, scale: real, n: int, lo: int, hi: int, m: int)
    requires scale > 0.0 && -0.5 <= n as real - x / scale <= 0.5 && lo <= m <= hi
    ensures Miss(Clamp(n, lo, hi) as real, scale, x) <= Miss(m as real, scale, x)
  {
    hide Abs, Clamp, Miss;
    var q := x / scale;
    assert q * scale == x;
    NearestWithin(q, n, lo, hi, m);
    NearestScaled(x, scale, q, Clamp(n, lo, hi) as real, m as real);
  }

  lemma NearestScaled(x: real, scale: real, q: real, a: real, b: real)
    requires scale > 0.0 && q * scale == x && Abs(a - q) <= Abs(b - q)
    ensures Miss(a, scale, x) <= Miss(b, scale, x)
  {
    hide Abs, Miss;
    Distance(x, scale, q, a);
    Distance(x, scale, q, b);
    ScaledOrder(Abs(a - q), Abs(b - q), scale);
  }

  /** Distances grow by the scale. */
  lemma Distance(x: real, scale: real, q: real, a: real)
    requires scale > 0.0 && q * scale == x
    ensures Miss(a, scale, x) == Abs(a - q) * scale
  {
    ScaledAbs(a - q, scale);
    assert (a - q) * scale == a * scale - x;
  }

  lemma ScaledOrder(a: real, b: real, scale: real)
    requires a <= b && scale > 0.0
    ensures a * scale <= b * scale
  {
  }

  lemma ScaledAbs(x: real, scale: real)
    requires scale > 0.0
    ensures Abs(x * scale) == Abs(x) * scale
  {
    if x < 0.0 {
      ScaledOrder(x, 0.0, scale);
    } else {
      ScaledOrder(0.0, x, scale);
    }
  }

  /** Quantising by a positive scale and multiplying back moves a value by at most half the scale. */
  lemma ScaledBack(x: real, scale: real, n: int)
    requires scale > 0.0 && -0.5 <= n as real - x / scale <= 0.5
    ensures Abs(n as real * scale - x) <= scale / 2.0
  {
    var q := x / scale;
    assert q * scale == x;
    var e := n as real - q;
    assert n as real * scale - x == e * scale;
    assert e * scale <= 0.5 * scale;
    assert e * scale >= -0.5 * scale;
  }

  /** A value no larger than bound * scale divides into the bound. */
  lemma DividesInto(x: real, scale: real, bound: real)
    requires scale > 0.0 && Abs(x) <= bound * scale
    ensures -bound <= x / scale <= bound
  {
    var q := x / scale;
    assert q * scale == x;
    assert q > bound ==> (q - bound) * scale > 0.0;
    assert q < -bound ==> (-bound - q) * scale > 0.0;
  }
}
