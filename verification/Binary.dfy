/** Powers of two, and the numbers a 64-bit float can stand for. */
module Binary {

  /** `1 << i`. */
  function Pow2(i: nat): (r: nat)
    ensures r > 0
  {
    if i == 0 then 1 else 2 * Pow2(i - 1)
  }

  lemma {:induction false} Pow2Add(a: nat, b: nat)
    ensures Pow2(a + b) == Pow2(a) * Pow2(b)
  {
    if a > 0 {
      Pow2Add(a - 1, b);
      assert Pow2(a + b) == 2 * Pow2(a - 1 + b);
      assert 2 * (Pow2(a - 1) * Pow2(b)) == Pow2(a) * Pow2(b);
    }
  }

  /** 2^53: every smaller integer has a float of its own. */
  const PRECISION := 9007199254740992

  /** `r` is `m * 2^e / 2^k`. */
  ghost predicate IsRatio(r: real, m: int, e: nat, k: nat) {
    r * Pow2(k) as real == (m * Pow2(e)) as real
  }

  /** The mantissa and the exponents of a double. */
  ghost predicate Fits(m: int, e: nat, k: nat) {
    -PRECISION < m < PRECISION && e <= 971 && k <= 1074
  }

  /** Some finite double stands for `r`. */
  ghost predicate IsDouble(r: real) {
    exists m: int, e: nat, k: nat :: IsRatio(r, m, e, k) && Fits(m, e, k)
  }

  lemma SmallIntDouble(n: int)
    requires -PRECISION < n < PRECISION
    ensures IsDouble(n as real)
  {
    assert IsRatio(n as real, n, 0, 0) && Fits(n, 0, 0);
  }

  type FiniteReal = r: real | IsDouble(r) ghost witness (SmallIntDouble(0); 0.0)

  /** A float: a finite value, with two zeros, an infinity, or no number at all. */
  datatype Double = Finite(r: FiniteReal) | MinusZero | Infinite(negative: bool) | NaN

  /** `x < y`; NaN is below nothing and above nothing. */
  predicate Below(x: Double, y: Double) {
    && !x.NaN? && !y.NaN?
    && match (x, y)
       case (Infinite(negative), _) => negative && y != Infinite(true)
       case (_, Infinite(negative)) => !negative
       case (_, _) => RealOf(x) < RealOf(y)
  }

  function RealOf(x: Double): real {
    if x.Finite? then x.r else 0.0
  }

  ghost predicate AtMost(x: Double, q: real) {
    match x
    case NaN => false
    case Infinite(negative) => negative
    case MinusZero => 0.0 <= q
    case Finite(r) => r <= q
  }

  ghost predicate Exceeds(x: Double, q: real) {
    match x
    case NaN => false
    case Infinite(negative) => !negative
    case MinusZero => 0.0 > q
    case Finite(r) => r > q
  }

  /** One float is below another exactly when a real number separates them. */
  lemma BelowIff(x: Double, y: Double)
    ensures Below(x, y) <==> exists q: real :: AtMost(x, q) && Exceeds(y, q)
  {
    if Below(x, y) {
      var q := if !x.Infinite? then RealOf(x) else if !y.Infinite? then RealOf(y) - 1.0 else 0.0;
      assert AtMost(x, q) && Exceeds(y, q);
    }
  }

  /** A ratio determines its value. */
  lemma RatioUnique(r: real, q: real, m: int, e: nat, k: nat)
    requires IsRatio(r, m, e, k) && IsRatio(q, m, e, k)
    ensures r == q
  {
    if r > q {
      Stretched(r, q, Pow2(k));
    } else if q > r {
      Stretched(q, r, Pow2(k));
    }
  }

  lemma Stretched(r: real, q: real, p: nat)
    requires r > q && p > 0
    ensures r * p as real > q * p as real
  {
  }

  lemma Cancel(a: int, b: int, p: nat)
    requires p > 0 && a * p == b * p
    ensures a == b
  {
    var d := a - b;
    assert d * p == 0;
    Larger(d, p);
  }

  lemma Regroup(a: int, b: int, c: int)
    ensures a * (b * c) == (a * c) * b == (a * b) * c
  {
  }

  lemma ShiftedOdd(n: int, m: int, e: nat, k: nat)
    requires n % 2 == 1 && n * Pow2(k) == m * Pow2(e)
    ensures e <= k && m == n * Pow2(k - e)
  {
    if k < e {
      var p := Pow2(e - k - 1);
      Pow2Add(k, e - k);
      Regroup(m, Pow2(k), Pow2(e - k));
      Cancel(n, m * Pow2(e - k), Pow2(k));
      Regroup(m, 2, p);
    } else {
      Pow2Add(k - e, e);
      Regroup(n, Pow2(k - e), Pow2(e));
      Cancel(m, n * Pow2(k - e), Pow2(e));
    }
  }

  /** An odd integer beyond 2^53 has no float. */
  lemma BigOddNotDouble(n: int)
    requires n % 2 == 1 && (n > PRECISION || n < -PRECISION)
    ensures !IsDouble(n as real)
  {
    if m: int, e: nat, k: nat :| IsRatio(n as real, m, e, k) && Fits(m, e, k) {
      assert (n * Pow2(k)) as real == (m * Pow2(e)) as real;
      ShiftedOdd(n, m, e, k);
      Larger(n, Pow2(k - e));
    }
  }

  lemma Larger(n: int, p: nat)
    requires p > 0
    ensures n >= 0 ==> n * p >= n
    ensures n <= 0 ==> n * p <= n
  {
  }
}
