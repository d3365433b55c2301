/**
 Whole parts of quotients and remainders computed in double precision, as Python's `/`, `%` and "%d"
 compute them. The facts are about any real numbers: how far a quotient by a rounded divisor is from
 the exact one, how far a remainder by it is, and when neither error crosses a whole number. A
 quotient is off by at most one part in 2^53 and is exact where it is whole, as section 4.3.1 of
 IEEE 754 has it for rounding to nearest.
 */
module Rounding {
  import opened Division

  // ---- Whole parts ----

  lemma {:induction false} RealMulOrder(x: real, y: real, w: real)
    requires w > 0.0
    ensures x < y ==> x * w < y * w
    ensures x <= y ==> x * w <= y * w
  {
  }

  lemma {:induction false} RealCancel(x: real, y: real, w: real)
    requires w > 0.0
    ensures x * w < y * w ==> x < y
    ensures x * w <= y * w ==> x <= y
  {
    RealMulOrder(y, x, w);
  }

  lemma {:induction false} ProductReal(a: int, b: int)
    ensures (a * b) as real == (a as real) * (b as real)
  {
  }

  lemma {:induction false} FloorIs(x: real, n: int)
    requires n as real <= x < (n + 1) as real
    ensures x.Floor == n
  {
  }

  lemma {:induction false} ScaleBounds(low: real, x: real, high: real, w: real, u: real)
    requires w > 0.0 && x * w == u
    ensures low <= x < high <==> low * w <= u < high * w
  {
    RealMulOrder(low, x, w);
    RealMulOrder(x, low, w);
    RealMulOrder(x, high, w);
    RealMulOrder(high, x, w);
  }

  /** The whole quotient in a remainder is the whole part of the quotient. */
  lemma {:induction false} FloorScaled(x: real, w: real, u: real, n: int)
    requires w > 0.0 && x * w == u && (n as real) * w <= u < ((n + 1) as real) * w
    ensures x.Floor == n
  {
    ScaleBounds(n as real, x, (n + 1) as real, w, u);
    FloorIs(x, n);
  }

  lemma {:induction false} FloorBetween(x: real, m: Positive, n: int, low: int)
    requires low == n * m && low as real <= x * (m as real) < (low + m) as real
    ensures x.Floor == n
  {
    ProductReal(n, m);
    ProductReal(n + 1, m);
    FloorScaled(x, m as real, x * (m as real), n);
  }

  lemma {:induction false} QuotientOf(u: real, d: real) returns (x: real)
    requires d > 0.0
    ensures x == u / d && x * d == u
  {
    x := u / d;
  }

  lemma {:induction false} RemainderOf(u: real, d: real) returns (n: int)
    requires d > 0.0
    ensures (n as real) * d <= u < ((n + 1) as real) * d
  {
    var x := QuotientOf(u, d);
    n := x.Floor;
    ScaleBounds(n as real, x, (n + 1) as real, d, u);
  }

  /** Below the divisor the remainder is the number itself. */
  lemma {:induction false} RemainderBelow(u: real, d: real, n: int)
    requires 0.0 <= u < d && (n as real) * d <= u < ((n + 1) as real) * d
    ensures n == 0
  {
    var x := QuotientOf(u, d);
    FloorScaled(x, d, u, n);
    ScaleBounds(0.0, x, 1.0, d, u);
    FloorIs(x, 0);
  }

  // ---- Double precision ----

  /** 2^53, which is written out below where it is a factor of a real number. */
  const TWO_53: int := 0x20_0000_0000_0000

  /** A whole number in parts of 2^-53. */
  function Parts(n: int): int {
    n * 0x20_0000_0000_0000
  }

  /** `y` is `a` up to `e` parts of 2^-53. */
  ghost predicate Near(y: real, a: real, e: real) {
    -e <= (y - a) * 9007199254740992.0 <= e
  }

  /** `y` is `a` and `e` parts of 2^-53. */
  ghost predicate OffBy(y: real, a: real, e: real) {
    (y - a) * 9007199254740992.0 == e
  }

  ghost predicate IsWhole(x: real) {
    x.Floor as real == x
  }

  /** `x` is the double-precision quotient of `a` and `b`: off by at most one part in 2^53, and exact
      where the quotient is whole. */
  ghost predicate Rounds(x: real, a: real, b: real)
    requires b > 0.0
  {
    Near(x * b, a, a) && (IsWhole(a / b) ==> x == a / b)
  }

  lemma {:induction false} NearScaled(y: real, a: real, e: real, w: real)
    requires w >= 0.0 && Near(y, a, e)
    ensures Near(y * w, a * w, e * w)
  {
    var x := (y - a) * 9007199254740992.0;
    assert (y * w - a * w) * 9007199254740992.0 == x * w;
    assert (-e) * w <= x * w <= e * w;
  }

  lemma {:induction false} NearBoth(z: real, a: real, b: real)
    requires Near(z, a, a) && Near(z, b, b)
    ensures Near(a, b, a + b)
  {
  }

  lemma {:induction false} NotNegative(z: real, u: real)
    requires u >= 0.0 && Near(z, u, u)
    ensures z >= 0.0
  {
  }

  // ---- A quotient by a rounded divisor ----

  /** A quotient by a rounded divisor: `q * c` is `u * k` up to two roundings. */
  lemma {:induction false} QuotientError(k: real, c: real, u: real, d: real, q: real)
    requires k > 0.0 && u >= 0.0 && d > 0.0 && Near(d * k, c, c) && Near(q * d, u, u)
    ensures Near(q * c, u * k, q * c + u * k)
  {
    NotNegative(q * d, u);
    RealCancel(0.0, q, d);
    NearScaled(q * d, u, u, k);
    NearScaled(d * k, c, c, q);
    assert (d * k) * q == (q * d) * k && c * q == q * c;
    NearBoth((q * d) * k, q * c, u * k);
  }

  /** How far `a` is from the blocks next to its own, against the error of two roundings. */
  predicate FarFromWhole(a: nat, m: Positive) {
    && 2 * a <= Parts(a % m) + a % m
    && 2 * a < Parts(m - a % m) - (m - a % m)
  }

  lemma {:induction false} StaysBetween(y: real, a: nat, low: nat, high: nat)
    requires Near(y, a as real, y + a as real)
    requires 2 * a <= Parts(low) + low && 2 * a < Parts(high) - high
    ensures (a - low) as real <= y < (a + high) as real
  {
  }

  lemma {:induction false} FarFloor(q: real, a: nat, m: Positive)
    requires Near(q * (m as real), a as real, q * (m as real) + a as real) && FarFromWhole(a, m)
    ensures q.Floor == a / m
  {
    DivBlock(a, m);
    StaysBetween(q * (m as real), a, a % m, m - a % m);
    FloorBetween(q, m, a / m, a - a % m);
  }

  lemma {:induction false} QuotientFloor(k: Positive, c: Positive, u: nat, d: real, q: real)
    requires d > 0.0 && FarFromWhole(u * k, c)
    requires Near(d * (k as real), c as real, c as real) && Near(q * d, u as real, u as real)
    ensures q.Floor == u * k / c
  {
    QuotientError(k as real, c as real, u as real, d, q);
    ProductReal(u, k);
    FarFloor(q, u * k, c);
  }

  // ---- A remainder by a rounded divisor ----

  lemma {:induction false} RemainderShift(k: real, c: real, u: real, d: real, n: real)
    requires n >= 0.0 && Near(d * k, c, c)
    ensures Near((u - n * d) * k, u * k - n * c, n * c)
  {
    NearScaled(d * k, c, c, n);
    assert (u - n * d) * k - (u * k - n * c) == c * n - (d * k) * n;
  }

  lemma {:induction false} ShiftStays(y: real, rest: nat, low: nat, high: nat, e: nat)
    requires Near(y, rest as real, e as real) && e <= Parts(low) && e < Parts(high)
    ensures (rest - low) as real <= y < (rest + high) as real
  {
  }

  lemma {:induction false} NearFloor(r: real, k: Positive, rest: nat, e: nat)
    requires Near(r * (k as real), rest as real, e as real) && e <= Parts(rest % k) && e < Parts(k - rest % k)
    ensures r.Floor == rest / k
  {
    DivBlock(rest, k);
    ShiftStays(r * (k as real), rest, rest % k, k - rest % k, e);
    FloorBetween(r, k, rest / k, rest - rest % k);
  }

  // ---- The largest error ----

  lemma {:induction false} OffByParts(a: real, e: real, b: real) returns (x: real)
    requires b > 0.0
    ensures OffBy(x * b, a, e)
  {
    var y := a + e / 9007199254740992.0;
    x := y / b;
    assert x * b == y;
  }

  lemma {:induction false} OffByScaled(y: real, a: real, e: real, w: real)
    requires OffBy(y, a, e)
    ensures OffBy(w * y, w * a, w * e)
  {
    assert w * ((y - a) * 9007199254740992.0) == (w * y - w * a) * 9007199254740992.0;
  }

  lemma {:induction false} ExchangeFactors(n: real, d: real, k: real, c: real)
    requires OffBy(d * k, c, c)
    ensures OffBy((n * d) * k, n * c, n * c)
  {
    assert (n * d) * k == n * (d * k);
    OffByScaled(d * k, c, c, n);
  }

  // ---- A whole divisor ----

  lemma {:induction false} ExactDivision(m: Positive, n: nat, u: nat)
    requires u == n * m
    ensures (u as real) / (m as real) == n as real && (n as real).Floor == n
  {
    ProductReal(n, m);
    FloorIs(n as real, n);
  }

  lemma {:induction false} WholeDivision(m: Positive, u: nat, q: real)
    requires u < TWO_53 && Rounds(q, u as real, m as real)
    ensures q.Floor == u / m
  {
    DivBlock(u, m);
    if u % m == 0 {
      ExactDivision(m, u / m, u);
    } else {
      NearFloor(q, m, u, u);
    }
  }

  lemma {:induction false} WholeRemainder(m: Positive, u: nat, n: int)
    requires (n as real) * (m as real) <= u as real < ((n + 1) as real) * (m as real)
    ensures (u as real - (n as real) * (m as real)).Floor == u % m
  {
    ProductReal(n, m);
    ProductReal(n + 1, m);
    BlockIsQuotient(u, m, n);
    DivBlock(u, m);
    FloorIs((u % m) as real, u % m);
  }
}
