/**
 Floating point in the TLB port maps of configs/common/GPUTLBConfig.py: the divisor and the quotient
 are rounded to double precision, then quotient and remainder are cut to whole numbers. This changes
 no port, except for an odd number of compute units shared in pairs by too many TLBs, and from how
 many TLBs on it can is exact.
 */
module TlbRounding {
  import opened Division
  import opened Rounding
  import opened TlbPorts

  /** The slot that the script's arithmetic gives: the divisor `d` and the quotient `q` are rounded,
      the remainder `r` by a float is exact, and both are cut to whole numbers. */
  ghost predicate FloatSlot(cus: nat, tlbs: Positive, cu: nat, d: real, q: real, n: int, r: real) {
    && d > 0.0 && Rounds(d, cus as real, tlbs as real) && Rounds(q, cu as real, d)
    && (n as real) * d <= cu as real < ((n + 1) as real) * d && r == cu as real - (n as real) * d
  }

  // ---- An odd number of units shared in pairs ----

  /** The divisor is a fraction only for an odd number of units shared in pairs. */
  lemma {:induction false} FractionOnlyIf(c: TlbConfig, cus: Positive)
    requires NumTlbs(c, cus) > 0 && NumTlbs(c, cus) / cus == 0 && cus % NumTlbs(c, cus) != 0
    ensures c == TwoCU && cus == 2 * NumTlbs(c, cus) + 1
  {
    DivUnique(64 * cus, cus, 64, 0);
    DivUnique(cus, cus, 1, 0);
    DivUnique(2 * NumTlbs(c, cus), NumTlbs(c, cus), 2, 0);
  }

  /** The numbers of TLBs for which double precision is enough. */
  predicate FewEnough(k: Positive) {
    2 * ((2 * k - 1) * k) <= TWO_53 + 1
  }

  lemma {:induction false} FewEnoughBounds(k: Positive)
    requires FewEnough(k)
    ensures 4 * k < TWO_53 - 1 && 4 * (k * k) <= 2 * TWO_53 && (k - 1) * (2 * k + 1) <= TWO_53
  {
    assert (2 * k - 1) * k == 2 * (k * k) - k && (k - 1) * (2 * k + 1) == 2 * (k * k) - k - 1;
    if k >= 3 {
      MulOrder(3, k, k);
    }
  }

  lemma {:induction false} QuotientIsFar(k: Positive, cu: nat)
    requires FewEnough(k) && 0 < cu < 2 * k + 1
    ensures FarFromWhole(cu * k, 2 * k + 1)
  {
    var j := cu / 2;
    PairQuotient(k, cu, j);
    FewEnoughBounds(k);
    if cu == 2 * j {
      EvenIsFar(k, j);
    } else {
      MulOrder(cu, 2 * k - 1, k);
    }
  }

  lemma {:induction false} EvenIsFar(k: Positive, j: nat)
    requires 0 < j <= k && 4 * k < TWO_53 - 1 && 4 * (k * k) <= 2 * TWO_53
    ensures 2 * (2 * j * k) <= Parts(2 * k + 1 - j) && 2 * (2 * j * k) < Parts(j) - j
  {
    MulOrder(j, k, k);
    assert 2 * (2 * j * k) == j * (4 * k);
    MulOrder(4 * k, TWO_53 - 2, j);
  }

  /** How far the remainder `rest` of quotient `n` is from the blocks next to its own. */
  predicate RestIsFar(n: nat, cus: nat, rest: nat, k: Positive) {
    n * cus <= Parts(rest % k) && n * cus < Parts(k - rest % k)
  }

  lemma {:induction false} RemainderIsFar(k: Positive, cu: nat)
    requires FewEnough(k) && 2 < cu < 2 * k + 1
    ensures RestIsFar(cu * k / (2 * k + 1), 2 * k + 1, cu * k % (2 * k + 1), k)
  {
    var j := cu / 2;
    PairQuotient(k, cu, j);
    FewEnoughBounds(k);
    if cu == 2 * j {
      DivUnique(2 * k + 1 - j, k, 1, k + 1 - j);
      MarginsOf(k, j - 1, k + 1 - j);
    } else {
      DivUnique(k - j, k, 0, k - j);
      MarginsOf(k, j, k - j);
    }
  }

  lemma {:induction false} MarginsOf(k: Positive, n: nat, s: nat)
    requires 0 < n < k && s == k - n && 4 * k < TWO_53 - 1 && (k - 1) * (2 * k + 1) <= TWO_53
    ensures n * (2 * k + 1) <= Parts(s) && n * (2 * k + 1) < Parts(k - s)
  {
    MulOrder(n, k - 1, 2 * k + 1);
    MulOrder(2 * k + 1, TWO_53 - 1, n);
  }

  lemma {:induction false} RestReal(k: nat, cus: Positive, cu: nat)
    ensures (cu * k % cus) as real == (cu as real) * (k as real) - ((cu * k / cus) as real) * (cus as real)
    ensures ((cu * k / cus) * cus) as real == ((cu * k / cus) as real) * (cus as real)
  {
    DivBlock(cu * k, cus);
    ProductReal(cu, k);
    ProductReal(cu * k / cus, cus);
  }

  lemma {:induction false} RestNear(k: Positive, cus: Positive, cu: nat, d: real)
    requires Near(d * (k as real), cus as real, cus as real)
    ensures var n := cu * k / cus;
            Near((cu as real - (n as real) * d) * (k as real), (cu * k % cus) as real, (n * cus) as real)
  {
    RestReal(k, cus, cu);
    RemainderShift(k as real, cus as real, cu as real, d, (cu * k / cus) as real);
  }

  lemma {:induction false} RemainderFloor(k: Positive, cus: Positive, cu: nat, d: real)
    requires RestIsFar(cu * k / cus, cus, cu * k % cus, k) && Near(d * (k as real), cus as real, cus as real)
    ensures (cu as real - ((cu * k / cus) as real) * d).Floor == cu * k % cus / k
  {
    RestNear(k, cus, cu, d);
    NearFloor(cu as real - ((cu * k / cus) as real) * d, k, cu * k % cus, cu * k / cus * cus);
  }

  lemma {:induction false} AboveDouble(z: real, w: real)
    requires 2.0 * w + 1.0 < TWO_53 as real && Near(z, 2.0 * w + 1.0, 2.0 * w + 1.0)
    ensures z > 2.0 * w
  {
  }

  lemma {:induction false} DivisorAboveTwo(w: real, d: real)
    requires w > 0.0 && 2.0 * w + 1.0 < TWO_53 as real && Near(d * w, 2.0 * w + 1.0, 2.0 * w + 1.0)
    ensures d > 2.0
  {
    AboveDouble(d * w, w);
    RealCancel(2.0, d, w);
  }

  lemma {:induction false} FirstUnits(k: Positive, cu: nat)
    requires cu <= 2 && cu < 2 * k + 1
    ensures SharedTlb(2 * k + 1, k, cu) == 0 && SharedPort(2 * k + 1, k, cu) == cu
  {
    DivUnique(cu * k, 2 * k + 1, 0, cu * k);
    DivUnique(cu * k, k, cu, 0);
  }

  lemma {:induction false} FractionQuotient(k: Positive, cu: nat, d: real, q: real)
    requires FewEnough(k) && cu < 2 * k + 1 && d > 0.0
    requires Near(d * (k as real), (2 * k + 1) as real, (2 * k + 1) as real) && Rounds(q, cu as real, d)
    ensures q.Floor == SharedTlb(2 * k + 1, k, cu)
  {
    if cu == 0 {
      FirstUnits(k, 0);
      assert (cu as real) / d == 0.0;
      FloorIs(0.0, 0);
    } else {
      QuotientIsFar(k, cu);
      QuotientFloor(k, 2 * k + 1, cu, d, q);
    }
  }

  lemma {:induction false} ExactQuotient(k: Positive, cu: nat, d: real, n: int)
    requires FewEnough(k) && 0 < cu < 2 * k + 1 && d > 0.0
    requires Near(d * (k as real), (2 * k + 1) as real, (2 * k + 1) as real)
    requires (n as real) * d <= cu as real < ((n + 1) as real) * d
    ensures n == cu * k / (2 * k + 1)
  {
    var x := QuotientOf(cu as real, d);
    FloorScaled(x, d, cu as real, n);
    QuotientIsFar(k, cu);
    QuotientFloor(k, 2 * k + 1, cu, d, x);
  }

  lemma {:induction false} FirstRemainder(k: Positive, cu: nat, d: real, n: int)
    requires cu <= 2 && cu < 2 * k + 1 && d > 2.0 && (n as real) * d <= cu as real < ((n + 1) as real) * d
    ensures (cu as real - (n as real) * d).Floor == SharedPort(2 * k + 1, k, cu)
  {
    RemainderBelow(cu as real, d, n);
    FirstUnits(k, cu);
    FloorIs(cu as real, cu);
  }

  lemma {:induction false} LaterRemainder(k: Positive, cu: nat, d: real, n: int)
    requires FewEnough(k) && 2 < cu < 2 * k + 1 && d > 0.0
    requires Near(d * (k as real), (2 * k + 1) as real, (2 * k + 1) as real)
    requires (n as real) * d <= cu as real < ((n + 1) as real) * d
    ensures (cu as real - (n as real) * d).Floor == SharedPort(2 * k + 1, k, cu)
  {
    ExactQuotient(k, cu, d, n);
    RemainderIsFar(k, cu);
    RemainderFloor(k, 2 * k + 1, cu, d);
  }

  lemma {:induction false} FractionDivisor(k: Positive, d: real)
    requires FewEnough(k) && Near(d * (k as real), (2 * k + 1) as real, (2 * k + 1) as real)
    ensures d > 2.0
  {
    FewEnoughBounds(k);
    DivisorAboveTwo(k as real, d);
  }

  lemma {:induction false} FractionRemainder(k: Positive, cu: nat, d: real, n: int)
    requires FewEnough(k) && cu < 2 * k + 1 && d > 0.0
    requires Near(d * (k as real), (2 * k + 1) as real, (2 * k + 1) as real)
    requires (n as real) * d <= cu as real < ((n + 1) as real) * d
    ensures (cu as real - (n as real) * d).Floor == SharedPort(2 * k + 1, k, cu)
  {
    if cu <= 2 {
      FractionDivisor(k, d);
      FirstRemainder(k, cu, d, n);
    } else {
      LaterRemainder(k, cu, d, n);
    }
  }

  // ---- The number of units is exact ----

  /** The unit whose quotient is closest above a whole number. */
  lemma {:induction false} TightUnit(k: Positive)
    requires k > 1
    ensures var a := (2 * k - 1) * k;
            a == (k - 1) * (2 * k + 1) + 1 && SharedTlb(2 * k + 1, k, 2 * k - 1) == k - 1
  {
    PairQuotient(k, 2 * k - 1, k - 1);
  }

  lemma {:induction false} NoSuchProduct(k: Positive)
    ensures (k - 1) * (2 * k + 1) != TWO_53
  {
    var b := 0x400_0000;
    if k <= b {
      MulOrder(k - 1, b - 1, 2 * k + 1);
      MulOrder(2 * k + 1, 2 * b + 1, b - 1);
    } else {
      MulOrder(b, k - 1, 2 * k + 1);
      MulOrder(2 * b + 3, 2 * k + 1, b);
    }
  }

  /** The largest double-precision divisor. */
  ghost predicate IsLargest(k: Positive, d: real) {
    d > 0.0 && OffBy(d * (k as real), (2 * k + 1) as real, (2 * k + 1) as real)
  }

  lemma {:induction false} LargestDivisor(k: Positive) returns (d: real)
    requires k > 1
    ensures IsLargest(k, d) && Rounds(d, (2 * k + 1) as real, k as real)
  {
    var c := (2 * k + 1) as real;
    d := OffByParts(c, c, k as real);
    AboveZero(d * (k as real), c);
    RealCancel(0.0, d, k as real);
    var x := QuotientOf(c, k as real);
    FloorScaled(x, k as real, c, 2);
  }

  lemma {:induction false} AboveZero(z: real, c: real)
    requires c > 0.0 && OffBy(z, c, c)
    ensures z > 0.0
  {
  }

  lemma {:induction false} TightReal(k: Positive)
    requires k > 1
    ensures var a := ((2 * k - 1) as real) * (k as real);
            a == (((2 * k - 1) * k) as real) && ((k - 1) as real) * ((2 * k + 1) as real) == a - 1.0
  {
    TightUnit(k);
    ProductReal(k - 1, 2 * k + 1);
    ProductReal(2 * k - 1, k);
  }

  lemma {:induction false} OneAbove(v: real, z: real)
    requires OffBy(v, z, z) && v == z + 1.0
    ensures z == TWO_53 as real
  {
  }

  lemma {:induction false} WholeMisses(k: Positive, d: real)
    requires k > 1 && IsLargest(k, d)
    ensures ((k - 1) as real) * d != (2 * k - 1) as real
  {
    var n, c, u := (k - 1) as real, (2 * k + 1) as real, (2 * k - 1) as real;
    if n * d == u {
      ExchangeFactors(n, d, k as real, c);
      TightReal(k);
      OneAbove(u * (k as real), n * c);
      ProductReal(k - 1, 2 * k + 1);
      NoSuchProduct(k);
    }
  }

  lemma {:induction false} BelowWhole(a: real, z: real, v: real)
    requires OffBy(v, z, z) && OffBy(v, a, -a) && 2.0 * a > (TWO_53 + 1) as real
    ensures z < a - 1.0
  {
  }

  lemma {:induction false} SmallestMisses(k: Positive, d: real, q: real)
    requires k > 1 && !FewEnough(k) && IsLargest(k, d)
    requires OffBy(q * d, (2 * k - 1) as real, -((2 * k - 1) as real))
    ensures q < (k - 1) as real
  {
    var w, c, u := k as real, (2 * k + 1) as real, (2 * k - 1) as real;
    ExchangeFactors(q, d, w, c);
    OffByScaled(q * d, u, -u, w);
    TightReal(k);
    BelowWhole(u * w, q * c, (q * d) * w);
    RealCancel(q, (k - 1) as real, c);
  }

  /** A double-precision quotient that is not the exact one, with the largest divisor. */
  lemma {:induction false} FailingQuotient(k: Positive, d: real) returns (q: real)
    requires k > 1 && !FewEnough(k) && IsLargest(k, d)
    ensures Rounds(q, (2 * k - 1) as real, d) && q.Floor != k - 1
  {
    var u := (2 * k - 1) as real;
    if IsWhole(u / d) {
      q := u / d;
      assert q * d == u;
      WholeMisses(k, d);
    } else {
      q := OffByParts(u, -u, d);
      SmallestMisses(k, d, q);
    }
  }

  /** With more TLBs than that, roundings within double precision put a unit on the wrong TLB. */
  lemma {:induction false} RoundingCanFail(k: Positive) returns (d: real, q: real, n: int)
    requires !FewEnough(k)
    ensures FloatSlot(2 * k + 1, k, 2 * k - 1, d, q, n, (2 * k - 1) as real - (n as real) * d)
    ensures q.Floor != SharedTlb(2 * k + 1, k, 2 * k - 1)
  {
    assert k > 1;
    d := LargestDivisor(k);
    q := FailingQuotient(k, d);
    n := RemainderOf((2 * k - 1) as real, d);
    TightUnit(k);
  }

  // ---- A whole divisor ----

  lemma {:induction false} WholeDivisorSlot(cus: Positive, m: Positive, tlbs: Positive, cu: nat)
    requires cus == m * tlbs
    ensures SharedTlb(cus, tlbs, cu) == cu / m && SharedPort(cus, tlbs, cu) == cu % m
  {
    DivBlock(cu, m);
    var q, r := cu / m, cu % m;
    assert cu * tlbs == q * cus + r * tlbs;
    MulOrder(r + 1, m, tlbs);
    DivUnique(cu * tlbs, cus, q, r * tlbs);
    DivUnique(r * tlbs, tlbs, r, 0);
  }

  lemma {:induction false} WholeDivisor(cus: Positive, m: Positive, tlbs: Positive, d: real)
    requires cus == m * tlbs && Rounds(d, cus as real, tlbs as real)
    ensures d == m as real
  {
    ExactDivision(tlbs, m, cus);
  }

  lemma {:induction false} WholeFloors(cus: nat, m: Positive, tlbs: Positive, cu: nat, q: real, n: int, r: real)
    requires cu < TWO_53 && FloatSlot(cus, tlbs, cu, m as real, q, n, r)
    ensures q.Floor == cu / m && r.Floor == cu % m
  {
    WholeDivision(m, cu, q);
    WholeRemainder(m, cu, n);
  }

  // ---- Every shared configuration ----

  ghost predicate IsExact(cus: Positive, tlbs: Positive, cu: nat, q: real, r: real) {
    q.Floor == L1Slot(cus, tlbs, cu, 0).coalescer && r.Floor == L1Slot(cus, tlbs, cu, 0).port
  }

  /** However the divisor and the quotient are rounded, every unit gets its exact slot. */
  ghost predicate AlwaysExact(cus: Positive, tlbs: Positive) {
    forall cu: nat, d: real, q: real, n: int, r: real ::
      cu < cus && FloatSlot(cus, tlbs, cu, d, q, n, r) ==> IsExact(cus, tlbs, cu, q, r)
  }

  lemma {:induction false} WholeIsExact(cus: Positive, m: Positive, tlbs: Positive)
    requires cus == m * tlbs && tlbs / cus == 0 && cus <= TWO_53
    ensures AlwaysExact(cus, tlbs)
  {
    forall cu: nat, d: real, q: real, n: int, r: real | cu < cus && FloatSlot(cus, tlbs, cu, d, q, n, r)
      ensures IsExact(cus, tlbs, cu, q, r)
    {
      WholeDivisor(cus, m, tlbs, d);
      WholeFloors(cus, m, tlbs, cu, q, n, r);
      WholeDivisorSlot(cus, m, tlbs, cu);
    }
  }

  lemma {:induction false} FractionIsExact(k: Positive)
    ensures AlwaysExact(2 * k + 1, k) <==> FewEnough(k)
  {
    var cus: Positive := 2 * k + 1;
    DivUnique(k, cus, 0, k);
    if FewEnough(k) {
      forall cu: nat, d: real, q: real, n: int, r: real | cu < cus && FloatSlot(cus, k, cu, d, q, n, r)
        ensures IsExact(cus, k, cu, q, r)
      {
        FractionQuotient(k, cu, d, q);
        FractionRemainder(k, cu, d, n);
      }
    } else {
      var d, q, n := RoundingCanFail(k);
      assert !IsExact(cus, k, 2 * k - 1, q, (2 * k - 1) as real - (n as real) * d);
    }
  }

  /** In a shared configuration floating point changes no slot, unless an odd number of units is shared
      in pairs by too many TLBs; and then some rounding does change a slot. */
  lemma {:induction false} FloatSlotIsExact(c: TlbConfig, cus: Positive)
    requires cus <= TWO_53 && NumTlbs(c, cus) > 0 && NumTlbs(c, cus) / cus == 0
    ensures AlwaysExact(cus, NumTlbs(c, cus)) <==> cus % NumTlbs(c, cus) == 0 || FewEnough(NumTlbs(c, cus))
  {
    var tlbs: Positive := NumTlbs(c, cus);
    if cus % tlbs == 0 {
      DivBlock(cus, tlbs);
      WholeIsExact(cus, cus / tlbs, tlbs);
    } else {
      FractionOnlyIf(c, cus);
      FractionIsExact(tlbs);
    }
  }
}
