/** Facts about quotients and remainders of natural numbers. */
module Division {

  type Positive = n: nat | n > 0 witness 1

  lemma {:induction false} MulOrder(a: nat, b: nat, w: nat)
    requires a <= b
    ensures a * w <= b * w
  {
  }

  /** Quotient and remainder are determined by `a == q * b + r` with `r < b`. */
  lemma {:induction false} DivUnique(a: nat, b: Positive, q: nat, r: nat)
    requires r < b && a == q * b + r
    ensures a / b == q && a % b == r
  {
    var q', r' := a / b, a % b;
    assert a == q' * b + r';
    if q' > q {
      MulOrder(q + 1, q', b);
    } else if q' < q {
      MulOrder(q' + 1, q, b);
    }
  }

  lemma {:induction false} DivMonotone(a: nat, b: nat, w: Positive)
    requires a <= b
    ensures a / w <= b / w
  {
    var p, q := a / w, b / w;
    assert p * w <= a && b < (q + 1) * w;
    if p > q {
      MulOrder(q + 1, p, w);
    }
  }

  /** `x` lies in block `p` of the blocks of length `m`. */
  ghost predicate InBlock(x: int, m: nat, p: int) {
    p * m <= x < (p + 1) * m
  }

  lemma {:induction false} DivBlock(x: nat, m: Positive)
    ensures InBlock(x, m, x / m) && InBlock(x % m, m, 0)
    ensures x == x / m * m + x % m
  {
  }

  lemma {:induction false} BlocksBelowZero(p: int, m: nat)
    requires p < 0
    ensures (p + 1) * m <= 0
  {
    var k: nat := -(p + 1);
    MulOrder(0, k, m);
    assert (p + 1) * m == -(k * m);
  }

  /** A number lies in one block only, that of its quotient. */
  lemma {:induction false} BlockIsQuotient(x: nat, m: Positive, p: int)
    ensures InBlock(x, m, p) <==> p == x / m
  {
    DivBlock(x, m);
    if InBlock(x, m, p) {
      if p < 0 {
        BlocksBelowZero(p, m);
      } else {
        assert (p + 1) * m == p * m + m;
        DivUnique(x, m, p, x - p * m);
      }
    }
  }
}
