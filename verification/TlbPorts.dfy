/**
 The TLB port maps of configs/common/GPUTLBConfig.py. Shared L1 TLBs are found with true
 division by a fraction, and quotient and remainder are truncated when the port name is
 formatted; here the fractions are exact, and TlbRounding shows that floating point gives
 the same slots.
 */
module TlbPorts {
  import opened Collections
  import opened Division

  datatype TlbConfig = PerLane | Mono | PerCU | TwoCU

  function NumTlbs(c: TlbConfig, cus: Positive): nat {
    match c
    case PerLane => 64 * cus
    case Mono => 1
    case PerCU => cus
    case TwoCU => cus / 2
  }

  /** A port of a coalescer. */
  datatype Slot = Slot(coalescer: nat, port: nat)

  /** Translation ports of each compute unit: one per private TLB, or one to a shared TLB. */
  function PortsPerCu(cus: Positive, tlbs: nat): nat {
    if tlbs / cus > 0 then tlbs / cus else 1
  }

  /** The whole part of `cu / (cus / tlbs)`, where the divisor is a fraction. */
  function SharedTlb(cus: Positive, tlbs: nat, cu: nat): nat {
    cu * tlbs / cus
  }

  /** The whole part of the remainder `cu % (cus / tlbs)`, in units of `1 / tlbs` before truncation. */
  function SharedPort(cus: Positive, tlbs: Positive, cu: nat): nat {
    cu * tlbs % cus / tlbs
  }

  /** The L1 slot of translation port `t` of compute unit `cu`. */
  function L1Slot(cus: Positive, tlbs: Positive, cu: nat, t: nat): Slot {
    if tlbs / cus > 0 then Slot(cu * (tlbs / cus) + t, 0)
    else Slot(SharedTlb(cus, tlbs, cu), SharedPort(cus, tlbs, cu))
  }

  lemma {:induction false} LaterBlock(x: int, x': int, m: Positive, p: nat, p': nat)
    requires x + m <= x' && InBlock(x, m, p) && InBlock(x', m, p')
    ensures p < p'
  {
    if p' <= p {
      MulOrder(p' + 1, p + 1, m);
    }
  }

  lemma {:induction false} SharedTlbExists(cus: Positive, tlbs: Positive, cu: nat)
    requires cu < cus
    ensures SharedTlb(cus, tlbs, cu) < tlbs
  {
    var q := SharedTlb(cus, tlbs, cu);
    DivBlock(cu * tlbs, cus);
    MulOrder(cu + 1, cus, tlbs);
    if q >= tlbs {
      MulOrder(tlbs, q, cus);
    }
  }

  /** The shared case: quotient and truncated remainder identify the compute unit, because the
      exact remainders of neighbouring units differ by one. */
  lemma {:induction false} SharedSlot(cus: Positive, tlbs: Positive, cu: nat)
    ensures InBlock(cu * tlbs - SharedTlb(cus, tlbs, cu) * cus, tlbs, SharedPort(cus, tlbs, cu))
  {
    DivBlock(cu * tlbs, cus);
    DivBlock(cu * tlbs % cus, tlbs);
  }

  lemma {:induction false} PortsApart(cus: Positive, tlbs: Positive, cu: nat, cu': nat, q: nat, p: nat, p': nat)
    requires cu < cu'
    requires InBlock(cu * tlbs - q * cus, tlbs, p) && InBlock(cu' * tlbs - q * cus, tlbs, p')
    ensures p < p'
  {
    MulOrder(cu + 1, cu', tlbs);
    LaterBlock(cu * tlbs - q * cus, cu' * tlbs - q * cus, tlbs, p, p');
  }

  lemma {:induction false} SharedDistinct(cus: Positive, tlbs: Positive, cu: nat, cu': nat)
    requires cu < cu' < cus
    requires SharedTlb(cus, tlbs, cu) == SharedTlb(cus, tlbs, cu')
    ensures SharedPort(cus, tlbs, cu) < SharedPort(cus, tlbs, cu')
  {
    SharedSlot(cus, tlbs, cu);
    SharedSlot(cus, tlbs, cu');
    PortsApart(cus, tlbs, cu, cu', SharedTlb(cus, tlbs, cu), SharedPort(cus, tlbs, cu), SharedPort(cus, tlbs, cu'));
  }

  lemma {:induction false} PrivateSlots(cus: Positive, tlbs: nat, cu: nat, t: nat)
    requires cu < cus && t < tlbs / cus
    ensures var per := tlbs / cus;
            && cu * per + t < tlbs && (cu * per + t) / per == cu && (cu * per + t) % per == t
  {
    var per := tlbs / cus;
    DivUnique(cu * per + t, per, cu, t);
    MulOrder(cu + 1, cus, per);
    assert tlbs == cus * per + tlbs % cus;
  }

  lemma {:induction false} SharedPortBound(cus: Positive, tlbs: Positive, cu: nat)
    ensures SharedPort(cus, tlbs, cu) * tlbs < cus
  {
    DivBlock(cu * tlbs, cus);
    DivBlock(cu * tlbs % cus, tlbs);
  }

  /** Distinct translation ports get distinct L1 slots, every slot is on an existing TLB, and its
      port is below the number of compute units per TLB. */
  lemma {:induction false} L1SlotsDistinct(cus: Positive, tlbs: Positive, cu: nat, t: nat, cu': nat, t': nat)
    requires cu < cus && cu' < cus
    requires t < PortsPerCu(cus, tlbs) && t' < PortsPerCu(cus, tlbs)
    ensures L1Slot(cus, tlbs, cu, t).coalescer < tlbs && L1Slot(cus, tlbs, cu, t).port * tlbs < cus
    ensures L1Slot(cus, tlbs, cu, t) == L1Slot(cus, tlbs, cu', t') ==> cu == cu' && t == t'
  {
    if tlbs / cus > 0 {
      PrivateSlots(cus, tlbs, cu, t);
      PrivateSlots(cus, tlbs, cu', t');
    } else {
      SharedTlbExists(cus, tlbs, cu);
      SharedPortBound(cus, tlbs, cu);
      if cu < cu' && SharedTlb(cus, tlbs, cu) == SharedTlb(cus, tlbs, cu') {
        SharedDistinct(cus, tlbs, cu, cu');
      } else if cu' < cu && SharedTlb(cus, tlbs, cu) == SharedTlb(cus, tlbs, cu') {
        SharedDistinct(cus, tlbs, cu', cu);
      }
    }
  }

  /** The slots of one compute unit's translation ports. */
  function L1Slots(cus: Positive, tlbs: Positive, cu: nat): seq<Slot> {
    seq(PortsPerCu(cus, tlbs), t requires t >= 0 => L1Slot(cus, tlbs, cu, t))
  }

  method PrivatePorts(cus: Positive, tlbs: nat, cu: nat) returns (ports: seq<Slot>)
    requires tlbs / cus > 0
    ensures tlbs > 0 && ports == L1Slots(cus, tlbs, cu)
  {
    var perCu := tlbs / cus;
    ports := [];
    for t := 0 to perCu
      invariant |ports| == t && forall u :: 0 <= u < t ==> ports[u] == Slot(cu * perCu + u, 0)
    {
      ports := ports + [Slot(cu * perCu + t, 0)];
    }
  }

  /** Connecting the L1 data TLBs; None models the division by zero without any TLB. */
  method ConnectL1(c: TlbConfig, cus: Positive) returns (slots: Option<seq<seq<Slot>>>)
    ensures slots.None? <==> NumTlbs(c, cus) == 0
    ensures slots.Some? ==> |slots.value| == cus
    ensures slots.Some? ==> forall cu :: 0 <= cu < cus ==> slots.value[cu] == L1Slots(cus, NumTlbs(c, cus), cu)
  {
    var tlbs := NumTlbs(c, cus);
    var made: seq<seq<Slot>> := [];
    for cu := 0 to cus
      invariant |made| == cu && (cu > 0 ==> tlbs > 0)
      invariant forall k :: 0 <= k < cu ==> made[k] == L1Slots(cus, tlbs, k)
    {
      var ports: seq<Slot>;
      if tlbs / cus != 0 {
        ports := PrivatePorts(cus, tlbs, cu);
      } else {
        if tlbs == 0 {
          return None;
        }
        ports := [L1Slot(cus, tlbs, cu, 0)];
        assert ports == L1Slots(cus, tlbs, cu);
      }
      made := made + [ports];
    }
    slots := Some(made);
  }

  /** Without a TLB there are fewer than two compute units per pair. */
  lemma {:induction false} NoTlbIff(c: TlbConfig, cus: Positive)
    ensures NumTlbs(c, cus) == 0 <==> c == TwoCU && cus == 1
  {
  }

  /** Unit `2 j` is on TLB `j - 1` and unit `2 j + 1` on TLB `j`; what is left, in units of `1 / k`. */
  lemma {:induction false} PairQuotient(k: Positive, cu: nat, j: nat)
    requires 0 < cu < 2 * k + 1 && j == cu / 2
    ensures cu == 2 * j ==> cu * k / (2 * k + 1) == j - 1 && cu * k % (2 * k + 1) == 2 * k + 1 - j
    ensures cu == 2 * j + 1 ==> cu * k / (2 * k + 1) == j && cu * k % (2 * k + 1) == k - j
  {
    var b: Positive := 2 * k + 1;
    if cu == 2 * j {
      assert cu * k == (j - 1) * b + (b - j);
      DivUnique(cu * k, b, j - 1, b - j);
    } else {
      assert cu * k == j * b + (k - j);
      DivUnique(cu * k, b, j, k - j);
    }
  }

  lemma {:induction false} OddPairs(k: Positive, cu: nat)
    requires cu < 2 * k + 1
    ensures L1Slot(2 * k + 1, k, cu, 0) == if cu <= 2 then Slot(0, cu) else Slot((cu - 1) / 2, (cu + 1) % 2)
  {
    DivUnique(k, 2 * k + 1, 0, k);
    if cu == 0 {
      DivUnique(0, 2 * k + 1, 0, 0);
      DivUnique(0, k, 0, 0);
    } else {
      var j := cu / 2;
      PairQuotient(k, cu, j);
      if cu == 1 {
        DivUnique(k, k, 1, 0);
      } else if cu == 2 {
        DivUnique(2 * k, k, 2, 0);
      } else if cu == 2 * j {
        DivUnique(2 * k + 1 - j, k, 1, k + 1 - j);
      } else {
        DivUnique(k - j, k, 0, k - j);
      }
    }
  }

  lemma {:induction false} EvenPairs(k: Positive, cu: nat)
    ensures L1Slot(2 * k, k, cu, 0) == Slot(cu / 2, cu % 2)
  {
    DivUnique(k, 2 * k, 0, k);
    var q, r := cu / 2, cu % 2;
    assert cu * k == q * (2 * k) + r * k;
    MulOrder(r, 1, k);
    DivUnique(cu * k, 2 * k, q, r * k);
    DivUnique(r * k, k, r, 0);
  }

  lemma {:induction false} OneForAll(cus: Positive, cu: nat)
    requires cu < cus
    ensures L1Slot(cus, 1, cu, 0) == Slot(0, cu)
  {
    if cus > 1 {
      DivUnique(1, cus, 0, 1);
      DivUnique(cu, cus, 0, cu);
      DivUnique(cu, 1, cu, 0);
    }
  }

  /** What each configuration means: sixty-four TLBs for every compute unit, one for all of them, one for
      every unit, or one for two neighbours; of an odd number of units the first three share one. */
  lemma {:induction false} ConfigSlots(c: TlbConfig, cus: Positive, cu: nat, t: nat)
    requires cu < cus && NumTlbs(c, cus) > 0
    ensures PortsPerCu(cus, NumTlbs(c, cus)) == if c == PerLane then 64 else 1
    ensures var slot := L1Slot(cus, NumTlbs(c, cus), cu, t);
            && (c == PerLane ==> slot == Slot(64 * cu + t, 0))
            && (c == Mono && t == 0 ==> slot == Slot(0, cu))
            && (c == PerCU && t == 0 ==> slot == Slot(cu, 0))
            && (c == TwoCU && cus % 2 == 0 ==> slot == Slot(cu / 2, cu % 2))
            && (c == TwoCU && cus % 2 == 1 ==>
                  slot == if cu <= 2 then Slot(0, cu) else Slot((cu - 1) / 2, (cu + 1) % 2))
  {
    match c
    case PerLane => DivUnique(64 * cus, cus, 64, 0);
    case Mono =>
      OneForAll(cus, cu);
      if cus > 1 {
        DivUnique(1, cus, 0, 1);
      }
    case PerCU => DivUnique(cus, cus, 1, 0);
    case TwoCU =>
      DivUnique(cus / 2, cus, 0, cus / 2);
      if cus % 2 == 0 {
        EvenPairs(cus / 2, cu);
      } else {
        OddPairs(cus / 2, cu);
      }
  }

  // ---- Numbering towards L2 ----

  function Sum(widths: seq<nat>): nat {
    if widths == [] then 0 else Sum(widths[..|widths| - 1]) + widths[|widths| - 1]
  }

  /** The L2 coalescer's ports are handed out as 0, 1, 2, ... over all L1 TLBs. */
  method NumberL2(widths: seq<nat>) returns (ports: seq<nat>)
    ensures ports == UpTo(Sum(widths))
  {
    ports := [];
    var next := 0;
    for k := 0 to |widths|
      invariant next == Sum(widths[..k]) && ports == UpTo(next)
    {
      assert widths[..k + 1][..k] == widths[..k];
      for i := 0 to widths[k]
        invariant next == Sum(widths[..k]) + i && ports == UpTo(next)
      {
        ports := ports + [next];
        next := next + 1;
      }
    }
    assert widths[..|widths|] == widths;
  }
}
