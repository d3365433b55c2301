/**
 Port allocation for the GPU model: the running port index of configs/example/apu_se.py
 against the sequencer list that configs/ruby/GPU_VIPER.py builds.
 */
module GpuPorts {
  import opened Division

  /** The sequencers, by the controller they belong to. Only TCPs have a coalescer. */
  datatype Sequencer = CorePair(i: nat) | Tcp(i: nat) | Sqc(i: nat) | Scalar(i: nat) | CpTcp(i: nat) | CpSqc(i: nat)

  datatype Options = Options(cpus: nat, cus: Positive, cps: nat, perSqc: Positive, perScalar: Positive) {
    function Sqcs(): nat {
      CeilDiv(cus, perSqc)
    }

    function Scalars(): nat {
      CeilDiv(cus, perScalar)
    }

    function CorePorts(): nat {
      2 * ((cpus + 1) / 2)
    }
  }

  /** `int(math.ceil(float(a) / b))` */
  function CeilDiv(a: nat, b: Positive): nat {
    (a + b - 1) / b
  }

  // ---- The list of sequencers ----

  function CorePairs(n: nat): seq<Sequencer> {
    seq(n, i requires 0 <= i < n => CorePair(i))
  }

  function Tcps(n: nat): seq<Sequencer> {
    seq(n, i requires 0 <= i < n => Tcp(i))
  }

  function SqcList(n: nat): seq<Sequencer> {
    seq(n, i requires 0 <= i < n => Sqc(i))
  }

  function ScalarList(n: nat): seq<Sequencer> {
    seq(n, i requires 0 <= i < n => Scalar(i))
  }

  function CpTcps(n: nat): seq<Sequencer> {
    seq(n, i requires 0 <= i < n => CpTcp(i))
  }

  function CpSqcs(n: nat): seq<Sequencer> {
    seq(n, i requires 0 <= i < n => CpSqc(i))
  }

  function CmdProcs(n: nat): (r: seq<Sequencer>)
    ensures |r| == 2 * n
    ensures forall i :: 0 <= i < n ==> r[2 * i] == CpTcp(i) && r[2 * i + 1] == CpSqc(i)
  {
    if n == 0 then [] else CmdProcs(n - 1) + [CpTcp(n - 1), CpSqc(n - 1)]
  }

  /** `create_system` of the GPU_VIPER protocol: the order in which the lists are joined. */
  function AllSequencers(o: Options): seq<Sequencer> {
    CorePairs(o.CorePorts()) + Tcps(o.cus) + SqcList(o.Sqcs()) + ScalarList(o.Scalars()) + CmdProcs(o.cps)
  }

  method ConstructAll(o: Options) returns (list: seq<Sequencer>)
    ensures list == AllSequencers(o)
  {
    var core, tcps, sqcs, scalars, cps := [], [], [], [], [];
    for i := 0 to (o.cpus + 1) / 2
      invariant core == CorePairs(2 * i)
    {
      core := core + [CorePair(2 * i), CorePair(2 * i + 1)];
    }
    for i := 0 to o.cus
      invariant tcps == Tcps(i)
    {
      tcps := tcps + [Tcp(i)];
    }
    for i := 0 to o.Sqcs()
      invariant sqcs == SqcList(i)
    {
      sqcs := sqcs + [Sqc(i)];
    }
    for i := 0 to o.Scalars()
      invariant scalars == ScalarList(i)
    {
      scalars := scalars + [Scalar(i)];
    }
    for i := 0 to o.cps
      invariant cps == CmdProcs(i)
    {
      cps := cps + [CpTcp(i), CpSqc(i)];
    }
    list := core + tcps + sqcs + scalars + cps;
  }

  // ---- The walk over the list ----

  datatype Ports = Ports(memory: seq<Sequencer>, sqc: seq<Sequencer>, scalar: seq<Sequencer>,
                         dcache: seq<Sequencer>, icache: seq<Sequencer>, token: seq<Sequencer>, end: nat)

  lemma {:induction false} ListShape(o: Options)
    ensures var s, c := AllSequencers(o), o.CorePorts();
            && |s| == c + o.cus + o.Sqcs() + o.Scalars() + 2 * o.cps
            && (forall i :: 0 <= i < c ==> s[i] == CorePair(i))
            && (forall i :: 0 <= i < o.cus ==> s[c + i] == Tcp(i))
            && (forall i :: 0 <= i < o.Sqcs() ==> s[c + o.cus + i] == Sqc(i))
            && (forall i :: 0 <= i < o.Scalars() ==> s[c + o.cus + o.Sqcs() + i] == Scalar(i))
            && s[c + o.cus + o.Sqcs() + o.Scalars()..] == CmdProcs(o.cps)
  {
  }

  lemma {:induction false} DivStep(i: nat, per: Positive)
    ensures (i + 1) / per == i / per + if (i + 1) % per == 0 then 1 else 0
    ensures i / per * per + i % per == i
  {
    var q, r := i / per, i % per;
    assert i == q * per + r;
    if r + 1 == per {
      assert i + 1 == (q + 1) * per;
      DivUnique(i + 1, per, q + 1, 0);
    } else {
      DivUnique(i + 1, per, q, r + 1);
    }
  }

  lemma {:induction false} LastShare(n: Positive, per: Positive)
    ensures (n - 1) / per + 1 == CeilDiv(n, per)
  {
    var q, r := (n - 1) / per, (n - 1) % per;
    assert n - 1 == q * per + r;
    DivUnique(n + per - 1, per, q + 1, r);
  }

  /** Enough shares, and not one too many. */
  lemma {:induction false} FewestShares(n: Positive, per: Positive)
    ensures (CeilDiv(n, per) - 1) * per < n <= CeilDiv(n, per) * per
  {
    LastShare(n, per);
    DivBlock(n - 1, per);
  }

  /** How many sequencers of each kind there are: core pairs for two CPUs each, one per compute unit, and
      the fewest shared ones. */
  lemma {:induction false} SequencerCounts(o: Options)
    ensures o.CorePorts() % 2 == 0 && o.cpus <= o.CorePorts() <= o.cpus + 1
    ensures (o.Sqcs() - 1) * o.perSqc < o.cus <= o.Sqcs() * o.perSqc
    ensures (o.Scalars() - 1) * o.perScalar < o.cus <= o.Scalars() * o.perScalar
  {
    FewestShares(o.cus, o.perSqc);
    FewestShares(o.cus, o.perScalar);
  }

  lemma {:induction false} ShareInRange(i: nat, n: nat, per: Positive)
    requires i < n
    ensures i / per < CeilDiv(n, per)
  {
    LastShare(n, per);
    DivMonotone(i, n - 1, per);
  }

  /** One shared port per `per` compute units: the index advances at every multiple of `per`. */
  method ShareWalk(list: seq<Sequencer>, from: nat, n: Positive, per: Positive)
    returns (ports: seq<Sequencer>, idx: nat)
    requires from + CeilDiv(n, per) <= |list|
    ensures SharedFrom(list, from, n, per, ports) && idx == from + CeilDiv(n, per)
  {
    ports := [];
    idx := from;
    for i := 0 to n
      invariant |ports| == i && idx == from + (if i == 0 then 0 else (i - 1) / per)
      invariant forall k :: 0 <= k < i ==> k / per < CeilDiv(n, per) && ports[k] == list[from + k / per]
    {
      if i > 0 {
        DivStep(i - 1, per);
      } else {
        DivUnique(0, per, 0, 0);
      }
      if i > 0 && i % per == 0 {
        idx := idx + 1;
      }
      ShareInRange(i, n, per);
      ports := ports + [list[idx]];
    }
    LastShare(n, per);
    idx := idx + 1;
  }

  /** TCP coalescers take a token port; they are found by their type. */
  function Coalescers(list: seq<Sequencer>): seq<Sequencer> {
    if list == [] then []
    else Coalescers(list[..|list| - 1]) + if list[|list| - 1].Tcp? then [list[|list| - 1]] else []
  }

  method TokenWalk(list: seq<Sequencer>) returns (token: seq<Sequencer>)
    ensures token == Coalescers(list)
  {
    token := [];
    for i := 0 to |list|
      invariant token == Coalescers(list[..i])
    {
      assert list[..i + 1][..i] == list[..i];
      if list[i].Tcp? {
        token := token + [list[i]];
      }
    }
    assert list[..|list|] == list;
  }

  lemma {:induction false} CoalescersConcat(a: seq<Sequencer>, b: seq<Sequencer>)
    ensures Coalescers(a + b) == Coalescers(a) + Coalescers(b)
  {
    if b == [] {
      assert a + b == a;
    } else {
      assert (a + b)[..|a + b| - 1] == a + b[..|b| - 1];
      CoalescersConcat(a, b[..|b| - 1]);
    }
  }

  lemma {:induction false} NoCoalescers(s: seq<Sequencer>)
    requires forall i :: 0 <= i < |s| ==> !s[i].Tcp?
    ensures Coalescers(s) == []
  {
    if s != [] {
      NoCoalescers(s[..|s| - 1]);
    }
  }

  lemma {:induction false} AllCoalescers(s: seq<Sequencer>)
    requires forall i :: 0 <= i < |s| ==> s[i].Tcp?
    ensures Coalescers(s) == s
  {
    if s != [] {
      AllCoalescers(s[..|s| - 1]);
      assert s == s[..|s| - 1] + [s[|s| - 1]];
    }
  }

  lemma {:induction false} CmdProcsNoTcp(n: nat)
    ensures forall i :: 0 <= i < |CmdProcs(n)| ==> !CmdProcs(n)[i].Tcp?
  {
    if n > 0 {
      CmdProcsNoTcp(n - 1);
    }
  }

  lemma {:induction false} CoalescersOfFive(a: seq<Sequencer>, t: seq<Sequencer>, s: seq<Sequencer>,
                                            c: seq<Sequencer>, p: seq<Sequencer>)
    requires Coalescers(a) == Coalescers(s) == Coalescers(c) == Coalescers(p) == []
    ensures Coalescers(a + t + s + c + p) == Coalescers(t)
  {
    CoalescersConcat(a, t);
    CoalescersConcat(a + t, s);
    CoalescersConcat(a + t + s, c);
    CoalescersConcat(a + t + s + c, p);
  }

  lemma {:induction false} CoalescersOfAll(o: Options)
    ensures Coalescers(AllSequencers(o)) == Tcps(o.cus)
  {
    var a, s := CorePairs(o.CorePorts()), SqcList(o.Sqcs());
    var c, p := ScalarList(o.Scalars()), CmdProcs(o.cps);
    NoCoalescers(a);
    NoCoalescers(s);
    NoCoalescers(c);
    CmdProcsNoTcp(o.cps);
    NoCoalescers(p);
    AllCoalescers(Tcps(o.cus));
    CoalescersOfFive(a, Tcps(o.cus), s, c, p);
  }

  /** The assignment of ports in apu_se.py: every compute unit and command processor gets its own
      or its shared sequencer, and the walk ends at the end of the list. */
  method AttachPorts(o: Options) returns (p: Ports)
    ensures |p.memory| == |p.token| == o.cus
    ensures forall i :: 0 <= i < o.cus ==> p.memory[i] == Tcp(i) && p.token[i] == Tcp(i)
    ensures |p.sqc| == o.cus && forall i :: 0 <= i < o.cus ==> p.sqc[i] == Sqc(i / o.perSqc)
    ensures |p.scalar| == o.cus && forall i :: 0 <= i < o.cus ==> p.scalar[i] == Scalar(i / o.perScalar)
    ensures |p.dcache| == |p.icache| == o.cps
    ensures forall i :: 0 <= i < o.cps ==> p.dcache[i] == CpTcp(i) && p.icache[i] == CpSqc(i)
    ensures p.end == |AllSequencers(o)|
  {
    var list := ConstructAll(o);
    ListShape(o);
    var token := TokenWalk(list);
    CoalescersOfAll(o);
    var idx := |list| - o.cus - o.Sqcs() - o.Scalars();
    idx := idx - o.cps * 2;
    var memory, sqc, scalar;
    memory, idx := AttachMemory(list, idx, o.cus);
    ghost var from := idx;
    sqc, idx := ShareWalk(list, idx, o.cus, o.perSqc);
    SqcPorts(list, from, o.cus, o.perSqc, sqc);
    from := idx;
    scalar, idx := ShareWalk(list, idx, o.cus, o.perScalar);
    ScalarPorts(list, from, o.cus, o.perScalar, scalar);
    var dcache, icache := AttachCps(list, idx, o.cps);
    p := Ports(memory, sqc, scalar, dcache, icache, token, idx + 2 * o.cps);
  }

  /** The walk has assigned shared entries of the list from position `from` on. */
  ghost predicate SharedFrom(list: seq<Sequencer>, from: nat, n: Positive, per: Positive, ports: seq<Sequencer>) {
    && |ports| == n && from + CeilDiv(n, per) <= |list|
    && forall i :: 0 <= i < n ==> i / per < CeilDiv(n, per) && ports[i] == list[from + i / per]
  }

  lemma {:induction false} SqcPorts(list: seq<Sequencer>, from: nat, n: Positive, per: Positive, ports: seq<Sequencer>)
    requires SharedFrom(list, from, n, per, ports)
    requires forall k :: 0 <= k < CeilDiv(n, per) ==> list[from + k] == Sqc(k)
    ensures forall i :: 0 <= i < n ==> ports[i] == Sqc(i / per)
  {
    forall i | 0 <= i < n ensures ports[i] == Sqc(i / per) {
      SqcAt(list, from, CeilDiv(n, per), i / per);
    }
  }

  lemma {:induction false} SqcAt(list: seq<Sequencer>, from: nat, count: nat, k: nat)
    requires from + count <= |list| && k < count && forall j :: 0 <= j < count ==> list[from + j] == Sqc(j)
    ensures list[from + k] == Sqc(k)
  {
  }

  lemma {:induction false} ScalarPorts(
      list: seq<Sequencer>, from: nat, n: Positive, per: Positive, ports: seq<Sequencer>)
    requires SharedFrom(list, from, n, per, ports)
    requires forall k :: 0 <= k < CeilDiv(n, per) ==> list[from + k] == Scalar(k)
    ensures forall i :: 0 <= i < n ==> ports[i] == Scalar(i / per)
  {
    forall i | 0 <= i < n ensures ports[i] == Scalar(i / per) {
      ScalarAt(list, from, CeilDiv(n, per), i / per);
    }
  }

  lemma {:induction false} ScalarAt(list: seq<Sequencer>, from: nat, count: nat, k: nat)
    requires from + count <= |list| && k < count && forall j :: 0 <= j < count ==> list[from + j] == Scalar(j)
    ensures list[from + k] == Scalar(k)
  {
  }

  method AttachMemory(list: seq<Sequencer>, from: nat, n: nat) returns (memory: seq<Sequencer>, idx: nat)
    requires from + n <= |list| && forall i :: 0 <= i < n ==> list[from + i] == Tcp(i)
    ensures memory == Tcps(n) && idx == from + n
  {
    memory, idx := [], from;
    for i := 0 to n
      invariant idx == from + i && memory == Tcps(i)
    {
      memory := memory + [list[idx]];
      idx := idx + 1;
    }
  }

  lemma {:induction false} CmdProcAt(list: seq<Sequencer>, idx: nat, n: nat, i: nat)
    requires idx <= |list| && list[idx..] == CmdProcs(n) && i < n
    ensures idx + 2 * i + 1 < |list| && list[idx + 2 * i] == CpTcp(i) && list[idx + 2 * i + 1] == CpSqc(i)
  {
    assert list[idx..][2 * i] == CpTcp(i) && list[idx..][2 * i + 1] == CpSqc(i);
  }

  method AttachCps(list: seq<Sequencer>, idx: nat, n: nat) returns (dcache: seq<Sequencer>, icache: seq<Sequencer>)
    requires idx <= |list| && list[idx..] == CmdProcs(n)
    ensures dcache == CpTcps(n) && icache == CpSqcs(n)
  {
    dcache, icache := [], [];
    for i := 0 to n
      invariant dcache == CpTcps(i) && icache == CpSqcs(i)
    {
      CmdProcAt(list, idx, n, i);
      dcache := dcache + [list[idx + i * 2]];
      icache := icache + [list[idx + i * 2 + 1]];
    }
  }
}
