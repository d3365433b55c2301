/**
 The bounded print queue of the O3 pipeline viewer (util/o3-pipeview.py): instructions
 arrive out of order, the queue is filled beyond `maxThreshold`, sorted, and drained down
 to `minThreshold`.
 */
module PipeWindow {
  import opened Collections
  import opened Sorting

  /** One instruction as the viewer stores it; a stage tick of 0 means the stage was not reached. */
  datatype Inst = Inst(
    sn: nat, fetch: nat, decode: nat, rename: nat, dispatch: nat, issue: nat,
    complete: nat, retire: nat, store: nat, pc: string, upc: string, disasm: string)

  /** The viewer's settings; a range end that is not positive means "no end". */
  datatype Config = Config(
    startTick: nat, stopTick: int, startSn: nat, stopSn: int,
    onlyCommitted: bool, storeCompletions: bool,
    maxThreshold: nat, minThreshold: nat, tickDrift: nat)

  const BySn: Inst -> int := (x: Inst) => x.sn

  /** Whether an instruction taken off the queue is printed. */
  predicate InRange(cfg: Config, x: Inst) {
    && !(cfg.startSn > 0 && x.sn < cfg.startSn)
    && !(cfg.stopSn > 0 && x.sn > cfg.stopSn)
    && !(cfg.startTick > 0 && x.fetch < cfg.startTick)
    && !(cfg.stopTick > 0 && x.fetch > cfg.stopTick)
    && !(cfg.onlyCommitted && x.retire == 0)
  }

  function Keep(cfg: Config): Inst -> bool {
    (x: Inst) => InRange(cfg, x)
  }

  /** The instructions that left the queue so far, and the queue. */
  datatype Window = Window(drained: seq<Inst>, queue: seq<Inst>)

  /** A sorted queue, drained down to `lower`. */
  function Cut(q: seq<Inst>, lower: nat): Window {
    var n := if |q| > lower then |q| - lower else 0;
    Window(q[..n], q[n..])
  }

  function Drain(w: Window, lower: nat): Window {
    var c := Cut(StableSort(BySn, w.queue), lower);
    Window(w.drained + c.drained, c.queue)
  }

  function Push(cfg: Config, w: Window, x: Inst): Window {
    var w' := w.(queue := w.queue + [x]);
    if |w'.queue| > cfg.maxThreshold then Drain(w', cfg.minThreshold) else w'
  }

  function Run(cfg: Config, arrivals: seq<Inst>): Window {
    if arrivals == [] then Window([], [])
    else Push(cfg, Run(cfg, arrivals[..|arrivals| - 1]), arrivals[|arrivals| - 1])
  }

  /** Everything printed for these arrivals, including the final flush. */
  function Output(cfg: Config, arrivals: seq<Inst>): seq<Inst> {
    Filter(Keep(cfg), Drain(Run(cfg, arrivals), 0).drained)
  }

  /** What a reader of the output wants: the instructions in range, in sequence-number order. */
  function Wanted(cfg: Config, xs: seq<Inst>): seq<Inst> {
    StableSort(BySn, Filter(Keep(cfg), xs))
  }

  /** The queue and the output are those of a run over `arrivals`. */
  ghost predicate Shows(cfg: Config, arrivals: seq<Inst>, queue: seq<Inst>, printed: seq<Inst>) {
    queue == Run(cfg, arrivals).queue && printed == Filter(Keep(cfg), Run(cfg, arrivals).drained)
  }

  /** The queue and the output after one more instruction. */
  function Queued(cfg: Config, queue: seq<Inst>, printed: seq<Inst>, x: Inst): (seq<Inst>, seq<Inst>) {
    if |queue| < cfg.maxThreshold then (queue + [x], printed)
    else
      var c := Cut(StableSort(BySn, queue + [x]), cfg.minThreshold);
      (c.queue, printed + Filter(Keep(cfg), c.drained))
  }

  lemma {:induction false} ShowsQueued(cfg: Config, arrivals: seq<Inst>, queue: seq<Inst>, printed: seq<Inst>, x: Inst)
    requires Shows(cfg, arrivals, queue, printed)
    ensures var (q, p) := Queued(cfg, queue, printed, x);
            Shows(cfg, arrivals + [x], q, p)
  {
    RunSnoc(cfg, arrivals, x);
    DrainFiltered(cfg, Window(Run(cfg, arrivals).drained, queue + [x]), cfg.minThreshold);
  }

  /** The viewer's global `insts` dictionary; `printed` is what reached the output file. */
  class Viewer {
    const cfg: Config
    var queue: seq<Inst>
    var printed: seq<Inst>
    ghost var arrivals: seq<Inst>

    ghost predicate Valid()
      reads this
    {
      Shows(cfg, arrivals, queue, printed)
    }

    constructor (cfg: Config)
      ensures Valid() && this.cfg == cfg && arrivals == []
    {
      this.cfg := cfg;
      queue, printed, arrivals := [], [], [];
    }

    /** The range filters: each sends the loop on to the next instruction. */
    method PrintItem(item: Inst)
      modifies this`printed
      ensures printed == old(printed) + if InRange(cfg, item) then [item] else []
    {
      if cfg.startSn > 0 && item.sn < cfg.startSn { return; }
      if cfg.stopSn > 0 && item.sn > cfg.stopSn { return; }
      if cfg.startTick > 0 && item.fetch < cfg.startTick { return; }
      if cfg.stopTick > 0 && item.fetch > cfg.stopTick { return; }
      if cfg.onlyCommitted && item.retire == 0 { return; }
      printed := printed + [item];
    }

    method PrintInsts(lowerThreshold: nat)
      modifies this`queue, this`printed
      ensures var c := Cut(StableSort(BySn, old(queue)), lowerThreshold);
              queue == c.queue && printed == old(printed) + Filter(Keep(cfg), c.drained)
    {
      queue := StableSort(BySn, queue);
      ghost var sorted := queue;
      ghost var n := 0;
      while |queue| > lowerThreshold
        invariant 0 <= n <= |sorted|
        invariant queue == sorted[n..]
        invariant n == 0 || |queue| >= lowerThreshold
        invariant printed == old(printed) + Filter(Keep(cfg), sorted[..n])
      {
        var item := queue[0];
        queue := queue[1..];
        FilterSnoc(Keep(cfg), sorted[..n], item);
        assert sorted[..n + 1] == sorted[..n] + [item];
        n := n + 1;
        PrintItem(item);
      }
    }

    method Enqueue(inst: Inst)
      modifies this`queue, this`printed
      ensures (queue, printed) == Queued(cfg, old(queue), old(printed), inst)
    {
      queue := queue + [inst];
      if |queue| > cfg.maxThreshold {
        PrintInsts(cfg.minThreshold);
      }
    }

    method QueueInst(inst: Inst)
      requires Valid()
      modifies this
      ensures Valid() && arrivals == old(arrivals) + [inst]
    {
      ShowsQueued(cfg, arrivals, queue, printed, inst);
      Enqueue(inst);
      arrivals := arrivals + [inst];
    }

    /** The final flush, at the end of the trace or at an early stop. */
    method Flush()
      requires Valid()
      modifies this`queue, this`printed
      ensures queue == [] && printed == Output(cfg, arrivals)
    {
      DrainFiltered(cfg, Run(cfg, arrivals), 0);
      PrintInsts(0);
    }
  }

  lemma {:induction false} DrainFiltered(cfg: Config, w: Window, lower: nat)
    ensures var c := Cut(StableSort(BySn, w.queue), lower);
            Filter(Keep(cfg), Drain(w, lower).drained) == Filter(Keep(cfg), w.drained) + Filter(Keep(cfg), c.drained)
  {
    FilterConcat(Keep(cfg), w.drained, Cut(StableSort(BySn, w.queue), lower).drained);
  }

  /** Nothing is lost or duplicated: drained and queued instructions are the arrivals, over every run. */
  lemma {:induction false} RunConserves(cfg: Config, arrivals: seq<Inst>)
    ensures var w := Run(cfg, arrivals);
            multiset(w.drained) + multiset(w.queue) == multiset(arrivals)
  {
    if arrivals != [] {
      var front, x := arrivals[..|arrivals| - 1], arrivals[|arrivals| - 1];
      assert arrivals == front + [x];
      RunConserves(cfg, front);
      PushConserves(cfg, Run(cfg, front), x);
    }
  }

  lemma {:induction false} PushConserves(cfg: Config, w: Window, x: Inst)
    ensures var w' := Push(cfg, w, x);
            multiset(w'.drained) + multiset(w'.queue) == multiset(w.drained) + multiset(w.queue) + multiset{x}
  {
    DrainConserves(w.(queue := w.queue + [x]), cfg.minThreshold);
  }

  lemma {:induction false} DrainConserves(w: Window, lower: nat)
    ensures var w' := Drain(w, lower);
            multiset(w'.drained) + multiset(w'.queue) == multiset(w.drained) + multiset(w.queue)
  {
    StableSortPermutes(BySn, w.queue);
    CutConserves(StableSort(BySn, w.queue), lower);
  }

  lemma {:induction false} CutConserves(q: seq<Inst>, lower: nat)
    ensures multiset(Cut(q, lower).drained) + multiset(Cut(q, lower).queue) == multiset(q)
  {
    assert q == Cut(q, lower).drained + Cut(q, lower).queue;
  }

  /** How many instructions of `s` carry a larger sequence number than `x`. */
  function Overtaken(s: seq<Inst>, x: Inst): nat {
    |Filter((y: Inst) => y.sn > x.sn, s)|
  }

  /** No arrival comes after more than `bound` arrivals with larger sequence numbers. */
  ghost predicate LateByAtMost(bound: nat, s: seq<Inst>) {
    forall k :: 0 <= k < |s| ==> Overtaken(s[..k], s[k]) <= bound
  }

  /** No two instructions that arrive in the wrong order are more than `bound` places apart. */
  ghost predicate DisplacedByAtMost(bound: nat, s: seq<Inst>) {
    forall i, j :: 0 <= i < j < |s| && s[i].sn > s[j].sn ==> j - i <= bound
  }

  /** If the last drained instruction is larger than `x`, so is the whole remaining queue. */
  lemma {:induction false} OvertakenInSorted(drained: seq<Inst>, rest: seq<Inst>, x: Inst)
    requires drained != [] && SortedBy(BySn, drained + rest)
    requires drained[|drained| - 1].sn > x.sn
    ensures Overtaken(drained + rest, x) >= |rest| + 1
  {
    var p := (y: Inst) => y.sn > x.sn;
    var d := |drained| - 1;
    var tail := drained[d..] + rest;
    assert drained + rest == drained[..d] + tail;
    forall y | y in tail ensures p(y) {
      var k :| 0 <= k < |tail| && tail[k] == y;
      assert (drained + rest)[d].sn > x.sn;
      assert (drained + rest)[d + k] == y;
      assert k > 0 ==> BySn((drained + rest)[d]) <= BySn((drained + rest)[d + k]);
    }
    FilterAll(p, tail);
    FilterConcat(p, drained[..d], tail);
  }

  /** What holds after every arrival: sorting the queue would complete the sort of all arrivals. */
  ghost predicate InStep(bound: nat, w: Window, arrivals: seq<Inst>) {
    && w.drained + StableSort(BySn, w.queue) == StableSort(BySn, arrivals)
    && (w.drained != [] ==> |w.queue| >= bound)
  }

  lemma {:induction false} AppendInStep(bound: nat, w: Window, arrivals: seq<Inst>, x: Inst)
    requires InStep(bound, w, arrivals)
    requires Overtaken(arrivals, x) <= bound
    ensures InStep(bound, w.(queue := w.queue + [x]), arrivals + [x])
  {
    DrainedNotLarger(bound, arrivals, w.drained, StableSort(BySn, w.queue), x);
    StableSortSnoc(BySn, w.queue, x);
    StableSortSnoc(BySn, arrivals, x);
    InsertSkipsSmaller(BySn, w.drained, StableSort(BySn, w.queue), x);
  }

  lemma {:induction false} DrainInStep(bound: nat, w: Window, arrivals: seq<Inst>)
    requires InStep(bound, w, arrivals)
    ensures InStep(bound, Drain(w, bound), arrivals)
  {
    var q := StableSort(BySn, w.queue);
    StableSortSorted(BySn, w.queue);
    var n := if |q| > bound then |q| - bound else 0;
    SplitKeepsSort(w.drained, q, n);
    assert Drain(w, bound) == Window(w.drained + q[..n], q[n..]);
    assert n == 0 ==> w.drained + q[..n] == w.drained;
  }

  lemma {:induction false} LateSnoc(bound: nat, front: seq<Inst>, x: Inst)
    requires LateByAtMost(bound, front + [x])
    ensures LateByAtMost(bound, front) && Overtaken(front, x) <= bound
  {
    var s := front + [x];
    forall k | 0 <= k < |front| ensures Overtaken(front[..k], front[k]) <= bound {
      assert front[..k] == s[..k] && front[k] == s[k];
    }
    assert s[..|front|] == front && s[|front|] == x;
  }

  lemma {:induction false} RunIsSorted(cfg: Config, arrivals: seq<Inst>)
    requires LateByAtMost(cfg.minThreshold, arrivals)
    ensures InStep(cfg.minThreshold, Run(cfg, arrivals), arrivals)
  {
    if arrivals != [] {
      var front, x := arrivals[..|arrivals| - 1], arrivals[|arrivals| - 1];
      assert arrivals == front + [x];
      LateSnoc(cfg.minThreshold, front, x);
      RunIsSorted(cfg, front);
      var w, min := Run(cfg, front), cfg.minThreshold;
      AppendInStep(min, w, front, x);
      DrainInStep(min, w.(queue := w.queue + [x]), front + [x]);
    }
  }

  lemma {:induction false} DrainedNotLarger(bound: nat, front: seq<Inst>, drained: seq<Inst>, rest: seq<Inst>, x: Inst)
    requires Overtaken(front, x) <= bound
    requires drained + rest == StableSort(BySn, front)
    requires drained != [] ==> |rest| >= bound
    ensures forall y :: y in drained ==> BySn(y) <= BySn(x)
  {
    StableSortSorted(BySn, front);
    if drained != [] {
      var last := |drained| - 1;
      if drained[last].sn > x.sn {
        OvertakenInSorted(drained, rest, x);
        FilterStableSort(BySn, (y: Inst) => y.sn > x.sn, front);
        assert false;
      }
      forall y | y in drained ensures BySn(y) <= BySn(x) {
        var k :| 0 <= k < |drained| && drained[k] == y;
        assert (drained + rest)[k] == y && (drained + rest)[last] == drained[last];
      }
    }
  }

  lemma {:induction false} SplitKeepsSort(drained: seq<Inst>, q: seq<Inst>, n: nat)
    requires SortedBy(BySn, q) && n <= |q|
    ensures (drained + q[..n]) + StableSort(BySn, q[n..]) == drained + q
  {
    SortedSplit(BySn, q, n);
    StableSortIdentity(BySn, q[n..]);
  }

  /** The window sorts: arrivals late by at most `minThreshold` come out as their stable sort, filtered. */
  lemma {:induction false} WindowSorts(cfg: Config, arrivals: seq<Inst>)
    requires LateByAtMost(cfg.minThreshold, arrivals)
    ensures Drain(Run(cfg, arrivals), 0).drained == StableSort(BySn, arrivals)
    ensures Output(cfg, arrivals) == Wanted(cfg, arrivals)
  {
    RunIsSorted(cfg, arrivals);
    var w := Run(cfg, arrivals);
    var q := StableSort(BySn, w.queue);
    assert q[..|q|] == q;
    FilterStableSort(BySn, Keep(cfg), arrivals);
  }

  /** Being at most `bound` places out of order implies being late by at most `bound`. */
  lemma {:induction false} DisplacedImpliesLate(bound: nat, s: seq<Inst>)
    requires DisplacedByAtMost(bound, s)
    ensures LateByAtMost(bound, s)
  {
    forall k | 0 <= k < |s| ensures Overtaken(s[..k], s[k]) <= bound {
      var p := (y: Inst) => y.sn > s[k].sn;
      var cut := if k > bound then k - bound else 0;
      assert s[..k] == s[..cut] + s[cut..k];
      FilterConcat(p, s[..cut], s[cut..k]);
      forall y | y in s[..cut] ensures !p(y) {
        var i :| 0 <= i < cut && s[i] == y;
      }
      FilterNone(p, s[..cut]);
    }
  }

  /** How full the queue is: it grows to `maxThreshold`, and one arrival more takes it down to
      `minThreshold`, if that is less. */
  lemma {:induction false} QueueLength(cfg: Config, arrivals: seq<Inst>, x: Inst)
    ensures arrivals == [] ==> Run(cfg, arrivals).queue == []
    ensures var now, next := Run(cfg, arrivals).queue, Run(cfg, arrivals + [x]).queue;
            |next| == if |now| < cfg.maxThreshold then |now| + 1
                      else if cfg.minThreshold <= |now| then cfg.minThreshold else |now| + 1
  {
    RunSnoc(cfg, arrivals, x);
  }

  // ---- The lateness bound is exact ----

  ghost predicate WindowIsSafe(min: nat, max: nat, bound: nat) {
    forall cfg: Config, arrivals: seq<Inst> ::
      cfg.minThreshold == min && cfg.maxThreshold == max && LateByAtMost(bound, arrivals)
      ==> Drain(Run(cfg, arrivals), 0).drained == StableSort(BySn, arrivals)
  }

  /** The same promise for instructions at most `bound` places out of order. */
  ghost predicate PlacesAreSafe(min: nat, max: nat, bound: nat) {
    forall cfg: Config, arrivals: seq<Inst> ::
      cfg.minThreshold == min && cfg.maxThreshold == max && DisplacedByAtMost(bound, arrivals)
      ==> Drain(Run(cfg, arrivals), 0).drained == StableSort(BySn, arrivals)
  }

  lemma {:induction false} RunSnoc(cfg: Config, xs: seq<Inst>, x: Inst)
    ensures Run(cfg, xs + [x]) == Push(cfg, Run(cfg, xs), x)
  {
    assert (xs + [x])[..|xs|] == xs;
  }

  lemma {:induction false} DrainSorted(q: seq<Inst>, lower: nat)
    requires SortedBy(BySn, q)
    ensures Drain(Window([], q), lower) == Cut(q, lower)
  {
    StableSortIdentity(BySn, q);
    assert [] + Cut(q, lower).drained == Cut(q, lower).drained;
  }

  /** The queue length at which the first instruction leaves. */
  function FillsAt(cfg: Config): nat {
    if cfg.minThreshold <= cfg.maxThreshold then cfg.maxThreshold else cfg.minThreshold
  }

  lemma {:induction false} PushAscending(cfg: Config, front: seq<Inst>, x: Inst)
    requires SortedBy(BySn, front + [x])
    ensures Push(cfg, Window([], front), x)
         == if |front| >= cfg.maxThreshold then Cut(front + [x], cfg.minThreshold) else Window([], front + [x])
  {
    DrainSorted(front + [x], cfg.minThreshold);
  }

  lemma {:induction false} AscendingFills(cfg: Config, xs: seq<Inst>)
    requires SortedBy(BySn, xs) && |xs| <= FillsAt(cfg)
    ensures Run(cfg, xs) == Window([], xs)
  {
    if xs != [] {
      var front, x := xs[..|xs| - 1], xs[|xs| - 1];
      assert xs == front + [x];
      AscendingFills(cfg, front);
      RunSnoc(cfg, front, x);
      PushAscending(cfg, front, x);
      assert xs[..0] == [] && xs[0..] == xs;
    }
  }

  /** Filling the queue with ascending numbers drains all but the largest `minThreshold`. */
  lemma {:induction false} AscendingDrains(cfg: Config, xs: seq<Inst>)
    requires SortedBy(BySn, xs) && |xs| == FillsAt(cfg) + 1
    ensures Run(cfg, xs) == Cut(xs, cfg.minThreshold)
  {
    var front, x := xs[..|xs| - 1], xs[|xs| - 1];
    assert xs == front + [x];
    AscendingFills(cfg, front);
    RunSnoc(cfg, front, x);
    PushAscending(cfg, front, x);
  }

  /** What has left the queue stays where it is. */
  lemma {:induction false} PushExtends(cfg: Config, w: Window, x: Inst)
    ensures w.drained <= Push(cfg, w, x).drained <= Drain(Push(cfg, w, x), 0).drained
  {
  }

  /** `s` does not hold `x` and ends in a larger number. */
  ghost predicate EndsAbove(s: seq<Inst>, x: Inst) {
    s != [] && x !in s && s[|s| - 1].sn > x.sn
  }

  lemma {:induction false} Misplaced(out: seq<Inst>, early: seq<Inst>, x: Inst)
    requires early <= out && EndsAbove(early, x) && x in out
    ensures !SortedBy(BySn, out)
  {
    var k :| 0 <= k < |out| && out[k] == x;
    assert k >= |early|;
    assert BySn(out[|early| - 1]) > BySn(out[k]);
  }

  lemma {:induction false} AllComeOut(cfg: Config, xs: seq<Inst>)
    ensures multiset(Drain(Run(cfg, xs), 0).drained) == multiset(xs)
    ensures forall x :: x in xs <==> x in Drain(Run(cfg, xs), 0).drained
  {
    RunConserves(cfg, xs);
    DrainConserves(Run(cfg, xs), 0);
    SameMembers(Drain(Run(cfg, xs), 0).drained, xs);
  }

  lemma {:induction false} LateComerComesOut(cfg: Config, asc: seq<Inst>, x: Inst)
    requires EndsAbove(Run(cfg, asc).drained, x)
    ensures !SortedBy(BySn, Drain(Run(cfg, asc + [x]), 0).drained)
  {
    RunSnoc(cfg, asc, x);
    PushExtends(cfg, Run(cfg, asc), x);
    AllComeOut(cfg, asc + [x]);
    Misplaced(Drain(Run(cfg, asc + [x]), 0).drained, Run(cfg, asc).drained, x);
  }

  lemma {:induction false} CutEndsAbove(asc: seq<Inst>, lower: nat, x: Inst)
    requires lower < |asc| && x !in asc && asc[|asc| - lower - 1].sn > x.sn
    ensures EndsAbove(Cut(asc, lower).drained, x)
  {
  }

  lemma {:induction false} AscendingEndsAbove(cfg: Config, asc: seq<Inst>, x: Inst)
    requires SortedBy(BySn, asc) && |asc| == FillsAt(cfg) + 1 && EndsAbove(Cut(asc, cfg.minThreshold).drained, x)
    ensures EndsAbove(Run(cfg, asc).drained, x)
  {
    AscendingDrains(cfg, asc);
  }

  lemma {:induction false} LateComerIsMisplaced(cfg: Config, asc: seq<Inst>, x: Inst)
    requires SortedBy(BySn, asc) && |asc| == FillsAt(cfg) + 1
    requires x !in asc && asc[|asc| - cfg.minThreshold - 1].sn > x.sn
    ensures !SortedBy(BySn, Drain(Run(cfg, asc + [x]), 0).drained)
  {
    CutEndsAbove(asc, cfg.minThreshold, x);
    AscendingEndsAbove(cfg, asc, x);
    LateComerComesOut(cfg, asc, x);
  }

  lemma {:induction false} LateComer(asc: seq<Inst>, x: Inst, n: nat)
    requires SortedBy(BySn, asc) && n <= |asc|
    requires forall i :: 0 <= i < n ==> asc[i].sn <= x.sn
    ensures DisplacedByAtMost(|asc| - n, asc + [x])
  {
    var xs := asc + [x];
    forall i, j | 0 <= i < j < |asc| ensures xs[i].sn <= xs[j].sn {
      assert BySn(asc[i]) <= BySn(asc[j]);
    }
  }

  function Numbered(sn: nat): Inst {
    Inst(sn, 1, 0, 0, 0, 0, 0, 0, 0, "", "", "")
  }

  function OddNumbered(n: nat): seq<Inst> {
    seq(n, i requires 0 <= i < n => Numbered(2 * i + 1))
  }

  /** An even number among the odd ones. */
  lemma {:induction false} OddsAround(m: nat, n: nat)
    requires n < m
    ensures SortedBy(BySn, OddNumbered(m)) && Numbered(2 * n) !in OddNumbered(m)
    ensures forall i :: 0 <= i < n ==> OddNumbered(m)[i].sn <= 2 * n
    ensures OddNumbered(m)[n].sn > 2 * n
  {
    var s := OddNumbered(m);
    forall i | 0 <= i < m ensures s[i].sn == 2 * i + 1 {
    }
  }

  /** One instruction that is one more place than `minThreshold` out of order is printed out of order. */
  lemma {:induction false} BeyondTheBound(cfg: Config) returns (xs: seq<Inst>)
    ensures DisplacedByAtMost(cfg.minThreshold + 1, xs) && LateByAtMost(cfg.minThreshold + 1, xs)
    ensures Drain(Run(cfg, xs), 0).drained != StableSort(BySn, xs)
  {
    var n := FillsAt(cfg) - cfg.minThreshold;
    var asc, x := OddNumbered(FillsAt(cfg) + 1), Numbered(2 * n);
    xs := asc + [x];
    OddsAround(FillsAt(cfg) + 1, n);
    LateComer(asc, x, n);
    DisplacedImpliesLate(cfg.minThreshold + 1, xs);
    LateComerIsMisplaced(cfg, asc, x);
    StableSortSorted(BySn, xs);
  }

  lemma {:induction false} LateWeaken(a: nat, b: nat, xs: seq<Inst>)
    requires a <= b && LateByAtMost(a, xs)
    ensures LateByAtMost(b, xs)
  {
  }

  /** The window sorts every arrival sequence that is late by at most `bound`, and every one that is at
      most `bound` places out of order, exactly when `bound` does not exceed `minThreshold`. */
  lemma {:induction false} WindowIsSafeIff(min: nat, max: nat, bound: nat)
    ensures WindowIsSafe(min, max, bound) <==> bound <= min
    ensures PlacesAreSafe(min, max, bound) <==> bound <= min
  {
    if bound <= min {
      forall cfg: Config, arrivals: seq<Inst> |
        cfg.minThreshold == min && cfg.maxThreshold == max && LateByAtMost(bound, arrivals)
        ensures Drain(Run(cfg, arrivals), 0).drained == StableSort(BySn, arrivals)
      {
        LateWeaken(bound, min, arrivals);
        WindowSorts(cfg, arrivals);
      }
      forall arrivals: seq<Inst> | DisplacedByAtMost(bound, arrivals) ensures LateByAtMost(bound, arrivals) {
        DisplacedImpliesLate(bound, arrivals);
      }
    } else {
      var xs := BeyondTheBound(Config(0, 0, 0, 0, false, false, max, min, 0));
      LateWeaken(min + 1, bound, xs);
    }
  }
}
