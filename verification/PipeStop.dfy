/**
 What the pipeline viewer prints for a trace as the simulator writes it (one contiguous
 block of lines per instruction, src/cpu/o3/dyn_inst.cc:211-243): skipping to the start
 and stopping early lose nothing, and the thresholds needed for that are exact.
 */
module PipeStop {
  import opened Collections
  import opened Sorting
  import opened PipeWindow
  import opened PipeTrace

  /** The lines of one instruction, after some lines of other trace flags. */
  datatype Block = Block(noise: nat, inst: Inst)

  function Noise(n: nat): seq<Line> {
    seq(n, _ => Other)
  }

  function AfterFetch(x: Inst): seq<Line> {
    [StageAt(Decode, x.decode), StageAt(Rename, x.rename), StageAt(Dispatch, x.dispatch),
     StageAt(Issue, x.issue), StageAt(Complete, x.complete), Retire(x.retire, x.store)]
  }

  function Core(x: Inst): seq<Line> {
    [Fetch(x.fetch, x.pc, x.upc, x.sn, x.disasm)] + AfterFetch(x)
  }

  function TraceOf(bs: seq<Block>, tail: nat): seq<Line> {
    if bs == [] then Noise(tail)
    else Noise(bs[0].noise) + (Core(bs[0].inst) + TraceOf(bs[1..], tail))
  }

  /** A dumped instruction as the viewer queues it: store ticks are kept if they were asked for, and
      the disassembly of an instruction that did not commit is marked. */
  function Observed(cfg: Config, x: Inst): Inst {
    Inst(x.sn, x.fetch, x.decode, x.rename, x.dispatch, x.issue, x.complete, x.retire,
         if cfg.storeCompletions then x.store else 0,
         x.pc, x.upc, if x.retire == 0 then "-----" + x.disasm else x.disasm)
  }

  function Insts(cfg: Config, bs: seq<Block>): seq<Inst> {
    seq(|bs|, i requires 0 <= i < |bs| => Observed(cfg, bs[i].inst))
  }

  predicate StopsAt(cfg: Config, x: Inst) {
    Stops(cfg, x.fetch, x.sn)
  }

  /** The instructions before the first one that ends the run. */
  function Taken(cfg: Config, xs: seq<Inst>): seq<Inst> {
    if xs == [] || StopsAt(cfg, xs[0]) then [] else [xs[0]] + Taken(cfg, xs[1..])
  }

  lemma {:induction false} TakenIsPrefix(cfg: Config, xs: seq<Inst>)
    ensures |Taken(cfg, xs)| <= |xs| && Taken(cfg, xs) == xs[..|Taken(cfg, xs)|]
    ensures |Taken(cfg, xs)| < |xs| ==> StopsAt(cfg, xs[|Taken(cfg, xs)|])
  {
    if xs != [] && !StopsAt(cfg, xs[0]) {
      TakenIsPrefix(cfg, xs[1..]);
    }
  }

  // ---- Collecting the instructions of a trace ----

  lemma {:induction false} CollectStep(cfg: Config, l: Line, rest: seq<Line>, curr: Inst)
    requires !LineStops(cfg, l)
    ensures var next := ReadLine(cfg, l, curr);
            Collect(cfg, [l] + rest, curr) == (if l.Retire? then [next] else []) + Collect(cfg, rest, next)
  {
    assert ([l] + rest)[1..] == rest;
  }

  lemma {:induction false} CollectNoise(cfg: Config, n: nat, rest: seq<Line>, curr: Inst)
    ensures Collect(cfg, Noise(n) + rest, curr) == Collect(cfg, rest, curr)
  {
    if n == 0 {
      assert Noise(n) + rest == rest;
    } else {
      assert Noise(n) + rest == [Other] + (Noise(n - 1) + rest);
      CollectStep(cfg, Other, Noise(n - 1) + rest, curr);
      CollectNoise(cfg, n - 1, rest, curr);
    }
  }

  lemma {:induction false} CollectAfterFetch(cfg: Config, x: Inst, rest: seq<Line>, c0: Inst)
    ensures var c := c0.(decode := x.decode, rename := x.rename, dispatch := x.dispatch,
                         issue := x.issue, complete := x.complete);
            var r := Retired(cfg, c, x.retire, x.store);
            Collect(cfg, AfterFetch(x) + rest, c0) == [r] + Collect(cfg, rest, r)
  {
    var a := AfterFetch(x);
    assert a + rest == [a[0]] + ([a[1]] + ([a[2]] + ([a[3]] + ([a[4]] + ([a[5]] + rest)))));
    var c1 := c0.(decode := x.decode);
    var c2 := c1.(rename := x.rename);
    var c3 := c2.(dispatch := x.dispatch);
    var c4 := c3.(issue := x.issue);
    var c5 := c4.(complete := x.complete);
    CollectStep(cfg, a[0], [a[1]] + ([a[2]] + ([a[3]] + ([a[4]] + ([a[5]] + rest)))), c0);
    CollectStep(cfg, a[1], [a[2]] + ([a[3]] + ([a[4]] + ([a[5]] + rest))), c1);
    CollectStep(cfg, a[2], [a[3]] + ([a[4]] + ([a[5]] + rest)), c2);
    CollectStep(cfg, a[3], [a[4]] + ([a[5]] + rest), c3);
    CollectStep(cfg, a[4], [a[5]] + rest, c4);
    CollectStep(cfg, a[5], rest, c5);
  }

  lemma {:induction false} CollectCore(cfg: Config, x: Inst, rest: seq<Line>, curr: Inst)
    requires cfg.storeCompletions || curr.store == 0
    ensures Collect(cfg, Core(x) + rest, curr)
         == if StopsAt(cfg, x) then [] else [Observed(cfg, x)] + Collect(cfg, rest, Observed(cfg, x))
  {
    var f := Fetch(x.fetch, x.pc, x.upc, x.sn, x.disasm);
    assert Core(x) + rest == [f] + (AfterFetch(x) + rest);
    if !LineStops(cfg, f) {
      CollectStep(cfg, f, AfterFetch(x) + rest, curr);
      CollectAfterFetch(cfg, x, rest, ReadLine(cfg, f, curr));
    }
  }

  lemma {:induction false} CollectBlock(cfg: Config, b: Block, rest: seq<Line>, curr: Inst)
    requires cfg.storeCompletions || curr.store == 0
    ensures Collect(cfg, Noise(b.noise) + (Core(b.inst) + rest), curr)
         == if StopsAt(cfg, b.inst) then []
            else [Observed(cfg, b.inst)] + Collect(cfg, rest, Observed(cfg, b.inst))
  {
    CollectNoise(cfg, b.noise, Core(b.inst) + rest, curr);
    CollectCore(cfg, b.inst, rest, curr);
  }

  lemma {:induction false} TakenInsts(cfg: Config, bs: seq<Block>)
    requires bs != []
    ensures Taken(cfg, Insts(cfg, bs))
         == if StopsAt(cfg, bs[0].inst) then []
            else [Observed(cfg, bs[0].inst)] + Taken(cfg, Insts(cfg, bs[1..]))
  {
    assert Insts(cfg, bs) == Insts(cfg, bs)[0..];
    InstsFrom(cfg, bs, 0);
    TakenCons(cfg, bs[0].inst, Insts(cfg, bs[1..]));
  }

  lemma {:induction false} CollectTrace(cfg: Config, bs: seq<Block>, tail: nat, curr: Inst)
    requires cfg.storeCompletions || curr.store == 0
    ensures Collect(cfg, TraceOf(bs, tail), curr) == Taken(cfg, Insts(cfg, bs))
  {
    if bs == [] {
      assert Noise(tail) == Noise(tail) + [];
      CollectNoise(cfg, tail, [], curr);
    } else {
      CollectBlock(cfg, bs[0], TraceOf(bs[1..], tail), curr);
      TakenInsts(cfg, bs);
      CollectTrace(cfg, bs[1..], tail, Observed(cfg, bs[0].inst));
    }
  }

  /** Field by field, what is queued for the seven lines of an instruction that does not end the run. */
  lemma {:induction false} DumpIsQueued(cfg: Config, x: Inst)
    requires cfg.stopTick <= 0 || x.fetch <= cfg.stopTick + cfg.tickDrift
    requires cfg.stopSn <= 0 || x.sn <= cfg.stopSn + cfg.maxThreshold
    ensures var lines := [Fetch(x.fetch, x.pc, x.upc, x.sn, x.disasm), StageAt(Decode, x.decode),
                          StageAt(Rename, x.rename), StageAt(Dispatch, x.dispatch), StageAt(Issue, x.issue),
                          StageAt(Complete, x.complete), Retire(x.retire, x.store)];
            var q := Collect(cfg, lines, NO_INST);
            && |q| == 1 && q[0].sn == x.sn && q[0].pc == x.pc && q[0].upc == x.upc
            && q[0].fetch == x.fetch && q[0].decode == x.decode && q[0].rename == x.rename
            && q[0].dispatch == x.dispatch && q[0].issue == x.issue && q[0].complete == x.complete
            && q[0].retire == x.retire && q[0].store == (if cfg.storeCompletions then x.store else 0)
            && q[0].disasm == (if x.retire == 0 then "-----" + x.disasm else x.disasm)
  {
    assert Core(x) + [] == Core(x);
    CollectCore(cfg, x, [], NO_INST);
  }

  // ---- Skipping to the start loses nothing ----

  /** The trace from the fetch line of block `i` on. */
  function FromBlock(bs: seq<Block>, tail: nat, i: nat): seq<Line>
    requires i <= |bs|
  {
    if i == |bs| then [] else Core(bs[i].inst) + TraceOf(bs[i + 1..], tail)
  }

  lemma {:induction false} FromLaterBlock(bs: seq<Block>, tail: nat, i: nat)
    requires i < |bs|
    ensures FromBlock(bs[1..], tail, i) == FromBlock(bs, tail, i + 1)
  {
    if i + 1 < |bs| {
      assert bs[1..][i + 1..] == bs[i + 2..];
    }
  }

  lemma {:induction false} DropPrefix(p: Line -> bool, a: seq<Line>, b: seq<Line>)
    requires forall l :: l in a ==> !p(l)
    ensures DropUntil(p, a + b) == DropUntil(p, b)
  {
    if a == [] {
      assert a + b == b;
    } else {
      assert (a + b)[1..] == a[1..] + b;
      DropPrefix(p, a[1..], b);
    }
  }

  lemma {:induction false} DropNoise(p: Line -> bool, n: nat, b: seq<Line>)
    requires !p(Other)
    ensures DropUntil(p, Noise(n) + b) == DropUntil(p, b)
    ensures DropUntil(p, Noise(n)) == []
  {
    DropPrefix(p, Noise(n), b);
    DropPrefix(p, Noise(n), []);
    assert Noise(n) + [] == Noise(n);
  }

  lemma {:induction false} DropToFetch(bs: seq<Block>, tail: nat)
    ensures DropUntil(IsFetch, TraceOf(bs, tail)) == FromBlock(bs, tail, 0)
  {
    if bs == [] {
      DropNoise(IsFetch, tail, []);
    } else {
      DropNoise(IsFetch, bs[0].noise, Core(bs[0].inst) + TraceOf(bs[1..], tail));
    }
  }

  lemma {:induction false} SkipBySn(sn: nat, bs: seq<Block>, tail: nat) returns (i: nat)
    ensures i <= |bs|
    ensures DropUntil(IsFetch, DropUntil(AtOrAfterSn(sn), TraceOf(bs, tail))) == FromBlock(bs, tail, i)
    ensures forall j :: 0 <= j < i ==> bs[j].inst.sn < sn
  {
    var p := AtOrAfterSn(sn);
    if bs == [] {
      DropNoise(p, tail, []);
      i := 0;
    } else {
      var x, rest := bs[0].inst, TraceOf(bs[1..], tail);
      DropNoise(p, bs[0].noise, Core(x) + rest);
      if x.sn >= sn {
        i := 0;
      } else {
        DropPrefix(p, Core(x), rest);
        var i' := SkipBySn(sn, bs[1..], tail);
        i := i' + 1;
        FromLaterBlock(bs, tail, i');
      }
    }
  }

  /** Dropping inside the lines after a fetch leaves some of them, none of which is a fetch. */
  lemma {:induction false} DropInside(p: Line -> bool, a: seq<Line>, rest: seq<Line>)
    requires forall l :: l in a ==> !l.Fetch?
    ensures DropUntil(p, a + rest) == DropUntil(p, rest)
         || DropUntil(IsFetch, DropUntil(p, a + rest)) == DropUntil(IsFetch, rest)
  {
    if a == [] {
      assert a + rest == rest;
    } else if p(a[0]) {
      DropPrefix(IsFetch, a, rest);
    } else {
      assert (a + rest)[1..] == a[1..] + rest;
      DropInside(p, a[1..], rest);
    }
  }

  lemma {:induction false} DropFetch(p: Line -> bool, x: Inst, rest: seq<Line>)
    requires !p(Core(x)[0])
    ensures DropUntil(p, Core(x) + rest) == DropUntil(p, AfterFetch(x) + rest)
  {
    var f := Core(x)[..1];
    assert Core(x) + rest == f + (AfterFetch(x) + rest);
    DropPrefix(p, f, AfterFetch(x) + rest);
  }

  lemma {:induction false} DropCore(p: Line -> bool, x: Inst, rest: seq<Line>)
    requires !p(Core(x)[0])
    ensures DropUntil(p, Core(x) + rest) == DropUntil(p, rest)
         || DropUntil(IsFetch, DropUntil(p, Core(x) + rest)) == DropUntil(IsFetch, rest)
  {
    DropFetch(p, x, rest);
    DropInside(p, AfterFetch(x), rest);
  }

  lemma {:induction false} SkipByTick(tick: nat, bs: seq<Block>, tail: nat) returns (i: nat)
    ensures i <= |bs|
    ensures DropUntil(IsFetch, DropUntil(AtOrAfterTick(tick), TraceOf(bs, tail))) == FromBlock(bs, tail, i)
    ensures forall j :: 0 <= j < i ==> bs[j].inst.fetch < tick
  {
    var p := AtOrAfterTick(tick);
    if bs == [] {
      DropNoise(p, tail, []);
      i := 0;
    } else {
      var x, rest := bs[0].inst, TraceOf(bs[1..], tail);
      DropNoise(p, bs[0].noise, Core(x) + rest);
      if x.fetch >= tick {
        i := 0;
      } else {
        DropCore(p, x, rest);
        var i' := 0;
        if DropUntil(p, Core(x) + rest) == DropUntil(p, rest) {
          i' := SkipByTick(tick, bs[1..], tail);
        } else {
          DropToFetch(bs[1..], tail);
        }
        i := i' + 1;
        FromLaterBlock(bs, tail, i');
      }
    }
  }

  /** The skipped instructions are exactly ones that the range filter would drop anyway. */
  lemma {:induction false} SkipLosesNothing(cfg: Config, bs: seq<Block>, tail: nat) returns (i: nat)
    ensures i <= |bs|
    ensures Region(cfg, TraceOf(bs, tail)) == FromBlock(bs, tail, i)
    ensures forall j :: 0 <= j < i ==> !InRange(cfg, Insts(cfg, bs)[j])
  {
    if cfg.startTick != 0 {
      i := SkipByTick(cfg.startTick, bs, tail);
    } else if cfg.startSn != 0 {
      i := SkipBySn(cfg.startSn, bs, tail);
    } else {
      DropToFetch(bs, tail);
      i := 0;
    }
  }

  lemma {:induction false} InstsFrom(cfg: Config, bs: seq<Block>, i: nat)
    requires i < |bs|
    ensures Insts(cfg, bs)[i..] == [Observed(cfg, bs[i].inst)] + Insts(cfg, bs[i + 1..])
  {
  }

  lemma {:induction false} TakenCons(cfg: Config, x: Inst, xs: seq<Inst>)
    ensures Taken(cfg, [Observed(cfg, x)] + xs)
         == if StopsAt(cfg, x) then [] else [Observed(cfg, x)] + Taken(cfg, xs)
  {
    assert ([Observed(cfg, x)] + xs)[1..] == xs;
  }

  lemma {:induction false} CollectFromBlock(cfg: Config, bs: seq<Block>, tail: nat, i: nat)
    requires i <= |bs|
    ensures Collect(cfg, FromBlock(bs, tail, i), NO_INST) == Taken(cfg, Insts(cfg, bs)[i..])
  {
    if i < |bs| {
      var x, rest := bs[i].inst, TraceOf(bs[i + 1..], tail);
      CollectCore(cfg, x, rest, NO_INST);
      CollectTrace(cfg, bs[i + 1..], tail, Observed(cfg, x));
      InstsFrom(cfg, bs, i);
      TakenCons(cfg, x, Insts(cfg, bs[i + 1..]));
    } else {
      assert Insts(cfg, bs)[i..] == [];
    }
  }

  // ---- Stopping early loses nothing ----

  ghost predicate DistinctSns(xs: seq<Inst>) {
    forall i, j :: 0 <= i < j < |xs| ==> xs[i].sn != xs[j].sn
  }

  ghost predicate Present(xs: seq<Inst>, v: nat) {
    exists k :: 0 <= k < |xs| && xs[k].sn == v
  }

  /** Every sequence number between two that occur also occurs. */
  ghost predicate GapFree(xs: seq<Inst>) {
    forall i, j, v: nat :: 0 <= i < |xs| && 0 <= j < |xs| && xs[i].sn <= v <= xs[j].sn ==> Present(xs, v)
  }

  /** Fetch ticks never fall back by more than `drift`. */
  ghost predicate DriftAtMost(drift: nat, xs: seq<Inst>) {
    forall i, j :: 0 <= i < j < |xs| ==> xs[i].fetch <= xs[j].fetch + drift
  }

  /** Where the sequence numbers in `(lo, lo + m]` occur. */
  ghost function Positions(xs: seq<Inst>, lo: nat, m: nat): set<int> {
    set k | 0 <= k < |xs| && lo < xs[k].sn <= lo + m
  }

  lemma {:induction false} PositionsCount(xs: seq<Inst>, lo: nat, m: nat)
    requires forall v: nat :: lo < v <= lo + m ==> Present(xs, v)
    ensures |Positions(xs, lo, m)| >= m
  {
    if m > 0 {
      assert Present(xs, lo + m);
      var k :| 0 <= k < |xs| && xs[k].sn == lo + m;
      PositionsCount(xs, lo, m - 1);
      assert k !in Positions(xs, lo, m - 1);
      SubsetCount(Positions(xs, lo, m - 1) + {k}, Positions(xs, lo, m));
    }
  }

  function Interval(lo: int, hi: int): (r: set<int>)
    ensures forall k :: k in r <==> lo <= k < hi
    ensures |r| == if lo <= hi then hi - lo else 0
    decreases hi - lo
  {
    if lo >= hi then {} else Interval(lo, hi - 1) + {hi - 1}
  }

  /** The pigeonhole: an instruction beyond `stop + max` and a later one at or below `stop`
      leave too few places for the `max` sequence numbers between them. */
  lemma {:induction false} NoStragglers(xs: seq<Inst>, min: nat, max: nat, stop: nat, j: int, k: int)
    requires DisplacedByAtMost(min, xs) && GapFree(xs)
    requires max >= 2 * min - 1
    requires 0 <= j < k < |xs| && xs[j].sn > stop + max
    ensures xs[k].sn > stop
  {
    if xs[k].sn <= stop {
      assert k - j <= min;
      forall v: nat | stop < v <= stop + max ensures Present(xs, v) {
        assert xs[k].sn <= v <= xs[j].sn;
      }
      PositionsCount(xs, stop, max);
      var room := Interval(k - min, j + min + 1);
      assert |room - {j, k}| == |room| - 2;
      forall p | p in Positions(xs, stop, max) ensures p in room - {j, k} {
        if p > j {
          assert xs[j].sn > xs[p].sn;
        } else {
          assert xs[p].sn > xs[k].sn;
        }
      }
      SubsetCount(Positions(xs, stop, max), room - {j, k});
    }
  }

  /** Nothing is out of order by more than the thresholds, as the viewer's comments assume. For an early
      stop by sequence number they assume too little: numbers have no gap and `maxThreshold` is large
      enough, unless `minThreshold` is zero. */
  ghost predicate WithinThresholds(cfg: Config, xs: seq<Inst>) {
    && DisplacedByAtMost(cfg.minThreshold, xs)
    && (cfg.stopTick > 0 ==> DriftAtMost(cfg.tickDrift, xs))
    && (cfg.stopSn > 0 && cfg.minThreshold > 0 ==> GapFree(xs) && cfg.maxThreshold >= 2 * cfg.minThreshold - 1)
  }

  /** Every instruction from the stopping one on is out of range. */
  lemma {:induction false} StopLosesNothing(cfg: Config, xs: seq<Inst>, e: nat)
    requires WithinThresholds(cfg, xs)
    requires e < |xs| && StopsAt(cfg, xs[e])
    ensures forall k :: e <= k < |xs| ==> !InRange(cfg, xs[k])
  {
    forall k | e <= k < |xs| ensures !InRange(cfg, xs[k]) {
      if k > e && !(cfg.stopTick > 0 && xs[e].fetch > cfg.stopTick + cfg.tickDrift) && cfg.minThreshold > 0 {
        NoStragglers(xs, cfg.minThreshold, cfg.maxThreshold, cfg.stopSn, e, k);
      }
    }
  }

  lemma {:induction false} DisplacedSlice(bound: nat, xs: seq<Inst>, i: nat, e: nat)
    requires i <= e <= |xs| && DisplacedByAtMost(bound, xs)
    ensures DisplacedByAtMost(bound, xs[i..e])
  {
  }

  lemma {:induction false} FilterSlice(p: Inst -> bool, xs: seq<Inst>, i: nat, e: nat)
    requires i <= e <= |xs|
    requires forall k :: (0 <= k < i || e <= k < |xs|) ==> !p(xs[k])
    ensures Filter(p, xs[i..e]) == Filter(p, xs)
  {
    assert xs == xs[..i] + (xs[i..e] + xs[e..]);
    FilterConcat(p, xs[..i], xs[i..e] + xs[e..]);
    FilterConcat(p, xs[i..e], xs[e..]);
    FilterNone(p, xs[..i]);
    FilterNone(p, xs[e..]);
  }

  lemma {:induction false} TakenPrintsTheRange(cfg: Config, xs: seq<Inst>, i: nat)
    requires WithinThresholds(cfg, xs) && i <= |xs| && forall j :: 0 <= j < i ==> !InRange(cfg, xs[j])
    ensures Output(cfg, Taken(cfg, xs[i..])) == Wanted(cfg, xs)
  {
    var taken := Taken(cfg, xs[i..]);
    TakenIsPrefix(cfg, xs[i..]);
    var e := i + |taken|;
    assert taken == xs[i..e];
    if e < |xs| {
      StopLosesNothing(cfg, xs, e);
    }
    FilterSlice(Keep(cfg), xs, i, e);
    DisplacedSlice(cfg.minThreshold, xs, i, e);
    DisplacedImpliesLate(cfg.minThreshold, taken);
    WindowSorts(cfg, taken);
  }

  /** The whole viewer: what it prints is the sorted, in-range part of the whole trace. */
  lemma {:induction false} ViewerPrintsTheRange(cfg: Config, bs: seq<Block>, tail: nat)
    requires WithinThresholds(cfg, Insts(cfg, bs))
    ensures Printed(cfg, TraceOf(bs, tail)) == Wanted(cfg, Insts(cfg, bs))
  {
    var i := SkipLosesNothing(cfg, bs, tail);
    CollectFromBlock(cfg, bs, tail, i);
    TakenPrintsTheRange(cfg, Insts(cfg, bs), i);
  }

  /** The same in terms of the dumped instructions: each is printed, as often as it was dumped, exactly
      when it is in the asked range, nothing else is printed, and the order is that of the numbers. */
  lemma {:induction false} DumpIsPrintedIff(cfg: Config, bs: seq<Block>, tail: nat, k: nat)
    requires WithinThresholds(cfg, Insts(cfg, bs)) && k < |bs|
    ensures var out, x, y := Printed(cfg, TraceOf(bs, tail)), bs[k].inst, Insts(cfg, bs)[k];
            && (forall i, j :: 0 <= i < j < |out| ==> out[i].sn <= out[j].sn)
            && (forall z :: z in out ==> z in Insts(cfg, bs))
            && multiset(out)[y] ==
                 if && (cfg.startSn == 0 || cfg.startSn <= x.sn) && (cfg.stopSn <= 0 || x.sn <= cfg.stopSn)
                    && (cfg.startTick == 0 || cfg.startTick <= x.fetch)
                    && (cfg.stopTick <= 0 || x.fetch <= cfg.stopTick)
                    && (cfg.onlyCommitted ==> x.retire > 0)
                 then multiset(Insts(cfg, bs))[y] else 0
  {
    ViewerPrintsTheRange(cfg, bs, tail);
    WantedIs(cfg, Insts(cfg, bs), Insts(cfg, bs)[k]);
  }

  lemma {:induction false} WantedIs(cfg: Config, xs: seq<Inst>, y: Inst)
    ensures var out := Wanted(cfg, xs);
            && (forall i, j :: 0 <= i < j < |out| ==> out[i].sn <= out[j].sn)
            && (forall z :: z in out ==> z in xs)
            && multiset(out)[y] == if InRange(cfg, y) then multiset(xs)[y] else 0
  {
    var kept, out := Filter(Keep(cfg), xs), Wanted(cfg, xs);
    StableSortSorted(BySn, kept);
    forall i, j | 0 <= i < j < |out| ensures out[i].sn <= out[j].sn {
      assert BySn(out[i]) <= BySn(out[j]);
    }
    StableSortPermutes(BySn, kept);
    FilterMembers(Keep(cfg), xs);
    FilterCount(Keep(cfg), xs, y);
  }

  // ---- The thresholds are exact ----

  /** The viewer's promise for a stop by sequence number, over every trace without gaps. */
  ghost predicate StopBySnIsSafe(min: nat, max: nat) {
    forall cfg: Config, bs: seq<Block>, tail: nat ::
      && cfg.minThreshold == min && cfg.maxThreshold == max && cfg.stopTick <= 0 && cfg.stopSn > 0
      && DisplacedByAtMost(min, Insts(cfg, bs)) && DistinctSns(Insts(cfg, bs)) && GapFree(Insts(cfg, bs))
      ==> Printed(cfg, TraceOf(bs, tail)) == Wanted(cfg, Insts(cfg, bs))
  }

  function StopAtOne(min: nat, max: nat): Config {
    Config(0, 0, 0, 1, false, false, max, min, 0)
  }

  /** Sequence numbers `2 .. h+1, max+2, 1, h+2 .. max+1`: the stop comes just before number 1. */
  function StragglerSn(h: nat, max: nat, i: nat): nat {
    if i < h then i + 2 else if i == h then max + 2 else if i == h + 1 then 1 else i
  }

  function Straggler(h: nat, max: nat): seq<Block> {
    seq(max + 2, i requires 0 <= i < max + 2 =>
      Block(0, NO_INST.(sn := StragglerSn(h, max, i), retire := 1)))
  }

  function StragglerRun(min: nat, max: nat): seq<Inst>
  {
    Insts(StopAtOne(min, max), Straggler(max / 2, max))
  }

  lemma {:induction false} StragglerGapFree(min: nat, max: nat)
    ensures GapFree(StragglerRun(min, max))
  {
    var h := max / 2;
    var xs := StragglerRun(min, max);
    forall v: nat | 1 <= v <= max + 2 ensures Present(xs, v) {
      var k := if v == 1 then h + 1 else if v <= h + 1 then v - 2 else if v == max + 2 then h else v;
      assert xs[k].sn == v;
    }
  }

  lemma {:induction false} StragglerDistinct(min: nat, max: nat)
    ensures DistinctSns(StragglerRun(min, max))
  {
  }

  lemma {:induction false} StragglerDisplaced(min: nat, max: nat)
    requires max < 2 * min - 1
    ensures DisplacedByAtMost(min, StragglerRun(min, max))
  {
  }

  lemma {:induction false} NothingPrinted(cfg: Config, xs: seq<Inst>)
    requires forall x :: x in xs ==> !InRange(cfg, x)
    ensures Output(cfg, xs) == []
  {
    AllComeOut(cfg, xs);
    FilterNone(Keep(cfg), Drain(Run(cfg, xs), 0).drained);
  }

  /** When only instructions after the stopping one are in range, nothing is printed. */
  lemma {:induction false} LostAfterStop(cfg: Config, bs: seq<Block>, h: nat)
    requires cfg.startTick == 0 && cfg.startSn == 0
    requires h + 1 < |bs| && StopsAt(cfg, Insts(cfg, bs)[h]) && InRange(cfg, Insts(cfg, bs)[h + 1])
    requires forall k :: 0 <= k < h ==> !InRange(cfg, Insts(cfg, bs)[k])
    ensures Printed(cfg, TraceOf(bs, 0)) != Wanted(cfg, Insts(cfg, bs))
  {
    var xs := Insts(cfg, bs);
    DropToFetch(bs, 0);
    CollectFromBlock(cfg, bs, 0, 0);
    assert xs[0..] == xs;
    TakenBefore(cfg, xs, h);
    TakenIsPrefix(cfg, xs);
    NothingPrinted(cfg, Taken(cfg, xs));
    assert xs[h + 1] in xs;
    WantedMembers(cfg, xs, xs[h + 1]);
  }

  lemma {:induction false} WantedMembers(cfg: Config, xs: seq<Inst>, x: Inst)
    requires x in xs && InRange(cfg, x)
    ensures Wanted(cfg, xs) != []
  {
    FilterMembers(Keep(cfg), xs);
  }

  lemma {:induction false} StragglerIsLost(min: nat, max: nat)
    requires max < 2 * min - 1
    ensures var cfg, bs := StopAtOne(min, max), Straggler(max / 2, max);
            Printed(cfg, TraceOf(bs, 0)) != Wanted(cfg, Insts(cfg, bs))
  {
    LostAfterStop(StopAtOne(min, max), Straggler(max / 2, max), max / 2);
  }

  lemma {:induction false} TakenBefore(cfg: Config, xs: seq<Inst>, e: nat)
    requires e < |xs| && StopsAt(cfg, xs[e])
    ensures |Taken(cfg, xs)| <= e
  {
    if e > 0 && !StopsAt(cfg, xs[0]) {
      TakenBefore(cfg, xs[1..], e - 1);
    }
  }

  /** A stop by sequence number is safe on every such trace exactly when `max >= 2 * min - 1`. */
  lemma {:induction false} StopBySnIsSafeIff(min: nat, max: nat)
    ensures StopBySnIsSafe(min, max) <==> max >= 2 * min - 1
  {
    if max >= 2 * min - 1 {
      forall cfg: Config, bs: seq<Block>, tail: nat |
        && cfg.minThreshold == min && cfg.maxThreshold == max && cfg.stopTick <= 0 && cfg.stopSn > 0
        && DisplacedByAtMost(min, Insts(cfg, bs)) && DistinctSns(Insts(cfg, bs)) && GapFree(Insts(cfg, bs))
        ensures Printed(cfg, TraceOf(bs, tail)) == Wanted(cfg, Insts(cfg, bs))
      {
        ViewerPrintsTheRange(cfg, bs, tail);
      }
    } else {
      StragglerGapFree(min, max);
      StragglerDistinct(min, max);
      StragglerDisplaced(min, max);
      StragglerIsLost(min, max);
    }
  }

  /** The viewer's promise for a stop by sequence number, over every trace its comments assume. */
  ghost predicate GapsAreSafe(min: nat, max: nat) {
    forall cfg: Config, bs: seq<Block>, tail: nat ::
      && cfg.minThreshold == min && cfg.maxThreshold == max && cfg.stopTick <= 0 && cfg.stopSn > 0
      && DisplacedByAtMost(min, Insts(cfg, bs)) && DistinctSns(Insts(cfg, bs))
      ==> Printed(cfg, TraceOf(bs, tail)) == Wanted(cfg, Insts(cfg, bs))
  }

  /** Two neighbours in the wrong order, with a gap across the stop. */
  function Gap(max: nat): seq<Block> {
    [Block(0, NO_INST.(sn := max + 2, retire := 1)), Block(0, NO_INST.(sn := 1, retire := 1))]
  }

  lemma {:induction false} GapIsLost(min: nat, max: nat)
    requires min > 0
    ensures var cfg, bs := StopAtOne(min, max), Gap(max);
            && DisplacedByAtMost(min, Insts(cfg, bs)) && DistinctSns(Insts(cfg, bs))
            && Printed(cfg, TraceOf(bs, 0)) != Wanted(cfg, Insts(cfg, bs))
  {
    LostAfterStop(StopAtOne(min, max), Gap(max), 0);
  }

  /** With gaps between the numbers, a stop by sequence number is safe exactly when `min == 0`. */
  lemma {:induction false} GapsAreSafeIff(min: nat, max: nat)
    ensures GapsAreSafe(min, max) <==> min == 0
  {
    if min == 0 {
      forall cfg: Config, bs: seq<Block>, tail: nat |
        && cfg.minThreshold == min && cfg.maxThreshold == max && cfg.stopTick <= 0 && cfg.stopSn > 0
        && DisplacedByAtMost(min, Insts(cfg, bs)) && DistinctSns(Insts(cfg, bs))
        ensures Printed(cfg, TraceOf(bs, tail)) == Wanted(cfg, Insts(cfg, bs))
      {
        ViewerPrintsTheRange(cfg, bs, tail);
      }
    } else {
      GapIsLost(min, max);
    }
  }

  /** The viewer's promise for a stop by tick, over every trace within `drift`. */
  ghost predicate StopByTickIsSafe(min: nat, tickDrift: nat, drift: nat) {
    forall cfg: Config, bs: seq<Block>, tail: nat ::
      && cfg.minThreshold == min && cfg.tickDrift == tickDrift && cfg.stopTick > 0 && cfg.stopSn <= 0
      && DisplacedByAtMost(min, Insts(cfg, bs)) && DriftAtMost(drift, Insts(cfg, bs))
      ==> Printed(cfg, TraceOf(bs, tail)) == Wanted(cfg, Insts(cfg, bs))
  }

  function StopAtTick(min: nat, tickDrift: nat, stop: nat): Config {
    Config(0, stop, 0, 0, false, false, 0, min, tickDrift)
  }

  /** Two instructions in order whose fetch ticks fall back by `drift`, across the stop. */
  function FallBack(tickDrift: nat, drift: nat): seq<Block> {
    [Block(0, NO_INST.(sn := 1, fetch := drift + tickDrift + 2, retire := 1)),
     Block(0, NO_INST.(sn := 2, fetch := tickDrift + 2, retire := 1))]
  }

  lemma {:induction false} FallBackIsLost(min: nat, tickDrift: nat, drift: nat)
    requires drift > tickDrift
    ensures var cfg, bs := StopAtTick(min, tickDrift, drift + 1), FallBack(tickDrift, drift);
            && DisplacedByAtMost(min, Insts(cfg, bs)) && DriftAtMost(drift, Insts(cfg, bs))
            && Printed(cfg, TraceOf(bs, 0)) != Wanted(cfg, Insts(cfg, bs))
  {
    LostAfterStop(StopAtTick(min, tickDrift, drift + 1), FallBack(tickDrift, drift), 0);
  }

  /** A stop by tick is safe on every trace within `drift` exactly when the drift allowed for is at
      least that. */
  lemma {:induction false} StopByTickIsSafeIff(min: nat, tickDrift: nat, drift: nat)
    ensures StopByTickIsSafe(min, tickDrift, drift) <==> drift <= tickDrift
  {
    if drift <= tickDrift {
      forall cfg: Config, bs: seq<Block>, tail: nat |
        && cfg.minThreshold == min && cfg.tickDrift == tickDrift && cfg.stopTick > 0 && cfg.stopSn <= 0
        && DisplacedByAtMost(min, Insts(cfg, bs)) && DriftAtMost(drift, Insts(cfg, bs))
        ensures Printed(cfg, TraceOf(bs, tail)) == Wanted(cfg, Insts(cfg, bs))
      {
        ViewerPrintsTheRange(cfg, bs, tail);
      }
    } else {
      FallBackIsLost(min, tickDrift, drift);
    }
  }
}
