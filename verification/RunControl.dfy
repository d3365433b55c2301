/**
 Run control (configs/common/Simulation.py): periodic checkpoints and repeated CPU
 switching, against a simulator whose replies are arbitrary. A list of replies stands for a
 finite part of a run; when it is used up the run is interrupted.
 */
module RunControl {

  datatype Cause = LimitReached | CheckpointRequest | OtherCause

  /** What the simulator does when asked to run for some ticks: run them all, or stop early
      after some ticks, for a checkpoint that the benchmark requests or for another cause. */
  datatype Reply = Limit | Stop(after: nat, request: bool)

  type Replies = seq<Reply>

  function StopCause(request: bool): Cause {
    if request then CheckpointRequest else OtherCause
  }

  function Min(a: int, b: int): int {
    if a <= b then a else b
  }

  /** The simulator: its clock, the replies still to come, and the checkpoints written. */
  class Simulator {
    var tick: int
    var replies: Replies
    var checkpoints: seq<int>

    constructor (tick: int, replies: Replies)
      ensures this.tick == tick && this.replies == replies && checkpoints == []
    {
      this.tick, this.replies, checkpoints := tick, replies, [];
    }

    /** `m5.simulate(n)` */
    method Simulate(n: int) returns (cause: Cause)
      requires n >= 0
      modifies this`tick, this`replies
      ensures old(tick) <= tick <= old(tick) + n
      ensures cause == LimitReached <==> old(replies) != [] && old(replies)[0].Limit?
      ensures cause == LimitReached ==> tick == old(tick) + n
      ensures old(replies) == [] ==> cause == OtherCause && tick == old(tick) && replies == []
      ensures old(replies) != [] ==> replies == old(replies)[1..]
      ensures old(replies) != [] && old(replies)[0].Stop? ==>
        cause == StopCause(old(replies)[0].request) && tick == old(tick) + Min(old(replies)[0].after, n)
    {
      if replies == [] {
        return OtherCause;
      }
      var r := replies[0];
      replies := replies[1..];
      match r {
        case Limit =>
          tick := tick + n;
          cause := LimitReached;
        case Stop(after, request) =>
          tick := tick + Min(after, n);
          cause := StopCause(request);
      }
    }

    /** `m5.checkpoint(...)` */
    method Checkpoint()
      modifies this`checkpoints
      ensures checkpoints == old(checkpoints) + [tick]
    {
      checkpoints := checkpoints + [tick];
    }
  }

  // ---- Periodic checkpoints ----

  /** Where a run towards `target` ends when benchmark checkpoints are skipped. */
  datatype Arrival = Arrival(tick: int, cause: Cause, rest: Replies)

  function RunTo(o: Replies, tick: int, target: int): (r: Arrival)
    requires tick <= target
    ensures r.cause != CheckpointRequest
    ensures tick <= r.tick <= target && (r.cause == LimitReached ==> r.tick == target)
    ensures o != [] ==> |r.rest| < |o|
    decreases |o|
  {
    if o == [] then Arrival(tick, OtherCause, [])
    else match o[0]
      case Limit => Arrival(target, LimitReached, o[1..])
      case Stop(after, request) =>
        var t := tick + Min(after, target - tick);
        if request then RunTo(o[1..], t, target) else Arrival(t, OtherCause, o[1..])
  }

  /** The settings of a checkpoint series. */
  datatype Series = Series(period: int, maxTick: int, maxCheckpoints: int)

  /** The checkpoints after the first one, as the script takes them: `num` have been taken and
      the last one was written at `tick`. */
  function Taken(s: Series, o: Replies, tick: int, num: nat): seq<int>
    decreases |o|
  {
    if num >= s.maxCheckpoints || tick + s.period > s.maxTick || s.period < 0 || o == [] then []
    else match o[0]
      case Limit => [tick + s.period] + Taken(s, o[1..], tick + s.period, num + 1)
      case Stop(after, request) =>
        if !request then []
        else if RunTo(o[1..], tick + Min(after, s.period), tick + s.period).cause == LimitReached
        then [tick + s.period]
        else []
  }

  /** The checkpoints a series should take: benchmark checkpoints are skipped, and the series
      goes on until the limits are met or the run ends for another reason. */
  function Intended(s: Series, o: Replies, tick: int, num: nat): seq<int>
    decreases |o|
  {
    if num >= s.maxCheckpoints || tick + s.period > s.maxTick || s.period < 0 || o == [] then []
    else
      var r := RunTo(o, tick, tick + s.period);
      if r.cause == LimitReached
      then [tick + s.period] + Intended(s, r.rest, tick + s.period, num + 1)
      else []
  }

  /** How many replies in a row reach the limit at once. */
  function LeadingLimits(o: Replies): nat {
    if o == [] || o[0].Stop? then 0 else 1 + LeadingLimits(o[1..])
  }

  /** The script stops the series after the first period in which the benchmark asks for a
      checkpoint: the cause it tests is the one of that request. */
  lemma {:induction false} SeriesIsCutShort(s: Series, o: Replies, tick: int, num: nat)
    ensures var all := Intended(s, o, tick, num);
            Taken(s, o, tick, num) == all[..Min(|all|, LeadingLimits(o) + 1)]
    decreases |o|
  {
    if num < s.maxCheckpoints && tick + s.period <= s.maxTick && s.period >= 0 && o != [] {
      if o[0].Limit? {
        SeriesIsCutShort(s, o[1..], tick + s.period, num + 1);
      }
    }
  }

  /** So the intended series is taken exactly when at most one of its checkpoints comes after
      the leading undisturbed periods. */
  lemma {:induction false} SeriesCompleteIff(s: Series, o: Replies, tick: int, num: nat)
    ensures Taken(s, o, tick, num) == Intended(s, o, tick, num)
       <==> |Intended(s, o, tick, num)| <= LeadingLimits(o) + 1
  {
    SeriesIsCutShort(s, o, tick, num);
    var all := Intended(s, o, tick, num);
    if |all| <= LeadingLimits(o) + 1 {
      assert all[..|all|] == all;
    }
  }

  lemma {:induction false} IntendedAtMostOne(s: Series, o: Replies, tick: int, num: nat)
    requires s.period < 0 || num + 1 >= s.maxCheckpoints || tick + 2 * s.period > s.maxTick
    ensures |Intended(s, o, tick, num)| <= 1
  {
    if num < s.maxCheckpoints && tick + s.period <= s.maxTick && s.period >= 0 && o != [] {
      var r := RunTo(o, tick, tick + s.period);
      assert Intended(s, r.rest, tick + s.period, num + 1) == [];
    }
  }

  /** Whatever the benchmark does, the whole series is taken exactly when the settings leave room
      for at most one more checkpoint; with a negative period there is none. */
  lemma {:induction false} SeriesAlwaysCompleteIff(s: Series, tick: int, num: nat)
    ensures (forall o: Replies :: Taken(s, o, tick, num) == Intended(s, o, tick, num))
       <==> s.period < 0 || num + 1 >= s.maxCheckpoints || tick + 2 * s.period > s.maxTick
  {
    if s.period < 0 || num + 1 >= s.maxCheckpoints || tick + 2 * s.period > s.maxTick {
      forall o: Replies ensures Taken(s, o, tick, num) == Intended(s, o, tick, num) {
        IntendedAtMostOne(s, o, tick, num);
        SeriesCompleteIff(s, o, tick, num);
      }
    } else {
      RequestThenLimits(s, tick, num);
    }
  }

  /** A request in a period with room for another one after it. */
  lemma {:induction false} RequestThenLimits(s: Series, tick: int, num: nat)
    requires s.period >= 0 && num + 1 < s.maxCheckpoints && tick + 2 * s.period <= s.maxTick
    ensures var o := [Stop(0, true), Limit, Limit];
            Taken(s, o, tick, num) != Intended(s, o, tick, num)
  {
    var o: Replies := [Stop(0, true), Limit, Limit];
    var o1: Replies := [Limit];
    assert o[1..] == [Limit, Limit] && o[1..][1..] == o1;
    assert RunTo(o, tick, tick + s.period) == Arrival(tick + s.period, LimitReached, o1);
    assert o1[1..] == [];
    assert |Intended(s, o1, tick + s.period, num + 1)| == 1;
    assert |Taken(s, o, tick, num)| == 1;
  }

  /** A benchmark checkpoint in the first period costs the rest of this series. */
  lemma {:induction false} BenchmarkCheckpointEndsSeries()
    ensures var s, o := Series(10, 100, 4), [Stop(5, true), Limit, Limit, Limit];
            Taken(s, o, 20, 1) == [30] && Intended(s, o, 20, 1) == [30, 40, 50]
  {
    var s := Series(10, 100, 4);
    var o: Replies := [Stop(5, true), Limit, Limit, Limit];
    assert o[1..] == [Limit, Limit, Limit] && o[1..][1..] == [Limit, Limit];
    assert RunTo(o, 20, 30) == Arrival(30, LimitReached, [Limit, Limit]);
    var o2: Replies := [Limit, Limit];
    assert o2[1..] == [Limit];
    assert Intended(s, o2[1..], 40, 3) == [50];
    assert Intended(s, o2, 30, 2) == [40, 50];
  }

  /** The checkpoints come one period apart, starting one period after `tick`. */
  lemma {:induction false} TakenAtPeriods(s: Series, o: Replies, tick: int, num: nat)
    ensures var ts := Taken(s, o, tick, num);
            && (forall k :: 0 <= k < |ts| ==> ts[k] == tick + (k + 1) * s.period && ts[k] <= s.maxTick)
            && (ts != [] ==> num + |ts| <= s.maxCheckpoints)
    decreases |o|
  {
    if num < s.maxCheckpoints && tick + s.period <= s.maxTick && s.period >= 0 && o != [] && o[0].Limit? {
      TakenAtPeriods(s, o[1..], tick + s.period, num + 1);
      var ts, rest := Taken(s, o, tick, num), Taken(s, o[1..], tick + s.period, num + 1);
      forall k | 0 <= k < |ts| ensures ts[k] == tick + (k + 1) * s.period && ts[k] <= s.maxTick {
        if k > 0 {
          assert ts[k] == rest[k - 1];
          assert k * s.period + s.period == (k + 1) * s.period;
        }
      }
    }
  }

  function FromArrival(s: Series, first: Arrival, when: int): seq<int> {
    if first.cause == LimitReached then [when] + Taken(s, first.rest, when, 1) else []
  }

  /** All checkpoints of a run that starts at `tick`: the first one at `when`. */
  function ScriptCheckpoints(s: Series, o: Replies, tick: int, when: int): seq<int>
    requires tick <= when
  {
    FromArrival(s, RunTo(o, tick, when), when)
  }

  /** The checkpoints are taken at `when`, `when + period`, ... without a gap; there is never
      more than the first one beyond `maxCheckpoints`. */
  lemma {:induction false} CheckpointsAtPeriods(s: Series, o: Replies, tick: int, when: int)
    requires tick <= when <= s.maxTick
    ensures var ts := ScriptCheckpoints(s, o, tick, when);
            && (forall k :: 0 <= k < |ts| ==> ts[k] == when + k * s.period && ts[k] <= s.maxTick)
            && |ts| <= if s.maxCheckpoints <= 1 then 1 else s.maxCheckpoints
  {
    var r := RunTo(o, tick, when);
    if r.cause == LimitReached {
      TakenAtPeriods(s, r.rest, when, 1);
      var ts, rest := ScriptCheckpoints(s, o, tick, when), Taken(s, r.rest, when, 1);
      forall k | 0 <= k < |ts| ensures ts[k] == when + k * s.period && ts[k] <= s.maxTick {
        if k > 0 {
          assert ts[k] == rest[k - 1];
        }
      }
    }
  }

  /** Where the run ends after the checkpoints, of which `num` have been taken, the last at `tick`. */
  function SeriesEnd(s: Series, o: Replies, tick: int, num: nat): int
    decreases |o|
  {
    if num >= s.maxCheckpoints || s.period < 0 || tick > s.maxTick || o == [] then tick
    else if tick + s.period > s.maxTick then
      if o[0].Limit? then s.maxTick else tick + Min(o[0].after, s.maxTick - tick)
    else match o[0]
      case Limit => SeriesEnd(s, o[1..], tick + s.period, num + 1)
      case Stop(after, request) =>
        var t := tick + Min(after, s.period);
        if request then RunTo(o[1..], t, tick + s.period).tick else t
  }

  function EndAfter(s: Series, first: Arrival, when: int): int {
    if first.cause == LimitReached then SeriesEnd(s, first.rest, when, 1) else first.tick
  }

  /** Nothing happens in the simulated system that stops a run early. */
  ghost predicate Undisturbed(o: Replies) {
    forall i :: 0 <= i < |o| ==> o[i].Limit?
  }

  /** An undisturbed series goes on until the limits are met; then the run goes on to `maxTick`, unless
      enough checkpoints have been taken. */
  lemma {:induction false} UndisturbedRest(s: Series, o: Replies, tick: int, num: nat)
    requires Undisturbed(o) && s.period >= 0 && tick <= s.maxTick
    ensures var n := |Taken(s, o, tick, num)|;
            n < |o| ==> if num + n >= s.maxCheckpoints then SeriesEnd(s, o, tick, num) == tick + n * s.period
                        else SeriesEnd(s, o, tick, num) == s.maxTick < tick + (n + 1) * s.period
    decreases |o|
  {
    if o != [] && num < s.maxCheckpoints && tick + s.period <= s.maxTick {
      assert o[0].Limit?;
      UndisturbedRest(s, o[1..], tick + s.period, num + 1);
      var n := |Taken(s, o[1..], tick + s.period, num + 1)|;
      PeriodsAdd(s.period, n);
    }
  }

  lemma {:induction false} PeriodsAdd(period: int, n: int)
    ensures period + n * period == (n + 1) * period
    ensures period + (n + 1) * period == (n + 2) * period
  {
  }

  /** So an undisturbed run takes its checkpoints at `when`, `when + period`, ... until there are enough or
      the next would be after `maxTick`. */
  lemma {:induction false} UndisturbedSeries(s: Series, o: Replies, tick: int, when: int)
    requires Undisturbed(o) && o != [] && s.period >= 0 && tick <= when <= s.maxTick
    ensures var ts, end := ScriptCheckpoints(s, o, tick, when), EndAfter(s, RunTo(o, tick, when), when);
            && |ts| >= 1
            && (|ts| < |o| ==> if |ts| >= s.maxCheckpoints then end == when + (|ts| - 1) * s.period
                               else end == s.maxTick < when + |ts| * s.period)
  {
    assert o[0].Limit? && Undisturbed(o[1..]);
    UndisturbedRest(s, o[1..], when, 1);
  }

  /** Where a run that stopped for `cause` ends when benchmark checkpoints are skipped. */
  function Skipped(o: Replies, tick: int, cause: Cause, target: int): Arrival
    requires tick <= target
  {
    if cause == CheckpointRequest then RunTo(o, tick, target) else Arrival(tick, cause, o)
  }

  method SkipBenchmarkCheckpoints(sim: Simulator, target: int, first: Cause) returns (cause: Cause)
    requires sim.tick <= target
    modifies sim`tick, sim`replies
    ensures Arrival(sim.tick, cause, sim.replies) == Skipped(old(sim.replies), old(sim.tick), first, target)
  {
    cause := first;
    while cause == CheckpointRequest
      invariant sim.tick <= target
      invariant Skipped(sim.replies, sim.tick, cause, target)
             == Skipped(old(sim.replies), old(sim.tick), first, target)
      decreases |sim.replies|, cause == CheckpointRequest
    {
      cause := sim.Simulate(target - sim.tick);
    }
  }

  /** Runs until `target`, going on after every benchmark checkpoint. */
  method RunTowards(sim: Simulator, target: int) returns (cause: Cause)
    requires sim.tick <= target
    modifies sim`tick, sim`replies
    ensures Arrival(sim.tick, cause, sim.replies) == RunTo(old(sim.replies), old(sim.tick), target)
  {
    cause := sim.Simulate(target - sim.tick);
    cause := SkipBenchmarkCheckpoints(sim, target, cause);
  }

  /** How a run ends; asking for a negative number of ticks is a TypeError. */
  datatype Ended = Returned(tick: int) | TypeError(tick: int)

  /** Whether the loop asks for a negative number of ticks: the period is negative, or the first
      checkpoint, taken at `when`, lies beyond `maxTick`, and the loop asks for what is left. */
  predicate LoopAsksBackwards(s: Series, first: Arrival, when: int) {
    first.cause == LimitReached && s.maxCheckpoints > 1 && (when > s.maxTick || s.period < 0)
  }

  /** The part of `scriptCheckpoints` after the run to `when`. */
  method AfterArrival(sim: Simulator, s: Series, when: int, cause: Cause) returns (r: Ended)
    requires sim.checkpoints == [] && (cause == LimitReached ==> sim.tick == when)
    modifies sim
    ensures sim.checkpoints == FromArrival(s, Arrival(old(sim.tick), cause, old(sim.replies)), when)
    ensures r.tick == sim.tick == EndAfter(s, Arrival(old(sim.tick), cause, old(sim.replies)), when)
    ensures sim.tick >= old(sim.tick)
    ensures r.TypeError? <==> LoopAsksBackwards(s, Arrival(old(sim.tick), cause, old(sim.replies)), when)
    ensures old(sim.tick) <= s.maxTick ==> sim.tick <= s.maxTick
  {
    if cause != LimitReached {
      return Returned(sim.tick);
    }
    sim.Checkpoint();
    r := TakeSeries(sim, s, 1);
  }

  /** `scriptCheckpoints` for a period given in ticks. */
  method TakeCheckpoints(sim: Simulator, s: Series, when: int) returns (r: Ended)
    requires sim.checkpoints == []
    modifies sim
    ensures when < old(sim.tick) ==> r == TypeError(sim.tick) && sim.checkpoints == []
    ensures when >= old(sim.tick) ==>
      && sim.checkpoints == ScriptCheckpoints(s, old(sim.replies), old(sim.tick), when)
      && r.tick == EndAfter(s, RunTo(old(sim.replies), old(sim.tick), when), when)
      && (r.TypeError? <==> LoopAsksBackwards(s, RunTo(old(sim.replies), old(sim.tick), when), when))
    ensures r.tick == sim.tick >= old(sim.tick)
    ensures old(sim.tick) <= when <= s.maxTick ==> sim.tick <= s.maxTick && (s.period >= 0 ==> r.Returned?)
  {
    if when < sim.tick {
      return TypeError(sim.tick);
    }
    var cause := RunTowards(sim, when);
    r := AfterArrival(sim, s, when, cause);
  }

  /** The loop after the first checkpoint, which was taken at the current tick. */
  method TakeSeries(sim: Simulator, s: Series, num: nat) returns (r: Ended)
    modifies sim
    ensures sim.checkpoints == old(sim.checkpoints) + Taken(s, old(sim.replies), old(sim.tick), num)
    ensures r.tick == sim.tick == SeriesEnd(s, old(sim.replies), old(sim.tick), num)
    ensures sim.tick >= old(sim.tick)
    ensures r.TypeError? <==> num < s.maxCheckpoints && (old(sim.tick) > s.maxTick || s.period < 0)
    ensures old(sim.tick) <= s.maxTick ==> sim.tick <= s.maxTick
  {
    ghost var backwards := sim.tick > s.maxTick || s.period < 0;
    var n, simTicks, cause := num, sim.tick, LimitReached;
    ghost var goal := sim.checkpoints + Taken(s, sim.replies, sim.tick, num);
    ghost var end := SeriesEnd(s, sim.replies, sim.tick, num);
    while n < s.maxCheckpoints && cause == LimitReached
      invariant old(sim.tick) <= sim.tick && num <= n
      invariant sim.tick == old(sim.tick) || sim.tick <= s.maxTick
      invariant cause == LimitReached ==> sim.tick == simTicks && (backwards || simTicks <= s.maxTick)
      invariant backwards ==> n == num && cause == LimitReached
      invariant goal == sim.checkpoints + if cause == LimitReached then Taken(s, sim.replies, sim.tick, n) else []
      invariant end == if cause == LimitReached then SeriesEnd(s, sim.replies, sim.tick, n) else sim.tick
      decreases |sim.replies|, cause == LimitReached
    {
      if simTicks + s.period > s.maxTick {
        if s.maxTick < simTicks {
          return TypeError(sim.tick);
        }
        var _ := sim.Simulate(s.maxTick - simTicks);
        return Returned(sim.tick);
      }
      if s.period < 0 {
        return TypeError(sim.tick);
      }
      cause, n := NextCheckpoint(sim, s, n);
      simTicks := simTicks + s.period;
    }
    r := Returned(sim.tick);
  }

  /** One period in which the first run ends at `t` for `cause`, with `rest` still to come. */
  lemma {:induction false} PeriodStep(
      s: Series, o: Replies, tick: int, num: nat, cause: Cause, t: int, rest: Replies, before: seq<int>)
    requires s.period >= 0 && num < s.maxCheckpoints && tick + s.period <= s.maxTick && t <= tick + s.period
    requires o == [] ==> cause == OtherCause && t == tick && rest == []
    requires o != [] ==> rest == o[1..]
    requires o != [] && o[0].Limit? ==> cause == LimitReached && t == tick + s.period
    requires o != [] && o[0].Stop? ==> cause == StopCause(o[0].request) && t == tick + Min(o[0].after, s.period)
    ensures var last, next := Skipped(rest, t, cause, tick + s.period), tick + s.period;
            && before + Taken(s, o, tick, num) == (if last.cause == LimitReached then before + [next] else before)
                 + (if cause == LimitReached then Taken(s, rest, next, num + 1) else [])
            && SeriesEnd(s, o, tick, num) == if cause == LimitReached then SeriesEnd(s, rest, next, num + 1)
                                             else last.tick
  {
    if o != [] && o[0].Limit? {
      var more := Taken(s, rest, tick + s.period, num + 1);
      assert before + ([tick + s.period] + more) == (before + [tick + s.period]) + more;
    }
  }

  /** One round of the loop: `cause` is the cause of the first stop in the period. */
  method NextCheckpoint(sim: Simulator, s: Series, num: nat) returns (cause: Cause, num': nat)
    requires s.period >= 0 && num < s.maxCheckpoints && sim.tick + s.period <= s.maxTick
    modifies sim
    ensures |sim.replies| <= |old(sim.replies)| && (cause == LimitReached ==> |sim.replies| < |old(sim.replies)|)
    ensures old(sim.tick) <= sim.tick <= old(sim.tick) + s.period
    ensures cause == LimitReached ==> sim.tick == old(sim.tick) + s.period && num' == num + 1
    ensures num <= num'
    ensures sim.checkpoints + (if cause == LimitReached then Taken(s, sim.replies, sim.tick, num') else [])
         == old(sim.checkpoints) + Taken(s, old(sim.replies), old(sim.tick), num)
    ensures (if cause == LimitReached then SeriesEnd(s, sim.replies, sim.tick, num') else sim.tick)
         == SeriesEnd(s, old(sim.replies), old(sim.tick), num)
  {
    var target := sim.tick + s.period;
    cause := sim.Simulate(s.period);
    PeriodStep(s, old(sim.replies), old(sim.tick), num, cause, sim.tick, sim.replies, sim.checkpoints);
    var last := SkipBenchmarkCheckpoints(sim, target, cause);
    num' := num;
    if last == LimitReached {
      sim.Checkpoint();
      num' := num + 1;
    }
  }

  /** With `curTick <= maxtick` at the start, no run passes `maxtick` before the first checkpoint
      exactly when that checkpoint is not asked for later. */
  lemma {:induction false} FirstTargetWithinLimitIff(tick: int, when: int, maxTick: int)
    requires tick <= when && tick <= maxTick
    ensures (forall o: Replies :: RunTo(o, tick, when).tick <= maxTick) <==> when <= maxTick
  {
    var o: Replies := [Limit];
    assert RunTo(o, tick, when).tick == when;
  }

  // ---- Repeated CPU switching ----

  type Cpu = nat

  /** Every CPU occurs once in the list of (old, new) pairs. */
  ghost predicate AllDistinct(pairs: seq<(Cpu, Cpu)>) {
    && (forall i :: 0 <= i < |pairs| ==> pairs[i].0 != pairs[i].1)
    && (forall i, j :: 0 <= i < j < |pairs| ==>
          && pairs[i].0 != pairs[j].0 && pairs[i].0 != pairs[j].1
          && pairs[i].1 != pairs[j].0 && pairs[i].1 != pairs[j].1)
  }

  /** What `m5.switchCpus` checks: old CPUs run and new ones are switched out. */
  ghost predicate CanSwitch(active: set<Cpu>, pairs: seq<(Cpu, Cpu)>) {
    forall i :: 0 <= i < |pairs| ==> pairs[i].0 in active && pairs[i].1 !in active
  }

  ghost predicate OneActive(active: set<Cpu>, pairs: seq<(Cpu, Cpu)>) {
    forall i :: 0 <= i < |pairs| ==> (pairs[i].0 in active <==> pairs[i].1 !in active)
  }

  function SwappedPairs(pairs: seq<(Cpu, Cpu)>): seq<(Cpu, Cpu)> {
    seq(|pairs|, i requires 0 <= i < |pairs| => (pairs[i].1, pairs[i].0))
  }

  function Olds(pairs: seq<(Cpu, Cpu)>): set<Cpu> {
    set i | 0 <= i < |pairs| :: pairs[i].0
  }

  function News(pairs: seq<(Cpu, Cpu)>): set<Cpu> {
    set i | 0 <= i < |pairs| :: pairs[i].1
  }

  lemma {:induction false} SwapTwice(pairs: seq<(Cpu, Cpu)>)
    requires AllDistinct(pairs)
    ensures AllDistinct(SwappedPairs(pairs)) && SwappedPairs(SwappedPairs(pairs)) == pairs
  {
  }

  lemma {:induction false} SwapSets(pairs: seq<(Cpu, Cpu)>)
    ensures Olds(SwappedPairs(pairs)) == News(pairs) && News(SwappedPairs(pairs)) == Olds(pairs)
  {
    var s := SwappedPairs(pairs);
    forall c ensures c in Olds(s) <==> c in News(pairs) {
      if c in News(pairs) {
        var i :| 0 <= i < |pairs| && pairs[i].1 == c;
        assert s[i].0 == c;
      }
    }
    forall c ensures c in News(s) <==> c in Olds(pairs) {
      if c in Olds(pairs) {
        var i :| 0 <= i < |pairs| && pairs[i].0 == c;
        assert s[i].1 == c;
      }
    }
  }

  lemma {:induction false} SwitchSwaps(active: set<Cpu>, pairs: seq<(Cpu, Cpu)>)
    requires AllDistinct(pairs) && CanSwitch(active, pairs)
    ensures CanSwitch(active - Olds(pairs) + News(pairs), SwappedPairs(pairs))
  {
    var s, now := SwappedPairs(pairs), active - Olds(pairs) + News(pairs);
    forall i | 0 <= i < |s| ensures s[i].0 in now && s[i].1 !in now {
      assert pairs[i].1 in News(pairs) && pairs[i].0 in Olds(pairs);
      forall j | 0 <= j < |pairs| ensures pairs[j].1 != pairs[i].0 {
        assert pairs[i].0 in active && pairs[j].1 !in active;
      }
    }
  }

  /** The state between two switches: `list` is the pair list, possibly swapped, and CPUs outside
      the pairs are as they were at the start. */
  ghost predicate Between(active: set<Cpu>, start: set<Cpu>, list: seq<(Cpu, Cpu)>, pairs: seq<(Cpu, Cpu)>) {
    && (list == pairs || list == SwappedPairs(pairs))
    && AllDistinct(pairs) && CanSwitch(active, list)
    && active - Olds(pairs) - News(pairs) == start - Olds(pairs) - News(pairs)
  }

  lemma {:induction false} BetweenStep(active: set<Cpu>, start: set<Cpu>, list: seq<(Cpu, Cpu)>, pairs: seq<(Cpu, Cpu)>)
    requires Between(active, start, list, pairs)
    ensures AllDistinct(list)
    ensures Between(active - Olds(list) + News(list), start, SwappedPairs(list), pairs)
  {
    SwapTwice(pairs);
    SwapSets(pairs);
    SwitchSwaps(active, list);
  }

  /** The simulated system: the CPUs that are not switched out, and the switches made. */
  class System {
    var active: set<Cpu>
    var switches: seq<seq<(Cpu, Cpu)>>

    constructor (active: set<Cpu>)
      ensures this.active == active && switches == []
    {
      this.active, switches := active, [];
    }

    /** `m5.switchCpus`: its checks are the precondition. */
    method SwitchCpus(pairs: seq<(Cpu, Cpu)>)
      requires AllDistinct(pairs) && CanSwitch(active, pairs)
      modifies this
      ensures active == old(active) - Olds(pairs) + News(pairs)
      ensures switches == old(switches) + [pairs]
    {
      switches := switches + [pairs];
      for n := 0 to |pairs|
        invariant switches == old(switches) + [pairs]
        invariant active == old(active) - Olds(pairs[..n])
      {
        assert Olds(pairs[..n + 1]) == Olds(pairs[..n]) + {pairs[n].0} by { OldsSnoc(pairs, n); }
        active := active - {pairs[n].0};
      }
      assert pairs[..|pairs|] == pairs;
      for n := 0 to |pairs|
        invariant switches == old(switches) + [pairs]
        invariant active == old(active) - Olds(pairs) + News(pairs[..n])
      {
        assert News(pairs[..n + 1]) == News(pairs[..n]) + {pairs[n].1} by { OldsSnoc(pairs, n); }
        active := active + {pairs[n].1};
      }
    }
  }

  lemma {:induction false} OldsSnoc(pairs: seq<(Cpu, Cpu)>, n: nat)
    requires n < |pairs|
    ensures Olds(pairs[..n + 1]) == Olds(pairs[..n]) + {pairs[n].0}
    ensures News(pairs[..n + 1]) == News(pairs[..n]) + {pairs[n].1}
  {
    var more, less := pairs[..n + 1], pairs[..n];
    assert forall i :: 0 <= i < n ==> more[i] == less[i];
    assert more[n] == pairs[n];
    forall c ensures c in Olds(more) <==> c in Olds(less) + {pairs[n].0} {
      if c in Olds(less) {
        var i :| 0 <= i < |less| && less[i].0 == c;
        assert more[i].0 == c;
      }
    }
    forall c ensures c in News(more) <==> c in News(less) + {pairs[n].1} {
      if c in News(less) {
        var i :| 0 <= i < |less| && less[i].1 == c;
        assert more[i].1 == c;
      }
    }
  }

  /** Between switches, and so when the run ends, exactly one CPU of each pair is active and the
      other CPUs are as they were. */
  lemma {:induction false} BetweenMeansOneActive(
      active: set<Cpu>, start: set<Cpu>, list: seq<(Cpu, Cpu)>, pairs: seq<(Cpu, Cpu)>)
    requires Between(active, start, list, pairs)
    ensures OneActive(active, pairs)
    ensures forall c :: c !in Olds(pairs) && c !in News(pairs) ==> (c in active <==> c in start)
  {
    var s := SwappedPairs(pairs);
    forall i | 0 <= i < |pairs| ensures pairs[i].0 in active <==> pairs[i].1 !in active {
      assert s[i] == (pairs[i].1, pairs[i].0);
      assert list[i].0 in active && list[i].1 !in active;
    }
    forall c | c !in Olds(pairs) && c !in News(pairs) ensures c in active <==> c in start {
      assert c in active - Olds(pairs) - News(pairs) <==> c in start - Olds(pairs) - News(pairs);
    }
  }

  function SwitchRun(o: Replies, tick: int, maxTick: int, freq: int): Ended
    decreases |o|
  {
    if freq < 0 then TypeError(tick)
    else if o == [] then Returned(tick)
    else match o[0]
      case Stop(after, _) => Returned(tick + Min(after, freq))
      case Limit =>
        var t := tick + freq;
        if maxTick - t > freq then SwitchRun(o[1..], t, maxTick, freq)
        else if maxTick < t then TypeError(t)
        else if o[1..] == [] then Returned(t)
        else match o[1]
          case Limit => Returned(maxTick)
          case Stop(after, _) => Returned(t + Min(after, maxTick - t))
  }

  /** How many periods the run completes: there is one switch after each. */
  function Periods(o: Replies, tick: int, maxTick: int, freq: int): nat
    decreases |o|
  {
    if freq < 0 || o == [] || o[0].Stop? then 0
    else if maxTick - (tick + freq) > freq then 1 + Periods(o[1..], tick + freq, maxTick, freq)
    else 1
  }

  /** Whatever the simulator does, a run that goes on after a switch has time for another period;
      so the remaining ticks bound the number of switches. */
  lemma {:induction false} PeriodsBounded(o: Replies, tick: int, maxTick: int, freq: int)
    ensures var n := Periods(o, tick, maxTick, freq);
            n > 1 ==> tick + n * freq < maxTick
    decreases |o|
  {
    var n := Periods(o, tick, maxTick, freq);
    if n > 1 {
      PeriodsBounded(o[1..], tick + freq, maxTick, freq);
      assert freq + (n - 1) * freq == n * freq;
    }
  }

  /** An undisturbed run ends at `maxTick`, after as many periods as leave at most one more. */
  lemma {:induction false} UndisturbedSwitching(o: Replies, tick: int, maxTick: int, freq: int)
    requires Undisturbed(o) && freq >= 0 && tick + freq <= maxTick
    ensures var n := Periods(o, tick, maxTick, freq);
            n < |o| ==> SwitchRun(o, tick, maxTick, freq) == Returned(maxTick) && maxTick <= tick + (n + 1) * freq
    decreases |o|
  {
    if o != [] {
      assert o[0].Limit?;
      if maxTick - (tick + freq) > freq {
        assert Undisturbed(o[1..]);
        UndisturbedSwitching(o[1..], tick + freq, maxTick, freq);
        PeriodsAdd(freq, Periods(o[1..], tick + freq, maxTick, freq));
      } else if |o| > 1 {
        assert o[1].Limit?;
      }
    }
  }

  /** The pair list after `n` switches. */
  function ListAfter(pairs: seq<(Cpu, Cpu)>, n: nat): seq<(Cpu, Cpu)> {
    if n % 2 == 0 then pairs else SwappedPairs(pairs)
  }

  /** The lists of the first `n` switches: the pairs and the swapped pairs in turn. */
  function Alternating(pairs: seq<(Cpu, Cpu)>, n: nat): seq<seq<(Cpu, Cpu)>> {
    seq(n, i requires 0 <= i < n => ListAfter(pairs, i))
  }

  lemma {:induction false} ListAfterStep(pairs: seq<(Cpu, Cpu)>, n: nat)
    requires AllDistinct(pairs)
    ensures SwappedPairs(ListAfter(pairs, n)) == ListAfter(pairs, n + 1)
  {
    SwapTwice(pairs);
  }

  /** One switch and the swap of the pair list that follows it. */
  method SwitchAndSwap(system: System, ghost n: nat, list: seq<(Cpu, Cpu)>, ghost start: set<Cpu>,
                       ghost pairs: seq<(Cpu, Cpu)>)
    returns (swapped: seq<(Cpu, Cpu)>)
    requires list == ListAfter(pairs, n) && Between(system.active, start, list, pairs)
    modifies system
    ensures swapped == ListAfter(pairs, n + 1) && Between(system.active, start, swapped, pairs)
    ensures system.switches == old(system.switches) + [ListAfter(pairs, n)]
  {
    BetweenStep(system.active, start, list, pairs);
    system.SwitchCpus(list);
    ListAfterStep(pairs, n);
    swapped := SwappedPairs(list);
  }

  /** `repeatSwitch`: one switch after every completed period, each of which finds old CPUs running
      and new ones switched out. */
  method RepeatSwitch(sim: Simulator, system: System, pairs: seq<(Cpu, Cpu)>, maxTick: int, freq: int)
    returns (r: Ended)
    requires AllDistinct(pairs) && CanSwitch(system.active, pairs)
    modifies sim`tick, sim`replies, system
    ensures r == SwitchRun(old(sim.replies), old(sim.tick), maxTick, freq) && sim.tick == r.tick
    ensures var n := Periods(old(sim.replies), old(sim.tick), maxTick, freq);
            && system.switches == old(system.switches) + Alternating(pairs, n)
            && Between(system.active, old(system.active), ListAfter(pairs, n), pairs)
  {
    if freq < 0 {
      return TypeError(sim.tick);
    }
    var list := pairs;
    ghost var n := 0;
    while true
      invariant list == ListAfter(pairs, n) && Between(system.active, old(system.active), list, pairs)
      invariant system.switches == old(system.switches) + Alternating(pairs, n)
      invariant SwitchRun(sim.replies, sim.tick, maxTick, freq)
             == SwitchRun(old(sim.replies), old(sim.tick), maxTick, freq)
      invariant n + Periods(sim.replies, sim.tick, maxTick, freq)
             == Periods(old(sim.replies), old(sim.tick), maxTick, freq)
      decreases |sim.replies|
    {
      var cause := sim.Simulate(freq);
      if cause != LimitReached {
        return Returned(sim.tick);
      }
      assert Alternating(pairs, n + 1) == Alternating(pairs, n) + [ListAfter(pairs, n)];
      list := SwitchAndSwap(system, n, list, old(system.active), pairs);
      n := n + 1;
      if maxTick - sim.tick <= freq {
        if maxTick < sim.tick {
          return TypeError(sim.tick);
        }
        var _ := sim.Simulate(maxTick - sim.tick);
        return Returned(sim.tick);
      }
    }
  }

  predicate StaysWithin(o: Replies, tick: int, maxTick: int, freq: int) {
    SwitchRun(o, tick, maxTick, freq).Returned? && SwitchRun(o, tick, maxTick, freq).tick <= maxTick
  }

  /** The run stays within `maxTick` whatever the simulator does exactly when the first period
      fits. The caller compares `maxTick` with the period alone, not with the current tick. */
  lemma {:induction false} SwitchingStaysWithinIff(tick: int, maxTick: int, freq: int)
    ensures (forall o: Replies :: StaysWithin(o, tick, maxTick, freq)) <==> 0 <= freq && tick + freq <= maxTick
  {
    if 0 <= freq && tick + freq <= maxTick {
      forall o: Replies ensures StaysWithin(o, tick, maxTick, freq) {
        SwitchingStays(o, tick, maxTick, freq);
      }
    } else {
      assert !StaysWithin([Limit], tick, maxTick, freq);
    }
  }

  lemma {:induction false} SwitchingStays(o: Replies, tick: int, maxTick: int, freq: int)
    requires 0 <= freq && tick + freq <= maxTick
    ensures StaysWithin(o, tick, maxTick, freq)
    decreases |o|
  {
    if o != [] && o[0].Limit? && maxTick - (tick + freq) > freq {
      SwitchingStays(o[1..], tick + freq, maxTick, freq);
    }
  }

  /** The caller's guard `maxtick > repeat_switch` lets a restored run pass its limit. */
  lemma {:induction false} GuardIsNotEnough()
    ensures var tick, maxTick, freq := 10000, 12000, 5000;
            maxTick > freq && SwitchRun([Limit], tick, maxTick, freq) == TypeError(15000)
  {
  }
}
