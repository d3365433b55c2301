/**
 The tester tree of configs/example/memtest.py: a closed-form count of the testers, used to
 limit the configuration, against the recursive construction of the tree.
 */
module MemTestTree {
  import opened Collections

  /** A tree specification that passed the command-line checks: caches and testers per level,
      from the memory upwards. */
  datatype AnySpec = Spec(caches: seq<nat>, testers: seq<nat>)

  type Spec = s: AnySpec |
    && |s.caches| >= 1 && |s.testers| == |s.caches| + 1 && s.testers[|s.caches|] > 0
    && (forall i :: 0 <= i < |s.caches| ==> s.caches[i] >= 1)
    witness Spec([1], [0, 1])

  /** How many subsystems there are at depth `d` below the memory. */
  function Fanout(s: Spec, d: nat): (r: nat)
    requires d <= |s.caches|
    ensures r >= 1
  {
    if d == 0 then 1 else Fanout(s, d - 1) * s.caches[d - 1]
  }

  function Sum(s: Spec, k: nat): nat
    requires k <= |s.testers|
  {
    if k == 0 then 0 else Sum(s, k - 1) + s.testers[k - 1] * Fanout(s, k - 1)
  }

  /** `numtesters` */
  method NumTesters(s: Spec) returns (total: nat)
    ensures total == Sum(s, |s.testers|)
  {
    var multiplier: seq<nat> := [1];
    for i := 0 to |s.caches|
      invariant |multiplier| == i + 1
      invariant forall d :: 0 <= d <= i ==> multiplier[d] == Fanout(s, d)
    {
      multiplier := multiplier + [multiplier[|multiplier| - 1] * s.caches[i]];
    }
    total := 0;
    for i := 0 to |s.testers|
      invariant total == Sum(s, i)
    {
      total := total + s.testers[i] * multiplier[i];
    }
  }

  /** Testers in one subtree rooted at depth `d`. */
  function InSubtree(s: Spec, d: nat): nat
    requires d <= |s.caches|
    decreases |s.caches| - d
  {
    s.testers[d] + if d < |s.caches| then s.caches[d] * InSubtree(s, d + 1) else 0
  }

  lemma {:induction false} SumSplits(s: Spec, d: nat)
    requires d <= |s.caches|
    ensures Sum(s, |s.testers|) == Sum(s, d) + Fanout(s, d) * InSubtree(s, d)
    decreases |s.caches| - d
  {
    if d < |s.caches| {
      SumSplits(s, d + 1);
      var f, t, c, rest := Fanout(s, d), s.testers[d], s.caches[d], InSubtree(s, d + 1);
      Distribute(f, t, c, rest);
    }
  }

  lemma {:induction false} Distribute(f: nat, t: nat, c: nat, rest: nat)
    ensures f * (t + c * rest) == t * f + (f * c) * rest
  {
    assert f * (c * rest) == (f * c) * rest;
    assert f * (t + c * rest) == f * t + f * (c * rest);
  }

  /** The closed form counts the testers of the whole tree. */
  lemma {:induction false} ClosedFormCountsTree(s: Spec)
    ensures Sum(s, |s.testers|) == InSubtree(s, 0)
  {
    SumSplits(s, 0);
  }

  // ---- Building the tree ----

  /** Subsystems at level `l` in one subtree rooted at level `top`. */
  function Below(s: Spec, top: nat, l: nat): nat
    requires top <= |s.caches|
    decreases top
  {
    if l > top then 0 else if l == top then 1
    else s.caches[|s.caches| - top] * Below(s, top - 1, l)
  }

  /** The indices handed out at level `l`, in order. */
  function IndicesAt(names: seq<(nat, nat)>, l: nat): seq<nat> {
    if names == [] then []
    else
      var last := names[|names| - 1];
      IndicesAt(names[..|names| - 1], l) + if last.0 == l then [last.1] else []
  }

  lemma {:induction false} IndicesSnoc(names: seq<(nat, nat)>, x: (nat, nat), l: nat)
    ensures IndicesAt(names + [x], l) == IndicesAt(names, l) + if x.0 == l then [x.1] else []
  {
    assert (names + [x])[..|names|] == names;
  }

  /** The testers of the subsystems `names`, each of which has as many as its level asks for. */
  function TestersOf(s: Spec, names: seq<(nat, nat)>): nat {
    if names == [] then 0
    else
      var level := names[|names| - 1].0;
      TestersOf(s, names[..|names| - 1]) + if level <= |s.caches| then s.testers[|s.caches| - level] else 0
  }

  lemma {:induction false} TestersSnoc(s: Spec, names: seq<(nat, nat)>, x: (nat, nat))
    requires x.0 <= |s.caches|
    ensures TestersOf(s, names + [x]) == TestersOf(s, names) + s.testers[|s.caches| - x.0]
  {
    assert (names + [x])[..|names|] == names;
  }

  /** The global state of the script while it builds the tree. */
  class Builder {
    const spec: Spec
    var nextIndex: seq<nat>
    var names: seq<(nat, nat)>
    var testers: nat

    /** Each level has handed out the indices below its counter, in order. */
    ghost predicate Valid()
      reads this
    {
      && |nextIndex| == |spec.caches| + 1
      && forall l :: 0 <= l < |nextIndex| ==> IndicesAt(names, l) == UpTo(nextIndex[l])
    }

    constructor (spec: Spec)
      ensures Valid() && this.spec == spec && testers == 0 && names == []
      ensures forall l :: 0 <= l <= |spec.caches| ==> nextIndex[l] == 0
    {
      this.spec := spec;
      nextIndex := seq(|spec.caches| + 1, _ => 0);
      names, testers := [], 0;
    }

    method TakeIndex(level: nat)
      requires Valid() && level < |nextIndex|
      modifies this
      ensures Valid() && testers == old(testers)
      ensures names == old(names) + [(level, old(nextIndex)[level])]
      ensures nextIndex == old(nextIndex)[level := old(nextIndex)[level] + 1]
    {
      forall l { IndicesSnoc(names, (level, nextIndex[level]), l); }
      names := names + [(level, nextIndex[level])];
      nextIndex := nextIndex[level := nextIndex[level] + 1];
    }

    /** `make_cache_level`; `ncaches` and `prototypes` are the remaining lists, of which the
        second is only used for its length. */
    method MakeCacheLevel(ncaches: seq<nat>, prototypes: nat, level: nat)
      requires Valid() && level <= |spec.caches|
      requires ncaches == spec.caches[|spec.caches| - level..] && prototypes == level
      modifies this
      ensures Valid()
      ensures testers == old(testers) + InSubtree(spec, |spec.caches| - level)
      ensures testers - TestersOf(spec, names) == old(testers - TestersOf(spec, names))
      ensures Advanced(spec, nextIndex, old(nextIndex), level, 1)
      decreases level, 1
    {
      TestersSnoc(spec, names, (level, nextIndex[level]));
      TakeIndex(level);
      var ntesters := spec.testers[|spec.caches| - level];
      testers := testers + ntesters;
      if level != 0 {
        ghost var start := nextIndex;
        MakeSubtrees(ncaches, prototypes, level);
        AdvancedRoot(spec, old(nextIndex), start, nextIndex, level);
      } else {
        assert ntesters >= 1;
        AdvancedLeaf(spec, old(nextIndex));
      }
    }

    /** The loop over the caches of one level, each of which gets its own subtree. */
    method MakeSubtrees(ncaches: seq<nat>, prototypes: nat, level: nat)
      requires Valid() && 0 < level <= |spec.caches|
      requires ncaches == spec.caches[|spec.caches| - level..] && prototypes == level
      modifies this
      ensures Valid()
      ensures testers == old(testers) + ncaches[0] * InSubtree(spec, |spec.caches| - level + 1)
      ensures testers - TestersOf(spec, names) == old(testers - TestersOf(spec, names))
      ensures Advanced(spec, nextIndex, old(nextIndex), level - 1, ncaches[0])
      decreases level, 0
    {
      ghost var start, made, gap := nextIndex, testers, testers - TestersOf(spec, names);
      ghost var inEach := InSubtree(spec, |spec.caches| - level + 1);
      assert ncaches[1..] == spec.caches[|spec.caches| - (level - 1)..];
      AdvancedStart(spec, start, level - 1);
      for k := 0 to ncaches[0]
        invariant Valid() && testers - TestersOf(spec, names) == gap
        invariant testers == made + k * inEach && Advanced(spec, nextIndex, start, level - 1, k)
      {
        ghost var before := nextIndex;
        MakeCacheLevel(ncaches[1..], prototypes - 1, level - 1);
        MulStep(k, inEach);
        AdvancedStep(spec, start, before, nextIndex, level - 1, k);
      }
    }
  }

  /** At every level the counter is `k` subtrees rooted at level `top` further than before. */
  ghost predicate Advanced(s: Spec, now: seq<nat>, before: seq<nat>, top: nat, k: nat)
    requires top <= |s.caches|
  {
    && |now| == |before| == |s.caches| + 1
    && forall l :: 0 <= l <= |s.caches| ==> now[l] == before[l] + k * Below(s, top, l)
  }

  lemma {:induction false} AdvancedStart(s: Spec, now: seq<nat>, top: nat)
    requires top <= |s.caches| && |now| == |s.caches| + 1
    ensures Advanced(s, now, now, top, 0)
  {
  }

  lemma {:induction false} AdvancedStep(s: Spec, start: seq<nat>, mid: seq<nat>, now: seq<nat>, top: nat, k: nat)
    requires top <= |s.caches| && Advanced(s, mid, start, top, k) && Advanced(s, now, mid, top, 1)
    ensures Advanced(s, now, start, top, k + 1)
  {
    forall l | 0 <= l <= |s.caches| ensures now[l] == start[l] + (k + 1) * Below(s, top, l) {
      MulStep(k, Below(s, top, l));
    }
  }

  lemma {:induction false} AdvancedRoot(s: Spec, before: seq<nat>, start: seq<nat>, now: seq<nat>, level: nat)
    requires 0 < level <= |s.caches| && |before| == |s.caches| + 1 && start == before[level := before[level] + 1]
    requires Advanced(s, now, start, level - 1, s.caches[|s.caches| - level])
    ensures Advanced(s, now, before, level, 1)
  {
  }

  lemma {:induction false} AdvancedLeaf(s: Spec, before: seq<nat>)
    requires |before| == |s.caches| + 1
    ensures Advanced(s, before[0 := before[0] + 1], before, 0, 1)
  {
  }

  lemma MulStep(k: nat, x: nat)
    ensures (k + 1) * x == k * x + x
  {
  }

  /** In the whole tree, level `l` has as many subsystems as there are branches down to it. */
  lemma {:induction false} BelowIsFanout(s: Spec, top: nat, l: nat)
    requires l <= top <= |s.caches|
    ensures Fanout(s, |s.caches| - l) == Fanout(s, |s.caches| - top) * Below(s, top, l)
    decreases top
  {
    if l < top {
      BelowIsFanout(s, top - 1, l);
      var d := |s.caches| - top;
      assert Fanout(s, d + 1) == Fanout(s, d) * s.caches[d];
      Associate(Fanout(s, d), s.caches[d], Below(s, top - 1, l));
    }
  }

  lemma {:induction false} Associate(a: nat, b: nat, c: nat)
    ensures a * b * c == a * (b * c)
  {
  }

  /** The script builds exactly the testers counted in advance, and at every level hands out
      each subsystem index below the fan-out once. */
  method BuildTree(s: Spec) returns (b: Builder, counted: nat)
    ensures fresh(b) && b.Valid() && b.spec == s
    ensures b.testers == counted == TestersOf(s, b.names)
    ensures forall l :: 0 <= l <= |s.caches| ==> IndicesAt(b.names, l) == UpTo(Fanout(s, |s.caches| - l))
  {
    counted := NumTesters(s);
    b := new Builder(s);
    assert s.caches[0..] == s.caches;
    b.MakeCacheLevel(s.caches, |s.caches|, |s.caches|);
    ClosedFormCountsTree(s);
    forall l | 0 <= l <= |s.caches| ensures b.nextIndex[l] == Fanout(s, |s.caches| - l) {
      BelowIsFanout(s, |s.caches|, l);
    }
  }
}
