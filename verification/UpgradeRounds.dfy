/**
 The schedule of checkpoint upgrades (util/cpt_upgrader.py): in every round, all pending
 tags whose dependencies are present are applied. A graph maps each known tag to the tags
 it depends on.
 */
module UpgradeRounds {
  import opened Collections

  type Tag = string
  type Graph = map<Tag, set<Tag>>

  /** Every dependency names a known tag (the audit at load time). */
  ghost predicate Closed(g: Graph) {
    forall t :: t in g ==> g[t] <= g.Keys
  }

  type ClosedGraph = g: Graph | Closed(g) witness map[]

  function Pending(g: Graph, tags: set<Tag>): set<Tag> {
    g.Keys - tags
  }

  /** Whether `t` is present after `r` rounds on a checkpoint that starts with `tags`. */
  ghost predicate Present(g: Graph, tags: set<Tag>, r: nat, t: Tag) {
    if r == 0 then t in tags
    else Present(g, tags, r - 1, t) || (t in g && forall d :: d in g[t] ==> Present(g, tags, r - 1, d))
  }

  lemma {:induction false} PresentGrows(g: Graph, tags: set<Tag>, q: nat, r: nat, t: Tag)
    requires q <= r && Present(g, tags, q, t)
    ensures Present(g, tags, r, t)
  {
    if q < r {
      PresentGrows(g, tags, q, r - 1, t);
    }
  }

  /** A pending tag is applied only after everything it depends on. */
  lemma {:induction false} DependenciesFirst(g: Graph, tags: set<Tag>, r: nat, t: Tag, d: Tag)
    requires t in Pending(g, tags) && Present(g, tags, r, t) && d in g[t]
    ensures r > 0 && Present(g, tags, r - 1, d)
  {
    if r > 0 && Present(g, tags, r - 1, t) {
      DependenciesFirst(g, tags, r - 1, t, d);
      PresentGrows(g, tags, r - 2, r - 1, d);
    }
  }

  // ---- A round is the length of the longest chain of pending dependencies ----

  /** Pending tags, each depending on the next. */
  ghost predicate Chain(g: Graph, p: set<Tag>, c: seq<Tag>) {
    && c != []
    && (forall i :: 0 <= i < |c| ==> c[i] in p && c[i] in g)
    && (forall i, j :: 0 <= i < j < |c| && j == i + 1 ==> c[j] in g[c[i]])
  }

  ghost predicate ChainFrom(g: Graph, p: set<Tag>, c: seq<Tag>, t: Tag) {
    Chain(g, p, c) && c[0] == t
  }

  lemma {:induction false} ChainCons(g: Graph, p: set<Tag>, t: Tag, d: Tag, rest: seq<Tag>) returns (c: seq<Tag>)
    requires t in p && t in g && d in g[t] && ChainFrom(g, p, rest, d)
    ensures ChainFrom(g, p, c, t) && |c| == |rest| + 1
  {
    c := [t] + rest;
    forall i, j | 0 <= i < j < |c| && j == i + 1 ensures c[i] in g && c[j] in g[c[i]] {
      assert c[j] == rest[i];
      assert i > 0 ==> c[i] == rest[i - 1];
    }
  }

  lemma {:induction false} ChainSlice(g: Graph, p: set<Tag>, c: seq<Tag>, i: nat, j: nat)
    requires Chain(g, p, c) && i < j <= |c|
    ensures Chain(g, p, c[i..j])
  {
  }

  lemma {:induction false} ChainsAreShort(g: Graph, tags: set<Tag>, r: nat, t: Tag, c: seq<Tag>)
    requires Present(g, tags, r, t)
    requires ChainFrom(g, Pending(g, tags), c, t)
    ensures |c| <= r
    decreases r
  {
    if |c| == 1 {
      assert r > 0;
    } else {
      DependenciesFirst(g, tags, r, t, c[1]);
      ChainSlice(g, Pending(g, tags), c, 1, |c|);
      ChainsAreShort(g, tags, r - 1, c[1], c[1..]);
    }
  }

  /** A pending tag that is not present after `r` rounds heads a chain of more than `r` tags. */
  lemma {:induction false} LongChain(g: ClosedGraph, tags: set<Tag>, r: nat, t: Tag) returns (c: seq<Tag>)
    requires t in g && !Present(g, tags, r, t)
    ensures ChainFrom(g, Pending(g, tags), c, t) && |c| == r + 1
    decreases r
  {
    assert t !in tags by {
      if t in tags {
        PresentGrows(g, tags, 0, r, t);
      }
    }
    if r == 0 {
      c := [t];
    } else {
      var d :| d in g[t] && !Present(g, tags, r - 1, d);
      var rest := LongChain(g, tags, r - 1, d);
      c := ChainCons(g, Pending(g, tags), t, d, rest);
    }
  }

  /** A pending tag is present after `r` rounds exactly when no chain from it is longer than `r`. */
  lemma {:induction false} PresentIffChainsShort(g: ClosedGraph, tags: set<Tag>, r: nat, t: Tag)
    requires t in Pending(g, tags)
    ensures Present(g, tags, r, t) <==>
            forall c :: ChainFrom(g, Pending(g, tags), c, t) ==> |c| <= r
  {
    if Present(g, tags, r, t) {
      forall c | ChainFrom(g, Pending(g, tags), c, t) ensures |c| <= r {
        ChainsAreShort(g, tags, r, t, c);
      }
    } else {
      var c := LongChain(g, tags, r, t);
    }
  }

  /** Round `r` is the one that applies `t`. */
  ghost predicate AppliedIn(g: Graph, tags: set<Tag>, r: nat, t: Tag) {
    r > 0 && Present(g, tags, r, t) && !Present(g, tags, r - 1, t)
  }

  /** The round that applies a tag is the length of its longest chain: no chain is longer and
      one has exactly that length. */
  lemma {:induction false} RoundIsLongestChain(g: ClosedGraph, tags: set<Tag>, r: nat, t: Tag)
    requires t in Pending(g, tags) && r > 0
    ensures AppliedIn(g, tags, r, t) <==>
            && (forall c :: ChainFrom(g, Pending(g, tags), c, t) ==> |c| <= r)
            && (exists c :: ChainFrom(g, Pending(g, tags), c, t) && |c| == r)
  {
    PresentIffChainsShort(g, tags, r, t);
    PresentIffChainsShort(g, tags, r - 1, t);
    if !Present(g, tags, r - 1, t) {
      var c := LongChain(g, tags, r - 1, t);
    }
  }

  // ---- Getting stuck means a cycle ----

  ghost predicate Cycle(g: Graph, p: set<Tag>, c: seq<Tag>) {
    Chain(g, p, c) && c[0] in g[c[|c| - 1]]
  }

  ghost predicate HasCycle(g: Graph, p: set<Tag>) {
    exists c :: Cycle(g, p, c)
  }

  lemma {:induction false} CycleBlocks(g: Graph, tags: set<Tag>, c: seq<Tag>, r: nat, i: nat)
    requires Cycle(g, Pending(g, tags), c) && i < |c|
    ensures !Present(g, tags, r, c[i])
    decreases r
  {
    if r > 0 {
      var next := if i + 1 < |c| then i + 1 else 0;
      assert c[next] in g[c[i]];
      CycleBlocks(g, tags, c, r - 1, i);
      CycleBlocks(g, tags, c, r - 1, next);
    }
  }

  ghost predicate WaitsIn(g: Graph, s: set<Tag>, t: Tag) {
    t in g && exists d :: d in s && d in g[t]
  }

  /** Every tag of `s` waits for some tag of `s`. */
  ghost predicate AllWait(g: Graph, s: set<Tag>) {
    forall t {:trigger WaitsIn(g, s, t)} :: t in s ==> WaitsIn(g, s, t)
  }

  lemma {:induction false} Walk(g: Graph, s: set<Tag>, t: Tag, n: nat) returns (c: seq<Tag>)
    requires AllWait(g, s) && t in s
    ensures ChainFrom(g, s, c, t) && |c| == n + 1
    decreases n
  {
    assert WaitsIn(g, s, t);
    if n == 0 {
      c := [t];
    } else {
      var d :| d in s && d in g[t];
      var rest := Walk(g, s, d, n - 1);
      c := ChainCons(g, s, t, d, rest);
    }
  }

  lemma {:induction false} Repeats(s: set<Tag>, c: seq<Tag>) returns (i: nat, j: nat)
    requires |c| > |s| && forall k :: 0 <= k < |c| ==> c[k] in s
    ensures i < j < |c| && c[i] == c[j]
  {
    if k :| 1 <= k < |c| && c[k] == c[0] {
      i, j := 0, k;
    } else {
      var i', j' := Repeats(s - {c[0]}, c[1..]);
      i, j := i' + 1, j' + 1;
    }
  }

  lemma {:induction false} WaitingHasCycle(g: Graph, s: set<Tag>)
    requires AllWait(g, s) && s != {}
    ensures HasCycle(g, s)
  {
    var t :| t in s;
    var c := Walk(g, s, t, |s|);
    var i, j := Repeats(s, c);
    LoopInChain(g, s, c, i, j);
  }

  /** A round that finds nothing ready although tags are left. */
  ghost predicate Stuck(g: Graph, tags: set<Tag>, r: nat) {
    && (exists t :: t in g && !Present(g, tags, r, t))
    && (forall t :: t in g && Present(g, tags, r + 1, t) ==> Present(g, tags, r, t))
  }

  lemma {:induction false} StuckHasCycle(g: ClosedGraph, tags: set<Tag>, r: nat)
    requires Stuck(g, tags, r)
    ensures HasCycle(g, Pending(g, tags))
  {
    var s := set t | t in g && !Present(g, tags, r, t);
    forall t | t in s ensures WaitsIn(g, s, t) {
      assert !Present(g, tags, r + 1, t);
      var d :| d in g[t] && !Present(g, tags, r, d);
      assert g[t] <= g.Keys;
      assert d in s;
    }
    var left :| left in g && !Present(g, tags, r, left);
    assert left in s;
    WaitingHasCycle(g, s);
    var c :| Cycle(g, s, c);
    forall t | t in s ensures t !in tags {
      if t in tags {
        PresentGrows(g, tags, 0, r, t);
      }
    }
    assert Cycle(g, Pending(g, tags), c);
  }

  /** Each round that leaves tags pending either applies one of them or is stuck. */
  lemma {:induction false} GetsStuck(g: Graph, tags: set<Tag>, stays: Tag, r: nat, left: set<Tag>) returns (q: nat)
    requires stays in g && forall q: nat :: !Present(g, tags, q, stays)
    requires left == set t | t in g && !Present(g, tags, r, t)
    ensures Stuck(g, tags, q)
    decreases |left|
  {
    if t :| t in g && Present(g, tags, r + 1, t) && !Present(g, tags, r, t) {
      var left' := set t | t in g && !Present(g, tags, r + 1, t);
      assert left' <= left - {t};
      SubsetSmaller(left', left, t);
      q := GetsStuck(g, tags, stays, r + 1, left');
    } else {
      q := r;
    }
  }

  lemma {:induction false} SubsetSmaller(a: set<Tag>, b: set<Tag>, t: Tag)
    requires a <= b - {t} && t in b
    ensures |a| < |b|
  {
    assert b == a + (b - a);
    assert t in b - a;
  }

  /** The schedule gets stuck exactly when the pending tags contain a dependency cycle. */
  lemma {:induction false} StuckIffCycle(g: ClosedGraph, tags: set<Tag>)
    ensures (exists r: nat :: Stuck(g, tags, r)) <==> HasCycle(g, Pending(g, tags))
  {
    if r: nat :| Stuck(g, tags, r) {
      StuckHasCycle(g, tags, r);
    }
    if HasCycle(g, Pending(g, tags)) {
      var c :| Cycle(g, Pending(g, tags), c);
      forall q: nat ensures !Present(g, tags, q, c[0]) {
        CycleBlocks(g, tags, c, q, 0);
      }
      var q := GetsStuck(g, tags, c[0], 0, set t | t in g && !Present(g, tags, 0, t));
    }
  }

  // ---- What a stuck schedule leaves behind ----

  ghost predicate NeverPresent(g: Graph, tags: set<Tag>, t: Tag) {
    forall r: nat :: !Present(g, tags, r, t)
  }

  /** Some chain of pending dependencies from `t` comes back to a tag it has visited. */
  ghost predicate ReachesCycle(g: Graph, p: set<Tag>, t: Tag) {
    exists c :: ChainFrom(g, p, c, t) && !Distinct(c)
  }

  /** What a stuck round leaves is left for good. */
  lemma {:induction false} StuckForever(g: ClosedGraph, tags: set<Tag>, r: nat, t: Tag, q: nat)
    requires Stuck(g, tags, r) && t in g && !Present(g, tags, r, t)
    ensures !Present(g, tags, q, t)
    decreases q
  {
    if q <= r {
      if Present(g, tags, q, t) {
        PresentGrows(g, tags, q, r, t);
      }
    } else {
      StuckForever(g, tags, r, t, q - 1);
      var d := WaitsForever(g, tags, r, t);
      StuckForever(g, tags, r, d, q - 1);
    }
  }

  lemma {:induction false} WaitsForever(g: ClosedGraph, tags: set<Tag>, r: nat, t: Tag) returns (d: Tag)
    requires Stuck(g, tags, r) && t in g && !Present(g, tags, r, t)
    ensures d in g && d in g[t] && !Present(g, tags, r, d)
  {
    assert !Present(g, tags, r + 1, t);
    d :| d in g[t] && !Present(g, tags, r, d);
    assert g[t] <= g.Keys;
  }

  lemma {:induction false} PresentAlong(g: Graph, tags: set<Tag>, c: seq<Tag>, r: nat, i: nat)
    requires Chain(g, Pending(g, tags), c) && i < |c| && Present(g, tags, r, c[0])
    ensures i <= r && Present(g, tags, r - i, c[i])
  {
    if i > 0 {
      PresentAlong(g, tags, c, r, i - 1);
      assert c[i] in g[c[i - 1]];
      DependenciesFirst(g, tags, r - (i - 1), c[i - 1], c[i]);
    }
  }

  /** A pending tag is never applied exactly when it depends, through pending tags, on a cycle. */
  lemma {:induction false} NeverPresentIff(g: ClosedGraph, tags: set<Tag>, t: Tag)
    requires t in Pending(g, tags)
    ensures NeverPresent(g, tags, t) <==> ReachesCycle(g, Pending(g, tags), t)
  {
    var p := Pending(g, tags);
    if NeverPresent(g, tags, t) {
      var c := LongChain(g, tags, |p|, t);
      var i, j := Repeats(p, c);
    }
    if ReachesCycle(g, p, t) {
      var c :| ChainFrom(g, p, c, t) && !Distinct(c);
      var i, j :| 0 <= i < j < |c| && c[i] == c[j];
      LoopInChain(g, p, c, i, j);
      forall r: nat ensures !Present(g, tags, r, t) {
        if Present(g, tags, r, t) {
          PresentAlong(g, tags, c, r, i);
          CycleBlocks(g, tags, c[i..j], r - i, 0);
        }
      }
    }
  }

  lemma {:induction false} LoopInChain(g: Graph, p: set<Tag>, c: seq<Tag>, i: nat, j: nat)
    requires Chain(g, p, c) && i < j < |c| && c[i] == c[j]
    ensures Cycle(g, p, c[i..j])
  {
    ChainSlice(g, p, c, i, j);
    assert c[j] in g[c[j - 1]];
  }

  /** Without a cycle every pending tag becomes present. */
  lemma {:induction false} NoCycleMeansPresent(g: ClosedGraph, tags: set<Tag>, t: Tag) returns (r: nat)
    requires t in Pending(g, tags) && !HasCycle(g, Pending(g, tags))
    ensures Present(g, tags, r, t)
  {
    NeverPresentIff(g, tags, t);
    if NeverPresent(g, tags, t) {
      var p := Pending(g, tags);
      var c :| ChainFrom(g, p, c, t) && !Distinct(c);
      var i, j :| 0 <= i < j < |c| && c[i] == c[j];
      LoopInChain(g, p, c, i, j);
    }
    r :| Present(g, tags, r, t);
  }
}
