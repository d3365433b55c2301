/**
 The registry of checkpoint upgraders and the migration of one checkpoint
 (util/cpt_upgrader.py), for registries of upgraders without downgraders.
 */
module Upgrader {
  import opened Collections
  import opened UpgradeRounds
  import opened UpgradeLinks

  /** How a checkpoint states what it contains. */
  datatype Version = LegacyVersion(ver: int) | VersionTags(tags: set<Tag>) | NoVersion

  /** The result of migrating a checkpoint: the batches applied, round by round, or why it stopped. */
  datatype Migration =
    | Migrated(tags: set<Tag>, rounds: seq<seq<Tag>>)
    | CouldNotApply(left: set<Tag>)
    | NoVersionInformation
    | KeyError

  /** `batch` lists the tags applied in round `r`, each once, in some order. */
  ghost predicate IsBatch(g: Graph, tags: set<Tag>, r: nat, batch: seq<Tag>) {
    && batch != []
    && (forall t :: t in batch <==> t in g && t !in tags && AppliedIn(g, tags, r, t))
    && Distinct(batch)
  }

  ghost predicate AreRounds(g: Graph, tags: set<Tag>, rounds: seq<seq<Tag>>) {
    forall r :: 0 <= r < |rounds| ==> IsBatch(g, tags, r + 1, rounds[r])
  }

  /** The tags a checkpoint has after `r` rounds. */
  ghost function TagsAfter(g: Graph, tags: set<Tag>, r: nat): set<Tag> {
    tags + set t | t in g && Present(g, tags, r, t)
  }

  function Ready(g: Graph, now: set<Tag>): set<Tag> {
    set t | t in g && t !in now && g[t] <= now
  }

  lemma {:induction false} InTagsAfter(g: Graph, tags: set<Tag>, r: nat, t: Tag)
    requires t in g
    ensures t in TagsAfter(g, tags, r) <==> Present(g, tags, r, t)
  {
    if t in tags {
      PresentGrows(g, tags, 0, r, t);
    }
  }

  lemma {:induction false} ReadyIffApplied(g: ClosedGraph, tags: set<Tag>, r: nat, t: Tag)
    ensures t in Ready(g, TagsAfter(g, tags, r)) <==> t in g && t !in tags && AppliedIn(g, tags, r + 1, t)
  {
    if t in g {
      InTagsAfter(g, tags, r, t);
      assert g[t] <= g.Keys;
      forall d | d in g[t] ensures d in TagsAfter(g, tags, r) <==> Present(g, tags, r, d) {
        InTagsAfter(g, tags, r, d);
      }
    }
  }

  lemma {:induction false} RoundAdvances(g: ClosedGraph, tags: set<Tag>, r: nat)
    ensures TagsAfter(g, tags, r + 1) == TagsAfter(g, tags, r) + Ready(g, TagsAfter(g, tags, r))
  {
    var now, next := TagsAfter(g, tags, r), TagsAfter(g, tags, r + 1);
    forall t ensures t in next <==> t in now + Ready(g, now) {
      ReadyIffApplied(g, tags, r, t);
      if t in g {
        InTagsAfter(g, tags, r, t);
        InTagsAfter(g, tags, r + 1, t);
      }
    }
  }

  lemma {:induction false} NothingReadyIsStuck(g: ClosedGraph, tags: set<Tag>, r: nat)
    requires Ready(g, TagsAfter(g, tags, r)) == {} && !(g.Keys <= TagsAfter(g, tags, r))
    ensures Stuck(g, tags, r)
  {
    var t :| t in g && t !in TagsAfter(g, tags, r);
    InTagsAfter(g, tags, r, t);
    forall u | u in g && Present(g, tags, r + 1, u) ensures Present(g, tags, r, u) {
      ReadyIffApplied(g, tags, r, u);
      InTagsAfter(g, tags, r, u);
    }
  }

  lemma {:induction false} AllAppliedNoCycle(g: Graph, tags: set<Tag>, r: nat)
    requires g.Keys <= TagsAfter(g, tags, r)
    ensures !HasCycle(g, Pending(g, tags))
  {
    if HasCycle(g, Pending(g, tags)) {
      var c :| Cycle(g, Pending(g, tags), c);
      CycleBlocks(g, tags, c, r, 0);
      InTagsAfter(g, tags, r, c[0]);
    }
  }

  lemma {:induction false} NothingLeft(known: set<Tag>, now: set<Tag>)
    requires known - now == {}
    ensures known <= now
  {
    forall t | t in known ensures t in now {
      assert t !in known - now;
    }
  }

  lemma {:induction false} PresentOnce(g: Graph, tags: set<Tag>, r: nat, t: Tag) returns (q: nat)
    requires t in Pending(g, tags) && Present(g, tags, r, t)
    ensures 0 < q <= r && AppliedIn(g, tags, q, t)
    ensures forall p: nat :: AppliedIn(g, tags, p, t) ==> p == q
  {
    if Present(g, tags, r - 1, t) {
      q := PresentOnce(g, tags, r - 1, t);
    } else {
      q := r;
      forall p: nat | AppliedIn(g, tags, p, t) ensures p == q {
        if p < q {
          PresentGrows(g, tags, p, r - 1, t);
        } else if p > q {
          PresentGrows(g, tags, q, p - 1, t);
        }
      }
    }
  }

  /** Every pending tag that does not depend on a cycle is applied in exactly one round. */
  lemma {:induction false} AppliedExactlyOnce(g: ClosedGraph, tags: set<Tag>, t: Tag) returns (q: nat)
    requires t in Pending(g, tags) && !ReachesCycle(g, Pending(g, tags), t)
    ensures AppliedIn(g, tags, q, t)
    ensures forall p: nat :: AppliedIn(g, tags, p, t) ==> p == q
  {
    NeverPresentIff(g, tags, t);
    var r: nat :| Present(g, tags, r, t);
    q := PresentOnce(g, tags, r, t);
  }

  /** Of all rounds, `t` is in round `r` only. */
  ghost predicate OnlyIn(rounds: seq<seq<Tag>>, r: nat, t: Tag) {
    && r < |rounds| && t in rounds[r]
    && forall q :: 0 <= q < |rounds| && t in rounds[q] ==> q == r
  }

  /** Every pending tag is in exactly one round. */
  ghost predicate EachInOneRound(p: set<Tag>, rounds: seq<seq<Tag>>) {
    forall t :: t in p ==> exists r: nat :: OnlyIn(rounds, r, t)
  }

  lemma {:induction false} InItsRoundOnly(g: Graph, tags: set<Tag>, rounds: seq<seq<Tag>>, t: Tag)
    requires AreRounds(g, tags, rounds) && t in Pending(g, tags) && Present(g, tags, |rounds|, t)
    ensures exists r: nat :: OnlyIn(rounds, r, t)
  {
    var q := PresentOnce(g, tags, |rounds|, t);
    assert IsBatch(g, tags, q, rounds[q - 1]);
    forall p | 0 <= p < |rounds| && t in rounds[p] ensures p == q - 1 {
      assert IsBatch(g, tags, p + 1, rounds[p]);
    }
    assert OnlyIn(rounds, q - 1, t);
  }

  /** What the worklist loop promises: it gives up exactly when the pending tags have a cycle, and
      then exactly on the tags that depend on one; otherwise every pending tag is applied in
      exactly one round, the one given by the schedule. */
  ghost predicate MigrationOf(g: Graph, tags: set<Tag>, m: Migration) {
    match m
    case Migrated(now, rounds) =>
      && !HasCycle(g, Pending(g, tags)) && now == tags + g.Keys
      && AreRounds(g, tags, rounds) && EachInOneRound(Pending(g, tags), rounds)
    case CouldNotApply(left) =>
      && HasCycle(g, Pending(g, tags))
      && forall t :: t in left <==> t in Pending(g, tags) && ReachesCycle(g, Pending(g, tags), t)
    case NoVersionInformation => false
    case KeyError => false
  }

  lemma {:induction false} LeftOverReachCycles(g: ClosedGraph, tags: set<Tag>, r: nat, t: Tag)
    requires Stuck(g, tags, r)
    ensures t in g && !Present(g, tags, r, t) <==> t in Pending(g, tags) && ReachesCycle(g, Pending(g, tags), t)
  {
    if t in Pending(g, tags) {
      NeverPresentIff(g, tags, t);
      if !Present(g, tags, r, t) {
        forall q: nat ensures !Present(g, tags, q, t) {
          StuckForever(g, tags, r, t, q);
        }
      }
    } else if t in g {
      PresentGrows(g, tags, 0, r, t);
    }
  }

  ghost predicate InSomeRound(rounds: seq<seq<Tag>>, t: Tag) {
    exists r :: 0 <= r < |rounds| && t in rounds[r]
  }

  lemma {:induction false} InSomeRoundIff(g: Graph, tags: set<Tag>, now: set<Tag>, rounds: seq<seq<Tag>>, t: Tag)
    requires MigrationOf(g, tags, Migrated(now, rounds))
    ensures InSomeRound(rounds, t) <==> t in g && t !in tags
  {
    if InSomeRound(rounds, t) {
      var r :| 0 <= r < |rounds| && t in rounds[r];
      assert IsBatch(g, tags, r + 1, rounds[r]);
    }
    if t in Pending(g, tags) {
      var r: nat :| OnlyIn(rounds, r, t);
    }
  }

  /** Everything that `t` depends on was there at the start or came in an earlier round. */
  ghost predicate DependenciesBefore(g: Graph, tags: set<Tag>, rounds: seq<seq<Tag>>, r: nat, t: Tag)
    requires r <= |rounds| && t in g
  {
    forall d :: d in g[t] ==> d in tags || InSomeRound(rounds[..r], d)
  }

  /** Something that `t` depends on came in the round before. */
  ghost predicate WaitedFor(g: Graph, rounds: seq<seq<Tag>>, r: nat, t: Tag)
    requires r < |rounds| && t in g
  {
    r > 0 ==> exists d :: d in g[t] && d in rounds[r - 1]
  }

  /** Every tag is applied as soon as its dependencies are there, and not before. */
  ghost predicate InOrder(g: Graph, tags: set<Tag>, rounds: seq<seq<Tag>>) {
    forall r, t :: 0 <= r < |rounds| && t in rounds[r] ==>
      t in g && DependenciesBefore(g, tags, rounds, r, t) && WaitedFor(g, rounds, r, t)
  }

  lemma {:induction false} BatchHolds(g: Graph, tags: set<Tag>, rounds: seq<seq<Tag>>, q: nat, d: Tag)
    requires AreRounds(g, tags, rounds) && d in g && d !in tags && AppliedIn(g, tags, q, d) && q <= |rounds|
    ensures d in rounds[q - 1]
  {
    assert IsBatch(g, tags, q - 1 + 1, rounds[q - 1]);
  }

  lemma {:induction false} AppliedAfterDependencies(
      g: ClosedGraph, tags: set<Tag>, rounds: seq<seq<Tag>>, r: nat, t: Tag)
    requires AreRounds(g, tags, rounds) && r < |rounds| && t in rounds[r]
    ensures t in g && DependenciesBefore(g, tags, rounds, r, t)
  {
    assert IsBatch(g, tags, r + 1, rounds[r]);
    forall d | d in g[t] && d !in tags ensures InSomeRound(rounds[..r], d) {
      DependenciesFirst(g, tags, r + 1, t, d);
      assert g[t] <= g.Keys;
      var q := PresentOnce(g, tags, r, d);
      BatchHolds(g, tags, rounds, q, d);
      assert d in rounds[..r][q - 1];
    }
  }

  lemma {:induction false} AppliedWithoutDelay(
      g: ClosedGraph, tags: set<Tag>, rounds: seq<seq<Tag>>, r: nat, t: Tag)
    requires AreRounds(g, tags, rounds) && r < |rounds| && t in rounds[r]
    ensures t in g && WaitedFor(g, rounds, r, t)
  {
    assert IsBatch(g, tags, r + 1, rounds[r]);
    if r > 0 {
      var d :| d in g[t] && !Present(g, tags, r - 1, d);
      assert g[t] <= g.Keys;
      DependenciesFirst(g, tags, r + 1, t, d);
      if d in tags {
        PresentGrows(g, tags, 0, r - 1, d);
      }
      BatchHolds(g, tags, rounds, r, d);
    }
  }

  lemma {:induction false} RoundsInOrder(g: ClosedGraph, tags: set<Tag>, rounds: seq<seq<Tag>>)
    requires AreRounds(g, tags, rounds)
    ensures InOrder(g, tags, rounds)
  {
    forall r, t | 0 <= r < |rounds| && t in rounds[r]
      ensures t in g && DependenciesBefore(g, tags, rounds, r, t) && WaitedFor(g, rounds, r, t)
    {
      AppliedAfterDependencies(g, tags, rounds, r, t);
      AppliedWithoutDelay(g, tags, rounds, r, t);
    }
  }

  /** A tag and a pending tag it depends on are applied in different rounds, the dependency first. */
  lemma {:induction false} DependencyInEarlierRound(g: Graph, tags: set<Tag>, t: Tag, d: Tag, p: nat, q: nat)
    requires t in Pending(g, tags) && d in g[t]
    requires AppliedIn(g, tags, p, d) && AppliedIn(g, tags, q, t)
    ensures p < q
  {
    DependenciesFirst(g, tags, q, t, d);
    if q <= p {
      PresentGrows(g, tags, q - 1, p - 1, d);
    }
  }

  /** The class-level state of `Upgrader`: the index, the known tags, and the mutable dependency
      list of each object. */
  class Registry {
    var ix: Index
    var tagSet: set<Tag>
    var depends: Lists

    ghost predicate Valid()
      reads this
    {
      ix.Valid() && |depends| == |ix.scripts| && tagSet == ix.byTag.Keys
    }

    function Graph(): Graph
      requires Valid()
      reads this
    {
      GraphOf(ix, depends)
    }

    constructor ()
      ensures Valid() && ix == Index([], map[], map[])
    {
      ix := Index([], map[], map[]);
      tagSet, depends := {}, [];
    }

    /** Loading one script: a later script with the same tag or version replaces the earlier one. */
    method Load(script: Script)
      requires Valid()
      modifies this
      ensures Valid()
      ensures depends == old(depends) + [script.depends]
      ensures ix == Loaded(old(ix), script)
    {
      var o := |ix.scripts|;
      tagSet := tagSet + {script.tag};
      if script.legacyVersion.Some? {
        ix := ix.(legacy := ix.legacy[script.legacyVersion.value := o]);
      }
      ix := ix.(scripts := ix.scripts + [script], byTag := ix.byTag[script.tag := o]);
      depends := depends + [script.depends];
    }

    method LoadScripts(files: seq<Script>)
      requires Valid() && ix == Index([], map[], map[])
      modifies this
      ensures Valid() && Indexes(ix, files)
      ensures forall o :: 0 <= o < |files| ==> depends[o] == files[o].depends
    {
      for n := 0 to |files|
        invariant Valid() && Indexes(ix, files[..n])
        invariant forall o :: 0 <= o < n ==> depends[o] == files[o].depends
      {
        assert files[..n + 1] == files[..n] + [files[n]];
        LoadedIndexes(ix, files[..n], files[n]);
        Load(files[n]);
      }
      assert files[..|files|] == files;
    }

    /** Makes each legacy version depend on the one before; false models the missing version 2. */
    method LinkLegacy() returns (ok: bool, top: int)
      requires Valid() && forall o :: 0 <= o < |depends| ==> depends[o] == ix.scripts[o].depends
      modifies this`depends
      ensures Valid()
      ensures ok <==> ix.ChainStarts()
      ensures ok ==> ix.FirstMissing(top) && OwnLists(ix, depends, top)
    {
      top := 3;
      ChainedStart(ix, depends);
      while top in ix.legacy
        invariant Valid() && ChainedUpTo(ix, depends, top)
        decreases Above(ix, top)
      {
        if top - 1 !in ix.legacy {
          return false, top;
        }
        ChainedStep(ix, depends, top);
        depends := depends[ix.legacy[top] := [ix.LegacyTag(top - 1)]];
        top := top + 1;
      }
      ok := true;
    }

    /** Appends `tag` to the dependency list of every tag it forward-depends on. */
    method AddForward(tag: Tag) returns (ok: bool)
      requires Valid() && tag in ix.byTag
      modifies this`depends
      ensures Valid()
      ensures ok <==> KnownForward(ix, tag)
      ensures ok ==> Resolved(ix, depends, old(depends), {tag})
    {
      var fwd := ix.scripts[ix.byTag[tag]].fwdDepends;
      for k := 0 to |fwd|
        invariant Valid() && forall i :: 0 <= i < k ==> fwd[i] in ix.byTag
        invariant forall t, d {:trigger d in depends[ix.byTag[t]]} :: t in ix.byTag ==>
          (d in depends[ix.byTag[t]] <==> d in old(depends)[ix.byTag[t]] || (d == tag && t in fwd[..k]))
      {
        var f := fwd[k];
        if f !in ix.byTag {
          return false;
        }
        depends := depends[ix.byTag[f] := depends[ix.byTag[f]] + [tag]];
      }
      assert fwd[..|fwd|] == fwd;
      ok := true;
    }

    method AuditDepends(tag: Tag) returns (ok: bool)
      requires Valid() && tag in ix.byTag
      ensures ok <==> forall d :: d in depends[ix.byTag[tag]] ==> d in ix.byTag
    {
      var deps := depends[ix.byTag[tag]];
      for i := 0 to |deps|
        invariant forall k :: 0 <= k < i ==> deps[k] in ix.byTag
      {
        if deps[i] !in ix.byTag {
          return false;
        }
      }
      ok := true;
    }

    method ResolveOne(ghost own: Lists, ghost done: set<Tag>, t: Tag) returns (ok: bool)
      requires Valid() && |own| == |depends| && t in ix.byTag && Resolved(ix, depends, own, done)
      modifies this`depends
      ensures Valid()
      ensures ok <==> Known(ix, own, t)
      ensures ok ==> Resolved(ix, depends, own, done + {t})
    {
      ghost var before := depends;
      ok := AddForward(t);
      if ok {
        ResolvedChain(ix, depends, before, own, done, t);
        ok := AuditDepends(t);
      }
    }

    /** Resolves forward dependencies and audits dependencies, visiting the tags in any order. */
    method ResolveForward() returns (ok: bool)
      requires Valid()
      modifies this`depends
      ensures Valid()
      ensures ok <==> forall t :: t in ix.byTag ==> Known(ix, old(depends), t)
      ensures ok ==> Resolved(ix, depends, old(depends), ix.byTag.Keys) && Closed(Graph())
    {
      ghost var own, done := depends, {};
      var left := ix.byTag.Keys;
      while left != {}
        invariant Valid() && left <= ix.byTag.Keys && done == ix.byTag.Keys - left
        invariant Resolved(ix, depends, own, done)
        invariant forall t :: t in done ==> Known(ix, own, t)
      {
        var t :| t in left;
        ok := ResolveOne(own, done, t);
        if !ok {
          return;
        }
        left := left - {t};
        done := done + {t};
      }
      assert done == ix.byTag.Keys;
      ResolvedIsClosed(ix, depends, own);
      ok := true;
    }

    /** Links the dependencies of the loaded scripts. */
    method LinkAll() returns (ok: bool, top: int)
      requires Valid() && forall o :: 0 <= o < |depends| ==> depends[o] == ix.scripts[o].depends
      modifies this`depends
      ensures Valid()
      ensures ok ==> ix.ChainStarts()
      ensures ix.ChainStarts() ==> ix.FirstMissing(top) && (ok <==> AllKnown(ix, top))
      ensures ok ==> Closed(Graph()) && Linked(ix, depends, top)
    {
      ok, top := LinkLegacy();
      if ok {
        ghost var own := depends;
        ok := ResolveForward();
        KnownIff(ix, own, top);
        if ok {
          ResolvedIsLinked(ix, depends, own, top);
        }
      }
    }

    /** `load_all`; false models the exits on a registry with unknown or missing tags. */
    method LoadAll(files: seq<Script>) returns (ok: bool, top: int)
      requires Valid() && ix == Index([], map[], map[])
      modifies this
      ensures Valid() && Indexes(ix, files)
      ensures (forall i, j :: 0 <= i < j < |files| ==> files[i].tag != files[j].tag) ==> OwnTags(ix)
      ensures ok ==> ix.ChainStarts()
      ensures ix.ChainStarts() ==> ix.FirstMissing(top) && (ok <==> AllKnown(ix, top))
      ensures ok ==> Closed(Graph()) && Linked(ix, depends, top)
    {
      LoadScripts(files);
      if forall i, j :: 0 <= i < j < |files| ==> files[i].tag != files[j].tag {
        DistinctTagsAreOwn(ix, files);
      }
      ok, top := LinkAll();
    }

    /** `ready` */
    method IsReady(t: Tag, tags: set<Tag>) returns (ready: bool)
      requires Valid() && t in ix.byTag
      ensures ready <==> Graph()[t] <= tags
    {
      var deps := depends[ix.byTag[t]];
      for i := 0 to |deps|
        invariant forall k :: 0 <= k < i ==> deps[k] in tags
      {
        if deps[i] !in tags {
          assert deps[i] in Graph()[t];
          return false;
        }
      }
      return true;
    }

    method FindReady(toApply: set<Tag>, tags: set<Tag>) returns (ready: set<Tag>)
      requires Valid() && toApply == Graph().Keys - tags
      ensures ready == Ready(Graph(), tags)
    {
      ready := {};
      var left := toApply;
      while left != {}
        invariant left <= toApply
        invariant ready == set t | t in toApply - left && Graph()[t] <= tags
      {
        var t :| t in left;
        var isReady := IsReady(t, tags);
        if isReady {
          ready := ready + {t};
        }
        left := left - {t};
      }
    }

    /** The worklist loop of `process_file`. */
    method ApplyAll(tags: set<Tag>) returns (m: Migration)
      requires Valid() && Closed(Graph())
      ensures MigrationOf(Graph(), tags, m)
      ensures m.Migrated? ==> InOrder(Graph(), tags, m.rounds)
      ensures Graph().Keys <= tags ==> m == Migrated(tags, [])
    {
      ghost var g: ClosedGraph := Graph();
      var now := tags;
      var toApply := tagSet - tags;
      var rounds := [];
      FirstRound(g, tags);
      while toApply != {}
        invariant AtRound(g, tags, now, rounds) && toApply == g.Keys - now
        decreases toApply
      {
        var ready := FindReady(toApply, now);
        if ready == {} {
          GiveUp(g, tags, now, rounds);
          return CouldNotApply(toApply);
        }
        var batch := VisitAll(ready);
        NextRound(g, tags, now, rounds, batch);
        now := now + ready;
        toApply := toApply - ready;
        rounds := rounds + [batch];
      }
      LastRound(g, tags, now, rounds);
      RoundsInOrder(g, tags, rounds);
      m := Migrated(now, rounds);
    }

    /** The tags a checkpoint starts with; a legacy version stands for all versions up to it. */
    ghost function StartTags(version: Version): set<Tag>
      requires Valid() && !version.NoVersion?
      reads this
    {
      match version
      case LegacyVersion(ver) => VersionsUpTo(ix, ver)
      case VersionTags(tags) => tags
    }

    ghost predicate HasVersions(version: Version)
      reads this
    {
      version.LegacyVersion? ==> forall v :: 2 <= v <= version.ver ==> v in ix.legacy
    }

    /** `process_file` on the tags of one checkpoint. */
    method ProcessFile(version: Version) returns (m: Migration)
      requires Valid() && Closed(Graph())
      ensures m.NoVersionInformation? <==> version.NoVersion?
      ensures m.KeyError? <==> !HasVersions(version)
      ensures !version.NoVersion? && HasVersions(version) ==>
        var tags := StartTags(version);
        MigrationOf(Graph(), tags, m) && (Graph().Keys <= tags ==> m == Migrated(tags, []))
      ensures m.Migrated? && version.VersionTags? ==>
        AppliesAllBut(ix, m.rounds, version.tags) && m.tags == version.tags + ix.byTag.Keys
      ensures m.Migrated? && version.LegacyVersion? && OwnTags(ix) ==>
        AppliesLaterVersions(ix, m.rounds, version.ver) && m.tags == ix.byTag.Keys
    {
      var tags := {};
      match version {
        case NoVersion => return NoVersionInformation;
        case VersionTags(given) => tags := given;
        case LegacyVersion(ver) =>
          var i := 2;
          while i <= ver
            invariant 2 <= i && (i <= ver + 1 || i == 2)
            invariant forall v :: 2 <= v < i ==> v in ix.legacy
            invariant tags == set v | v in ix.legacy && 2 <= v < i :: ix.LegacyTag(v)
          {
            if i !in ix.legacy {
              return KeyError;
            }
            tags := tags + {ix.LegacyTag(i)};
            i := i + 1;
          }
          assert tags == StartTags(version);
      }
      m := ApplyAll(tags);
      if m.Migrated? {
        AllButApplied(ix, depends, tags, m);
        if version.LegacyVersion? && OwnTags(ix) {
          LaterVersionsApplied(ix, depends, version.ver, m);
        }
      }
    }
  }

  /** The rounds apply every known tag but these, each in one round. */
  ghost predicate AppliesAllBut(ix: Index, rounds: seq<seq<Tag>>, tags: set<Tag>) {
    forall t :: (t in ix.byTag && t !in tags ==> exists r: nat :: OnlyIn(rounds, r, t))
             && (InSomeRound(rounds, t) ==> t in ix.byTag && t !in tags)
  }

  lemma {:induction false} AllButApplied(ix: Index, lists: Lists, tags: set<Tag>, m: Migration)
    requires ix.Valid() && |lists| == |ix.scripts| && m.Migrated? && MigrationOf(GraphOf(ix, lists), tags, m)
    ensures AppliesAllBut(ix, m.rounds, tags)
  {
    forall t ensures InSomeRound(m.rounds, t) ==> t in ix.byTag && t !in tags {
      InSomeRoundIff(GraphOf(ix, lists), tags, m.tags, m.rounds, t);
    }
    assert forall t :: t in ix.byTag && t !in tags ==> t in Pending(GraphOf(ix, lists), tags);
  }

  /** For a checkpoint of legacy version `ver`: the legacy upgraders that run are those of other versions
      than 2 up to `ver`, and all upgraders but those of 2 up to `ver` run, each in one round. */
  ghost predicate AppliesLaterVersions(ix: Index, rounds: seq<seq<Tag>>, ver: int)
    requires ix.Valid()
  {
    && (forall v :: v in ix.legacy ==> (InSomeRound(rounds, ix.LegacyTag(v)) <==> v < 2 || ver < v))
    && (forall t :: t in ix.byTag && !IsVersionIn(ix, t, 2, ver) ==> exists r: nat :: OnlyIn(rounds, r, t))
  }

  ghost predicate IsVersionIn(ix: Index, t: Tag, low: int, high: int)
    requires ix.Valid()
  {
    exists v :: v in ix.legacy && low <= v <= high && ix.LegacyTag(v) == t
  }

  lemma {:induction false} LaterVersionsApplied(ix: Index, lists: Lists, ver: int, m: Migration)
    requires ix.Valid() && |lists| == |ix.scripts| && OwnTags(ix) && m.Migrated?
    requires MigrationOf(GraphOf(ix, lists), VersionsUpTo(ix, ver), m)
    ensures AppliesLaterVersions(ix, m.rounds, ver) && m.tags == ix.byTag.Keys
  {
    forall t | t in VersionsUpTo(ix, ver) ensures t in ix.byTag {
      var v :| v in ix.legacy && 2 <= v <= ver && ix.LegacyTag(v) == t;
      VersionsUpToIff(ix, ver, v);
    }
    var g, tags := GraphOf(ix, lists), VersionsUpTo(ix, ver);
    forall v | v in ix.legacy ensures InSomeRound(m.rounds, ix.LegacyTag(v)) <==> v < 2 || ver < v {
      InSomeRoundIff(g, tags, m.tags, m.rounds, ix.LegacyTag(v));
      VersionsUpToIff(ix, ver, v);
    }
    forall t | t in ix.byTag && !IsVersionIn(ix, t, 2, ver) ensures exists r: nat :: OnlyIn(m.rounds, r, t) {
      assert t in Pending(g, tags);
    }
  }

  lemma {:induction false} VersionsUpToIff(ix: Index, ver: int, v: int)
    requires ix.Valid() && OwnTags(ix) && v in ix.legacy
    ensures ix.LegacyTag(v) in ix.byTag
    ensures ix.LegacyTag(v) in VersionsUpTo(ix, ver) <==> 2 <= v <= ver
  {
    assert ix.LegacyTag(v) in ix.byTag;
    forall w | w in ix.legacy && w != v ensures ix.LegacyTag(w) != ix.LegacyTag(v) {
      LegacyTagsDiffer(ix, w, v);
    }
  }

  lemma {:induction false} ResolvedChain(ix: Index, lists: Lists, before: Lists, own: Lists, done: set<Tag>, t: Tag)
    requires ix.Valid() && |lists| == |before| == |own| == |ix.scripts|
    requires Resolved(ix, lists, before, {t}) && Resolved(ix, before, own, done)
    ensures Resolved(ix, lists, own, done + {t})
  {
    forall u, d | u in ix.byTag
      ensures d in lists[ix.byTag[u]] <==> d in own[ix.byTag[u]] || (d in done + {t} && Forwards(ix, d, u))
    {
      assert d in before[ix.byTag[u]] <==> d in own[ix.byTag[u]] || (d in done && Forwards(ix, d, u));
    }
  }

  /** Lists a set in some order: the order in which a round visits its ready set. */
  method VisitAll(ready: set<Tag>) returns (batch: seq<Tag>)
    ensures forall t :: t in batch <==> t in ready
    ensures Distinct(batch)
  {
    batch := [];
    var left := ready;
    while left != {}
      invariant left <= ready && Distinct(batch)
      invariant forall t :: t in batch <==> t in ready - left
    {
      var t :| t in left;
      assert t !in batch;
      batch := batch + [t];
      left := left - {t};
    }
  }

  /** Legacy upgraders run strictly in version order: of two versions whose upgraders, and all
      those between, are pending, the smaller one is applied in an earlier round. */
  lemma {:induction false} LegacyInVersionOrder(
      ix: Index, lists: Lists, top: int, tags: set<Tag>, v: int, w: int, p: nat, q: nat)
    requires ix.Valid() && |lists| == |ix.scripts| && Linked(ix, lists, top) && OwnTags(ix)
    requires ix.FirstMissing(top) && ix.ChainStarts() && 2 <= v < w < top
    requires forall u :: v <= u <= w ==> u in ix.legacy && ix.LegacyTag(u) in Pending(GraphOf(ix, lists), tags)
    requires AppliedIn(GraphOf(ix, lists), tags, p, ix.LegacyTag(v))
    requires AppliedIn(GraphOf(ix, lists), tags, q, ix.LegacyTag(w))
    ensures p < q
    decreases w
  {
    LegacyChained(ix, lists, top, w);
    var g, t, d := GraphOf(ix, lists), ix.LegacyTag(w), ix.LegacyTag(w - 1);
    if v + 1 == w {
      DependencyInEarlierRound(g, tags, t, d, p, q);
    } else {
      DependenciesFirst(g, tags, q, t, d);
      var o := PresentOnce(g, tags, q - 1, d);
      LegacyInVersionOrder(ix, lists, top, tags, v, w - 1, p, o);
    }
  }

  /** The tags that a legacy version stands for: those of all versions up to it. */
  ghost function VersionsUpTo(ix: Index, ver: int): set<Tag>
    requires ix.Valid()
  {
    set v | v in ix.legacy && 2 <= v <= ver :: ix.LegacyTag(v)
  }

  /** On a checkpoint with a legacy version, the later legacy upgraders are all pending and so run
      strictly in version order. */
  lemma {:induction false} LegacyCheckpointInVersionOrder(
      ix: Index, lists: Lists, top: int, ver: int, v: int, w: int, p: nat, q: nat)
    requires ix.Valid() && |lists| == |ix.scripts| && Linked(ix, lists, top) && OwnTags(ix)
    requires ix.FirstMissing(top) && ix.ChainStarts() && 2 <= v < w < top && ver < v
    requires v in ix.legacy && w in ix.legacy
    requires AppliedIn(GraphOf(ix, lists), VersionsUpTo(ix, ver), p, ix.LegacyTag(v))
    requires AppliedIn(GraphOf(ix, lists), VersionsUpTo(ix, ver), q, ix.LegacyTag(w))
    ensures p < q
  {
    var tags := VersionsUpTo(ix, ver);
    forall u | v <= u <= w ensures u in ix.legacy && ix.LegacyTag(u) in Pending(GraphOf(ix, lists), tags) {
      LegacyIsPending(ix, lists, ver, u);
    }
    LegacyInVersionOrder(ix, lists, top, tags, v, w, p, q);
  }

  lemma {:induction false} LegacyIsPending(ix: Index, lists: Lists, ver: int, u: int)
    requires ix.Valid() && |lists| == |ix.scripts| && OwnTags(ix) && u in ix.legacy && ver < u
    ensures ix.LegacyTag(u) in Pending(GraphOf(ix, lists), VersionsUpTo(ix, ver))
  {
    assert ix.LegacyTag(u) in ix.byTag;
    forall v | v in ix.legacy && 2 <= v <= ver ensures ix.LegacyTag(v) != ix.LegacyTag(u) {
      LegacyTagsDiffer(ix, v, u);
    }
  }

  /** The state of the worklist loop between two rounds. */
  ghost predicate AtRound(g: Graph, tags: set<Tag>, now: set<Tag>, rounds: seq<seq<Tag>>) {
    && now == TagsAfter(g, tags, |rounds|)
    && AreRounds(g, tags, rounds)
    && (g.Keys <= tags ==> rounds == [])
  }

  lemma {:induction false} FirstRound(g: Graph, tags: set<Tag>)
    ensures AtRound(g, tags, tags, [])
  {
    assert TagsAfter(g, tags, 0) == tags;
  }

  lemma {:induction false} NextRound(
      g: ClosedGraph, tags: set<Tag>, now: set<Tag>, rounds: seq<seq<Tag>>, batch: seq<Tag>)
    requires AtRound(g, tags, now, rounds)
    requires Ready(g, now) != {} && forall t :: t in batch <==> t in Ready(g, now)
    requires Distinct(batch)
    ensures AtRound(g, tags, now + Ready(g, now), rounds + [batch])
  {
    var t :| t in Ready(g, now);
    assert t in batch && t in g && t !in tags;
    BatchOfRound(g, tags, |rounds|, batch);
    RoundAdvances(g, tags, |rounds|);
  }

  lemma {:induction false} LastRound(g: Graph, tags: set<Tag>, now: set<Tag>, rounds: seq<seq<Tag>>)
    requires AtRound(g, tags, now, rounds) && g.Keys - now == {}
    ensures MigrationOf(g, tags, Migrated(now, rounds))
  {
    NothingLeft(g.Keys, now);
    AllAppliedNoCycle(g, tags, |rounds|);
    forall t | t in Pending(g, tags) ensures exists r: nat :: OnlyIn(rounds, r, t) {
      InTagsAfter(g, tags, |rounds|, t);
      InItsRoundOnly(g, tags, rounds, t);
    }
  }

  lemma {:induction false} GiveUp(g: ClosedGraph, tags: set<Tag>, now: set<Tag>, rounds: seq<seq<Tag>>)
    requires AtRound(g, tags, now, rounds) && g.Keys - now != {} && Ready(g, now) == {}
    ensures MigrationOf(g, tags, CouldNotApply(g.Keys - now))
  {
    var r := |rounds|;
    assert !(g.Keys <= now);
    NothingReadyIsStuck(g, tags, r);
    StuckHasCycle(g, tags, r);
    forall t ensures t in g.Keys - now <==> t in Pending(g, tags) && ReachesCycle(g, Pending(g, tags), t) {
      LeftOverReachCycles(g, tags, r, t);
      if t in g {
        InTagsAfter(g, tags, r, t);
      }
    }
  }

  lemma {:induction false} BatchOfRound(g: ClosedGraph, tags: set<Tag>, r: nat, batch: seq<Tag>)
    requires batch != [] && forall t :: t in batch <==> t in Ready(g, TagsAfter(g, tags, r))
    requires Distinct(batch)
    ensures IsBatch(g, tags, r + 1, batch)
  {
    forall t ensures t in batch <==> t in g && t !in tags && AppliedIn(g, tags, r + 1, t) {
      ReadyIffApplied(g, tags, r, t);
    }
  }
}
