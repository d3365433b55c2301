/**
 How the dependencies of checkpoint upgraders are put together when they are loaded
 (util/cpt_upgrader.py): own dependencies, the chain of legacy versions, and forward
 dependencies.
 */
module UpgradeLinks {
  import opened Collections
  import opened UpgradeRounds

  /** What an upgrader script declares. */
  datatype Script = Script(tag: Tag, depends: seq<Tag>, fwdDepends: seq<Tag>, legacyVersion: Option<int>)

  /** The loaded upgrader objects, numbered in load order, and the dictionaries that find them
      by tag and by legacy version. */
  datatype Index = Index(scripts: seq<Script>, byTag: map<Tag, nat>, legacy: map<int, nat>) {

    ghost predicate Valid() {
      && (forall t :: t in byTag ==> byTag[t] < |scripts| && scripts[byTag[t]].tag == t)
      && (forall v :: v in legacy ==> legacy[v] < |scripts| && scripts[legacy[v]].legacyVersion == Some(v))
    }

    function LegacyTag(v: int): Tag
      requires v in legacy && legacy[v] < |scripts|
    {
      scripts[legacy[v]].tag
    }

    /** `top` is the first version from 3 on that no upgrader handles. */
    ghost predicate FirstMissing(top: int) {
      3 <= top && top !in legacy && forall v :: 3 <= v < top ==> v in legacy
    }

    /** The chain of legacy versions starts: version 3, if there is one, has a predecessor. */
    predicate ChainStarts() {
      3 in legacy ==> 2 in legacy
    }
  }

  /** The dictionaries of the loaded files: they hold every tag and every legacy version, and of
      several files with the same one they hold the last. */
  ghost predicate Indexes(ix: Index, files: seq<Script>) {
    && ix.Valid() && ix.scripts == files
    && (forall o :: 0 <= o < |files| ==> files[o].tag in ix.byTag && o <= ix.byTag[files[o].tag])
    && (forall o :: 0 <= o < |files| && files[o].legacyVersion.Some? ==>
          files[o].legacyVersion.value in ix.legacy && o <= ix.legacy[files[o].legacyVersion.value])
  }

  /** The index after one more script: it replaces earlier ones of the same tag or version. */
  function Loaded(ix: Index, script: Script): Index {
    var o := |ix.scripts|;
    Index(ix.scripts + [script], ix.byTag[script.tag := o],
          if script.legacyVersion.Some? then ix.legacy[script.legacyVersion.value := o] else ix.legacy)
  }

  lemma {:induction false} LoadedIndexes(ix: Index, files: seq<Script>, script: Script)
    requires Indexes(ix, files)
    ensures Indexes(Loaded(ix, script), files + [script])
  {
  }

  type Lists = seq<seq<Tag>>

  /** An object's own dependencies: its script's list, replaced by the previous version's tag
      for the legacy upgraders of versions 3 up to `top`. */
  ghost function OwnDepends(ix: Index, o: nat, top: int): seq<Tag>
    requires ix.Valid() && o < |ix.scripts|
  {
    var v := ix.scripts[o].legacyVersion;
    if v.Some? && 3 <= v.value < top && v.value in ix.legacy && v.value - 1 in ix.legacy && ix.legacy[v.value] == o
    then [ix.LegacyTag(v.value - 1)]
    else ix.scripts[o].depends
  }

  ghost predicate OwnLists(ix: Index, own: Lists, top: int)
    requires ix.Valid()
  {
    |own| == |ix.scripts| && forall o :: 0 <= o < |own| ==> own[o] == OwnDepends(ix, o, top)
  }

  /** The versions 3 up to `top` have been chained. */
  ghost predicate ChainedUpTo(ix: Index, own: Lists, top: int)
    requires ix.Valid()
  {
    && OwnLists(ix, own, top)
    && 3 <= top && (top > 3 ==> ix.ChainStarts())
    && forall v :: 3 <= v < top ==> v in ix.legacy
  }

  /** The versions still to be chained. */
  ghost function Above(ix: Index, top: int): set<int> {
    set v | v in ix.legacy && v >= top
  }

  lemma {:induction false} ChainedStart(ix: Index, own: Lists)
    requires ix.Valid() && |own| == |ix.scripts| && forall o :: 0 <= o < |own| ==> own[o] == ix.scripts[o].depends
    ensures ChainedUpTo(ix, own, 3)
  {
  }

  lemma {:induction false} ChainedStep(ix: Index, own: Lists, top: int)
    requires ix.Valid() && ChainedUpTo(ix, own, top) && top in ix.legacy && top - 1 in ix.legacy
    ensures ChainedUpTo(ix, own[ix.legacy[top] := [ix.LegacyTag(top - 1)]], top + 1)
    ensures Above(ix, top + 1) < Above(ix, top)
  {
    assert top in Above(ix, top) && top !in Above(ix, top + 1);
    assert OwnLists(ix, own[ix.legacy[top] := [ix.LegacyTag(top - 1)]], top + 1);
  }

  /** The dependency graph over the known tags. */
  function GraphOf(ix: Index, lists: Lists): Graph
    requires ix.Valid() && |lists| == |ix.scripts|
  {
    map t | t in ix.byTag :: set d | d in lists[ix.byTag[t]]
  }

  predicate Forwards(ix: Index, d: Tag, t: Tag)
    requires ix.Valid()
  {
    d in ix.byTag && t in ix.scripts[ix.byTag[d]].fwdDepends
  }

  ghost predicate KnownForward(ix: Index, t: Tag)
    requires ix.Valid() && t in ix.byTag
  {
    forall f :: f in ix.scripts[ix.byTag[t]].fwdDepends ==> f in ix.byTag
  }

  /** Every forward dependency of `t`, and every dependency in its list, is known. */
  ghost predicate Known(ix: Index, own: Lists, t: Tag)
    requires ix.Valid() && |own| == |ix.scripts| && t in ix.byTag
  {
    KnownForward(ix, t) && forall d :: d in own[ix.byTag[t]] ==> d in ix.byTag
  }

  ghost predicate AllKnown(ix: Index, top: int)
    requires ix.Valid()
  {
    forall t :: t in ix.byTag ==>
      KnownForward(ix, t) && forall d :: d in OwnDepends(ix, ix.byTag[t], top) ==> d in ix.byTag
  }

  /** The lists are `own` plus the reversed forward dependencies of `done`. */
  ghost predicate Resolved(ix: Index, lists: Lists, own: Lists, done: set<Tag>)
    requires ix.Valid() && |lists| == |own| == |ix.scripts|
  {
    forall t, d {:trigger d in lists[ix.byTag[t]]} :: t in ix.byTag ==>
      (d in lists[ix.byTag[t]] <==> d in own[ix.byTag[t]] || (d in done && Forwards(ix, d, t)))
  }

  /** The graph joins own dependencies and reversed forward dependencies. */
  ghost predicate Linked(ix: Index, lists: Lists, top: int)
    requires ix.Valid() && |lists| == |ix.scripts|
  {
    forall t, d {:trigger d in GraphOf(ix, lists)[t]} :: t in ix.byTag ==>
      (d in GraphOf(ix, lists)[t] <==> d in OwnDepends(ix, ix.byTag[t], top) || Forwards(ix, d, t))
  }

  lemma {:induction false} KnownIff(ix: Index, own: Lists, top: int)
    requires ix.Valid() && OwnLists(ix, own, top)
    ensures AllKnown(ix, top) <==> forall t :: t in ix.byTag ==> Known(ix, own, t)
  {
    forall t | t in ix.byTag ensures own[ix.byTag[t]] == OwnDepends(ix, ix.byTag[t], top) {
    }
  }

  lemma {:induction false} ResolvedIsLinked(ix: Index, lists: Lists, own: Lists, top: int)
    requires ix.Valid() && |lists| == |own| && OwnLists(ix, own, top) && Resolved(ix, lists, own, ix.byTag.Keys)
    ensures Linked(ix, lists, top)
  {
    forall t, d | t in ix.byTag
      ensures d in GraphOf(ix, lists)[t] <==> d in OwnDepends(ix, ix.byTag[t], top) || Forwards(ix, d, t)
    {
      assert d in GraphOf(ix, lists)[t] <==> d in lists[ix.byTag[t]];
      assert own[ix.byTag[t]] == OwnDepends(ix, ix.byTag[t], top);
    }
  }

  lemma {:induction false} ResolvedIsClosed(ix: Index, lists: Lists, own: Lists)
    requires ix.Valid() && |lists| == |own| == |ix.scripts| && Resolved(ix, lists, own, ix.byTag.Keys)
    requires forall t :: t in ix.byTag ==> Known(ix, own, t)
    ensures Closed(GraphOf(ix, lists))
  {
    var g := GraphOf(ix, lists);
    forall t | t in g ensures g[t] <= g.Keys {
      assert Known(ix, own, t);
      forall d | d in g[t] ensures d in g.Keys {
        assert d in lists[ix.byTag[t]];
      }
    }
  }

  /** Every script is found under its own tag: no two scripts share one. */
  ghost predicate OwnTags(ix: Index) {
    forall o :: 0 <= o < |ix.scripts| ==> ix.scripts[o].tag in ix.byTag && ix.byTag[ix.scripts[o].tag] == o
  }

  /** That is the case for files with different tags. */
  lemma {:induction false} DistinctTagsAreOwn(ix: Index, files: seq<Script>)
    requires Indexes(ix, files) && forall i, j :: 0 <= i < j < |files| ==> files[i].tag != files[j].tag
    ensures OwnTags(ix)
  {
    forall o | 0 <= o < |files| ensures files[o].tag in ix.byTag && ix.byTag[files[o].tag] == o {
      var last := ix.byTag[files[o].tag];
      assert files[last].tag == files[o].tag;
    }
  }

  ghost predicate DistinctVersions(files: seq<Script>) {
    forall i, j :: 0 <= i < j < |files| && files[i].legacyVersion.Some? ==>
      files[i].legacyVersion != files[j].legacyVersion
  }

  /** Some file with tag `d` forward-depends on `t`. */
  ghost predicate ForwardsInFiles(files: seq<Script>, d: Tag, t: Tag) {
    exists u :: 0 <= u < |files| && files[u].tag == d && t in files[u].fwdDepends
  }

  /** Some file with tag `d` is the upgrader of version `v`. */
  ghost predicate VersionInFiles(files: seq<Script>, d: Tag, v: int) {
    exists u :: 0 <= u < |files| && files[u].tag == d && files[u].legacyVersion == Some(v)
  }

  /** The dependencies of a loaded upgrader, from the files alone: the files that forward-depend on it,
      and the version before it if it is a chained legacy upgrader, or else its own list. */
  lemma {:induction false} GraphOfFiles(ix: Index, files: seq<Script>, lists: Lists, top: int, o: nat, d: Tag)
    requires Indexes(ix, files) && |lists| == |files| && Linked(ix, lists, top) && o < |files|
    requires OwnTags(ix) && DistinctVersions(files) && ix.FirstMissing(top) && ix.ChainStarts()
    ensures files[o].tag in ix.byTag
    ensures d in GraphOf(ix, lists)[files[o].tag] <==>
      || ForwardsInFiles(files, d, files[o].tag)
      || match files[o].legacyVersion {
           case Some(v) => if 3 <= v < top then VersionInFiles(files, d, v - 1) else d in files[o].depends
           case None => d in files[o].depends
         }
  {
    var t := files[o].tag;
    assert d in GraphOf(ix, lists)[t] <==> d in OwnDepends(ix, o, top) || Forwards(ix, d, t);
    ForwardsIff(ix, files, d, t);
    if files[o].legacyVersion.Some? && 3 <= files[o].legacyVersion.value < top {
      ChainedIff(ix, files, top, o, d);
    }
  }

  lemma {:induction false} ForwardsIff(ix: Index, files: seq<Script>, d: Tag, t: Tag)
    requires Indexes(ix, files) && OwnTags(ix)
    ensures Forwards(ix, d, t) <==> ForwardsInFiles(files, d, t)
  {
    if Forwards(ix, d, t) {
      assert files[ix.byTag[d]].tag == d;
    }
  }

  lemma {:induction false} ChainedIff(ix: Index, files: seq<Script>, top: int, o: nat, d: Tag)
    requires Indexes(ix, files) && DistinctVersions(files) && ix.FirstMissing(top) && ix.ChainStarts()
    requires o < |files| && files[o].legacyVersion.Some? && 3 <= files[o].legacyVersion.value < top
    ensures d in OwnDepends(ix, o, top) <==> VersionInFiles(files, d, files[o].legacyVersion.value - 1)
  {
    var v := files[o].legacyVersion.value;
    VersionIsLoaded(ix, files, o);
    assert v - 1 in ix.legacy;
    assert files[ix.legacy[v - 1]].legacyVersion == Some(v - 1);
    assert OwnDepends(ix, o, top) == [files[ix.legacy[v - 1]].tag];
    if VersionInFiles(files, d, v - 1) {
      var u :| 0 <= u < |files| && files[u].tag == d && files[u].legacyVersion == Some(v - 1);
      VersionIsLoaded(ix, files, u);
    }
  }

  lemma {:induction false} VersionIsLoaded(ix: Index, files: seq<Script>, o: nat)
    requires Indexes(ix, files) && DistinctVersions(files) && o < |files| && files[o].legacyVersion.Some?
    ensures files[o].legacyVersion.value in ix.legacy && ix.legacy[files[o].legacyVersion.value] == o
  {
    var v := files[o].legacyVersion.value;
    assert v in ix.legacy && o <= ix.legacy[v];
    assert ix.legacy[v] < |ix.scripts| && ix.scripts[ix.legacy[v]].legacyVersion == Some(v);
  }

  /** Then the legacy upgraders of different versions have different tags. */
  lemma {:induction false} LegacyTagsDiffer(ix: Index, v: int, w: int)
    requires ix.Valid() && OwnTags(ix) && v in ix.legacy && w in ix.legacy && v != w
    ensures ix.LegacyTag(v) in ix.byTag && ix.LegacyTag(v) != ix.LegacyTag(w)
  {
    assert ix.byTag[ix.LegacyTag(v)] == ix.legacy[v] && ix.byTag[ix.LegacyTag(w)] == ix.legacy[w];
  }

  /** Each chained legacy upgrader depends on the one of the version before. */
  lemma {:induction false} LegacyChained(ix: Index, lists: Lists, top: int, v: int)
    requires ix.Valid() && |lists| == |ix.scripts| && Linked(ix, lists, top) && OwnTags(ix)
    requires ix.FirstMissing(top) && ix.ChainStarts() && 3 <= v < top
    ensures v in ix.legacy && v - 1 in ix.legacy && ix.LegacyTag(v) in ix.byTag
    ensures ix.LegacyTag(v - 1) in GraphOf(ix, lists)[ix.LegacyTag(v)]
  {
    assert v in ix.legacy && (v > 3 ==> v - 1 in ix.legacy);
    var t, d := ix.LegacyTag(v), ix.LegacyTag(v - 1);
    assert ix.byTag[t] == ix.legacy[v];
    assert OwnDepends(ix, ix.byTag[t], top) == [d];
    assert d in OwnDepends(ix, ix.byTag[t], top);
    assert d in GraphOf(ix, lists)[t];
  }
}
