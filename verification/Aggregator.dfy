/**
 Merging checkpoints (util/checkpoint_aggregator.py): the memory images are concatenated
 page by page, physical addresses in the configurations are shifted by the pages that come
 before, and the image is padded to the requested size.
 */
module Aggregator {
  import opened Collections
  import opened Division
  import opened Text
  import opened SectionNames

  const PAGE: nat := 4096

  type Items = map<string, string>
  type Config = map<string, Items>

  /** A value written to the merged configuration: copied text or a computed number. */
  datatype Value = Str(text: string) | Num(n: nat)
  type MergedItems = map<string, Value>
  type MergedConfig = map<string, MergedItems>

  /** A checkpoint: its configuration, with the page count of section "system" and the tick of
      section "Globals" (if any) read as numbers, and its uncompressed memory image. */
  datatype Checkpoint = Checkpoint(config: Config, pages: nat, curTick: Option<nat>, mem: seq<Byte>)

  // ---- Memory ----

  /** What `pages` reads of one page each return: less when the image ends early. */
  function FirstPages(mem: seq<Byte>, pages: nat): (r: seq<Byte>)
    ensures |r| == if |mem| <= pages * PAGE then |mem| else pages * PAGE
  {
    if |mem| <= pages * PAGE then mem else mem[..pages * PAGE]
  }

  method CopyPages(mem: seq<Byte>, pages: nat) returns (copied: seq<Byte>)
    ensures copied == FirstPages(mem, pages)
  {
    copied := [];
    var x, pos := 0, 0;
    while x < pages
      invariant 0 <= x <= pages && pos == |FirstPages(mem, x)| && copied == mem[..pos]
    {
      var end := if pos + PAGE <= |mem| then pos + PAGE else |mem|;
      copied := copied + mem[pos..end];
      pos := end;
      x := x + 1;
    }
    if |mem| <= pages * PAGE {
      assert mem[..|mem|] == mem;
    }
  }

  /** Pages that come before checkpoint `i`; its addresses are shifted by this many pages. */
  function PageBase(cpts: seq<Checkpoint>, i: nat): nat
    requires i <= |cpts|
  {
    if i == 0 then 0 else PageBase(cpts, i - 1) + cpts[i - 1].pages
  }

  /** The pages copied from a checkpoint. */
  function CopyOf(c: Checkpoint): seq<Byte> {
    FirstPages(c.mem, c.pages)
  }

  /** The image written for the first `i` checkpoints. */
  function Image(cpts: seq<Checkpoint>, i: nat): seq<Byte>
    requires i <= |cpts|
  {
    if i == 0 then [] else Image(cpts, i - 1) + CopyOf(cpts[i - 1])
  }

  predicate Full(c: Checkpoint) {
    |c.mem| >= c.pages * PAGE
  }

  /** The image has the promised number of pages exactly when no memory file is too short. */
  lemma {:induction false} ImageLength(cpts: seq<Checkpoint>, i: nat)
    requires i <= |cpts|
    ensures |Image(cpts, i)| <= PageBase(cpts, i) * PAGE
    ensures |Image(cpts, i)| == PageBase(cpts, i) * PAGE <==> forall j :: 0 <= j < i ==> Full(cpts[j])
  {
    if i > 0 {
      ImageLength(cpts, i - 1);
      assert (forall j :: 0 <= j < i ==> Full(cpts[j]))
        <==> (forall j :: 0 <= j < i - 1 ==> Full(cpts[j])) && Full(cpts[i - 1]);
    }
  }

  lemma {:induction false} ImagePrefix(cpts: seq<Checkpoint>, i: nat, n: nat)
    requires i <= n <= |cpts|
    ensures Image(cpts, i) <= Image(cpts, n)
  {
    if i < n {
      ImagePrefix(cpts, i, n - 1);
    }
  }

  lemma {:induction false} SliceOfPrefix(a: seq<Byte>, b: seq<Byte>, whole: seq<Byte>)
    requires a + b <= whole
    ensures |a| + |b| <= |whole| && whole[|a|..|a| + |b|] == b
  {
    assert whole[..|a| + |b|] == a + b;
    assert whole[|a|..|a| + |b|] == whole[..|a| + |b|][|a|..];
  }

  /** Where the copy of checkpoint `i` really starts. It is where relocated addresses point
      exactly when every earlier memory file is complete. */
  lemma {:induction false} RelocationExact(cpts: seq<Checkpoint>, i: nat)
    requires i < |cpts|
    ensures var start, end := |Image(cpts, i)|, |Image(cpts, i)| + |CopyOf(cpts[i])|;
            && end <= |Image(cpts, |cpts|)| && Image(cpts, |cpts|)[start..end] == CopyOf(cpts[i])
            && (start == PageBase(cpts, i) * PAGE <==> forall j :: 0 <= j < i ==> Full(cpts[j]))
  {
    ImageLength(cpts, i);
    ImagePrefix(cpts, i + 1, |cpts|);
    SliceOfPrefix(Image(cpts, i), CopyOf(cpts[i]), Image(cpts, |cpts|));
  }

  /** A byte of checkpoint `i` is found at its relocated address, provided the memory files
      before it are complete. */
  lemma {:induction false} RelocatedByte(cpts: seq<Checkpoint>, i: nat, a: nat)
    requires i < |cpts| && a < cpts[i].pages * PAGE && a < |cpts[i].mem|
    requires forall j :: 0 <= j < i ==> Full(cpts[j])
    ensures a + PageBase(cpts, i) * PAGE < |Image(cpts, |cpts|)|
    ensures Image(cpts, |cpts|)[a + PageBase(cpts, i) * PAGE] == cpts[i].mem[a]
  {
    RelocationExact(cpts, i);
    var start, copy := |Image(cpts, i)|, CopyOf(cpts[i]);
    assert Image(cpts, |cpts|)[start..start + |copy|][a] == copy[a];
  }

  // ---- The bytes at relocated addresses ----

  /** Every byte copied from checkpoint `i` is found at its relocated address. */
  ghost predicate BytesInPlace(cpts: seq<Checkpoint>, i: nat)
    requires i < |cpts|
  {
    forall a :: 0 <= a < |CopyOf(cpts[i])| ==> ByteInPlace(cpts, i, a)
  }

  ghost predicate ByteInPlace(cpts: seq<Checkpoint>, i: nat, a: nat)
    requires i < |cpts| && a < |CopyOf(cpts[i])|
  {
    var moved := a + PageBase(cpts, i) * PAGE;
    moved < |Image(cpts, |cpts|)| && Image(cpts, |cpts|)[moved] == cpts[i].mem[a]
  }

  /** The same page counts and file lengths, with any contents. */
  ghost predicate SameShape(a: seq<Checkpoint>, b: seq<Checkpoint>) {
    |a| == |b| && forall j :: 0 <= j < |a| ==> a[j].pages == b[j].pages && |a[j].mem| == |b[j].mem|
  }

  lemma {:induction false} SameShapeSame(a: seq<Checkpoint>, b: seq<Checkpoint>, i: nat)
    requires SameShape(a, b) && i <= |a|
    ensures PageBase(a, i) == PageBase(b, i) && |Image(a, i)| == |Image(b, i)|
  {
    if i > 0 {
      SameShapeSame(a, b, i - 1);
    }
  }

  function Filled(n: nat, b: Byte): seq<Byte> {
    seq(n, _ => b)
  }

  /** Contents that tell checkpoint `i` apart: its memory is all ones, the others' all zeros. */
  function Marked(cpts: seq<Checkpoint>, i: nat): seq<Checkpoint> {
    seq(|cpts|, j requires 0 <= j < |cpts| => cpts[j].(mem := Filled(|cpts[j].mem|, if j == i then 1 else 0)))
  }

  lemma {:induction false} MarkedTail(cpts: seq<Checkpoint>, i: nat, n: nat, k: nat)
    requires i < n <= |cpts|
    requires |Image(Marked(cpts, i), i + 1)| <= k < |Image(Marked(cpts, i), n)|
    ensures Image(Marked(cpts, i), n)[k] == 0
  {
    var m := Marked(cpts, i);
    var before, copy := Image(m, n - 1), CopyOf(m[n - 1]);
    assert Image(m, n) == before + copy;
    if k < |before| {
      MarkedTail(cpts, i, n - 1, k);
    } else {
      MarkedCopy(cpts, i, n - 1, k - |before|);
    }
  }

  lemma {:induction false} MarkedCopy(cpts: seq<Checkpoint>, i: nat, j: nat, k: nat)
    requires j < |cpts| && k < |CopyOf(Marked(cpts, i)[j])|
    ensures CopyOf(Marked(cpts, i)[j])[k] == Marked(cpts, i)[j].mem[k] == if j == i then 1 else 0
  {
  }

  /** The last byte of a copy that starts too early is not where it is looked for. */
  lemma {:induction false} MarkedIsMisplaced(cpts: seq<Checkpoint>, i: nat)
    requires i < |cpts| && CopyOf(cpts[i]) != [] && !(forall j :: 0 <= j < i ==> Full(cpts[j]))
    ensures SameShape(cpts, Marked(cpts, i)) && !BytesInPlace(Marked(cpts, i), i)
  {
    var m := Marked(cpts, i);
    StartsEarly(cpts, m, i);
    var a := |CopyOf(m[i])| - 1;
    var moved := a + PageBase(m, i) * PAGE;
    if moved < |Image(m, |m|)| {
      MarkedTail(cpts, i, |m|, moved);
    }
    MarkedCopy(cpts, i, i, a);
    assert !ByteInPlace(m, i, a);
  }

  /** After an incomplete file, the last byte of a copy is looked for beyond the copy. */
  lemma {:induction false} StartsEarly(cpts: seq<Checkpoint>, other: seq<Checkpoint>, i: nat)
    requires i < |cpts| && SameShape(cpts, other) && !(forall j :: 0 <= j < i ==> Full(cpts[j]))
    ensures |CopyOf(other[i])| == |CopyOf(cpts[i])|
    ensures |Image(other, i + 1)| <= |CopyOf(other[i])| - 1 + PageBase(other, i) * PAGE
  {
    SameShapeSame(cpts, other, i);
    ImageLength(cpts, i);
  }

  /** Whatever the contents, relocated addresses name the right bytes exactly when every earlier
      memory file is complete, or there is nothing to name. */
  lemma {:induction false} BytesInPlaceIff(cpts: seq<Checkpoint>, i: nat)
    requires i < |cpts|
    ensures (forall other :: SameShape(cpts, other) ==> BytesInPlace(other, i))
       <==> (forall j :: 0 <= j < i ==> Full(cpts[j])) || CopyOf(cpts[i]) == []
  {
    if CopyOf(cpts[i]) != [] && !(forall j :: 0 <= j < i ==> Full(cpts[j])) {
      MarkedIsMisplaced(cpts, i);
    } else {
      forall other | SameShape(cpts, other) ensures BytesInPlace(other, i) {
        forall a | 0 <= a < |CopyOf(other[i])| ensures ByteInPlace(other, i, a) {
          RelocatedByte(other, i, a);
        }
      }
    }
  }

  lemma {:induction false} PageBaseGrows(cpts: seq<Checkpoint>, i: nat, j: nat)
    requires i < j <= |cpts|
    ensures PageBase(cpts, i) + cpts[i].pages <= PageBase(cpts, j)
  {
    if i + 1 < j {
      PageBaseGrows(cpts, i, j - 1);
    }
  }

  /** Addresses of different checkpoints never coincide after relocation. */
  lemma {:induction false} NoAliasing(cpts: seq<Checkpoint>, i: nat, j: nat, a: nat, b: nat)
    requires i < |cpts| && j < |cpts| && a < cpts[i].pages * PAGE && b < cpts[j].pages * PAGE
    requires a + PageBase(cpts, i) * PAGE == b + PageBase(cpts, j) * PAGE
    ensures i == j && a == b
  {
    if i < j {
      PageBaseGrows(cpts, i, j);
    } else if j < i {
      PageBaseGrows(cpts, j, i);
    }
  }

  function ZeroPage(): seq<Byte> {
    seq(PAGE, _ => 48)
  }

  /** Pages needed for `size` bytes. */
  function PagesFor(size: int): nat {
    if size <= 0 then 0 else (size + PAGE - 1) / PAGE
  }

  /** Appends pages of '0' characters until the counted size reaches `memorySize`. */
  method Pad(image: seq<Byte>, pagePtr: nat, memorySize: int) returns (padded: seq<Byte>, pages: nat)
    ensures pages == Max(pagePtr, PagesFor(memorySize))
    ensures image <= padded && |padded| == |image| + (pages - pagePtr) * PAGE
    ensures forall k :: |image| <= k < |padded| ==> padded[k] == 48
  {
    padded, pages := image, pagePtr;
    var fileSize := pagePtr * PAGE;
    while fileSize < memorySize
      invariant fileSize == pages * PAGE && pagePtr <= pages
      invariant pages == pagePtr || pages <= PagesFor(memorySize)
      invariant image <= padded && |padded| == |image| + (pages - pagePtr) * PAGE
      invariant forall k :: |image| <= k < |padded| ==> padded[k] == 48
      decreases memorySize - fileSize
    {
      padded := padded + ZeroPage();
      fileSize := fileSize + PAGE;
      pages := pages + 1;
    }
  }

  // ---- Configuration ----

  /** `re.search("workload.FdMap256$", sec)` */
  predicate IsFdMap(sec: string) {
    |sec| >= 17 && sec[|sec| - 17..|sec| - 9] == "workload" && sec[|sec| - 8..] == "FdMap256"
  }

  predicate HasGoodPaddr(items: Items) {
    "paddr" in items ==> ParseNat(items["paddr"]).Some?
  }

  /** The items of a renamed section: the address is shifted by `base` pages. */
  function Relocated(items: Items, base: nat, i: nat, sec: string): MergedItems
    requires HasGoodPaddr(items)
  {
    var r := map k | k in items :: if k == "paddr" then Num(ParseNat(items[k]).value + base * PAGE) else Str(items[k]);
    if IsFdMap(sec) then r["M5_pid" := Num(i)] else r
  }

  function Copied(items: Items): MergedItems {
    map k | k in items :: Str(items[k])
  }

  method RelocateItems(items: Items, base: nat, i: nat, sec: string) returns (r: Option<MergedItems>)
    ensures r.Some? <==> HasGoodPaddr(items)
    ensures r.Some? ==> r.value == Relocated(items, base, i, sec)
  {
    var m: MergedItems := map[];
    var left := items.Keys;
    while left != {}
      invariant left <= items.Keys && m.Keys == items.Keys - left
      invariant "paddr" in m ==> HasGoodPaddr(items)
      invariant forall k :: k in m ==>
        m[k] == if k == "paddr" && ParseNat(items[k]).Some? then Num(ParseNat(items[k]).value + base * PAGE)
                else Str(items[k])
    {
      var k :| k in left;
      left := left - {k};
      if k == "paddr" {
        var v := ParseNat(items[k]);
        if v.None? {
          return None;
        }
        m := m[k := Num(v.value + base * PAGE)];
      } else {
        m := m[k := Str(items[k])];
      }
    }
    if IsFdMap(sec) {
      m := m["M5_pid" := Num(i)];
    }
    r := Some(m);
  }

  /** Sections that only the last checkpoint contributes. */
  predicate IsShared(sec: string) {
    !HasCpu(sec) && sec != "system" && sec != "Globals"
  }

  ghost predicate HoldsRenamed(m: MergedConfig, config: Config, done: set<string>, i: nat, n: nat, base: nat) {
    forall sec :: sec in done && sec in config && HasCpu(sec) ==>
      && HasGoodPaddr(config[sec]) && Rename(i, n, sec) in m
      && m[Rename(i, n, sec)] == Relocated(config[sec], base, i, sec)
  }

  ghost predicate HoldsShared(m: MergedConfig, config: Config, done: set<string>) {
    forall sec :: sec in done && sec in config && IsShared(sec) ==> sec in m && m[sec] == Copied(config[sec])
  }

  ghost predicate HoldsOnly(m: MergedConfig, config: Config, done: set<string>, i: nat, n: nat) {
    forall name :: name in m ==> Owned(config, done, i, n, name)
  }

  /** `m` holds checkpoint `i`'s sections among `done`, renamed or copied, and nothing else. */
  ghost predicate Holds(m: MergedConfig, config: Config, done: set<string>, i: nat, n: nat, base: nat) {
    && HoldsRenamed(m, config, done, i, n, base)
    && (i == n - 1 ==> HoldsShared(m, config, done))
    && HoldsOnly(m, config, done, i, n)
  }

  ghost predicate Owned(config: Config, done: set<string>, i: nat, n: nat, name: string) {
    || (exists sec :: sec in done && sec in config && HasCpu(sec) && name == Rename(i, n, sec))
    || (i == n - 1 && name in done && name in config && IsShared(name))
  }

  /** A renamed section does not collide with one already added. */
  lemma {:induction false} FreshName(
      m: MergedConfig, config: Config, done: set<string>, i: nat, n: nat, base: nat, sec: string)
    requires i < n && Holds(m, config, done, i, n, base)
    requires sec in config && sec !in done
    ensures HasCpu(sec) ==> Rename(i, n, sec) !in m
    ensures IsShared(sec) ==> sec !in m
  {
    if HasCpu(sec) && Rename(i, n, sec) in m {
      var name := Rename(i, n, sec);
      InsertKeepsCpu(sec, Zfill(i, Width(n)));
      assert Owned(config, done, i, n, name);
      var other :| other in done && other in config && HasCpu(other) && name == Rename(i, n, other);
      RenameInjective(n, i, i, sec, other);
    }
    if IsShared(sec) && sec in m {
      assert Owned(config, done, i, n, sec);
      if other :| other in done && other in config && HasCpu(other) && sec == Rename(i, n, other) {
        InsertKeepsCpu(other, Zfill(i, Width(n)));
      }
    }
  }

  /** The loop over the sections of one checkpoint; None models a malformed address. */
  method MergeSections(config: Config, i: nat, n: nat, base: nat) returns (r: Option<MergedConfig>)
    requires i < n
    ensures r.Some? <==> forall sec :: sec in config && HasCpu(sec) ==> HasGoodPaddr(config[sec])
    ensures r.Some? ==> Holds(r.value, config, config.Keys, i, n, base)
  {
    var m: MergedConfig := map[];
    var left := config.Keys;
    ghost var done: set<string> := {};
    while left != {}
      invariant left <= config.Keys && done == config.Keys - left
      invariant Holds(m, config, done, i, n, base)
    {
      var sec :| sec in left;
      left := left - {sec};
      FreshName(m, config, done, i, n, base, sec);
      if HasCpu(sec) {
        var items := RelocateItems(config[sec], base, i, sec);
        if items.None? {
          return None;
        }
        AddRenamed(m, config, done, i, n, base, sec);
        m := m[Rename(i, n, sec) := items.value];
      } else if sec != "system" && sec != "Globals" && i == n - 1 {
        AddShared(m, config, done, i, n, base, sec);
        m := m[sec := Copied(config[sec])];
      } else {
        AddNothing(m, config, done, i, n, base, sec);
      }
      done := done + {sec};
    }
    assert done == config.Keys;
    r := Some(m);
  }

  lemma {:induction false} OwnedGrows(
      config: Config, done: set<string>, more: set<string>, i: nat, n: nat, name: string)
    requires done <= more && Owned(config, done, i, n, name)
    ensures Owned(config, more, i, n, name)
  {
  }

  lemma {:induction false} OnlyGrows(
      m: MergedConfig, config: Config, done: set<string>, i: nat, n: nat, sec: string, name: string, v: MergedItems)
    requires HoldsOnly(m, config, done, i, n) && Owned(config, done + {sec}, i, n, name)
    ensures HoldsOnly(m[name := v], config, done + {sec}, i, n)
  {
    forall other | other in m[name := v] ensures Owned(config, done + {sec}, i, n, other) {
      if other != name {
        OwnedGrows(config, done, done + {sec}, i, n, other);
      }
    }
  }

  lemma {:induction false} AddRenamed(
      m: MergedConfig, config: Config, done: set<string>, i: nat, n: nat, base: nat, sec: string)
    requires Holds(m, config, done, i, n, base) && sec in config && HasCpu(sec) && HasGoodPaddr(config[sec])
    requires Rename(i, n, sec) !in m
    ensures Holds(m[Rename(i, n, sec) := Relocated(config[sec], base, i, sec)], config, done + {sec}, i, n, base)
  {
    var name, items := Rename(i, n, sec), Relocated(config[sec], base, i, sec);
    assert Owned(config, done + {sec}, i, n, name) by {
      assert sec in done + {sec};
    }
    OnlyGrows(m, config, done, i, n, sec, name, items);
    assert HoldsRenamed(m[name := items], config, done + {sec}, i, n, base);
    if i == n - 1 {
      assert HoldsShared(m[name := items], config, done + {sec});
    }
  }

  lemma {:induction false} AddShared(
      m: MergedConfig, config: Config, done: set<string>, i: nat, n: nat, base: nat, sec: string)
    requires i == n - 1 && Holds(m, config, done, i, n, base) && sec in config && IsShared(sec) && sec !in m
    ensures Holds(m[sec := Copied(config[sec])], config, done + {sec}, i, n, base)
  {
    OnlyGrows(m, config, done, i, n, sec, sec, Copied(config[sec]));
  }

  lemma {:induction false} AddNothing(
      m: MergedConfig, config: Config, done: set<string>, i: nat, n: nat, base: nat, sec: string)
    requires Holds(m, config, done, i, n, base) && sec in config && !HasCpu(sec)
    requires !IsShared(sec) || i != n - 1
    ensures Holds(m, config, done + {sec}, i, n, base)
  {
    forall name | name in m ensures Owned(config, done + {sec}, i, n, name) {
      OwnedGrows(config, done, done + {sec}, i, n, name);
    }
  }

  /** The sections that different checkpoints contribute have different names. */
  lemma {:induction false} SectionsStayDistinct(
      ma: MergedConfig, ca: Config, i: nat, mb: MergedConfig, cb: Config, j: nat, n: nat, basea: nat, baseb: nat)
    requires i < j < n
    requires Holds(ma, ca, ca.Keys, i, n, basea) && Holds(mb, cb, cb.Keys, j, n, baseb)
    ensures ma.Keys !! mb.Keys
  {
    forall name | name in ma ensures name !in mb {
      assert Owned(ca, ca.Keys, i, n, name);
      var a :| a in ca && HasCpu(a) && name == Rename(i, n, a);
      InsertKeepsCpu(a, Zfill(i, Width(n)));
      if name in mb {
        assert Owned(cb, cb.Keys, j, n, name);
        var b :| b in cb && HasCpu(b) && name == Rename(j, n, b);
        RenameInjective(n, i, j, a, b);
      }
    }
  }

  // ---- The whole merge ----

  const STORE := "system.physmem.store0"

  datatype Merge = Merged(configs: seq<MergedConfig>, image: seq<Byte>, rangeSize: nat) | ValueError | NoSection

  predicate GoodConfig(config: Config) {
    forall sec :: sec in config && HasCpu(sec) ==> HasGoodPaddr(config[sec])
  }

  /** The largest "curTick" of the first `i` checkpoints, or 0. */
  function MaxTick(cpts: seq<Checkpoint>, i: nat): nat
    requires i <= |cpts|
  {
    if i == 0 then 0
    else Max(MaxTick(cpts, i - 1), match cpts[i - 1].curTick case None => 0 case Some(t) => t)
  }

  /** The last configuration with the sections that describe the merged checkpoint. */
  function Finished(m: MergedConfig, cpts: seq<Checkpoint>, rangeSize: nat): MergedConfig
    requires STORE in m
  {
    m["system" := map["pagePtr" := Num(PageBase(cpts, |cpts|)), "nextPID" := Num(|cpts|)]]
     [STORE := m[STORE]["range_size" := Num(rangeSize)]]
     ["Globals" := map["curTick" := Num(MaxTick(cpts, |cpts|))]]
  }

  ghost predicate HoldsAt(m: MergedConfig, cpts: seq<Checkpoint>, i: nat)
    requires i < |cpts|
  {
    Holds(m, cpts[i].config, cpts[i].config.Keys, i, |cpts|, PageBase(cpts, i))
  }

  ghost predicate HoldsAll(ms: seq<MergedConfig>, cpts: seq<Checkpoint>) {
    |ms| <= |cpts| && forall i {:trigger HoldsAt(ms[i], cpts, i)} :: 0 <= i < |ms| ==> HoldsAt(ms[i], cpts, i)
  }

  lemma {:induction false} HoldsAllSnoc(ms: seq<MergedConfig>, m: MergedConfig, cpts: seq<Checkpoint>)
    requires HoldsAll(ms, cpts) && |ms| < |cpts| && HoldsAt(m, cpts, |ms|)
    ensures HoldsAll(ms + [m], cpts)
  {
    forall i | 0 <= i < |ms + [m]| ensures HoldsAt((ms + [m])[i], cpts, i) {
      if i < |ms| {
        assert HoldsAt(ms[i], cpts, i);
      }
    }
  }

  /** The loop over the checkpoints: one configuration each, and the concatenated image. */
  method MergeAll(cpts: seq<Checkpoint>)
    returns (ms: Option<seq<MergedConfig>>, image: seq<Byte>, pagePtr: nat, tick: nat)
    ensures ms.Some? <==> forall i :: 0 <= i < |cpts| ==> GoodConfig(cpts[i].config)
    ensures ms.Some? ==> |ms.value| == |cpts| && HoldsAll(ms.value, cpts)
    ensures ms.Some? ==> image == Image(cpts, |cpts|)
    ensures ms.Some? ==> pagePtr == PageBase(cpts, |cpts|) && tick == MaxTick(cpts, |cpts|)
  {
    var done: seq<MergedConfig> := [];
    image, pagePtr, tick := [], 0, 0;
    for i := 0 to |cpts|
      invariant |done| == i && HoldsAll(done, cpts)
      invariant forall k :: 0 <= k < i ==> GoodConfig(cpts[k].config)
      invariant image == Image(cpts, i) && pagePtr == PageBase(cpts, i) && tick == MaxTick(cpts, i)
    {
      var m := MergeSections(cpts[i].config, i, |cpts|, pagePtr);
      if m.None? {
        return None, image, pagePtr, tick;
      }
      HoldsAllSnoc(done, m.value, cpts);
      done := done + [m.value];
      match cpts[i].curTick {
        case None =>
        case Some(t) => if t > tick { tick := t; }
      }
      pagePtr := pagePtr + cpts[i].pages;
      var copied := CopyPages(cpts[i].mem, cpts[i].pages);
      image := image + copied;
    }
    ms := Some(done);
  }

  /** The configurations of all checkpoints, the last one finished. */
  ghost predicate AreFinished(configs: seq<MergedConfig>, cpts: seq<Checkpoint>, rangeSize: nat)
    requires |cpts| > 0
  {
    exists ms: seq<MergedConfig> ::
      && |ms| == |cpts| && HoldsAll(ms, cpts) && STORE in ms[|cpts| - 1]
      && configs == ms[|cpts| - 1 := Finished(ms[|cpts| - 1], cpts, rangeSize)]
  }

  method Aggregate(cpts: seq<Checkpoint>, memorySize: int) returns (r: Merge)
    requires |cpts| > 0
    ensures r.ValueError? <==> exists i :: 0 <= i < |cpts| && !GoodConfig(cpts[i].config)
    ensures r.NoSection? ==> STORE !in cpts[|cpts| - 1].config
    ensures r.Merged? ==> STORE in cpts[|cpts| - 1].config
    ensures r.Merged? ==> r.rangeSize == Max(PageBase(cpts, |cpts|), PagesFor(memorySize)) * PAGE
    ensures r.Merged? ==> Image(cpts, |cpts|) <= r.image
    ensures r.Merged? ==> |r.image| == |Image(cpts, |cpts|)| + r.rangeSize - PageBase(cpts, |cpts|) * PAGE
    ensures r.Merged? ==> r.rangeSize >= memorySize
    ensures r.Merged? ==> r.rangeSize == PageBase(cpts, |cpts|) * PAGE || r.rangeSize - PAGE < memorySize
    ensures r.Merged? ==> forall k :: |Image(cpts, |cpts|)| <= k < |r.image| ==> r.image[k] == 48
    ensures r.Merged? ==> (|r.image| == r.rangeSize <==> forall i :: 0 <= i < |cpts| ==> Full(cpts[i]))
    ensures r.Merged? ==> AreFinished(r.configs, cpts, r.rangeSize)
  {
    var ms, image, pagePtr, tick := MergeAll(cpts);
    if ms.None? {
      return ValueError;
    }
    var n := |cpts|;
    var last := ms.value[n - 1];
    assert HoldsAt(ms.value[n - 1], cpts, n - 1);
    StoreIsShared(last, cpts);
    var m := last["system" := map["pagePtr" := Num(pagePtr), "nextPID" := Num(n)]];
    var padded, pages := Pad(image, pagePtr, memorySize);
    var rangeSize := pages * PAGE;
    ImageLength(cpts, n);
    if STORE !in m {
      return NoSection;
    }
    m := m[STORE := m[STORE]["range_size" := Num(rangeSize)]];
    m := m["Globals" := map["curTick" := Num(tick)]];
    r := Merged(ms.value[n - 1 := m], padded, rangeSize);
  }

  lemma {:induction false} StoreIsShared(m: MergedConfig, cpts: seq<Checkpoint>)
    requires |cpts| > 0
    requires HoldsAt(m, cpts, |cpts| - 1)
    ensures STORE in m <==> STORE in cpts[|cpts| - 1].config
  {
    var n, c := |cpts|, cpts[|cpts| - 1].config;
    NoCpu(STORE);
    assert IsShared(STORE);
    if STORE in m {
      assert Owned(c, c.Keys, n - 1, n, STORE);
      if sec :| sec in c && HasCpu(sec) && STORE == Rename(n - 1, n, sec) {
        InsertKeepsCpu(sec, Zfill(n - 1, Width(n)));
      }
    }
  }

  lemma {:induction false} CpuHasC(s: string)
    requires HasCpu(s)
    ensures 'c' in s
  {
    if !StartsCpu(s) {
      CpuHasC(s[1..]);
    }
  }

  lemma {:induction false} NoCpu(s: string)
    requires 'c' !in s
    ensures !HasCpu(s)
  {
    if HasCpu(s) {
      CpuHasC(s);
    }
  }

  lemma {:induction false} NamesWithoutC(name: string)
    requires 'c' in name
    ensures name != "system" && name != "Globals" && name != STORE
  {
  }

  /** Finishing a configuration keeps every cpu section. */
  lemma {:induction false} FinishedKeeps(m: MergedConfig, cpts: seq<Checkpoint>, rangeSize: nat, name: string)
    requires STORE in m && name in m && HasCpu(name)
    ensures name in Finished(m, cpts, rangeSize) && Finished(m, cpts, rangeSize)[name] == m[name]
  {
    CpuHasC(name);
    NamesWithoutC(name);
  }

  /** A cpu section of checkpoint `i`, as it is in the merged configurations. */
  lemma {:induction false} RenamedSection(
      configs: seq<MergedConfig>, cpts: seq<Checkpoint>, rangeSize: nat, i: nat, sec: string)
    requires i < |cpts| && AreFinished(configs, cpts, rangeSize) && sec in cpts[i].config && HasCpu(sec)
    ensures |configs| == |cpts| && HasGoodPaddr(cpts[i].config[sec]) && Rename(i, |cpts|, sec) in configs[i]
    ensures configs[i][Rename(i, |cpts|, sec)] == Relocated(cpts[i].config[sec], PageBase(cpts, i), i, sec)
  {
    var ms: seq<MergedConfig> :|
      && |ms| == |cpts| && HoldsAll(ms, cpts) && STORE in ms[|cpts| - 1]
      && configs == ms[|cpts| - 1 := Finished(ms[|cpts| - 1], cpts, rangeSize)];
    assert HoldsAt(ms[i], cpts, i);
    InsertKeepsCpu(sec, Zfill(i, Width(|cpts|)));
    if i == |cpts| - 1 {
      FinishedKeeps(ms[i], cpts, rangeSize, Rename(i, |cpts|, sec));
    }
  }

  /** `sec` ends in "workload", one more character, and "FdMap256". */
  lemma {:induction false} FdMapIff(sec: string)
    ensures IsFdMap(sec) <==> exists a: string, c: char :: sec == a + "workload" + [c] + "FdMap256"
  {
    if IsFdMap(sec) {
      var n := |sec| - 17;
      assert sec == sec[..n] + sec[n..n + 8] + [sec[n + 8]] + sec[n + 9..];
    }
    if a: string, c: char :| sec == a + "workload" + [c] + "FdMap256" {
      assert sec[|sec| - 17..|sec| - 9] == "workload" && sec[|sec| - 8..] == "FdMap256";
    }
  }

  /** The items of a renamed section: all but the address are copied, and the process number of a file
      descriptor map is that of the checkpoint. */
  lemma {:induction false} RenamedItems(
      configs: seq<MergedConfig>, cpts: seq<Checkpoint>, rangeSize: nat, i: nat, sec: string, k: string)
    requires i < |cpts| && AreFinished(configs, cpts, rangeSize) && sec in cpts[i].config && HasCpu(sec)
    ensures |configs| == |cpts| && Rename(i, |cpts|, sec) in configs[i]
    ensures var out, items := configs[i][Rename(i, |cpts|, sec)], cpts[i].config[sec];
            && (IsFdMap(sec) ==> "M5_pid" in out && out["M5_pid"] == Num(i))
            && (k != "M5_pid" || !IsFdMap(sec) ==> (k in out <==> k in items))
            && (k in items && k != "paddr" && (k != "M5_pid" || !IsFdMap(sec)) ==> out[k] == Str(items[k]))
  {
    RenamedSection(configs, cpts, rangeSize, i, sec);
  }

  /** The other sections of the last checkpoint are copied, but for what the merge adds to the store. */
  lemma {:induction false} SharedSection(
      configs: seq<MergedConfig>, cpts: seq<Checkpoint>, rangeSize: nat, sec: string, k: string)
    requires |cpts| > 0 && AreFinished(configs, cpts, rangeSize)
    requires sec in cpts[|cpts| - 1].config && !HasCpu(sec) && sec != "system" && sec != "Globals"
    requires k in cpts[|cpts| - 1].config[sec] && !(sec == STORE && k == "range_size")
    ensures |configs| == |cpts| && sec in configs[|cpts| - 1] && k in configs[|cpts| - 1][sec]
    ensures configs[|cpts| - 1][sec][k] == Str(cpts[|cpts| - 1].config[sec][k])
  {
    var n := |cpts|;
    var ms: seq<MergedConfig> :|
      && |ms| == n && HoldsAll(ms, cpts) && STORE in ms[n - 1]
      && configs == ms[n - 1 := Finished(ms[n - 1], cpts, rangeSize)];
    assert HoldsAt(ms[n - 1], cpts, n - 1);
    assert IsShared(sec);
    assert ms[n - 1][sec] == Copied(cpts[n - 1].config[sec]);
  }

  lemma {:induction false} MaxTickIs(cpts: seq<Checkpoint>, n: nat)
    requires n <= |cpts|
    ensures forall i :: 0 <= i < n && cpts[i].curTick.Some? ==> cpts[i].curTick.value <= MaxTick(cpts, n)
    ensures MaxTick(cpts, n) == 0 || exists i :: 0 <= i < n && cpts[i].curTick == Some(MaxTick(cpts, n))
  {
    if n > 0 {
      MaxTickIs(cpts, n - 1);
    }
  }

  /** The address of a byte of checkpoint `i` after relocation. */
  ghost function Moved(cpts: seq<Checkpoint>, i: nat, a: nat): nat
    requires i < |cpts|
  {
    a + PageBase(cpts, i) * PAGE
  }

  ghost predicate AddressesBelow(cpts: seq<Checkpoint>, i: nat, end: nat)
    requires i < |cpts|
  {
    forall a: nat :: a < cpts[i].pages * PAGE ==> Moved(cpts, i, a) < end
  }

  /** Every relocated address is below the page pointer that the merge writes, and with complete files
      the memory image before padding ends there. */
  ghost predicate IsPagePointer(cpts: seq<Checkpoint>, p: nat) {
    && (forall i :: 0 <= i < |cpts| ==> AddressesBelow(cpts, i, p * PAGE))
    && ((forall i :: 0 <= i < |cpts| ==> Full(cpts[i])) ==> |Image(cpts, |cpts|)| == p * PAGE)
    && (|cpts| > 0 ==> p == PageBase(cpts, |cpts| - 1) + cpts[|cpts| - 1].pages)
  }

  lemma {:induction false} LastPageBase(cpts: seq<Checkpoint>)
    ensures IsPagePointer(cpts, PageBase(cpts, |cpts|))
  {
    ImageLength(cpts, |cpts|);
    forall i | 0 <= i < |cpts| ensures AddressesBelow(cpts, i, PageBase(cpts, |cpts|) * PAGE) {
      PageBaseGrows(cpts, i, |cpts|);
      MulOrder(PageBase(cpts, i) + cpts[i].pages, PageBase(cpts, |cpts|), PAGE);
    }
  }

  /** The tick is the largest of the checkpoints' ticks. */
  ghost predicate IsLatestTick(cpts: seq<Checkpoint>, t: nat) {
    && (forall i :: 0 <= i < |cpts| && cpts[i].curTick.Some? ==> cpts[i].curTick.value <= t)
    && (t == 0 || exists i :: 0 <= i < |cpts| && cpts[i].curTick == Some(t))
  }

  /** What the merge writes about the merged checkpoint. */
  lemma {:induction false} MergedHeader(configs: seq<MergedConfig>, cpts: seq<Checkpoint>, rangeSize: nat)
    returns (pagePtr: nat, curTick: nat)
    requires |cpts| > 0 && AreFinished(configs, cpts, rangeSize)
    ensures |configs| == |cpts| && "system" in configs[|cpts| - 1]
    ensures configs[|cpts| - 1]["system"] == map["pagePtr" := Num(pagePtr), "nextPID" := Num(|cpts|)]
    ensures "Globals" in configs[|cpts| - 1] && configs[|cpts| - 1]["Globals"] == map["curTick" := Num(curTick)]
    ensures "system.physmem.store0" in configs[|cpts| - 1]
    ensures "range_size" in configs[|cpts| - 1]["system.physmem.store0"]
    ensures configs[|cpts| - 1]["system.physmem.store0"]["range_size"] == Num(rangeSize)
    ensures IsPagePointer(cpts, pagePtr) && IsLatestTick(cpts, curTick)
  {
    var n := |cpts|;
    var ms: seq<MergedConfig> :|
      && |ms| == n && HoldsAll(ms, cpts) && STORE in ms[n - 1]
      && configs == ms[n - 1 := Finished(ms[n - 1], cpts, rangeSize)];
    pagePtr, curTick := PageBase(cpts, n), MaxTick(cpts, n);
    LastPageBase(cpts);
    MaxTickIs(cpts, n);
    FinishedHeader(ms[n - 1], cpts, rangeSize);
  }

  lemma {:induction false} FinishedHeader(m: MergedConfig, cpts: seq<Checkpoint>, rangeSize: nat)
    requires STORE in m
    ensures var f := Finished(m, cpts, rangeSize);
            && "system" in f && "Globals" in f && STORE in f && "range_size" in f[STORE]
            && f["system"] == map["pagePtr" := Num(PageBase(cpts, |cpts|)), "nextPID" := Num(|cpts|)]
            && f["Globals"] == map["curTick" := Num(MaxTick(cpts, |cpts|))]
            && f[STORE]["range_size"] == Num(rangeSize)
  {
    assert |"system"| == 6 && |"Globals"| == 7 && |STORE| == 21;
  }

  /** In what `Aggregate` returns, an address of a cpu section names the same byte of the merged image
      as the original address does in the checkpoint's own memory. */
  lemma {:induction false} MergedAddressNamesSameByte(cpts: seq<Checkpoint>, r: Merge, i: nat, sec: string, a: nat)
    requires i < |cpts| && r.Merged? && AreFinished(r.configs, cpts, r.rangeSize)
    requires Image(cpts, |cpts|) <= r.image && forall j :: 0 <= j < i ==> Full(cpts[j])
    requires sec in cpts[i].config && HasCpu(sec) && "paddr" in cpts[i].config[sec]
    requires ParseNat(cpts[i].config[sec]["paddr"]) == Some(a) && a < cpts[i].pages * PAGE && a < |cpts[i].mem|
    ensures var name, moved := Rename(i, |cpts|, sec), a + PageBase(cpts, i) * 4096;
            && |r.configs| == |cpts| && name in r.configs[i] && "paddr" in r.configs[i][name]
            && r.configs[i][name]["paddr"] == Num(moved)
            && moved < |r.image| && r.image[moved] == cpts[i].mem[a]
  {
    RenamedSection(r.configs, cpts, r.rangeSize, i, sec);
    RelocatedByte(cpts, i, a);
  }
}
