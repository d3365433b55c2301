/**
 Binding ports from a configuration file (configs/example/read_config.py): every link is
 listed in both directions, and a single pass over the sorted list makes a link when both
 ends are next in line on their ports.
 */
module PortBinding {
  import opened Collections

  datatype Port = Port(obj: string, name: string, index: nat)
  datatype Conn = Conn(from: Port, to: Port)
  datatype Key = Key(obj: string, name: string)

  function KeyOf(p: Port): Key {
    Key(p.obj, p.name)
  }

  function Reverse(c: Conn): Conn {
    Conn(c.to, c.from)
  }

  /** The indices bound on a port by one connection. */
  function IndexOn(c: Conn, k: Key): seq<nat> {
    (if KeyOf(c.from) == k then [c.from.index] else []) +
    (if KeyOf(c.to) == k then [c.to.index] else [])
  }

  /** The indices bound on a port, in binding order. */
  function Indices(made: seq<Conn>, k: Key): seq<nat> {
    if made == [] then []
    else Indices(made[..|made| - 1], k) + IndexOn(made[|made| - 1], k)
  }

  /** Both ends of `c` are next in line after `made`. */
  predicate NextInLine(made: seq<Conn>, c: Conn) {
    |Indices(made, KeyOf(c.from))| == c.from.index && |Indices(made, KeyOf(c.to))| == c.to.index
  }

  /** The connections made by one pass over `s`. */
  function Made(s: seq<Conn>): seq<Conn> {
    if s == [] then []
    else
      var before, c := Made(s[..|s| - 1]), s[|s| - 1];
      if NextInLine(before, c) then before + [c] else before
  }

  lemma {:induction false} MadeStep(s: seq<Conn>, n: nat, before: seq<Conn>)
    requires n < |s| && Made(s[..n]) == before
    ensures Made(s[..n + 1]) == if NextInLine(before, s[n]) then before + [s[n]] else before
  {
    assert s[..n + 1][..n] == s[..n];
  }

  ghost predicate Irreflexive(s: seq<Conn>) {
    forall c :: c in s ==> c.from != c.to
  }

  ghost predicate Symmetric(s: seq<Conn>) {
    forall c :: c in s ==> Reverse(c) in s
  }

  /** Each port index has one peer. */
  ghost predicate OnePeer(s: seq<Conn>) {
    forall c, d :: c in s && d in s && c.from == d.from ==> c == d
  }

  ghost predicate WellFormed(s: seq<Conn>) {
    Irreflexive(s) && Symmetric(s) && Distinct(s) && OnePeer(s)
  }

  ghost predicate Used(made: seq<Conn>, p: Port) {
    exists c :: c in made && (c.from == p || c.to == p)
  }

  lemma {:induction false} MadeFrom(s: seq<Conn>)
    ensures forall c :: c in Made(s) ==> c in s
  {
    if s != [] {
      MadeFrom(s[..|s| - 1]);
    }
  }

  lemma {:induction false} IndicesSnoc(made: seq<Conn>, c: Conn, k: Key)
    ensures Indices(made + [c], k) == Indices(made, k) + IndexOn(c, k)
  {
    assert (made + [c])[..|made|] == made;
  }

  /** On every port the k-th binding is the connection with index k. */
  lemma {:induction false} BoundInIndexOrder(s: seq<Conn>, k: Key)
    requires Irreflexive(s)
    ensures Indices(Made(s), k) == UpTo(|Indices(Made(s), k)|)
  {
    if s != [] {
      var front, c := s[..|s| - 1], s[|s| - 1];
      BoundInIndexOrder(front, k);
      if NextInLine(Made(front), c) {
        IndicesSnoc(Made(front), c, k);
        assert c in s;
      }
    }
  }

  lemma {:induction false} UsedIffIndexed(made: seq<Conn>, p: Port)
    ensures Used(made, p) <==> p.index in Indices(made, KeyOf(p))
  {
    if made != [] {
      var front, c := made[..|made| - 1], made[|made| - 1];
      assert made == front + [c];
      UsedIffIndexed(front, p);
      assert Used(made, p) <==> Used(front, p) || c.from == p || c.to == p;
    }
  }

  /** A port index is bound exactly when the port's counter has passed it. */
  lemma {:induction false} UsedIffCounted(s: seq<Conn>, p: Port)
    requires Irreflexive(s)
    ensures Used(Made(s), p) <==> p.index < |Indices(Made(s), KeyOf(p))|
  {
    BoundInIndexOrder(s, KeyOf(p));
    UsedIffIndexed(Made(s), p);
    var n := |Indices(Made(s), KeyOf(p))|;
    assert p.index < n ==> UpTo(n)[p.index] == p.index;
  }

  /** A link that is next in line has not been made, in either direction. */
  lemma {:induction false} NextIsNew(s: seq<Conn>, c: Conn)
    requires Irreflexive(s) && NextInLine(Made(s), c)
    ensures c !in Made(s) && Reverse(c) !in Made(s)
  {
    UsedIffCounted(s, c.from);
    assert c in Made(s) ==> Used(Made(s), c.from);
    assert Reverse(c) in Made(s) ==> Used(Made(s), c.from);
  }

  ghost predicate OneWay(made: seq<Conn>) {
    forall c :: c in made ==> Reverse(c) !in made
  }

  lemma {:induction false} OneWaySnoc(made: seq<Conn>, c: Conn)
    requires OneWay(made) && c !in made && Reverse(c) !in made && c.from != c.to
    ensures OneWay(made + [c])
  {
    forall d | d in made + [c] ensures Reverse(d) !in made + [c] {
      assert Reverse(Reverse(d)) == d;
    }
  }

  /** No link is made twice, in whichever direction. */
  lemma {:induction false} NeverBothWays(s: seq<Conn>)
    requires Irreflexive(s)
    ensures Distinct(Made(s)) && OneWay(Made(s))
  {
    if s != [] {
      var front, c := s[..|s| - 1], s[|s| - 1];
      NeverBothWays(front);
      if NextInLine(Made(front), c) {
        NextIsNew(front, c);
        assert c in s;
        OneWaySnoc(Made(front), c);
      }
    }
  }

  // ---- The half check ----

  ghost function Elements(s: seq<Conn>): set<Conn> {
    set c | c in s
  }

  lemma {:induction false} ElementsCount(s: seq<Conn>)
    requires Distinct(s)
    ensures |Elements(s)| == |s|
  {
    if s != [] {
      var front, c := s[..|s| - 1], s[|s| - 1];
      ElementsCount(front);
      assert s == front + [c];
      assert Elements(s) == Elements(front) + {c};
      assert c !in front;
    }
  }

  function Reversed(s: seq<Conn>): (r: seq<Conn>)
    ensures |r| == |s|
    ensures forall i :: 0 <= i < |s| ==> r[i] == Reverse(s[i])
  {
    seq(|s|, i requires 0 <= i < |s| => Reverse(s[i]))
  }

  lemma {:induction false} InReversed(s: seq<Conn>, c: Conn)
    ensures c in Reversed(s) <==> Reverse(c) in s
  {
    if Reverse(c) in s {
      var i :| 0 <= i < |s| && s[i] == Reverse(c);
      assert Reversed(s)[i] == c;
    }
  }

  /** Made connections and their reversals are different connections of the list. */
  lemma {:induction false} MadeBothWays(s: seq<Conn>)
    requires Irreflexive(s) && Symmetric(s)
    ensures Distinct(Made(s) + Reversed(Made(s)))
    ensures forall c :: c in Made(s) + Reversed(Made(s)) ==> c in s
  {
    var m := Made(s);
    var r := Reversed(m);
    MadeFrom(s);
    NeverBothWays(s);
    forall i, j | 0 <= i < j < |m + r| ensures (m + r)[i] != (m + r)[j] {
      if i < |m| <= j {
        assert r[j - |m|] == Reverse(m[j - |m|]);
        assert m[i] in m && m[j - |m|] in m;
      } else if |m| <= i {
        assert Reverse(m[i - |m|]) != Reverse(m[j - |m|]);
      }
    }
    forall c | c in m + r ensures c in s {
      InReversed(m, c);
      assert Reverse(Reverse(c)) == c;
    }
  }

  ghost predicate LinkMade(made: seq<Conn>, c: Conn) {
    c in made || Reverse(c) in made
  }

  /** At most half the connections are made; when half are, every link is made, in one direction. */
  lemma {:induction false} HalfMeansAll(s: seq<Conn>)
    requires Irreflexive(s) && Symmetric(s) && Distinct(s)
    ensures 2 * |Made(s)| <= |s|
    ensures 2 * |Made(s)| == |s| <==> forall c :: c in s ==> LinkMade(Made(s), c)
    ensures OneWay(Made(s))
  {
    var m := Made(s);
    var both := m + Reversed(m);
    MadeBothWays(s);
    NeverBothWays(s);
    ElementsCount(both);
    ElementsCount(s);
    SubsetCount(Elements(both), Elements(s));
    forall c ensures c in both <==> LinkMade(m, c) {
      InReversed(m, c);
    }
    if forall c :: c in s ==> LinkMade(m, c) {
      assert Elements(both) == Elements(s);
    } else if 2 * |m| == |s| {
      forall c | c in s ensures LinkMade(m, c) {
        assert c in Elements(both);
      }
    }
  }

  // ---- The pass is as good as any choice of directions ----

  /** The connections of `s` selected by `pick`, in order. */
  function Chosen(s: seq<Conn>, pick: seq<bool>): seq<Conn>
    requires |s| == |pick|
  {
    if s == [] then []
    else
      var front := Chosen(s[..|s| - 1], pick[..|s| - 1]);
      if pick[|s| - 1] then front + [s[|s| - 1]] else front
  }

  lemma {:induction false} ChosenFrom(s: seq<Conn>, pick: seq<bool>)
    requires |s| == |pick|
    ensures forall c :: c in Chosen(s, pick) ==> c in s
  {
    if s != [] {
      ChosenFrom(s[..|s| - 1], pick[..|s| - 1]);
    }
  }

  lemma {:induction false} MadeLength(s: seq<Conn>)
    ensures |Made(s)| <= |s|
  {
    if s != [] {
      MadeLength(s[..|s| - 1]);
    }
  }

  /** A list that is bound completely is bound completely up to any point. */
  lemma {:induction false} FullyMadeSnoc(ch: seq<Conn>, c: Conn)
    requires Made(ch + [c]) == ch + [c]
    ensures Made(ch) == ch && NextInLine(ch, c)
  {
    assert (ch + [c])[..|ch|] == ch;
    MadeLength(ch);
  }

  /** If one end of `c` is next in line in the choice and all chosen links are made, then the
      pass has reached that end, and has passed it only by making `c`. */
  lemma {:induction false} CaughtUp(s: seq<Conn>, all: seq<Conn>, ch: seq<Conn>, c: Conn, p: Port)
    requires Irreflexive(all) && Symmetric(all) && OnePeer(all) && c in all && (c.from == p || c.to == p)
    requires forall x :: x in s ==> x in all
    requires forall x :: x in ch ==> x in all
    requires Made(ch) == ch && forall x :: x in ch ==> LinkMade(Made(s), x)
    requires |Indices(ch, KeyOf(p))| == p.index
    ensures |Indices(Made(s), KeyOf(p))| >= p.index
    ensures |Indices(Made(s), KeyOf(p))| > p.index ==> LinkMade(Made(s), c)
  {
    if p.index > 0 {
      var q := p.(index := p.index - 1);
      UsedIffCounted(ch, q);
      assert Used(ch, q);
      var x :| x in ch && (x.from == q || x.to == q);
      assert LinkMade(Made(s), x);
      assert Used(Made(s), q);
      UsedIffCounted(s, q);
    }
    UsedIffCounted(s, p);
    if Used(Made(s), p) {
      var x :| x in Made(s) && (x.from == p || x.to == p);
      MadeFrom(s);
      SameLink(all, c, x, p);
    }
  }

  lemma {:induction false} SameLink(all: seq<Conn>, c: Conn, x: Conn, p: Port)
    requires Symmetric(all) && OnePeer(all) && c in all && x in all
    requires (c.from == p || c.to == p) && (x.from == p || x.to == p)
    ensures x == c || x == Reverse(c)
  {
    var c' := if c.from == p then c else Reverse(c);
    var x' := if x.from == p then x else Reverse(x);
    assert c' in all && x' in all && c'.from == x'.from;
  }

  /** Every link of a bindable choice is made by the pass. */
  lemma {:induction false} PassStaysAhead(s: seq<Conn>, pick: seq<bool>, all: seq<Conn>)
    requires Irreflexive(all) && Symmetric(all) && OnePeer(all) && |s| == |pick|
    requires forall x :: x in s ==> x in all
    requires Made(Chosen(s, pick)) == Chosen(s, pick)
    ensures forall x :: x in Chosen(s, pick) ==> LinkMade(Made(s), x)
  {
    if s != [] {
      var front, c := s[..|s| - 1], s[|s| - 1];
      var ch := Chosen(front, pick[..|s| - 1]);
      assert s == front + [c];
      if pick[|s| - 1] {
        FullyMadeSnoc(ch, c);
      }
      PassStaysAhead(front, pick[..|s| - 1], all);
      if pick[|s| - 1] {
        ChosenFrom(front, pick[..|s| - 1]);
        CaughtUp(front, all, ch, c, c.from);
        CaughtUp(front, all, ch, c, c.to);
      }
    }
  }

  /** Every connection joins two different ports, and on every port the indices come as 0, 1, 2, ... */
  ghost predicate BindsInOrder(ch: seq<Conn>) {
    && (forall c :: c in ch ==> KeyOf(c.from) != KeyOf(c.to))
    && (forall k :: Indices(ch, k) == UpTo(|Indices(ch, k)|))
  }

  /** A link between two indices of one port is never made, whatever the order. */
  lemma {:induction false} SamePortNeverMade(s: seq<Conn>, c: Conn)
    requires Irreflexive(s) && KeyOf(c.from) == KeyOf(c.to)
    ensures c !in Made(s)
  {
    if s != [] {
      var front, last := s[..|s| - 1], s[|s| - 1];
      SamePortNeverMade(front, c);
      assert last in s;
      assert NextInLine(Made(front), c) ==> c.from == c.to;
    }
  }

  /** So a list with such a link fails in every order. */
  lemma {:induction false} SamePortFails(s: seq<Conn>, c: Conn)
    requires Irreflexive(s) && Symmetric(s) && Distinct(s) && c in s && KeyOf(c.from) == KeyOf(c.to)
    ensures 2 * |Made(s)| < |s|
  {
    HalfMeansAll(s);
    SamePortNeverMade(s, c);
    SamePortNeverMade(s, Reverse(c));
    assert !LinkMade(Made(s), c);
  }

  lemma {:induction false} UpToPrefix(a: seq<nat>, b: seq<nat>)
    requires a + b == UpTo(|a + b|)
    ensures a == UpTo(|a|) && (b != [] ==> b[0] == |a|)
  {
    forall i | 0 <= i < |a| ensures a[i] == i {
      assert (a + b)[i] == i;
    }
    if b != [] {
      assert (a + b)[|a|] == |a|;
    }
  }

  lemma {:induction false} BindsInOrderIsMade(ch: seq<Conn>)
    requires BindsInOrder(ch)
    ensures Made(ch) == ch
  {
    if ch != [] {
      var front, c := ch[..|ch| - 1], ch[|ch| - 1];
      assert ch == front + [c] && c in ch;
      forall k ensures Indices(front, k) == UpTo(|Indices(front, k)|) {
        IndicesSnoc(front, c, k);
        assert Indices(ch, k) == UpTo(|Indices(ch, k)|);
        UpToPrefix(Indices(front, k), IndexOn(c, k));
      }
      forall p | p == c.from || p == c.to ensures |Indices(front, KeyOf(p))| == p.index {
        IndicesSnoc(front, c, KeyOf(p));
        assert Indices(ch, KeyOf(p)) == UpTo(|Indices(ch, KeyOf(p))|);
        UpToPrefix(Indices(front, KeyOf(p)), IndexOn(c, KeyOf(p)));
      }
      BindsInOrderIsMade(front);
    }
  }

  /** A list is bound completely exactly when it can be read off its ports and indices. */
  lemma {:induction false} FullyMadeIff(ch: seq<Conn>)
    requires Irreflexive(ch)
    ensures Made(ch) == ch <==> BindsInOrder(ch)
  {
    if Made(ch) == ch {
      forall c | c in ch ensures KeyOf(c.from) != KeyOf(c.to) {
        if KeyOf(c.from) == KeyOf(c.to) {
          SamePortNeverMade(ch, c);
        }
      }
      forall k ensures Indices(ch, k) == UpTo(|Indices(ch, k)|) {
        BoundInIndexOrder(ch, k);
      }
    }
    if BindsInOrder(ch) {
      BindsInOrderIsMade(ch);
    }
  }

  /** A choice of connections that covers every link and lists the indices of every port in order. */
  ghost predicate CompleteChoice(s: seq<Conn>, pick: seq<bool>) {
    |s| == |pick| && BindsInOrder(Chosen(s, pick)) && forall c :: c in s ==> LinkMade(Chosen(s, pick), c)
  }

  /** The picks that the pass itself makes. */
  function Picks(s: seq<Conn>): (pick: seq<bool>)
    ensures |pick| == |s|
  {
    if s == [] then []
    else Picks(s[..|s| - 1]) + [NextInLine(Made(s[..|s| - 1]), s[|s| - 1])]
  }

  lemma {:induction false} PicksChooseMade(s: seq<Conn>)
    ensures Chosen(s, Picks(s)) == Made(s) && Made(Made(s)) == Made(s)
  {
    if s != [] {
      var front, c := s[..|s| - 1], s[|s| - 1];
      PicksChooseMade(front);
      assert Picks(s)[..|front|] == Picks(front);
      if NextInLine(Made(front), c) {
        assert (Made(front) + [c])[..|Made(front)|] == Made(front);
      }
    }
  }

  /** The pass makes every link exactly when some choice of one direction per link lists the
      indices of every port in order. */
  lemma {:induction false} PassIsComplete(s: seq<Conn>)
    requires WellFormed(s)
    ensures 2 * |Made(s)| == |s| <==> exists pick :: CompleteChoice(s, pick)
  {
    HalfMeansAll(s);
    if 2 * |Made(s)| == |s| {
      PicksChooseMade(s);
      MadeFrom(s);
      FullyMadeIff(Made(s));
      assert CompleteChoice(s, Picks(s));
    }
    if pick :| CompleteChoice(s, pick) {
      CompleteChoiceMade(s, pick);
    }
  }

  lemma {:induction false} CompleteChoiceMade(s: seq<Conn>, pick: seq<bool>)
    requires Irreflexive(s) && Symmetric(s) && OnePeer(s) && CompleteChoice(s, pick)
    ensures forall c :: c in s ==> LinkMade(Made(s), c)
  {
    BindsInOrderIsMade(Chosen(s, pick));
    PassStaysAhead(s, pick, s);
    forall c | c in s ensures LinkMade(Made(s), c) {
      assert LinkMade(Chosen(s, pick), c);
      assert Reverse(Reverse(c)) == c;
    }
  }

  // ---- The pass itself ----

  datatype Binding = Bound(made: seq<Conn>) | KeyError | CannotBeOrdered

  lemma {:induction false} PermutationKeeps(a: seq<Conn>, b: seq<Conn>)
    requires multiset(a) == multiset(b) && Distinct(a)
    ensures Distinct(b)
  {
    DistinctIsOnce(a);
    OnceIsDistinct(b);
  }

  ghost predicate HasSource(s: seq<Conn>, k: Key) {
    exists c :: c in s && KeyOf(c.from) == k
  }

  /** The counters: one for each port listed as a source, with the number of bindings made. */
  ghost predicate Counts(count: map<Key, nat>, s: seq<Conn>, made: seq<Conn>) {
    && (forall k :: k in count <==> HasSource(s, k))
    && (forall k :: k in count ==> count[k] == |Indices(made, k)|)
  }

  function Increment(count: map<Key, nat>, k: Key): map<Key, nat>
    requires k in count
  {
    count[k := count[k] + 1]
  }

  lemma {:induction false} CountsStep(count: map<Key, nat>, s: seq<Conn>, made: seq<Conn>, c: Conn)
    requires Counts(count, s, made) && KeyOf(c.from) in count && KeyOf(c.to) in count
    ensures Counts(Increment(Increment(count, KeyOf(c.from)), KeyOf(c.to)), s, made + [c])
  {
    var after := Increment(Increment(count, KeyOf(c.from)), KeyOf(c.to));
    forall k | k in after ensures after[k] == |Indices(made + [c], k)| {
      IndicesSnoc(made, c, k);
    }
  }

  method StartCounts(connections: seq<Conn>) returns (count: map<Key, nat>)
    ensures Counts(count, connections, [])
  {
    count := map[];
    for i := 0 to |connections|
      invariant forall k :: k in count <==> HasSource(connections[..i], k)
      invariant forall k :: k in count ==> count[k] == 0
    {
      assert connections[..i + 1] == connections[..i] + [connections[i]];
      ghost var k0 := KeyOf(connections[i].from);
      forall k ensures HasSource(connections[..i + 1], k) <==> HasSource(connections[..i], k) || k == k0 {
        HasSourceSnoc(connections[..i], connections[i], k);
      }
      count := count[KeyOf(connections[i].from) := 0];
    }
    assert connections[..|connections|] == connections;
  }

  lemma {:induction false} HasSourceSnoc(s: seq<Conn>, c: Conn, k: Key)
    ensures HasSource(s + [c], k) <==> HasSource(s, k) || k == KeyOf(c.from)
  {
    assert c in s + [c];
    if HasSource(s, k) {
      var d :| d in s && KeyOf(d.from) == k;
      assert d in s + [c];
    }
  }

  /** At position `i` the pass looks up a port that is nowhere listed as a source. */
  ghost predicate LooksUpMissing(s: seq<Conn>, i: nat)
    requires i < |s|
  {
    |Indices(Made(s[..i]), KeyOf(s[i].from))| == s[i].from.index && !HasSource(s, KeyOf(s[i].to))
  }

  /** A list with both directions of every link has no missing ports. */
  lemma {:induction false} SymmetricHasNoMissing(s: seq<Conn>, i: nat)
    requires Symmetric(s) && i < |s|
    ensures !LooksUpMissing(s, i)
  {
    assert s[i] in s && Reverse(s[i]) in s;
  }

  /** For a list of one connection: the other end is only looked up when the first is next in line. */
  lemma {:induction false} LoneConnection(c: Conn)
    ensures LooksUpMissing([c], 0) <==>
            c.from.index == 0 && !(c.from.obj == c.to.obj && c.from.name == c.to.name)
  {
    assert [c][..0] == [];
    assert HasSource([c], KeyOf(c.to)) <==> KeyOf(c.from) == KeyOf(c.to) by {
      assert c in [c];
    }
  }

  /** The state of the pass after `i` connections, none of which looked up a missing port. */
  ghost predicate PassState(s: seq<Conn>, i: nat, made: seq<Conn>, count: map<Key, nat>)
    requires i <= |s|
  {
    made == Made(s[..i]) && Counts(count, s, made) && forall j :: 0 <= j < i ==> !LooksUpMissing(s, j)
  }

  lemma {:induction false} PassMakes(s: seq<Conn>, i: nat, made: seq<Conn>, count: map<Key, nat>)
    requires i < |s| && PassState(s, i, made, count) && NextInLine(made, s[i])
    requires KeyOf(s[i].from) in count && KeyOf(s[i].to) in count
    ensures PassState(s, i + 1, made + [s[i]], Increment(Increment(count, KeyOf(s[i].from)), KeyOf(s[i].to)))
  {
    MadeStep(s, i, made);
    CountsStep(count, s, made, s[i]);
  }

  lemma {:induction false} PassSkips(s: seq<Conn>, i: nat, made: seq<Conn>, count: map<Key, nat>)
    requires i < |s| && PassState(s, i, made, count) && !NextInLine(made, s[i]) && !LooksUpMissing(s, i)
    ensures PassState(s, i + 1, made, count)
  {
    MadeStep(s, i, made);
  }

  /** The pass over the connections in the order of `sorted`. */
  method ConnectionsToMake(sorted: seq<Conn>, start: map<Key, nat>) returns (r: Binding)
    requires Counts(start, sorted, [])
    ensures r == KeyError || r == Bound(Made(sorted))
    ensures r.KeyError? <==> exists i :: 0 <= i < |sorted| && LooksUpMissing(sorted, i)
  {
    var made, count := [], start;
    for i := 0 to |sorted|
      invariant PassState(sorted, i, made, count)
    {
      var c := sorted[i];
      assert HasSource(sorted, KeyOf(c.from));
      if count[KeyOf(c.from)] == c.from.index {
        if KeyOf(c.to) !in count {
          assert LooksUpMissing(sorted, i);
          return KeyError;
        }
        if count[KeyOf(c.to)] == c.to.index {
          PassMakes(sorted, i, made, count);
          made := made + [c];
          count := Increment(Increment(count, KeyOf(c.from)), KeyOf(c.to));
        } else {
          PassSkips(sorted, i, made, count);
        }
      } else {
        PassSkips(sorted, i, made, count);
      }
    }
    assert sorted[..|sorted|] == sorted;
    r := Bound(made);
  }

  lemma {:induction false} PermutedCounts(count: map<Key, nat>, a: seq<Conn>, b: seq<Conn>)
    requires Counts(count, a, []) && multiset(a) == multiset(b)
    ensures Counts(count, b, [])
  {
    SameMembers(a, b);
    forall k ensures HasSource(a, k) <==> HasSource(b, k) {
    }
  }

  /** Binds the ports. `sorted` is the connection list in any order. */
  method BindPorts(connections: seq<Conn>, sorted: seq<Conn>) returns (r: Binding)
    requires multiset(sorted) == multiset(connections)
    ensures r.Bound? ==> r.made == Made(sorted)
    ensures r.KeyError? <==> exists i :: 0 <= i < |sorted| && LooksUpMissing(sorted, i)
    ensures !r.KeyError? ==> (r.Bound? <==> 2 * |Made(sorted)| == |connections|)
  {
    var count := StartCounts(connections);
    PermutedCounts(count, connections, sorted);
    r := ConnectionsToMake(sorted, count);
    if r.Bound? && |r.made| * 2 != |connections| {
      r := CannotBeOrdered;
    }
  }

  /** What a successful binding means for a well-formed connection list, whatever the order. */
  lemma {:induction false} BoundMeansAllOnce(connections: seq<Conn>, sorted: seq<Conn>)
    requires multiset(sorted) == multiset(connections)
    requires Irreflexive(connections) && Symmetric(connections) && Distinct(connections)
    requires 2 * |Made(sorted)| == |connections|
    ensures forall c :: c in connections ==> LinkMade(Made(sorted), c)
    ensures OneWay(Made(sorted))
    ensures Distinct(Made(sorted))
    ensures forall k :: Indices(Made(sorted), k) == UpTo(|Indices(Made(sorted), k)|)
  {
    SameMembers(sorted, connections);
    PermutationKeeps(connections, sorted);
    HalfMeansAll(sorted);
    NeverBothWays(sorted);
    forall k ensures Indices(Made(sorted), k) == UpTo(|Indices(Made(sorted), k)|) {
      BoundInIndexOrder(sorted, k);
    }
  }

  // ---- Sorting does not always help ----

  function P(obj: string, index: nat): Port {
    Port(obj, "p", index)
  }

  /** Links a[0]-b[1], b[0]-c[1] and c[0]-d[0], listed both ways. */
  function Staircase(a: string, b: string, c: string, d: string): seq<Conn> {
    [Conn(P(a, 0), P(b, 1)), Conn(P(b, 0), P(c, 1)), Conn(P(b, 1), P(a, 0)),
     Conn(P(c, 0), P(d, 0)), Conn(P(c, 1), P(b, 0)), Conn(P(d, 0), P(c, 0))]
  }

  function Regrouped(s: seq<Conn>): seq<Conn>
    requires |s| == 6
  {
    s[3..5] + s[2..3] + s[..2] + s[5..]
  }

  /** The same links in an order that can be bound. */
  function Unwound(a: string, b: string, c: string, d: string): seq<Conn> {
    Regrouped(Staircase(a, b, c, d))
  }

  /** Ports in the order of their object names, then of their indices. */
  predicate Less(rank: string -> int, p: Port, q: Port) {
    rank(p.obj) < rank(q.obj) || (p.obj == q.obj && p.name == q.name && p.index < q.index)
  }

  ghost predicate SortedUnder(rank: string -> int, s: seq<Conn>) {
    forall i :: 0 < i < |s| ==> Less(rank, s[i - 1].from, s[i].from)
  }

  lemma {:induction false} IndicesOfTwo(c: Conn, d: Conn, k: Key)
    ensures Indices([c], k) == IndexOn(c, k)
    ensures Indices([c, d], k) == IndexOn(c, k) + IndexOn(d, k)
  {
    IndicesSnoc([], c, k);
    IndicesSnoc([c], d, k);
  }

  lemma {:induction false} FirstInLine(c: Conn)
    ensures NextInLine([], c) <==> c.from.index == 0 && c.to.index == 0
  {
  }

  lemma {:induction false} StaircaseLine(a: string, b: string, c: string, d: string)
    requires a != b && a != c && a != d && b != c && b != d && c != d
    ensures var s := Staircase(a, b, c, d);
            NextInLine([s[3]], s[4]) && NextInLine([s[3], s[4]], s[2]) && !NextInLine([s[3], s[4]], s[5])
  {
    var s := Staircase(a, b, c, d);
    IndicesOfTwo(s[3], s[4], KeyOf(P(a, 0)));
    IndicesOfTwo(s[3], s[4], KeyOf(P(b, 0)));
    IndicesOfTwo(s[3], s[4], KeyOf(P(c, 0)));
    IndicesOfTwo(s[3], s[4], KeyOf(P(d, 0)));
  }

  /** A list of six whose fourth and fifth connections are the only ones ever next in line. */
  lemma {:induction false} OnlyTwoMade(s: seq<Conn>)
    requires |s| == 6 && NextInLine([], s[3]) && NextInLine([s[3]], s[4]) && !NextInLine([s[3], s[4]], s[5])
    requires !NextInLine([], s[0]) && !NextInLine([], s[1]) && !NextInLine([], s[2])
    ensures Made(s) == [s[3], s[4]]
  {
    MadeStep(s, 0, []);
    MadeStep(s, 1, []);
    MadeStep(s, 2, []);
    MadeStep(s, 3, []);
    MadeStep(s, 4, [s[3]]);
    MadeStep(s, 5, [s[3], s[4]]);
    assert s[..6] == s;
  }

  lemma {:induction false} StaircaseFails(a: string, b: string, c: string, d: string)
    requires a != b && a != c && a != d && b != c && b != d && c != d
    ensures |Made(Staircase(a, b, c, d))| == 2
  {
    var s := Staircase(a, b, c, d);
    StaircaseLine(a, b, c, d);
    FirstInLine(s[0]);
    FirstInLine(s[1]);
    FirstInLine(s[2]);
    FirstInLine(s[3]);
    OnlyTwoMade(s);
  }

  lemma {:induction false} MadeGrows(s: seq<Conn>, n: nat)
    requires n <= |s|
    ensures |Made(s[..n])| <= |Made(s)|
  {
    if n == |s| {
      assert s[..n] == s;
    } else {
      assert s[..|s| - 1][..n] == s[..n];
      MadeGrows(s[..|s| - 1], n);
    }
  }

  lemma {:induction false} ThreeMade(s: seq<Conn>)
    requires |s| >= 3 && NextInLine([], s[0]) && NextInLine([s[0]], s[1]) && NextInLine([s[0], s[1]], s[2])
    ensures |Made(s)| >= 3
  {
    MadeStep(s, 0, []);
    MadeStep(s, 1, [s[0]]);
    MadeStep(s, 2, [s[0], s[1]]);
    MadeGrows(s, 3);
  }

  lemma {:induction false} UnwoundBinds(a: string, b: string, c: string, d: string)
    requires a != b && a != c && a != d && b != c && b != d && c != d
    ensures |Made(Unwound(a, b, c, d))| >= 3
  {
    var s := Staircase(a, b, c, d);
    StaircaseLine(a, b, c, d);
    FirstInLine(s[3]);
    var t := Regrouped(s);
    assert t[0] == s[3] && t[1] == s[4] && t[2] == s[2];
    ThreeMade(t);
  }

  lemma {:induction false} StaircaseIsSymmetric(a: string, b: string, c: string, d: string)
    ensures Symmetric(Staircase(a, b, c, d))
  {
    var s := Staircase(a, b, c, d);
    assert Reverse(s[0]) == s[2] && Reverse(s[1]) == s[4] && Reverse(s[3]) == s[5];
    assert Reverse(s[2]) == s[0] && Reverse(s[4]) == s[1] && Reverse(s[5]) == s[3];
  }

  /** In a sorted list no two connections start at the same port. */
  lemma {:induction false} SortedFroms(rank: string -> int, s: seq<Conn>, i: nat, j: nat)
    requires SortedUnder(rank, s) && i < j < |s|
    ensures Less(rank, s[i].from, s[j].from)
    decreases j
  {
    if i < j - 1 {
      SortedFroms(rank, s, i, j - 1);
      assert Less(rank, s[j - 1].from, s[j].from);
    }
  }

  lemma {:induction false} SortedIsOnePeer(rank: string -> int, s: seq<Conn>)
    requires SortedUnder(rank, s)
    ensures Distinct(s) && OnePeer(s)
  {
    forall i: nat, j: nat | i < j < |s| ensures s[i].from != s[j].from {
      SortedFroms(rank, s, i, j);
    }
  }

  lemma {:induction false} RegroupedPermutes(s: seq<Conn>)
    requires |s| == 6
    ensures multiset(Regrouped(s)) == multiset(s)
  {
    assert s == s[..2] + s[2..3] + s[3..5] + s[5..];
  }

  lemma {:induction false} StaircaseIsSorted(rank: string -> int, a: string, b: string, c: string, d: string)
    requires rank(a) < rank(b) < rank(c) < rank(d)
    ensures SortedUnder(rank, Staircase(a, b, c, d)) && Irreflexive(Staircase(a, b, c, d))
  {
  }

  lemma {:induction false} BindableReordering(s: seq<Conn>, t: seq<Conn>)
    requires WellFormed(s) && multiset(t) == multiset(s) && |s| == 6 && |Made(t)| >= 3
    ensures 2 * |Made(t)| == |t|
  {
    SameMembers(s, t);
    PermutationKeeps(s, t);
    HalfMeansAll(t);
  }

  /** Being sorted does not make one of the two directions bindable: for any four ordered names
      this sorted list fails although the same links can be bound in another order. */
  lemma {:induction false} SortedListCanFail(rank: string -> int, a: string, b: string, c: string, d: string)
    requires rank(a) < rank(b) < rank(c) < rank(d)
    ensures WellFormed(Staircase(a, b, c, d)) && SortedUnder(rank, Staircase(a, b, c, d))
    ensures 2 * |Made(Staircase(a, b, c, d))| < |Staircase(a, b, c, d)|
    ensures multiset(Unwound(a, b, c, d)) == multiset(Staircase(a, b, c, d))
    ensures 2 * |Made(Unwound(a, b, c, d))| == |Unwound(a, b, c, d)|
  {
    StaircaseIsSorted(rank, a, b, c, d);
    StaircaseIsSymmetric(a, b, c, d);
    SortedIsOnePeer(rank, Staircase(a, b, c, d));
    StaircaseFails(a, b, c, d);
    RegroupedPermutes(Staircase(a, b, c, d));
    UnwoundBinds(a, b, c, d);
    BindableReordering(Staircase(a, b, c, d), Unwound(a, b, c, d));
  }
}
