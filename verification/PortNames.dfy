/**
 Port names in a configuration file (configs/example/read_config.py): printing and parsing
 `object.port[index]`, and gathering the connections of all objects.
 */
module PortNames {
  import opened Collections
  import opened Text
  import opened PortBinding

  predicate EndsName(c: char) {
    c == '.' || c == '['
  }

  /** A name the pattern's second group can match: nonempty, without dots and brackets. */
  predicate IsPortName(s: string) {
    s != "" && forall i :: 0 <= i < |s| ==> !EndsName(s[i])
  }

  /** `PortConnection.__str__` */
  function Print(p: Port): string {
    p.obj + "." + p.name + "[" + Decimal(p.index) + "]"
  }

  /** Whether the pattern's dot can match at `i`: a port name starts right after it, and what comes
      before is one line, since the first group does not match newlines. */
  predicate DotAt(s: string, i: nat) {
    i + 1 < |s| && s[i] == '.' && !EndsName(s[i + 1]) && OneLine(s[..i])
  }

  predicate OneLine(s: string) {
    forall i :: 0 <= i < |s| ==> s[i] != '\n'
  }

  /** The last such dot below `n`; the object name is matched greedily. */
  function LastDot(s: string, n: nat): (r: Option<nat>)
    ensures r.Some? ==> r.value < n && DotAt(s, r.value)
    ensures r.Some? ==> forall i :: r.value < i < n ==> !DotAt(s, i)
    ensures r.None? ==> forall i :: 0 <= i < n ==> !DotAt(s, i)
  {
    if n == 0 then None else if DotAt(s, n - 1) then Some(n - 1) else LastDot(s, n - 1)
  }

  /** The first position from `i` on where `stop` holds, or the end. */
  function EndOf(stop: char -> bool, s: string, i: nat): (e: nat)
    requires i <= |s|
    ensures i <= e <= |s|
    ensures forall k :: i <= k < e ==> !stop(s[k])
    ensures e < |s| ==> stop(s[e])
    decreases |s| - i
  {
    if i == |s| || stop(s[i]) then i else EndOf(stop, s, i + 1)
  }

  const NameStops: char -> bool := (c: char) => EndsName(c)
  const NoDigit: char -> bool := (c: char) => !IsDigit(c)

  /** The optional `[index]` at position `i`; 0 when the text there is not an index. */
  function IndexAt(s: string, i: nat): nat
    requires i <= |s|
  {
    if i < |s| && s[i] == '[' then
      var e := EndOf(NoDigit, s, i + 1);
      assert AllDigits(s[i + 1..e]);
      if e > i + 1 && e < |s| && s[e] == ']' then Value(s[i + 1..e]) else 0
    else 0
  }

  /** `PortConnection.from_string`; None models the failed match. */
  function Parse(s: string): Option<Port> {
    match LastDot(s, |s|)
    case None => None
    case Some(dot) =>
      var e := EndOf(NameStops, s, dot + 1);
      Some(Port(s[..dot], s[dot + 1..e], IndexAt(s, e)))
  }

  lemma {:induction false} ParsedNames(s: string)
    ensures Parse(s).Some? ==> IsPortName(Parse(s).value.name) && OneLine(Parse(s).value.obj)
    ensures Parse(s).None? <==> forall i :: 0 <= i < |s| ==> !DotAt(s, i)
  {
  }

  lemma {:induction false} LastDotIs(s: string, n: nat, d: nat)
    requires d < n <= |s| && DotAt(s, d) && forall i :: d < i < n ==> !DotAt(s, i)
    ensures LastDot(s, n) == Some(d)
  {
  }

  lemma {:induction false} EndOfIs(stop: char -> bool, s: string, i: nat, e: nat)
    requires i <= e < |s| && stop(s[e]) && forall k :: i <= k < e ==> !stop(s[k])
    ensures EndOf(stop, s, i) == e
  {
  }

  /** What may follow the port name: nothing, or a bracket and then no dot. */
  predicate IsRest(t: string) {
    (t == "" || t[0] == '[') && '.' !in t
  }

  /** `t` begins with a number in brackets, which ends before position `e`. */
  predicate IndexEndsAt(t: string, e: nat) {
    2 <= e < |t| && t[0] == '[' && t[e] == ']' && AllDigits(t[1..e])
  }

  lemma {:induction false} NamedParts(obj: string, name: string, t: string)
    requires OneLine(obj) && IsPortName(name) && IsRest(t)
    ensures var s, d := obj + "." + name + t, |obj|; var e := d + 1 + |name|;
            && LastDot(s, |s|) == Some(d) && EndOf(NameStops, s, d + 1) == e
            && s[..d] == obj && s[d + 1..e] == name && s[e..] == t
  {
    var s, d := obj + "." + name + t, |obj|;
    var e := d + 1 + |name|;
    assert s[..d] == obj && s[d] == '.' && s[d + 1..e] == name && s[e..] == t;
    forall k | d < k < e ensures !EndsName(s[k]) {
      assert s[k] == s[d + 1..e][k - d - 1];
    }
    forall k | e <= k < |s| ensures s[k] != '.' {
      assert s[k] == s[e..][k - e];
    }
    LastDotIs(s, |s|, d);
    if t == "" {
      NoStop(NameStops, s, d + 1);
    } else {
      assert s[e] == s[e..][0];
      EndOfIs(NameStops, s, d + 1, e);
    }
  }

  lemma {:induction false} NoStop(stop: char -> bool, s: string, i: nat)
    requires i <= |s| && forall k :: i <= k < |s| ==> !stop(s[k])
    ensures EndOf(stop, s, i) == |s|
  {
  }

  lemma {:induction false} IndexOfRest(s: string, i: nat)
    requires i <= |s|
    ensures IndexAt(s, i) == IndexAt(s[i..], 0)
  {
    var t := s[i..];
    if i < |s| && s[i] == '[' {
      var e := EndOf(NoDigit, t, 1);
      EndOfShift(NoDigit, s, i, 1);
      assert s[i + 1..i + e] == t[1..e];
    }
  }

  lemma {:induction false} EndOfShift(stop: char -> bool, s: string, i: nat, k: nat)
    requires i + k <= |s|
    ensures EndOf(stop, s, i + k) == i + EndOf(stop, s[i..], k)
    decreases |s| - k
  {
    if i + k < |s| && !stop(s[i + k]) {
      EndOfShift(stop, s, i, k + 1);
    }
  }

  lemma {:induction false} IndexIs(t: string, e: nat)
    requires IndexEndsAt(t, e)
    ensures IndexAt(t, 0) == Value(t[1..e])
  {
    forall k | 1 <= k < e ensures IsDigit(t[k]) {
      assert t[k] == t[1..e][k - 1];
    }
    EndOfIs(NoDigit, t, 1, e);
  }

  lemma {:induction false} NoIndex(t: string)
    requires forall e: nat :: !IndexEndsAt(t, e)
    ensures IndexAt(t, 0) == 0
  {
    if t != "" && t[0] == '[' {
      var e := EndOf(NoDigit, t, 1);
      assert AllDigits(t[1..e]);
      assert !IndexEndsAt(t, e);
    }
  }

  /** A port is read with the number in brackets after its name, whatever follows that. */
  lemma {:induction false} ParseIndexed(obj: string, name: string, t: string, e: nat)
    requires OneLine(obj) && IsPortName(name) && IsRest(t) && IndexEndsAt(t, e)
    ensures Parse(obj + "." + name + t) == Some(Port(obj, name, Value(t[1..e])))
  {
    NamedParts(obj, name, t);
    IndexOfRest(obj + "." + name + t, |obj| + 1 + |name|);
    IndexIs(t, e);
  }

  /** A port without a number in brackets after its name is read with index 0. */
  lemma {:induction false} ParseUnindexed(obj: string, name: string, t: string)
    requires OneLine(obj) && IsPortName(name) && IsRest(t) && forall e: nat :: !IndexEndsAt(t, e)
    ensures Parse(obj + "." + name + t) == Some(Port(obj, name, 0))
  {
    NamedParts(obj, name, t);
    IndexOfRest(obj + "." + name + t, |obj| + 1 + |name|);
    NoIndex(t);
  }

  lemma {:induction false} ParsePrinted(p: Port)
    requires IsPortName(p.name) && OneLine(p.obj)
    ensures Parse(Print(p)) == Some(p)
  {
    var digits := Decimal(p.index);
    var t := "[" + digits + "]";
    assert Print(p) == p.obj + "." + p.name + t && t[1..1 + |digits|] == digits;
    ParseIndexed(p.obj, p.name, t, 1 + |digits|);
    ValueOfDecimal(p.index);
  }

  /** Printing a port and parsing it back gives the same port exactly for nonempty port names without
      dots and opening brackets, on objects whose name is one line. */
  lemma {:induction false} PrintThenParse(p: Port)
    ensures Parse(p.obj + "." + p.name + "[" + Decimal(p.index) + "]") == Some(p)
       <==> p.name != "" && '.' !in p.name && '[' !in p.name && '\n' !in p.obj
  {
    assert IsPortName(p.name) <==> p.name != "" && '.' !in p.name && '[' !in p.name;
    assert OneLine(p.obj) <==> '\n' !in p.obj;
    ParsedNames(Print(p));
    if IsPortName(p.name) && OneLine(p.obj) {
      ParsePrinted(p);
    }
  }

  /** A dot in a port name moves the border between object and port. */
  lemma {:induction false} DottedNameIsSplit(obj: string, a: string, b: string, index: nat)
    requires OneLine(obj) && OneLine(a) && IsPortName(b)
    ensures Parse(Print(Port(obj, a + "." + b, index))) == Some(Port(obj + "." + a, b, index))
  {
    assert Print(Port(obj, a + "." + b, index)) == Print(Port(obj + "." + a, b, index));
    ParsePrinted(Port(obj + "." + a, b, index));
  }

  // ---- Gathering the connections ----

  datatype PortPeers = PortPeers(name: string, peers: seq<string>)
  datatype ObjectPorts = ObjectPorts(name: string, ports: seq<PortPeers>)

  /** Connection `c` is what the configuration lists at index `c.from.index` of a port. */
  ghost predicate Listed(o: ObjectPorts, port: PortPeers, c: Conn) {
    && c.from.obj == o.name && c.from.name == port.name
    && c.from.index < |port.peers| && Parse(port.peers[c.from.index]) == Some(c.to)
  }

  ghost predicate ListedIn(o: ObjectPorts, n: nat, c: Conn)
    requires n <= |o.ports|
  {
    exists p :: 0 <= p < n && Listed(o, o.ports[p], c)
  }

  ghost predicate ListedBy(objects: seq<ObjectPorts>, n: nat, c: Conn)
    requires n <= |objects|
  {
    exists o :: 0 <= o < n && ListedIn(objects[o], |objects[o].ports|, c)
  }

  ghost predicate FromsDistinct(conns: seq<Conn>) {
    forall i, j :: 0 <= i < j < |conns| ==> conns[i].from != conns[j].from
  }

  ghost predicate AllParse(o: ObjectPorts) {
    forall p, i :: 0 <= p < |o.ports| && 0 <= i < |o.ports[p].peers| ==> Parse(o.ports[p].peers[i]).Some?
  }

  /** Object names and the port names of an object are dictionary keys, so they do not repeat. */
  ghost predicate UniqueNames(objects: seq<ObjectPorts>) {
    && (forall i, j :: 0 <= i < j < |objects| ==> objects[i].name != objects[j].name)
    && (forall o, i, j :: 0 <= o < |objects| && 0 <= i < j < |objects[o].ports| ==>
          objects[o].ports[i].name != objects[o].ports[j].name)
  }

  method GatherPort(o: ObjectPorts, port: PortPeers) returns (r: Option<seq<Conn>>)
    ensures r.Some? <==> forall i :: 0 <= i < |port.peers| ==> Parse(port.peers[i]).Some?
    ensures r.Some? ==> FromsDistinct(r.value) && forall c :: c in r.value <==> Listed(o, port, c)
  {
    var conns: seq<Conn> := [];
    for i := 0 to |port.peers|
      invariant |conns| == i
      invariant forall k :: 0 <= k < i ==> Parse(port.peers[k]) == Some(conns[k].to)
      invariant forall k :: 0 <= k < i ==> conns[k].from == Port(o.name, port.name, k)
    {
      var peer := Parse(port.peers[i]);
      if peer.None? {
        return None;
      }
      conns := conns + [Conn(Port(o.name, port.name, i), peer.value)];
    }
    forall c | Listed(o, port, c) ensures c in conns {
      assert conns[c.from.index] == c;
    }
    r := Some(conns);
  }

  method GatherObject(o: ObjectPorts) returns (r: Option<seq<Conn>>)
    requires forall i, j :: 0 <= i < j < |o.ports| ==> o.ports[i].name != o.ports[j].name
    ensures r.Some? <==> AllParse(o)
    ensures r.Some? ==> FromsDistinct(r.value) && forall c :: c in r.value <==> ListedIn(o, |o.ports|, c)
  {
    var conns: seq<Conn> := [];
    for p := 0 to |o.ports|
      invariant forall q, i :: 0 <= q < p && 0 <= i < |o.ports[q].peers| ==> Parse(o.ports[q].peers[i]).Some?
      invariant FromsDistinct(conns) && forall c :: c in conns <==> ListedIn(o, p, c)
    {
      var some := GatherPort(o, o.ports[p]);
      if some.None? {
        return None;
      }
      FromsStayDistinct(conns, some.value);
      conns := conns + some.value;
    }
    r := Some(conns);
  }

  /** Concatenation keeps source ports distinct when no source port occurs in both parts. */
  lemma {:induction false} FromsStayDistinct(a: seq<Conn>, b: seq<Conn>)
    requires FromsDistinct(a) && FromsDistinct(b) && forall c, d :: c in a && d in b ==> c.from != d.from
    ensures FromsDistinct(a + b)
  {
  }

  /** All connections of the configuration: each source port index occurs once. */
  method GatherAll(objects: seq<ObjectPorts>) returns (r: Option<seq<Conn>>)
    requires UniqueNames(objects)
    ensures r.Some? <==> forall o :: 0 <= o < |objects| ==> AllParse(objects[o])
    ensures r.Some? ==> OnePeer(r.value) && Distinct(r.value)
    ensures r.Some? ==> forall c :: c in r.value <==> ListedBy(objects, |objects|, c)
  {
    var conns: seq<Conn> := [];
    for o := 0 to |objects|
      invariant forall k :: 0 <= k < o ==> AllParse(objects[k])
      invariant FromsDistinct(conns) && forall c :: c in conns <==> ListedBy(objects, o, c)
    {
      var some := GatherObject(objects[o]);
      if some.None? {
        return None;
      }
      FromsStayDistinct(conns, some.value);
      conns := conns + some.value;
    }
    r := Some(conns);
  }
}
