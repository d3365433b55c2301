/**
 The text form of instruction-dependency traces: the printer of
 util/decode_inst_dep_trace.py and the parser of util/encode_inst_dep_trace.py. Field
 widths follow src/proto/inst_dep_record.proto.
 */
module DepTrace {
  import opened Collections
  import opened Text

  type U64 = n: nat | n < 0x1_0000_0000_0000_0000
  type U32 = n: nat | n < 0x1_0000_0000

  datatype Kind = INVALID | LOAD | STORE | COMP

  datatype Record = Record(
    seqNum: U64, pc: Option<U64>, weight: Option<U32>, kind: Kind,
    pAddr: Option<U64>, size: Option<U32>, flags: Option<U32>, compDelay: U64,
    robDep: seq<U64>, regDep: seq<U64>, vAddr: Option<U64>, asid: Option<U32>)

  // ---- Printing ----

  function KindName(k: Kind): string {
    match k
    case INVALID => "INVALID"
    case LOAD => "LOAD"
    case STORE => "STORE"
    case COMP => "COMP"
  }

  function Or(o: Option<nat>, default: nat): nat {
    if o.Some? then o.value else default
  }

  function Present(o: Option<nat>): seq<string> {
    if o.Some? then [Decimal(o.value)] else []
  }

  function Head(r: Record): (f: seq<string>)
    ensures |f| == 4
  {
    [Decimal(r.seqNum), Decimal(Or(r.pc, 0)), Decimal(Or(r.weight, 1)), KindName(r.kind)]
  }

  /** The comma-separated fields before the first colon. */
  function Fields(r: Record): (f: seq<string>)
    ensures f != []
  {
    Head(r) + Present(r.pAddr) + Present(r.size) + Present(r.flags) + [Decimal(r.compDelay)]
  }

  function DepText(deps: seq<nat>): string {
    if deps == [] then "" else DepText(deps[..|deps| - 1]) + "," + Decimal(deps[|deps| - 1])
  }

  function Body(r: Record): string {
    Join(',', Fields(r)) + ":" + DepText(r.robDep) + ":" + DepText(r.regDep)
  }

  method PrintOptional(text: string, o: Option<nat>) returns (text': string)
    ensures text' == text + if o.Some? then "," + Decimal(o.value) else ""
  {
    text' := text;
    if o.Some? {
      text' := text' + "," + Decimal(o.value);
    }
  }

  method PrintDeps(text: string, deps: seq<nat>) returns (text': string)
    ensures text' == text + DepText(deps)
  {
    text' := text;
    for i := 0 to |deps|
      invariant text' == text + DepText(deps[..i])
    {
      assert deps[..i + 1][..i] == deps[..i];
      text' := text' + "," + Decimal(deps[i]);
    }
    assert deps[..|deps|] == deps;
  }

  lemma {:induction false} JoinPresent(f: seq<string>, o: Option<nat>)
    requires f != []
    ensures Join(',', f + Present(o)) == Join(',', f) + if o.Some? then "," + Decimal(o.value) else ""
  {
    if o.Some? {
      JoinSnoc(',', f, Decimal(o.value));
    } else {
      assert f + Present(o) == f;
    }
  }

  lemma {:induction false} JoinHead(r: Record)
    ensures Join(',', Head(r)) == Decimal(r.seqNum) + "," + Decimal(Or(r.pc, 0)) + "," + Decimal(Or(r.weight, 1))
                                  + "," + KindName(r.kind)
  {
    var a := [Decimal(r.seqNum)];
    JoinSnoc(',', a, Decimal(Or(r.pc, 0)));
    var b := a + [Decimal(Or(r.pc, 0))];
    JoinSnoc(',', b, Decimal(Or(r.weight, 1)));
    JoinSnoc(',', b + [Decimal(Or(r.weight, 1))], KindName(r.kind));
    assert b + [Decimal(Or(r.weight, 1))] + [KindName(r.kind)] == Head(r);
  }

  method PrintHead(r: Record) returns (line: string)
    ensures line == Join(',', Head(r))
  {
    line := Decimal(r.seqNum);
    line := line + "," + (if r.pc.Some? then Decimal(r.pc.value) else "0");
    line := line + "," + (if r.weight.Some? then Decimal(r.weight.value) else "1");
    line := line + "," + KindName(r.kind);
    JoinHead(r);
  }

  method PrintFields(r: Record) returns (line: string)
    ensures line == Join(',', Fields(r))
  {
    line := PrintHead(r);
    line := PrintOptional(line, r.pAddr);
    JoinPresent(Head(r), r.pAddr);
    line := PrintOptional(line, r.size);
    JoinPresent(Head(r) + Present(r.pAddr), r.size);
    line := PrintOptional(line, r.flags);
    JoinPresent(Head(r) + Present(r.pAddr) + Present(r.size), r.flags);
    line := line + "," + Decimal(r.compDelay);
    JoinSnoc(',', Head(r) + Present(r.pAddr) + Present(r.size) + Present(r.flags), Decimal(r.compDelay));
  }

  /** One pass of the printing loop: the record's fields are written piece by piece. */
  method PrintRecord(text: string, r: Record) returns (text': string)
    ensures text' == text + Body(r) + "\n"
  {
    var line := PrintFields(r);
    line := PrintDeps(line + ":", r.robDep);
    line := PrintDeps(line + ":", r.regDep);
    text' := text + line + "\n";
  }

  lemma {:induction false} FieldsText(r: Record)
    ensures Join(',', Fields(r)) == Join(',', Head(r))
              + (if r.pAddr.Some? then "," + Decimal(r.pAddr.value) else "")
              + (if r.size.Some? then "," + Decimal(r.size.value) else "")
              + (if r.flags.Some? then "," + Decimal(r.flags.value) else "") + "," + Decimal(r.compDelay)
  {
    var a := Head(r) + Present(r.pAddr);
    var b := a + Present(r.size);
    JoinPresent(Head(r), r.pAddr);
    JoinPresent(a, r.size);
    JoinPresent(b, r.flags);
    JoinSnoc(',', b + Present(r.flags), Decimal(r.compDelay));
  }

  lemma {:induction false} DefaultText(o: Option<nat>, default: nat)
    requires default < 10
    ensures Decimal(Or(o, default)) == if o.Some? then Decimal(o.value) else [DigitOf(default)]
  {
  }

  lemma {:induction false} HeadText(r: Record)
    ensures Join(',', Head(r)) == Decimal(r.seqNum)
              + "," + (if r.pc.Some? then Decimal(r.pc.value) else "0")
              + "," + (if r.weight.Some? then Decimal(r.weight.value) else "1")
              + "," + (match r.kind case LOAD => "LOAD" case STORE => "STORE" case COMP => "COMP"
                                    case INVALID => "INVALID")
  {
    JoinHead(r);
    DefaultText(r.pc, 0);
    DefaultText(r.weight, 1);
    assert [DigitOf(0)] == "0" && [DigitOf(1)] == "1";
  }

  /** The line of a record, field by field: missing program counters are written as 0, missing weights
      as 1, and the other missing fields not at all. */
  lemma {:induction false} LineText(r: Record)
    ensures Body(r) == Decimal(r.seqNum)
              + "," + (if r.pc.Some? then Decimal(r.pc.value) else "0")
              + "," + (if r.weight.Some? then Decimal(r.weight.value) else "1")
              + "," + (match r.kind case LOAD => "LOAD" case STORE => "STORE" case COMP => "COMP"
                                    case INVALID => "INVALID")
              + (if r.pAddr.Some? then "," + Decimal(r.pAddr.value) else "")
              + (if r.size.Some? then "," + Decimal(r.size.value) else "")
              + (if r.flags.Some? then "," + Decimal(r.flags.value) else "") + "," + Decimal(r.compDelay)
              + ":" + DepText(r.robDep) + ":" + DepText(r.regDep)
  {
    FieldsText(r);
    HeadText(r);
  }

  function Decimals(deps: seq<nat>): seq<string> {
    seq(|deps|, i requires 0 <= i < |deps| => Decimal(deps[i]))
  }

  lemma {:induction false} Regroup(a: string, b: string)
    ensures ("," + a) + "," + b == "," + (a + [','] + b)
  {
  }

  /** Dependencies are written with a comma before each. */
  lemma {:induction false} DepTextIs(deps: seq<nat>)
    ensures DepText(deps) == if deps == [] then "" else "," + Join(',', Decimals(deps))
  {
    if deps != [] {
      var front, last := deps[..|deps| - 1], deps[|deps| - 1];
      DepTextIs(front);
      assert Decimals(deps) == Decimals(front) + [Decimal(last)];
      if front != [] {
        JoinSnoc(',', Decimals(front), Decimal(last));
        Regroup(Join(',', Decimals(front)), Decimal(last));
      } else {
        assert Decimals(front) == [];
      }
    }
  }

  // ---- Parsing ----

  function KindOf(s: string): Option<Kind> {
    if s == "INVALID" then Some(INVALID)
    else if s == "LOAD" then Some(LOAD)
    else if s == "STORE" then Some(STORE)
    else if s == "COMP" then Some(COMP)
    else None
  }

  /** `int(s)` stored in a 64-bit field; None models the ValueError. */
  function ToU64(s: string): Option<U64> {
    var v := ParseNat(s);
    if v.Some? && v.value < 0x1_0000_0000_0000_0000 then Some(v.value) else None
  }

  function ToU32(s: string): Option<U32> {
    var v := ParseNat(s);
    if v.Some? && v.value < 0x1_0000_0000 then Some(v.value) else None
  }

  /** The numbers among comma-separated parts; empty parts are skipped. */
  function DepsOf(parts: seq<string>): Option<seq<U64>> {
    if parts == [] then Some([])
    else
      var front := DepsOf(parts[..|parts| - 1]);
      var last := parts[|parts| - 1];
      if front.None? then None
      else if last == "" then front
      else
        var v := ToU64(last);
        if v.None? then None else Some(front.value + [v.value])
  }

  /** The fields before the first colon; fields beyond the last one read are ignored. */
  function InfoOf(f: seq<string>): Option<Record> {
    if |f| < 5 then None
    else
      var seqNum, pc, weight, kind := ToU64(f[0]), ToU64(f[1]), ToU32(f[2]), KindOf(f[3]);
      if seqNum.None? || pc.None? || weight.None? || kind.None? || kind.value == INVALID then None
      else if kind.value == LOAD || kind.value == STORE then
        if |f| < 8 then None
        else
          var pAddr, size, flags, delay := ToU64(f[4]), ToU32(f[5]), ToU32(f[6]), ToU64(f[7]);
          if pAddr.None? || size.None? || flags.None? || delay.None? then None
          else Some(Record(seqNum.value, pc, weight, kind.value, pAddr, size, flags, delay.value, [], [], None, None))
      else
        var delay := ToU64(f[4]);
        if delay.None? then None
        else Some(Record(seqNum.value, pc, weight, kind.value, None, None, None, delay.value, [], [], None, None))
  }

  function ParseLine(line: string): Option<Record> {
    var parts := Split(':', Strip(line));
    if |parts| != 3 then None
    else
      var info := InfoOf(Split(',', parts[0]));
      var rob := DepsOf(Split(',', Strip(parts[1])));
      var reg := DepsOf(Split(',', parts[2]));
      if info.None? || rob.None? || reg.None? then None
      else Some(info.value.(robDep := rob.value, regDep := reg.value))
  }

  /** Address, size and flags are there exactly for loads and stores, and nothing is set that
      the text has no field for. */
  predicate WellFormed(r: Record) {
    && r.kind != INVALID && r.vAddr.None? && r.asid.None?
    && (r.kind == COMP ==> r.pAddr.None? && r.size.None? && r.flags.None?)
    && (r.kind != COMP ==> r.pAddr.Some? && r.size.Some? && r.flags.Some?)
  }

  /** The record with the printer's defaults written out. */
  function Explicit(r: Record): Record {
    r.(pc := Some(if r.pc.Some? then r.pc.value else 0),
       weight := Some(if r.weight.Some? then r.weight.value else 1))
  }

  lemma {:induction false} ParsedIsWellFormed(line: string)
    ensures ParseLine(line).Some? ==> WellFormed(ParseLine(line).value)
  {
  }

  /** Which records are read from the fields before the first colon, field by field. */
  lemma {:induction false} InfoIs(f: seq<string>, r: Record)
    ensures InfoOf(f) == Some(r) <==>
      && |f| >= 5 && ToU64(f[0]) == Some(r.seqNum)
      && r.pc.Some? && ToU64(f[1]) == r.pc && r.weight.Some? && ToU32(f[2]) == r.weight
      && (f[3] == "LOAD" ==> r.kind == LOAD) && (f[3] == "STORE" ==> r.kind == STORE)
      && (f[3] == "COMP" ==> r.kind == COMP) && (f[3] == "LOAD" || f[3] == "STORE" || f[3] == "COMP")
      && (if r.kind == COMP
          then r.pAddr.None? && r.size.None? && r.flags.None? && ToU64(f[4]) == Some(r.compDelay)
          else && |f| >= 8 && r.pAddr.Some? && ToU64(f[4]) == r.pAddr && r.size.Some? && ToU32(f[5]) == r.size
               && r.flags.Some? && ToU32(f[6]) == r.flags && ToU64(f[7]) == Some(r.compDelay))
      && r.robDep == [] && r.regDep == [] && r.vAddr.None? && r.asid.None?
  {
    if |f| >= 5 {
      KindIs(f[3]);
    }
  }

  lemma {:induction false} KindIs(s: string)
    ensures KindOf(s) == Some(LOAD) <==> s == "LOAD"
    ensures KindOf(s) == Some(STORE) <==> s == "STORE"
    ensures KindOf(s) == Some(COMP) <==> s == "COMP"
    ensures KindOf(s) == Some(INVALID) <==> s == "INVALID"
  {
    if s == "COMP" {
      assert s[0] == 'C';
      assert s != "LOAD";
    }
  }

  /** A list of dependencies is read part by part, empty parts are skipped, and one that is no number
      of 64 bits makes the whole list fail. */
  lemma {:induction false} DepsAppend(parts: seq<string>, last: string)
    ensures DepsOf(parts + [last]) ==
      if DepsOf(parts).None? || (last != "" && ToU64(last).None?) then None
      else Some(DepsOf(parts).value + if last == "" then [] else [ToU64(last).value])
  {
    assert (parts + [last])[..|parts|] == parts;
    assert DepsOf(parts).Some? ==> DepsOf(parts).value + [] == DepsOf(parts).value;
  }

  lemma {:induction false} StrippedLine(x: string, y: string, z: string)
    requires (x == "" || !IsBlank(x[0])) && (z == "" || !IsBlank(z[|z| - 1]))
    ensures IsStripped(x + ":" + y + ":" + z)
  {
    var s := x + ":" + y + ":" + z;
    assert s[0] == if x == "" then ':' else x[0];
    assert s[|s| - 1] == if z == "" then ':' else z[|z| - 1];
  }

  lemma {:induction false} ThreeParts(x: string, y: string, z: string)
    requires ':' !in x && ':' !in y && ':' !in z
    ensures Split(':', x + ":" + y + ":" + z) == [x, y, z]
  {
    assert x + ":" + y + ":" + z == x + [':'] + (y + [':'] + z);
    SplitAtFirst(':', x, y + [':'] + z);
    SplitAtFirst(':', y, z);
    SplitNone(':', z);
  }

  /** A line has three parts between two colons; blanks at its ends and around the second part are
      ignored. */
  lemma {:induction false} LineIsRead(a: string, x: string, y: string, z: string, b: string)
    requires AllBlank(a) && AllBlank(b) && ':' !in x && ':' !in y && ':' !in z
    requires (x == "" || !IsBlank(x[0])) && (z == "" || !IsBlank(z[|z| - 1]))
    ensures var info := InfoOf(Split(',', x));
            var rob, reg := DepsOf(Split(',', Strip(y))), DepsOf(Split(',', z));
            ParseLine(a + (x + ":" + y + ":" + z) + b) ==
              if info.None? || rob.None? || reg.None? then None
              else Some(info.value.(robDep := rob.value, regDep := reg.value))
  {
    StrippedLine(x, y, z);
    StripBlanks(a, x + ":" + y + ":" + z, b);
    ThreeParts(x, y, z);
  }

  method ParseDeps(text: string) returns (deps: Option<seq<U64>>)
    ensures deps == DepsOf(Split(',', text))
  {
    var parts := Split(',', text);
    var found: seq<U64> := [];
    for i := 0 to |parts|
      invariant DepsOf(parts[..i]) == Some(found)
    {
      assert parts[..i + 1][..i] == parts[..i];
      if parts[i] != "" {
        var v := ToU64(parts[i]);
        if v.None? {
          DepsOfFails(parts, i + 1);
          return None;
        }
        found := found + [v.value];
      }
    }
    assert parts[..|parts|] == parts;
    deps := Some(found);
  }

  lemma {:induction false} DepsOfFails(parts: seq<string>, n: nat)
    requires n <= |parts| && DepsOf(parts[..n]).None?
    ensures DepsOf(parts).None?
  {
    if n == |parts| {
      assert parts[..n] == parts;
    } else {
      assert parts[..|parts| - 1][..n] == parts[..n];
      DepsOfFails(parts[..|parts| - 1], n);
    }
  }

  /** One pass of the parsing loop. */
  method ParseRecord(line: string) returns (r: Option<Record>)
    ensures r == ParseLine(line)
  {
    var parts := Split(':', Strip(line));
    if |parts| != 3 {
      return None;
    }
    var info := InfoOf(Split(',', parts[0]));
    if info.None? {
      return None;
    }
    var rob := ParseDeps(Strip(parts[1]));
    if rob.None? {
      return None;
    }
    var reg := ParseDeps(parts[2]);
    if reg.None? {
      return None;
    }
    r := Some(info.value.(robDep := rob.value, regDep := reg.value));
  }

  // ---- One line round trip ----

  /** Text in which no separator and no blank occurs. */
  predicate Plain(s: string) {
    forall i :: 0 <= i < |s| ==> s[i] != ',' && s[i] != ':' && !IsBlank(s[i])
  }

  predicate NoColonOrBlank(s: string) {
    forall i :: 0 <= i < |s| ==> s[i] != ':' && !IsBlank(s[i])
  }

  lemma {:induction false} SplitSnoc(s: string, t: string)
    requires Plain(t)
    ensures Split(',', s + "," + t) == Split(',', s) + [t]
  {
    var whole := s + "," + t;
    if s == "" {
      assert whole == "" + [','] + t;
      SplitAtFirst(',', "", t);
      SplitNone(',', t);
    } else {
      assert whole[1..] == s[1..] + "," + t;
      SplitSnoc(s[1..], t);
    }
  }

  lemma {:induction false} CleanConcat(s: string, t: string)
    requires NoColonOrBlank(s) && NoColonOrBlank(t)
    ensures NoColonOrBlank(s + "," + t)
  {
  }

  ghost predicate AllPlain(f: seq<string>) {
    forall i :: 0 <= i < |f| ==> Plain(f[i])
  }

  lemma {:induction false} JoinClean(f: seq<string>)
    requires f != [] && AllPlain(f)
    ensures NoColonOrBlank(Join(',', f))
  {
    if |f| == 1 {
      assert Plain(f[0]);
    } else {
      JoinClean(f[1..]);
      assert Plain(f[0]);
      CleanConcat(f[0], Join(',', f[1..]));
    }
  }

  lemma {:induction false} SplitFields(f: seq<string>)
    requires f != [] && AllPlain(f)
    ensures Split(',', Join(',', f)) == f
  {
    forall i | 0 <= i < |f| ensures ',' !in f[i] {
      assert Plain(f[i]);
    }
    SplitJoin(',', f);
  }

  lemma {:induction false} DecimalPlain(n: nat)
    ensures Plain(Decimal(n))
  {
  }

  lemma {:induction false} DepTextClean(deps: seq<nat>)
    ensures NoColonOrBlank(DepText(deps))
  {
    if deps != [] {
      DepTextClean(deps[..|deps| - 1]);
      DecimalPlain(deps[|deps| - 1]);
      CleanConcat(DepText(deps[..|deps| - 1]), Decimal(deps[|deps| - 1]));
    }
  }

  lemma {:induction false} DepsOfSnoc(parts: seq<string>, deps: seq<U64>, last: U64)
    requires DepsOf(parts) == Some(deps)
    ensures DepsOf(parts + [Decimal(last)]) == Some(deps + [last])
  {
    ParseDecimal(last);
    assert (parts + [Decimal(last)])[..|parts|] == parts;
  }

  lemma {:induction false} DepsRoundTrip(deps: seq<U64>)
    ensures DepsOf(Split(',', DepText(deps))) == Some(deps)
  {
    if deps == [] {
      assert DepsOf([""]) == Some([]);
    } else {
      var front, last := deps[..|deps| - 1], deps[|deps| - 1];
      DepsRoundTrip(front);
      DecimalPlain(last);
      SplitSnoc(DepText(front), Decimal(last));
      DepsOfSnoc(Split(',', DepText(front)), front, last);
      assert deps == front + [last];
    }
  }

  lemma {:induction false} PresentPlain(o: Option<nat>)
    ensures AllPlain(Present(o))
  {
    if o.Some? {
      DecimalPlain(o.value);
    }
  }

  lemma {:induction false} AllPlainConcat(f: seq<string>, g: seq<string>)
    requires AllPlain(f) && AllPlain(g)
    ensures AllPlain(f + g)
  {
  }

  lemma {:induction false} KindPlain(k: Kind)
    ensures Plain(KindName(k))
  {
  }

  lemma {:induction false} HeadPlain(r: Record)
    ensures AllPlain(Head(r))
  {
    DecimalPlain(r.seqNum);
    DecimalPlain(Or(r.pc, 0));
    DecimalPlain(Or(r.weight, 1));
    KindPlain(r.kind);
  }

  lemma {:induction false} FieldsPlain(r: Record)
    ensures AllPlain(Fields(r))
  {
    HeadPlain(r);
    PresentPlain(r.pAddr);
    PresentPlain(r.size);
    PresentPlain(r.flags);
    AllPlainConcat(Head(r), Present(r.pAddr));
    AllPlainConcat(Head(r) + Present(r.pAddr), Present(r.size));
    AllPlainConcat(Head(r) + Present(r.pAddr) + Present(r.size), Present(r.flags));
    DecimalPlain(r.compDelay);
    AllPlainConcat(Head(r) + Present(r.pAddr) + Present(r.size) + Present(r.flags), [Decimal(r.compDelay)]);
  }

  lemma {:induction false} DecimalFits(n: nat)
    ensures n < 0x1_0000_0000_0000_0000 ==> ToU64(Decimal(n)) == Some(n)
    ensures n < 0x1_0000_0000 ==> ToU32(Decimal(n)) == Some(n)
  {
    ParseDecimal(n);
  }

  lemma {:induction false} KindRoundTrip(k: Kind)
    ensures KindOf(KindName(k)) == Some(k)
  {
  }

  lemma {:induction false} HeadRoundTrip(r: Record)
    ensures var f := Head(r);
            && ToU64(f[0]) == Some(r.seqNum) && ToU64(f[1]) == Some(Or(r.pc, 0))
            && ToU32(f[2]) == Some(Or(r.weight, 1)) && KindOf(f[3]) == Some(r.kind)
  {
    DecimalFits(r.seqNum);
    DecimalFits(Or(r.pc, 0));
    DecimalFits(Or(r.weight, 1));
    KindRoundTrip(r.kind);
  }

  lemma {:induction false} AccessFields(r: Record)
    requires r.pAddr.Some? && r.size.Some? && r.flags.Some?
    ensures |Fields(r)| == 8 && Fields(r)[0] == Head(r)[0] && Fields(r)[1] == Head(r)[1]
    ensures Fields(r)[2] == Head(r)[2] && Fields(r)[3] == Head(r)[3]
    ensures ToU64(Fields(r)[4]) == r.pAddr && ToU32(Fields(r)[5]) == r.size
    ensures ToU32(Fields(r)[6]) == r.flags && ToU64(Fields(r)[7]) == Some(r.compDelay)
  {
    DecimalFits(r.pAddr.value);
    DecimalFits(r.size.value);
    DecimalFits(r.flags.value);
    DecimalFits(r.compDelay);
  }

  lemma {:induction false} AccessRoundTrip(r: Record)
    requires WellFormed(r) && r.kind != COMP
    ensures InfoOf(Fields(r)) == Some(Explicit(r).(robDep := [], regDep := []))
  {
    AccessFields(r);
    HeadRoundTrip(r);
  }

  lemma {:induction false} CompRoundTrip(r: Record)
    requires WellFormed(r) && r.kind == COMP
    ensures InfoOf(Fields(r)) == Some(Explicit(r).(robDep := [], regDep := []))
  {
    var f := Fields(r);
    assert |f| == 5 && f[..4] == Head(r) && f[4] == Decimal(r.compDelay);
    HeadRoundTrip(r);
    DecimalFits(r.compDelay);
  }

  lemma {:induction false} CleanParts(a: string, b: string, c: string)
    requires NoColonOrBlank(a) && NoColonOrBlank(b) && NoColonOrBlank(c)
    ensures ':' !in a && ':' !in b && ':' !in c && '\n' !in a + ":" + b + ":" + c
  {
    assert IsBlank('\n');
  }

  /** The body of a line has no newline, and neither end is blank. */
  lemma {:induction false} BodyShape(r: Record)
    ensures '\n' !in Body(r) && Strip(Body(r)) == Body(r)
    ensures Split(':', Body(r)) == [Join(',', Fields(r)), DepText(r.robDep), DepText(r.regDep)]
  {
    var info, rob, reg := Join(',', Fields(r)), DepText(r.robDep), DepText(r.regDep);
    FieldsPlain(r);
    JoinClean(Fields(r));
    DepTextClean(r.robDep);
    DepTextClean(r.regDep);
    CleanParts(info, rob, reg);
    ThreeParts(info, rob, reg);
    StrippedLine(info, rob, reg);
    StripNothing(Body(r));
  }

  lemma {:induction false} ParsePrinted(r: Record)
    requires WellFormed(r)
    ensures ParseLine(Body(r)) == Some(Explicit(r))
  {
    BodyShape(r);
    FieldsPlain(r);
    SplitFields(Fields(r));
    if r.kind == COMP {
      CompRoundTrip(r);
    } else {
      AccessRoundTrip(r);
    }
    DepsRoundTrip(r.robDep);
    DepsRoundTrip(r.regDep);
    DepTextStripped(r.robDep);
  }

  /** Parsing a printed line gives the record back, with defaults written out, exactly for
      well-formed records. */
  lemma {:induction false} LineRoundTrip(r: Record)
    ensures ParseLine(Body(r)) == Some(Explicit(r)) <==> WellFormed(r)
  {
    ParsedIsWellFormed(Body(r));
    if WellFormed(r) {
      ParsePrinted(r);
    }
  }

  lemma {:induction false} AddressedInfo(r: Record)
    requires r.kind == COMP && r.pAddr.Some? && r.size.None? && r.flags.None?
    ensures InfoOf(Fields(r)) == Some(Record(r.seqNum, Explicit(r).pc, Explicit(r).weight, COMP, None, None, None,
                                             r.pAddr.value, [], [], None, None))
  {
    var f := Fields(r);
    assert |f| == 6 && f[..4] == Head(r) && f[4] == Decimal(r.pAddr.value);
    HeadRoundTrip(r);
    DecimalFits(r.pAddr.value);
  }

  /** A computation record with an address is accepted, and its address is read as its delay. */
  lemma {:induction false} AddressReadAsDelay(r: Record)
    requires r.kind == COMP && r.pAddr.Some? && r.size.None? && r.flags.None?
    ensures ParseLine(Body(r))
         == Some(Explicit(r).(pAddr := None, compDelay := r.pAddr.value, vAddr := None, asid := None))
  {
    BodyShape(r);
    FieldsPlain(r);
    SplitFields(Fields(r));
    AddressedInfo(r);
    DepsRoundTrip(r.robDep);
    DepsRoundTrip(r.regDep);
    DepTextStripped(r.robDep);
  }

  lemma {:induction false} DepTextStripped(deps: seq<nat>)
    ensures Strip(DepText(deps)) == DepText(deps)
  {
    DepTextClean(deps);
    StripNothing(DepText(deps));
  }

  // ---- Whole files ----

  function Bodies(rs: seq<Record>): seq<string> {
    seq(|rs|, i requires 0 <= i < |rs| => Body(rs[i]))
  }

  function PrintFile(rs: seq<Record>): string {
    Unlines(Bodies(rs))
  }

  /** The lines of a text file; the part after the last newline counts when it is not empty. */
  function LinesOf(text: string): seq<string> {
    var parts := Split('\n', text);
    if parts[|parts| - 1] == "" then parts[..|parts| - 1] else parts
  }

  function ParseLines(lines: seq<string>): Option<seq<Record>> {
    if lines == [] then Some([])
    else
      var front := ParseLines(lines[..|lines| - 1]);
      var last := ParseLine(lines[|lines| - 1]);
      if front.None? || last.None? then None else Some(front.value + [last.value])
  }

  lemma {:induction false} PrintFileSnoc(rs: seq<Record>, r: Record)
    ensures PrintFile(rs + [r]) == PrintFile(rs) + Body(r) + "\n"
  {
    assert Bodies(rs + [r]) == Bodies(rs) + [Body(r)];
    UnlinesSnoc(Bodies(rs), Body(r));
  }

  method PrintRecords(rs: seq<Record>) returns (text: string)
    ensures text == PrintFile(rs)
  {
    text := "";
    for n := 0 to |rs|
      invariant text == PrintFile(rs[..n])
    {
      assert rs[..n + 1] == rs[..n] + [rs[n]];
      PrintFileSnoc(rs[..n], rs[n]);
      text := PrintRecord(text, rs[n]);
    }
    assert rs[..|rs|] == rs;
  }

  lemma {:induction false} ParseLinesStep(lines: seq<string>, n: nat, found: seq<Record>)
    requires n < |lines| && ParseLines(lines[..n]) == Some(found)
    ensures ParseLines(lines[..n + 1])
         == if ParseLine(lines[n]).None? then None else Some(found + [ParseLine(lines[n]).value])
  {
    assert lines[..n + 1][..n] == lines[..n];
  }

  method ParseRecords(text: string) returns (rs: Option<seq<Record>>)
    ensures rs == ParseLines(LinesOf(text))
  {
    var lines := LinesOf(text);
    var found: seq<Record> := [];
    for n := 0 to |lines|
      invariant ParseLines(lines[..n]) == Some(found)
    {
      ParseLinesStep(lines, n, found);
      var r := ParseRecord(lines[n]);
      if r.None? {
        ParseLinesFails(lines, n + 1);
        return None;
      }
      found := found + [r.value];
    }
    assert lines[..|lines|] == lines;
    rs := Some(found);
  }

  lemma {:induction false} ParseLinesFails(lines: seq<string>, n: nat)
    requires n <= |lines| && ParseLines(lines[..n]).None?
    ensures ParseLines(lines).None?
  {
    if n == |lines| {
      assert lines[..n] == lines;
    } else {
      assert lines[..|lines| - 1][..n] == lines[..n];
      ParseLinesFails(lines[..|lines| - 1], n);
    }
  }

  /** The lines of a text file, whether or not its last line ends in a newline. */
  lemma {:induction false} LinesAre(lines: seq<string>, last: string)
    requires '\n' !in last && forall i :: 0 <= i < |lines| ==> '\n' !in lines[i]
    ensures LinesOf(Unlines(lines) + last) == if last == "" then lines else lines + [last]
  {
    SplitUnlines(lines, last);
    assert (lines + [last])[..|lines|] == lines;
  }

  lemma {:induction false} LinesOfPrinted(rs: seq<Record>)
    ensures LinesOf(PrintFile(rs)) == Bodies(rs)
  {
    forall i | 0 <= i < |rs| ensures '\n' !in Bodies(rs)[i] {
      BodyShape(rs[i]);
    }
    assert PrintFile(rs) + "" == PrintFile(rs);
    LinesAre(Bodies(rs), "");
  }

  function ExplicitAll(rs: seq<Record>): seq<Record> {
    seq(|rs|, i requires 0 <= i < |rs| => Explicit(rs[i]))
  }

  ghost predicate AllWellFormed(rs: seq<Record>) {
    forall r :: r in rs ==> WellFormed(r)
  }

  lemma {:induction false} AllWellFormedSnoc(rs: seq<Record>, r: Record)
    ensures AllWellFormed(rs + [r]) <==> AllWellFormed(rs) && WellFormed(r)
  {
    assert r in rs + [r] && forall x :: x in rs ==> x in rs + [r];
  }

  lemma {:induction false} ParseLinesSnoc(lines: seq<string>, line: string, rs: seq<Record>, r: Record)
    ensures ParseLines(lines + [line]) == Some(rs + [r])
       <==> ParseLines(lines) == Some(rs) && ParseLine(line) == Some(r)
  {
    assert (lines + [line])[..|lines|] == lines;
    SnocEqual(ParseLines(lines), rs, ParseLine(line), r);
  }

  ghost predicate RoundTrips(rs: seq<Record>) {
    ParseLines(Bodies(rs)) == Some(ExplicitAll(rs))
  }

  lemma {:induction false} RoundTripsSnoc(rs: seq<Record>, r: Record)
    ensures RoundTrips(rs + [r]) <==> RoundTrips(rs) && ParseLine(Body(r)) == Some(Explicit(r))
  {
    assert Bodies(rs + [r]) == Bodies(rs) + [Body(r)];
    assert ExplicitAll(rs + [r]) == ExplicitAll(rs) + [Explicit(r)];
    ParseLinesSnoc(Bodies(rs), Body(r), ExplicitAll(rs), Explicit(r));
  }

  lemma {:induction false} BodiesRoundTrip(rs: seq<Record>)
    ensures RoundTrips(rs) <==> AllWellFormed(rs)
  {
    if rs == [] {
      assert ExplicitAll(rs) == [];
    } else {
      var front, last := rs[..|rs| - 1], rs[|rs| - 1];
      assert rs == front + [last];
      BodiesRoundTrip(front);
      LineRoundTrip(last);
      AllWellFormedSnoc(front, last);
      RoundTripsSnoc(front, last);
    }
  }

  lemma {:induction false} SnocEqual(a: Option<seq<Record>>, b: seq<Record>, x: Option<Record>, y: Record)
    ensures (a.Some? && x.Some? && a.value + [x.value] == b + [y]) <==> a == Some(b) && x == Some(y)
  {
    if a.Some? && x.Some? && a.value + [x.value] == b + [y] {
      assert |a.value| == |b|;
      assert a.value == (a.value + [x.value])[..|b|] == b;
      assert x.value == (b + [y])[|b|];
    }
  }

  /** Printing records and parsing the file gives them all back exactly when all are well-formed. */
  lemma {:induction false} FileRoundTrip(rs: seq<Record>)
    ensures ParseLines(LinesOf(PrintFile(rs))) == Some(ExplicitAll(rs)) <==> AllWellFormed(rs)
  {
    LinesOfPrinted(rs);
    BodiesRoundTrip(rs);
  }
}
