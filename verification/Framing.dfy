/**
 Length-prefixed message files (util/protolib.py): base-128 varints as in the section
 "Base 128 Varints" of the Protocol Buffers encoding specification, and the message
 stream built from them. A message is its serialised bytes.
 */
module Framing {

  import opened Collections

  const TWO_32: nat := 0x1_0000_0000
  const TWO_63: nat := 0x8000_0000_0000_0000
  const TWO_64: nat := 0x1_0000_0000_0000_0000
  const TWO_70: nat := 0x40_0000_0000_0000_0000

  // ---- Bitwise or and shifts on unbounded integers ----

  function Pow2(k: nat): (r: nat)
    ensures r > 0
  {
    if k == 0 then 1 else 2 * Pow2(k - 1)
  }

  /** `a | b` */
  function BitOr(a: nat, b: nat): nat
    decreases a + b
  {
    if a == 0 && b == 0 then 0
    else 2 * BitOr(a / 2, b / 2) + if a % 2 == 1 || b % 2 == 1 then 1 else 0
  }

  /** `b << k` */
  function ShiftLeft(b: nat, k: nat): nat {
    b * Pow2(k)
  }

  lemma {:induction false} BitOrZero(b: nat)
    ensures BitOr(0, b) == b
  {
    if b > 0 {
      BitOrZero(b / 2);
    }
  }

  /** Bits that do not overlap are added: the or of shifted groups is their sum. */
  lemma {:induction false} OrIsSum(a: nat, b: nat, k: nat)
    requires a < Pow2(k)
    ensures BitOr(a, ShiftLeft(b, k)) == a + ShiftLeft(b, k)
  {
    if k == 0 {
      BitOrZero(b);
    } else {
      var half := ShiftLeft(b, k - 1);
      assert ShiftLeft(b, k) == 2 * half;
      OrIsSum(a / 2, b, k - 1);
      if a == 0 && half == 0 {
        assert BitOr(a, 2 * half) == 0;
      } else {
        assert BitOr(a, 2 * half) == 2 * BitOr(a / 2, half) + a % 2;
      }
    }
  }

  lemma {:induction false} Pow2Add(j: nat, k: nat)
    ensures Pow2(j + k) == Pow2(j) * Pow2(k)
  {
    if j > 0 {
      Pow2Add(j - 1, k);
      assert Pow2(j + k) == 2 * (Pow2(j - 1) * Pow2(k));
    }
  }

  lemma {:induction false} Pow2Group(n: nat)
    ensures Pow2(7 * (n + 1)) == 128 * Pow2(7 * n)
  {
    Pow2Add(7, 7 * n);
    assert Pow2(7) == 128;
  }

  // ---- Varints ----

  function Varint(v: nat): (s: seq<Byte>)
    ensures s != []
  {
    if v < 128 then [v] else [128 + v % 128] + Varint(v / 128)
  }

  lemma {:induction false} HighBit(bits: nat)
    requires bits < 128
    ensures BitOr(bits, 0x80) == 128 + bits
  {
    assert Pow2(7) == 128;
    assert ShiftLeft(1, 7) == 0x80;
    OrIsSum(bits, 1, 7);
  }

  /** `0x80 | bits` */
  function WithHighBit(bits: nat): (b: Byte)
    requires bits < 128
    ensures b == 128 + bits
  {
    HighBit(bits);
    BitOr(bits, 0x80)
  }

  lemma {:induction false} VarintStep(bits: nat, rest: nat)
    requires bits < 128 && rest > 0
    ensures Varint(bits + 128 * rest) == [128 + bits] + Varint(rest)
    ensures rest % 128 + 128 * (rest / 128) == rest
  {
    assert (bits + 128 * rest) / 128 == rest && (bits + 128 * rest) % 128 == bits;
  }

  /** `_EncodeVarint32` */
  method EncodeVarint(value: nat) returns (out: seq<Byte>)
    ensures out == Varint(value)
  {
    out := [];
    var bits, rest := value % 128, value / 128;
    ghost var whole: nat := value;
    while rest != 0
      invariant 0 <= bits < 128 && 0 <= rest
      invariant out + Varint(whole) == Varint(value) && whole == bits + 128 * rest
      decreases rest
    {
      VarintStep(bits, rest);
      out := out + [WithHighBit(bits)];
      whole := rest;
      bits, rest := rest % 128, rest / 128;
    }
    out := out + [bits];
  }

  datatype Decoded = Value(value: int, used: nat) | EndOfFile | TooManyBytes

  /** The final reduction to 32 bits; from 2^63 on it yields a negative number, since
      or-ing with the complement of the mask sets every bit above bit 31. */
  function Reduce(v: nat): int {
    if v >= TWO_63 then (v - TWO_64) % TWO_32 - TWO_32 else v % TWO_32
  }

  /** Decoding from the front of `s`, after `n` bytes that contributed `acc`. */
  function DecodeFrom(s: seq<Byte>, acc: nat, n: nat): Decoded {
    if s == [] then EndOfFile
    else
      var acc' := BitOr(acc, ShiftLeft(s[0] % 128, 7 * n));
      if s[0] < 128 then Value(Reduce(acc'), n + 1)
      else if 7 * (n + 1) >= 64 then TooManyBytes
      else DecodeFrom(s[1..], acc', n + 1)
  }

  /** A file open for reading. */
  class InFile {
    const data: seq<Byte>
    var pos: nat

    ghost predicate Valid()
      reads this
    {
      pos <= |data|
    }

    function Rest(): seq<Byte>
      requires Valid()
      reads this
    {
      data[pos..]
    }

    constructor (data: seq<Byte>)
      ensures Valid() && Rest() == data
    {
      this.data := data;
      pos := 0;
    }

    /** `read(n)`: at most `n` bytes, or everything for -1; below that `read` raises ValueError. */
    method Read(n: int) returns (buf: seq<Byte>)
      requires Valid() && n >= -1
      modifies this
      ensures Valid()
      ensures buf == Taken(n, old(Rest())) && Rest() == old(Rest())[|buf|..]
    {
      var k := |Taken(n, data[pos..])|;
      buf := data[pos..pos + k];
      pos := pos + k;
    }
  }

  function Taken(n: int, s: seq<Byte>): seq<Byte>
    requires n >= -1
  {
    if n == -1 || n > |s| then s else s[..n]
  }

  /** `_DecodeVarint32` */
  method DecodeVarint(f: InFile) returns (r: Decoded)
    requires f.Valid()
    modifies f
    ensures f.Valid()
    ensures r == DecodeFrom(old(f.Rest()), 0, 0)
    ensures r.Value? ==> r.used <= |old(f.Rest())| && f.Rest() == old(f.Rest())[r.used..]
  {
    var acc, shift, n := 0, 0, 0;
    ghost var s := f.Rest();
    while true
      invariant f.Valid() && shift == 7 * n && 0 <= n <= |s| && f.Rest() == s[n..] && 0 <= acc
      invariant DecodeFrom(s[n..], acc, n) == DecodeFrom(s, 0, 0)
      decreases |s| - n
    {
      var c := f.Read(1);
      if |c| == 0 {
        return EndOfFile;
      }
      var b := c[0];
      assert s[n..][1..] == s[n + 1..];
      acc := BitOr(acc, ShiftLeft(b % 128, shift));
      n := n + 1;
      if b < 128 {
        return Value(Reduce(acc), n);
      }
      shift := shift + 7;
      if shift >= 64 {
        return TooManyBytes;
      }
    }
  }

  // ---- The decoder inverts the encoder ----

  lemma {:induction false} DecodeStep(b: Byte, rest: seq<Byte>, acc: nat, n: nat, acc': nat)
    requires n <= 9 && acc < Pow2(7 * n) && acc' == acc + (b % 128) * Pow2(7 * n)
    ensures DecodeFrom([b] + rest, acc, n) == (
              if b < 128 then Value(Reduce(acc'), n + 1)
              else if n == 9 then TooManyBytes
              else DecodeFrom(rest, acc', n + 1))
  {
    OrIsSum(acc, b % 128, 7 * n);
    assert ([b] + rest)[1..] == rest;
  }

  /** One byte of a varint holds seven bits of the value. */
  lemma {:induction false} GroupStep(w: nat, acc: nat, n: nat)
    requires n < 9 && acc < Pow2(7 * n)
    ensures var acc' := acc + (w % 128) * Pow2(7 * n);
            && acc' < Pow2(7 * (n + 1))
            && acc' + (w / 128) * Pow2(7 * (n + 1)) == acc + w * Pow2(7 * n)
  {
    GroupBound(acc, w % 128, Pow2(7 * n));
    SplitGroup(w, Pow2(7 * n));
    Pow2Group(n);
  }

  lemma {:induction false} GroupBound(acc: nat, low: nat, p: nat)
    requires acc < p && low < 128
    ensures acc + low * p < 128 * p
  {
    assert (low + 1) * p <= 128 * p;
  }

  lemma {:induction false} SplitGroup(w: nat, p: nat)
    ensures w * p == (w % 128) * p + (w / 128) * (128 * p)
  {
    var q, r := w / 128, w % 128;
    assert w == r + 128 * q;
    assert (r + 128 * q) * p == r * p + 128 * q * p;
  }

  /** The number that a group of bytes stands for: seven bits from each, the low ones first. */
  function Groups(s: seq<Byte>): nat {
    if s == [] then 0 else s[0] % 128 + 128 * Groups(s[1..])
  }

  ghost predicate AllContinue(s: seq<Byte>) {
    forall i :: 0 <= i < |s| ==> s[i] >= 128
  }

  /** The first byte without a continuation bit is the `k`-th. */
  ghost predicate EndsAfter(s: seq<Byte>, k: nat) {
    1 <= k <= |s| && AllContinue(s[..k - 1]) && s[k - 1] < 128
  }

  lemma {:induction false} GroupsTail(s: seq<Byte>, k: nat)
    requires 1 <= k <= |s|
    ensures Groups(s[..k]) % 128 == s[0] % 128 && Groups(s[..k]) / 128 == Groups(s[1..][..k - 1])
  {
    assert s[..k][1..] == s[1..][..k - 1];
  }

  lemma {:induction false} EndsAfterTail(s: seq<Byte>, k: nat)
    requires EndsAfter(s, k) && k > 1
    ensures s[0] >= 128 && EndsAfter(s[1..], k - 1)
  {
    assert s[..k - 1][0] >= 128;
    assert s[1..][..k - 2] == s[..k - 1][1..];
  }

  lemma {:induction false} DecodeRun(s: seq<Byte>, acc: nat, n: nat, k: nat)
    requires EndsAfter(s, k) && n + k <= 10 && acc < Pow2(7 * n)
    ensures DecodeFrom(s, acc, n) == Value(Reduce(acc + Groups(s[..k]) * Pow2(7 * n)), n + k)
    decreases k
  {
    var w, rest := Groups(s[..k]), s[1..];
    var acc' := acc + (s[0] % 128) * Pow2(7 * n);
    assert s == [s[0]] + rest;
    GroupsTail(s, k);
    DecodeStep(s[0], rest, acc, n, acc');
    if k == 1 {
      assert rest[..0] == [] && w == s[0] % 128;
    } else {
      EndsAfterTail(s, k);
      GroupStep(w, acc, n);
      DecodeRun(rest, acc', n + 1, k - 1);
    }
  }

  /** Without an end among the bytes that may be read, decoding runs into the end of the file or reads
      ten bytes in vain. */
  lemma {:induction false} DecodeEndless(s: seq<Byte>, acc: nat, n: nat)
    requires n <= 9 && AllContinue(if |s| < 10 - n then s else s[..10 - n])
    ensures DecodeFrom(s, acc, n) == if |s| < 10 - n then EndOfFile else TooManyBytes
    decreases 10 - n
  {
    if s != [] {
      var read := if |s| < 10 - n then s else s[..10 - n];
      assert read[0] >= 128;
      if n < 9 {
        assert AllContinue(read[1..]);
        assert read[1..] == if |s[1..]| < 9 - n then s[1..] else s[1..][..9 - n];
        DecodeEndless(s[1..], BitOr(acc, ShiftLeft(s[0] % 128, 7 * n)), n + 1);
      }
    }
  }

  /** What the decoder reads from any bytes: the groups up to the first byte without a continuation bit,
      which has to be among the first ten. */
  lemma {:induction false} DecodeBytes(s: seq<Byte>, k: nat)
    ensures EndsAfter(s, k) && k <= 10 ==> DecodeFrom(s, 0, 0) == Value(Reduce(Groups(s[..k])), k)
    ensures |s| >= 10 && AllContinue(s[..10]) ==> DecodeFrom(s, 0, 0) == TooManyBytes
    ensures |s| < 10 && AllContinue(s) ==> DecodeFrom(s, 0, 0) == EndOfFile
  {
    if EndsAfter(s, k) && k <= 10 {
      DecodeRun(s, 0, 0, k);
    }
    if AllContinue(if |s| < 10 then s else s[..10]) {
      DecodeEndless(s, 0, 0);
    }
  }

  /** A varint is the shortest list of groups that stands for its value, with continuation bits on all
      bytes but the last. */
  lemma {:induction false} VarintIsShortest(v: nat)
    ensures EndsAfter(Varint(v), |Varint(v)|) && Groups(Varint(v)) == v
    ensures |Varint(v)| > 1 ==> Varint(v)[|Varint(v)| - 1] > 0
  {
    if v >= 128 {
      var s, rest := Varint(v), Varint(v / 128);
      VarintIsShortest(v / 128);
      assert s[1..] == rest && s[0] % 128 == v % 128;
      assert s[..|s| - 1] == [s[0]] + rest[..|rest| - 1];
    }
  }

  lemma {:induction false} VarintLength(v: nat, k: nat)
    requires k > 0
    ensures |Varint(v)| <= k <==> v < Pow2(7 * k)
    decreases k
  {
    Pow2Group(k - 1);
    var p := Pow2(7 * (k - 1));
    assert v / 128 < p <==> v < 128 * p;
    if v >= 128 && k > 1 {
      VarintLength(v / 128, k - 1);
    }
  }

  lemma {:induction false} EndsInFront(a: seq<Byte>, b: seq<Byte>)
    requires a != [] && EndsAfter(a, |a|)
    ensures EndsAfter(a + b, |a|) && (a + b)[..|a|] == a
    ensures |a| > 10 ==> AllContinue((a + b)[..10])
  {
    assert (a + b)[..|a| - 1] == a[..|a| - 1];
    if |a| > 10 {
      assert (a + b)[..10] == a[..|a| - 1][..10];
    }
  }

  /** Reading back a varint gives its value reduced to 32 bits and leaves what follows
      untouched; values of more than 70 bits are refused. */
  lemma {:induction false} DecodeEncoded(v: nat, rest: seq<Byte>)
    ensures DecodeFrom(Varint(v) + rest, 0, 0)
         == if v < TWO_70 then Value(Reduce(v), |Varint(v)|) else TooManyBytes
  {
    VarintIsShortest(v);
    EndsInFront(Varint(v), rest);
    VarintLength(v, 10);
    Pow70();
    DecodeBytes(Varint(v) + rest, |Varint(v)|);
  }

  /** The reduction keeps the low 32 bits; the result is negative from 2^63 on. */
  lemma {:induction false} ReduceIs(v: nat)
    ensures Reduce(v) % 0x1_0000_0000 == v % 0x1_0000_0000
    ensures if v < 0x8000_0000_0000_0000 then 0 <= Reduce(v) < 0x1_0000_0000
            else 0 <= Reduce(v) + 0x1_0000_0000 < 0x1_0000_0000
  {
    assert (v - 0x1_0000_0000_0000_0000) % 0x1_0000_0000 == v % 0x1_0000_0000;
  }

  lemma {:induction false} Pow70()
    ensures Pow2(70) == TWO_70
  {
    Pow2Group(0);
    Pow2Group(1);
    assert Pow2(14) == 0x4000;
    Pow2Add(14, 14);
    assert Pow2(28) == 0x1000_0000;
    Pow2Add(28, 28);
    assert Pow2(56) == 0x100_0000_0000_0000;
    Pow2Add(14, 56);
  }

  // ---- Messages ----

  /** A serialised message; no Python object is longer. */
  type Message = m: seq<Byte> | |m| < TWO_63

  function Frame(m: Message): seq<Byte> {
    Varint(|m|) + m
  }

  function EncodeAll(msgs: seq<Message>): seq<Byte> {
    if msgs == [] then [] else Frame(msgs[0]) + EncodeAll(msgs[1..])
  }

  /** What `decodeMessage` does: it reads a message, returns False, or lets a ValueError through. */
  datatype Outcome = Got(msg: seq<Byte>) | NoMessage | ValueError

  /** One message from the front of `s`. */
  function DecodeOne(s: seq<Byte>): Outcome {
    match DecodeFrom(s, 0, 0)
    case EndOfFile => NoMessage
    case TooManyBytes => NoMessage
    case Value(size, used) =>
      if size == 0 || used > |s| then NoMessage
      else if size < -1 then ValueError
      else Got(Taken(size, s[used..]))
  }

  lemma {:induction false} DecodeUses(s: seq<Byte>, acc: nat, n: nat)
    ensures var r := DecodeFrom(s, acc, n); r.Value? ==> n < r.used <= n + |s|
  {
    if s != [] && s[0] >= 128 && 7 * (n + 1) < 64 {
      DecodeUses(s[1..], BitOr(acc, ShiftLeft(s[0] % 128, 7 * n)), n + 1);
    }
  }

  /** What follows the first message. */
  function AfterOne(s: seq<Byte>): (r: seq<Byte>)
    requires DecodeOne(s).Got?
    ensures |r| < |s|
  {
    DecodeUses(s, 0, 0);
    var r := DecodeFrom(s, 0, 0);
    s[r.used..][|DecodeOne(s).msg|..]
  }

  /** The messages read from a file, and whether reading ended in a ValueError. */
  datatype Reading = Reading(msgs: seq<seq<Byte>>, raised: bool)

  /** Every message a reader gets by calling `decodeMessage` until it returns False or raises. */
  function DecodeAll(s: seq<Byte>): Reading
    decreases |s|
  {
    match DecodeOne(s)
    case NoMessage => Reading([], false)
    case ValueError => Reading([], true)
    case Got(m) => var r := DecodeAll(AfterOne(s)); Reading([m] + r.msgs, r.raised)
  }

  /** `encodeMessage` */
  method EncodeMessage(out: seq<Byte>, m: Message) returns (out': seq<Byte>)
    ensures out' == out + Frame(m)
  {
    var prefix := EncodeVarint(|m|);
    out' := out + prefix + m;
  }

  /** `decodeMessage`; the IOError of an overlong varint is caught and reads as False. */
  method DecodeMessage(f: InFile) returns (r: Outcome)
    requires f.Valid()
    modifies f
    ensures f.Valid()
    ensures r == DecodeOne(old(f.Rest()))
    ensures r.Got? ==> f.Rest() == AfterOne(old(f.Rest()))
  {
    var d := DecodeVarint(f);
    if !d.Value? || d.value == 0 {
      return NoMessage;
    }
    if d.value < -1 {
      return ValueError;
    }
    var buf := f.Read(d.value);
    r := Got(buf);
  }

  lemma {:induction false} DecodeAllStep(msgs: seq<seq<Byte>>, s: seq<Byte>)
    requires DecodeOne(s).Got?
    ensures DecodeAll(s).raised == DecodeAll(AfterOne(s)).raised
    ensures msgs + DecodeAll(s).msgs == msgs + [DecodeOne(s).msg] + DecodeAll(AfterOne(s)).msgs
  {
  }

  /** The reading loop of the decoding tools. */
  method ReadMessages(f: InFile) returns (r: Reading)
    requires f.Valid()
    modifies f
    ensures r == DecodeAll(old(f.Rest()))
  {
    var msgs := [];
    ghost var all := DecodeAll(f.Rest());
    ghost var rest := f.Rest();
    while true
      invariant f.Valid() && f.Rest() == rest
      invariant msgs + DecodeAll(rest).msgs == all.msgs && DecodeAll(rest).raised == all.raised
      decreases |rest|
    {
      var m := DecodeMessage(f);
      if !m.Got? {
        assert DecodeAll(rest) == Reading([], m.ValueError?);
        return Reading(msgs, m.ValueError?);
      }
      DecodeAllStep(msgs, rest);
      rest := f.Rest();
      msgs := msgs + [m.msg];
    }
  }

  lemma {:induction false} ReduceNegative(v: nat)
    ensures Reduce(v) < -1 <==> TWO_63 <= v && v % TWO_32 != TWO_32 - 1
  {
    assert (v - 0x1_0000_0000_0000_0000) % 0x1_0000_0000 == v % 0x1_0000_0000;
  }

  /** Reading raises a ValueError exactly for the sizes that reduce to less than -1. */
  lemma {:induction false} RaisesIff(v: nat, rest: seq<Byte>)
    ensures DecodeOne(Varint(v) + rest) == ValueError <==> TWO_63 <= v < TWO_70 && v % TWO_32 != TWO_32 - 1
    ensures v >= TWO_70 ==> DecodeOne(Varint(v) + rest) == NoMessage
  {
    DecodeEncoded(v, rest);
    ReduceNegative(v);
  }

  /** The length of a message that survives being written and read back. */
  predicate Readable(length: nat) {
    0 < length < TWO_32
  }

  /** What is read behind a size, from the bytes alone: as many as the size says modulo 2^32, fewer when
      the file ends before, none for 0, and all for a size that reduces to -1. */
  lemma {:induction false} ReadBehindSize(v: nat, s: seq<Byte>)
    requires v < TWO_63 || (v < TWO_70 && v % TWO_32 == TWO_32 - 1)
    ensures v < TWO_63 && v % TWO_32 == 0 ==> DecodeOne(Varint(v) + s) == NoMessage
    ensures v < TWO_63 && 0 < v % TWO_32 <= |s| ==> DecodeOne(Varint(v) + s) == Got(s[..v % TWO_32])
    ensures v >= TWO_63 || v % TWO_32 > |s| ==> DecodeOne(Varint(v) + s) == Got(s)
    ensures DecodeOne(Varint(v) + s).Got? ==> AfterOne(Varint(v) + s) == s[|DecodeOne(Varint(v) + s).msg|..]
  {
    DecodeEncoded(v, s);
    ReduceIs(v);
    ReduceNegative(v);
    assert (Varint(v) + s)[|Varint(v)|..] == s;
  }

  lemma {:induction false} DecodeFrame(m: Message, rest: seq<Byte>)
    ensures DecodeOne(Frame(m) + rest)
         == if |m| % TWO_32 == 0 then NoMessage else Got(Taken(|m| % TWO_32, m + rest))
    ensures DecodeOne(Frame(m) + rest).Got? ==>
            AfterOne(Frame(m) + rest) == (m + rest)[|DecodeOne(Frame(m) + rest).msg|..]
  {
    assert Frame(m) + rest == Varint(|m|) + (m + rest);
    ReadBehindSize(|m|, m + rest);
  }

  lemma {:induction false} ReadableSize(m: Message, rest: seq<Byte>)
    requires Readable(|m|)
    ensures |m| % TWO_32 == |m| && Taken(|m|, m + rest) == m && (m + rest)[|m|..] == rest
  {
  }

  lemma {:induction false} ReadableFrame(m: Message, rest: seq<Byte>)
    requires Readable(|m|)
    ensures DecodeOne(Frame(m) + rest) == Got(m) && AfterOne(Frame(m) + rest) == rest
  {
    DecodeFrame(m, rest);
    ReadableSize(m, rest);
  }

  lemma {:induction false} ReadAfter(m: Message, rest: seq<Byte>)
    requires Readable(|m|)
    ensures DecodeAll(Frame(m) + rest) == Reading([m] + DecodeAll(rest).msgs, DecodeAll(rest).raised)
  {
    ReadableFrame(m, rest);
  }

  lemma {:induction false} UnreadableFrame(m: Message, rest: seq<Byte>)
    requires !Readable(|m|)
    ensures DecodeOne(Frame(m) + rest) != Got(m)
  {
    DecodeFrame(m, rest);
    assert |m| > 0 ==> |m| % TWO_32 < |m|;
  }

  ghost predicate AllReadable(msgs: seq<Message>) {
    forall i :: 0 <= i < |msgs| ==> Readable(|msgs[i]|)
  }

  /** Writing messages and reading them until the end of the file gives the same list exactly
      when every length is readable. */
  lemma {:induction false} MessagesRoundTrip(msgs: seq<Message>)
    ensures DecodeAll(EncodeAll(msgs)) == Reading(msgs, false) <==> AllReadable(msgs)
  {
    if msgs == [] {
      assert DecodeAll([]) == Reading([], false);
    } else {
      var m, tail := msgs[0], msgs[1..];
      var rest := EncodeAll(tail);
      MessagesRoundTrip(tail);
      assert AllReadable(msgs) <==> Readable(|m|) && AllReadable(tail) by {
        AllReadableCons(msgs);
      }
      if Readable(|m|) {
        ReadAfter(m, rest);
        assert msgs == [m] + tail;
        assert ([m] + DecodeAll(rest).msgs)[1..] == DecodeAll(rest).msgs;
      } else {
        UnreadableFrame(m, rest);
        assert DecodeAll(Frame(m) + rest).msgs != msgs;
      }
    }
  }

  /** An empty message hides everything written after it. */
  lemma {:induction false} EmptyMessageEndsFile(before: seq<Message>, rest: seq<Message>)
    requires AllReadable(before)
    ensures DecodeAll(EncodeAll(before + [[]] + rest)) == Reading(before, false)
  {
    var msgs := before + [[]] + rest;
    if before == [] {
      assert msgs[0] == [] && msgs[1..] == rest;
      DecodeFrame([], EncodeAll(rest));
    } else {
      var tail := before[1..] + [[]] + rest;
      assert msgs[0] == before[0] && msgs[1..] == tail;
      AllReadableCons(before);
      EmptyMessageEndsFile(before[1..], rest);
      ReadAfter(before[0], EncodeAll(tail));
      assert before == [before[0]] + before[1..];
    }
  }

  lemma {:induction false} AllReadableCons(msgs: seq<Message>)
    requires msgs != []
    ensures AllReadable(msgs) <==> Readable(|msgs[0]|) && AllReadable(msgs[1..])
  {
    if Readable(|msgs[0]|) && AllReadable(msgs[1..]) {
      forall i | 0 <= i < |msgs| ensures Readable(|msgs[i]|) {
        if i > 0 {
          assert msgs[i] == msgs[1..][i - 1];
        }
      }
    }
  }
}
