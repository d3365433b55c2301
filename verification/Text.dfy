/**
 Text shared by the other modules: decimal numerals and their values, splitting a string at a
 character and joining the fields again, and white space. The lemmas say when a numeral is read back
 as the number it was written for, and when joined fields are split into the same fields again, so
 that the round trips of the formats built from them need no reasoning about characters.
 */
module Text {
  import opened Collections

  predicate IsDigit(c: char) {
    '0' <= c <= '9'
  }

  predicate AllDigits(s: string) {
    forall i :: 0 <= i < |s| ==> IsDigit(s[i])
  }

  function DigitOf(d: nat): char
    requires d < 10
  {
    "0123456789"[d]
  }

  function ValueOf(c: char): nat
    requires IsDigit(c)
  {
    c as int - '0' as int
  }

  /** `str(n)` */
  function Decimal(n: nat): (s: string)
    ensures s != "" && AllDigits(s)
  {
    if n < 10 then [DigitOf(n)] else Decimal(n / 10) + [DigitOf(n % 10)]
  }

  /** `n` divided by ten, `i` times. */
  function Tenths(n: nat, i: nat): nat {
    if i == 0 then n else Tenths(n / 10, i - 1)
  }

  /** The digits of a numeral, from the right, count the ones, tens, hundreds and so on. */
  lemma {:induction false} DecimalDigit(n: nat, i: nat)
    requires i < |Decimal(n)|
    ensures Decimal(n)[|Decimal(n)| - 1 - i] as int == '0' as int + Tenths(n, i) % 10
  {
    if i > 0 {
      DecimalDigit(n / 10, i - 1);
    }
  }

  /** A numeral does not begin with a zero, except for 0 itself. */
  lemma {:induction false} DecimalStart(n: nat)
    ensures Decimal(n)[0] == '0' <==> n == 0
  {
    if n >= 10 {
      DecimalStart(n / 10);
    }
  }

  /** The value of a digit string; leading zeros are allowed. */
  function Value(s: string): nat
    requires AllDigits(s)
  {
    if s == "" then 0 else 10 * Value(s[..|s| - 1]) + ValueOf(s[|s| - 1])
  }

  /** `int(s)` for unsigned decimal digits; anything else is an error. */
  function ParseNat(s: string): Option<nat> {
    if s != "" && AllDigits(s) then Some(Value(s)) else None
  }

  lemma {:induction false} ValueOfDecimal(n: nat)
    ensures Value(Decimal(n)) == n
  {
    if n >= 10 {
      ValueOfDecimal(n / 10);
      var s := Decimal(n / 10);
      assert (s + [DigitOf(n % 10)])[..|s|] == s;
    }
  }

  /** `int(str(n)) == n` */
  lemma ParseDecimal(n: nat)
    ensures ParseNat(Decimal(n)) == Some(n)
  {
    ValueOfDecimal(n);
  }

  function Zeros(n: nat): string {
    seq(n, _ => '0')
  }

  lemma {:induction false} ValueWithZeros(n: nat, s: string)
    requires AllDigits(s)
    ensures AllDigits(Zeros(n) + s) && Value(Zeros(n) + s) == Value(s)
  {
    if s != "" {
      assert (Zeros(n) + s)[..n + |s| - 1] == Zeros(n) + s[..|s| - 1];
      ValueWithZeros(n, s[..|s| - 1]);
    } else if n > 0 {
      assert (Zeros(n) + s)[..n - 1] == Zeros(n - 1) + "";
      ValueWithZeros(n - 1, "");
    }
  }

  /** `s.split(c)` */
  function Split(c: char, s: string): (parts: seq<string>)
    ensures parts != []
  {
    if s == "" then [""]
    else if s[0] == c then [""] + Split(c, s[1..])
    else
      var rest := Split(c, s[1..]);
      [[s[0]] + rest[0]] + rest[1..]
  }

  lemma {:induction false} SplitAtFirst(c: char, a: string, b: string)
    requires c !in a
    ensures Split(c, a + [c] + b) == [a] + Split(c, b)
  {
    var s := a + [c] + b;
    if a == "" {
      assert s[1..] == b;
    } else {
      assert s[1..] == a[1..] + [c] + b;
      SplitAtFirst(c, a[1..], b);
      assert [a[0]] + a[1..] == a;
    }
  }

  lemma {:induction false} SplitNone(c: char, a: string)
    requires c !in a
    ensures Split(c, a) == [a]
  {
    if a != "" {
      SplitNone(c, a[1..]);
      assert [a[0]] + a[1..] == a;
    }
  }

  /** `c.join(parts)` */
  function Join(c: char, parts: seq<string>): string
    requires parts != []
  {
    if |parts| == 1 then parts[0] else parts[0] + [c] + Join(c, parts[1..])
  }

  lemma {:induction false} JoinSnoc(c: char, parts: seq<string>, s: string)
    requires parts != []
    ensures Join(c, parts + [s]) == Join(c, parts) + [c] + s
  {
    if |parts| == 1 {
      assert (parts + [s])[1..] == [s];
    } else {
      assert (parts + [s])[1..] == parts[1..] + [s];
      JoinSnoc(c, parts[1..], s);
    }
  }

  /** Splitting undoes joining when no part contains the separator. */
  lemma {:induction false} SplitJoin(c: char, parts: seq<string>)
    requires parts != [] && forall i :: 0 <= i < |parts| ==> c !in parts[i]
    ensures Split(c, Join(c, parts)) == parts
  {
    if |parts| == 1 {
      SplitNone(c, parts[0]);
    } else {
      SplitAtFirst(c, parts[0], Join(c, parts[1..]));
      SplitJoin(c, parts[1..]);
    }
  }

  /** The text of a file with these lines. */
  function Unlines(lines: seq<string>): string {
    if lines == [] then "" else lines[0] + ['\n'] + Unlines(lines[1..])
  }

  lemma {:induction false} UnlinesSnoc(lines: seq<string>, l: string)
    ensures Unlines(lines + [l]) == Unlines(lines) + l + ['\n']
  {
    if lines == [] {
      assert lines + [l] == [l];
    } else {
      assert (lines + [l])[1..] == lines[1..] + [l];
      UnlinesSnoc(lines[1..], l);
    }
  }

  lemma {:induction false} SplitUnlines(lines: seq<string>, last: string)
    requires '\n' !in last && forall i :: 0 <= i < |lines| ==> '\n' !in lines[i]
    ensures Split('\n', Unlines(lines) + last) == lines + [last]
  {
    if lines == [] {
      assert Unlines(lines) + last == last;
      SplitNone('\n', last);
    } else {
      assert Unlines(lines) + last == lines[0] + ['\n'] + (Unlines(lines[1..]) + last);
      SplitAtFirst('\n', lines[0], Unlines(lines[1..]) + last);
      SplitUnlines(lines[1..], last);
    }
  }

  /** White space: the space, and the tab up to the carriage return. */
  predicate IsBlank(c: char) {
    c == ' ' || '\t' <= c <= '\r'
  }

  function StripLeft(s: string): string {
    if s != "" && IsBlank(s[0]) then StripLeft(s[1..]) else s
  }

  function StripRight(s: string): string {
    if s != "" && IsBlank(s[|s| - 1]) then StripRight(s[..|s| - 1]) else s
  }

  /** `s.strip()` */
  function Strip(s: string): string {
    StripRight(StripLeft(s))
  }

  predicate AllBlank(s: string) {
    forall i :: 0 <= i < |s| ==> IsBlank(s[i])
  }

  /** Neither end of `s` is blank. */
  predicate IsStripped(s: string) {
    s == "" || (!IsBlank(s[0]) && !IsBlank(s[|s| - 1]))
  }

  lemma StripNothing(s: string)
    requires IsStripped(s)
    ensures Strip(s) == s
  {
  }

  lemma {:induction false} StripLeftBlanks(a: string, s: string)
    requires AllBlank(a)
    ensures StripLeft(a + s) == StripLeft(s)
  {
    if a == "" {
      assert a + s == s;
    } else {
      assert (a + s)[1..] == a[1..] + s;
      StripLeftBlanks(a[1..], s);
    }
  }

  lemma {:induction false} StripRightBlanks(s: string, b: string)
    requires AllBlank(b)
    ensures StripRight(s + b) == StripRight(s)
  {
    if b == "" {
      assert s + b == s;
    } else {
      assert (s + b)[..|s + b| - 1] == s + b[..|b| - 1];
      StripRightBlanks(s, b[..|b| - 1]);
    }
  }

  /** Stripping removes the blanks at both ends and nothing else. */
  lemma {:induction false} StripBlanks(a: string, s: string, b: string)
    requires AllBlank(a) && AllBlank(b) && IsStripped(s)
    ensures Strip(a + s + b) == s
  {
    assert a + s + b == a + (s + b);
    StripLeftBlanks(a, s + b);
    if s == "" {
      assert s + b == b && b + "" == b;
      StripLeftBlanks(b, "");
    } else {
      assert StripLeft(s + b) == s + b;
      StripRightBlanks(s, b);
    }
  }
}
