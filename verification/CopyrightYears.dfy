/**
 Years in copyright lines (util/find_copyrights.py): a set of years is printed as a list of ranges and
 single years, and such a list is parsed back into a set. The ranges are the fewest that list the
 years. Parsing also accepts lists that were not printed here, with blanks around commas and dashes.
 */
module CopyrightYears {
  import opened Collections
  import opened Text
  import opened Sorting

  datatype Range = Range(first: nat, last: nat)

  ghost predicate Covered(rs: seq<Range>, y: nat) {
    exists i :: 0 <= i < |rs| && rs[i].first <= y <= rs[i].last
  }

  ghost predicate Ascending(ys: seq<nat>) {
    forall i, j :: 0 <= i < j < |ys| ==> ys[i] < ys[j]
  }

  /** Ascending, disjoint and not adjacent: each range ends more than one year before the next. */
  ghost predicate Separate(rs: seq<Range>) {
    forall i, j :: 0 <= i <= j < |rs| ==>
      if i == j then rs[i].first <= rs[j].last else rs[i].last + 1 < rs[j].first
  }

  ghost predicate RangesOf(rs: seq<Range>, years: set<nat>) {
    Separate(rs) && forall y: nat :: y in years <==> Covered(rs, y)
  }

  // ---- Printing ----

  function PrintRange(r: Range): string {
    if r.first == r.last then Decimal(r.first) else Decimal(r.first) + "-" + Decimal(r.last)
  }

  function PrintAll(rs: seq<Range>): seq<string> {
    seq(|rs|, i requires 0 <= i < |rs| => PrintRange(rs[i]))
  }

  method SortYears(dates: set<nat>) returns (ys: seq<nat>)
    ensures Ascending(ys) && forall y :: y in ys <==> y in dates
  {
    var listed: seq<nat> := [];
    var left := dates;
    while left != {}
      invariant left <= dates && forall y :: y in listed <==> y in dates - left
      invariant Distinct(listed)
    {
      var y :| y in left;
      assert y !in listed;
      listed := listed + [y];
      left := left - {y};
    }
    ys := StableSort(ByYear, listed);
    SortedDistinct(listed);
  }

  const ByYear: nat -> int := (y: nat) => y

  lemma {:induction false} SortedDistinct(listed: seq<nat>)
    requires Distinct(listed)
    ensures Ascending(StableSort(ByYear, listed))
    ensures forall y :: y in StableSort(ByYear, listed) <==> y in listed
  {
    var ys := StableSort(ByYear, listed);
    StableSortSorted(ByYear, listed);
    StableSortPermutes(ByYear, listed);
    DistinctIsOnce(listed);
    OnceIsDistinct(ys);
    forall i, j | 0 <= i < j < |ys| ensures ys[i] < ys[j] {
      assert ByYear(ys[i]) <= ByYear(ys[j]);
    }
  }

  /** `rs` lists exactly the years of `ys`. */
  ghost predicate Gathered(rs: seq<Range>, ys: seq<nat>) {
    Separate(rs) && rs != [] && forall y: nat :: y in ys <==> Covered(rs, y)
  }

  lemma {:induction false} GatheredOne(y0: nat)
    ensures Gathered([Range(y0, y0)], [y0])
  {
    var rs := [Range(y0, y0)];
    assert [] + rs == rs;
    forall y: nat ensures Covered(rs, y) <==> y == y0 {
      CoveredSnoc([], Range(y0, y0), y);
    }
  }

  /** One more year, listed by a longer last range or by a new one. */
  lemma {:induction false} GatheredSnoc(rs: seq<Range>, ys: seq<nat>, rs': seq<Range>, y0: nat)
    requires Gathered(rs, ys) && Separate(rs') && rs' != []
    requires forall y: nat :: Covered(rs', y) <==> Covered(rs, y) || y == y0
    ensures Gathered(rs', ys + [y0])
  {
    var ys' := ys + [y0];
    forall y: nat ensures y in ys' <==> Covered(rs', y) {
      assert y in ys' <==> y in ys || y == y0;
    }
  }

  lemma {:induction false} GatheredNext(rs: seq<Range>, first: nat, second: nat, ys: seq<nat>)
    requires Gathered(rs + [Range(first, second)], ys)
    ensures Gathered(rs + [Range(first, second + 1)], ys + [second + 1])
  {
    ExtendLast(rs, first, second);
    GatheredSnoc(rs + [Range(first, second)], ys, rs + [Range(first, second + 1)], second + 1);
  }

  lemma {:induction false} GatheredNew(rs: seq<Range>, y0: nat, ys: seq<nat>)
    requires Gathered(rs, ys) && rs[|rs| - 1].last + 1 < y0
    ensures Gathered(rs + [Range(y0, y0)], ys + [y0])
  {
    StartNew(rs, y0);
    GatheredSnoc(rs, ys, rs + [Range(y0, y0)], y0);
  }

  /** The loop of `datestr`: consecutive years are gathered into ranges. */
  method GatherRanges(ys: seq<nat>) returns (rs: seq<Range>)
    requires ys != [] && Ascending(ys)
    ensures Gathered(rs, ys)
  {
    rs := [];
    var first, second := ys[0], ys[0];
    assert ys[..1] == [ys[0]] && rs + [Range(first, second)] == [Range(first, second)];
    GatheredOne(ys[0]);
    for k := 1 to |ys|
      invariant second == ys[k - 1]
      invariant Gathered(rs + [Range(first, second)], ys[..k])
    {
      var next := ys[k];
      assert ys[..k + 1] == ys[..k] + [next];
      if next == second + 1 {
        GatheredNext(rs, first, second, ys[..k]);
        second := next;
      } else {
        GatheredNew(rs + [Range(first, second)], next, ys[..k]);
        rs := rs + [Range(first, second)];
        first, second := next, next;
      }
    }
    assert ys[..|ys|] == ys;
    rs := rs + [Range(first, second)];
  }

  lemma {:induction false} ExtendLast(rs: seq<Range>, first: nat, second: nat)
    requires Separate(rs + [Range(first, second)])
    ensures Separate(rs + [Range(first, second + 1)])
    ensures forall y: nat :: Covered(rs + [Range(first, second + 1)], y) <==>
                             Covered(rs + [Range(first, second)], y) || y == second + 1
  {
    var a, b := rs + [Range(first, second)], rs + [Range(first, second + 1)];
    assert forall i :: 0 <= i < |rs| ==> a[i] == b[i];
    assert a[|rs|] == Range(first, second);
    forall y: nat ensures Covered(b, y) <==> Covered(a, y) || y == second + 1 {
      CoveredSnoc(rs, Range(first, second), y);
      CoveredSnoc(rs, Range(first, second + 1), y);
    }
  }

  lemma {:induction false} StartNew(rs: seq<Range>, y0: nat)
    requires Separate(rs) && rs != [] && rs[|rs| - 1].last + 1 < y0
    ensures Separate(rs + [Range(y0, y0)])
    ensures forall y: nat :: Covered(rs + [Range(y0, y0)], y) <==> Covered(rs, y) || y == y0
  {
    forall y: nat ensures Covered(rs + [Range(y0, y0)], y) <==> Covered(rs, y) || y == y0 {
      CoveredSnoc(rs, Range(y0, y0), y);
    }
  }

  lemma {:induction false} CoveredSnoc(rs: seq<Range>, r: Range, y: nat)
    ensures Covered(rs + [r], y) <==> Covered(rs, y) || r.first <= y <= r.last
  {
    var s := rs + [r];
    if Covered(rs, y) {
      var i :| 0 <= i < |rs| && rs[i].first <= y <= rs[i].last;
      assert s[i].first <= y <= s[i].last;
    }
    if r.first <= y <= r.last {
      assert s[|rs|].first <= y <= s[|rs|].last;
    }
  }

  /** `datestr`; None models the failing `pop` on an empty list. */
  method DateStr(dates: set<nat>) returns (text: Option<string>, ghost rs: seq<Range>)
    ensures text.None? <==> dates == {}
    ensures text.Some? ==> rs != [] && RangesOf(rs, dates)
    ensures text.Some? ==> text.value == Join(',', PrintAll(rs)) && |PrintAll(rs)| == |rs|
    ensures forall i :: 0 <= i < |rs| && rs[i].first == rs[i].last ==> PrintAll(rs)[i] == Decimal(rs[i].first)
    ensures forall i :: 0 <= i < |rs| && rs[i].first != rs[i].last ==>
      PrintAll(rs)[i] == Decimal(rs[i].first) + "-" + Decimal(rs[i].last)
  {
    rs := [];
    if dates == {} {
      return None, rs;
    }
    var ys := SortYears(dates);
    assert ys != [] by {
      var y :| y in dates;
      assert y in ys;
    }
    var ranges := GatherRanges(ys);
    rs := ranges;
    text := Some(Join(',', PrintAll(ranges)));
  }

  // ---- The ranges are the fewest possible ----

  lemma {:induction false} GapIsFree(rs: seq<Range>, i: nat, j: nat)
    requires Separate(rs) && i < j < |rs|
    ensures !Covered(rs, rs[i].last + 1) && rs[i].first < rs[i].last + 1 < rs[j].first
  {
  }

  /** Different ranges need different ranges in any other list that covers the same years. */
  lemma {:induction false} FewestRanges(rs: seq<Range>, qs: seq<Range>, years: set<nat>)
    requires RangesOf(rs, years) && forall y: nat :: y in years <==> Covered(qs, y)
    ensures |rs| <= |qs|
  {
    var idx := CoverIndices(rs, qs, years, |rs|);
    DistinctBelow(idx, |qs|);
  }

  lemma {:induction false} CoverIndices(rs: seq<Range>, qs: seq<Range>, years: set<nat>, n: nat) returns (idx: seq<nat>)
    requires n <= |rs| && RangesOf(rs, years) && forall y: nat :: y in years <==> Covered(qs, y)
    ensures |idx| == n
    ensures forall i :: 0 <= i < n ==> idx[i] < |qs| && qs[idx[i]].first <= rs[i].first <= qs[idx[i]].last
    ensures forall i, j :: 0 <= i < j < n ==> idx[i] != idx[j]
  {
    if n == 0 {
      idx := [];
    } else {
      var front := CoverIndices(rs, qs, years, n - 1);
      assert Covered(rs, rs[n - 1].first);
      assert Covered(qs, rs[n - 1].first);
      var k :| 0 <= k < |qs| && qs[k].first <= rs[n - 1].first <= qs[k].last;
      idx := front + [k];
      forall i | 0 <= i < n - 1 ensures front[i] != k {
        GapIsFree(rs, i, n - 1);
        assert !Covered(qs, rs[i].last + 1);
      }
    }
  }

  lemma {:induction false} DistinctBelow(idx: seq<nat>, m: nat)
    requires forall i :: 0 <= i < |idx| ==> idx[i] < m
    requires forall i, j :: 0 <= i < j < |idx| ==> idx[i] != idx[j]
    ensures |idx| <= m
  {
    if idx != [] {
      assert idx[0] < m;
      if k :| 0 <= k < |idx| && idx[k] == m - 1 {
        DistinctBelow(idx[..k] + idx[k + 1..], m - 1);
      } else {
        DistinctBelow(idx, m - 1);
      }
    }
  }

  // ---- Parsing ----

  function SkipBlanks(s: string, i: nat): (j: nat)
    requires i <= |s|
    ensures i <= j <= |s|
    decreases |s| - i
  {
    if i < |s| && IsBlank(s[i]) then SkipBlanks(s, i + 1) else i
  }

  /** The pattern for two four-digit years with a dash between, matched at the front of `s`. */
  function MatchRange(s: string): Option<(nat, nat)> {
    if |s| < 4 || !AllDigits(s[..4]) then None
    else
      var i := SkipBlanks(s, 4);
      if i == |s| || s[i] != '-' then None
      else
        var j := SkipBlanks(s, i + 1);
        if j + 4 > |s| || !AllDigits(s[j..j + 4]) then None
        else Some((Value(s[..4]), Value(s[j..j + 4])))
  }

  /** Whether the part `s` of the list contributes year `y`. */
  predicate Contributes(s: string, y: nat) {
    match MatchRange(s)
    case Some((f, l)) => f <= y <= l
    case None => ParseNat(s) == Some(y)
  }

  ghost predicate Parsed(text: string, y: nat) {
    exists i :: 0 <= i < |Split(',', text)| && Contributes(Strip(Split(',', text)[i]), y)
  }

  /** `process_dates` */
  method ProcessDates(text: string) returns (years: set<nat>)
    ensures forall y: nat :: y in years <==> Parsed(text, y)
  {
    years := {};
    var parts := Split(',', text);
    for k := 0 to |parts|
      invariant forall y: nat :: y in years <==> exists i :: 0 <= i < k && Contributes(Strip(parts[i]), y)
    {
      var date := Strip(parts[k]);
      var range := MatchRange(date);
      if range.Some? {
        var (f, l) := range.value;
        var i := f;
        ghost var before := years;
        while i <= l
          invariant f <= i && (i <= l + 1 || i == f)
          invariant forall y: nat :: y in years <==> y in before || f <= y < i
        {
          years := years + {i};
          i := i + 1;
        }
      } else {
        var v := ParseNat(date);
        if v.Some? {
          years := years + {v.value};
        }
      }
    }
  }

  // ---- What is read, from the text alone ----

  lemma {:induction false} BlanksSkipped(s: string, i: nat, j: nat)
    requires i <= j <= |s| && AllBlank(s[i..j]) && (j < |s| ==> !IsBlank(s[j]))
    ensures SkipBlanks(s, i) == j
    decreases j - i
  {
    if i < j {
      assert IsBlank(s[i..j][0]);
      assert AllBlank(s[i + 1..j]) by {
        assert s[i + 1..j] == s[i..j][1..];
      }
      BlanksSkipped(s, i + 1, j);
    }
  }

  /** Two four-digit years with a dash between them, possibly among blanks, and any text after them. */
  ghost predicate IsDashed(s: string, a: string, u: string, v: string, b: string, rest: string) {
    && |a| == 4 && AllDigits(a) && |b| == 4 && AllDigits(b) && AllBlank(u) && AllBlank(v)
    && s == a + u + "-" + v + b + rest
  }

  /** Such a text is read as the range between the two years. */
  lemma {:induction false} DashedIsRange(s: string, a: string, u: string, v: string, b: string, rest: string)
    requires IsDashed(s, a, u, v, b, rest)
    ensures MatchRange(s) == Some((Value(a), Value(b)))
  {
    var i := 4 + |u|;
    var j := i + 1 + |v|;
    assert s[..4] == a && s[4..i] == u && s[i] == '-' && s[i + 1..j] == v && s[j..j + 4] == b;
    BlanksSkipped(s, 4, i);
    assert IsDigit(s[j..j + 4][0]);
    BlanksSkipped(s, i + 1, j);
  }

  lemma {:induction false} SkippedAreBlank(s: string, i: nat)
    requires i <= |s|
    ensures AllBlank(s[i..SkipBlanks(s, i)])
    decreases |s| - i
  {
    if i < |s| && IsBlank(s[i]) {
      SkippedAreBlank(s, i + 1);
      assert s[i..SkipBlanks(s, i)] == [s[i]] + s[i + 1..SkipBlanks(s, i)];
    }
  }

  lemma {:induction false} RangeParts(s: string) returns (a: string, u: string, v: string, b: string, rest: string)
    requires MatchRange(s).Some?
    ensures IsDashed(s, a, u, v, b, rest)
  {
    var i := SkipBlanks(s, 4);
    var j := SkipBlanks(s, i + 1);
    SkippedAreBlank(s, 4);
    SkippedAreBlank(s, i + 1);
    a, u, v, b, rest := s[..4], s[4..i], s[i + 1..j], s[j..j + 4], s[j + 4..];
    FiveParts(s, i, j);
  }

  lemma {:induction false} FiveParts(s: string, i: nat, j: nat)
    requires 4 <= i < |s| && s[i] == '-' && i + 1 <= j && j + 4 <= |s|
    ensures s == s[..4] + s[4..i] + "-" + s[i + 1..j] + s[j..j + 4] + s[j + 4..]
  {
  }

  /** Only such a text is read as a range; any other is read as a single number or not at all. */
  lemma {:induction false} RangeIsDashed(s: string)
    ensures MatchRange(s).Some? <==> exists a, u, v, b, rest :: IsDashed(s, a, u, v, b, rest)
  {
    if MatchRange(s).Some? {
      var a, u, v, b, rest := RangeParts(s);
    }
    if a, u, v, b, rest :| IsDashed(s, a, u, v, b, rest) {
      DashedIsRange(s, a, u, v, b, rest);
    }
  }

  function Spaced(lefts: seq<string>, dates: seq<string>, rights: seq<string>): seq<string>
    requires |lefts| == |dates| == |rights|
  {
    seq(|dates|, i requires 0 <= i < |dates| => lefts[i] + dates[i] + rights[i])
  }

  /** Blanks around the parts of a list do not matter. */
  lemma {:induction false} SpacedListIsRead(lefts: seq<string>, dates: seq<string>, rights: seq<string>, y: nat)
    requires |lefts| == |dates| == |rights| && dates != []
    requires forall i :: 0 <= i < |dates| ==>
      AllBlank(lefts[i]) && AllBlank(rights[i]) && IsStripped(dates[i]) && ',' !in dates[i]
    ensures Parsed(Join(',', Spaced(lefts, dates, rights)), y) <==>
            exists i :: 0 <= i < |dates| && Contributes(dates[i], y)
  {
    var parts := Spaced(lefts, dates, rights);
    forall i | 0 <= i < |parts| ensures ',' !in parts[i] && Strip(parts[i]) == dates[i] {
      StripBlanks(lefts[i], dates[i], rights[i]);
      NoCommaInSpaced(lefts[i], dates[i], rights[i]);
    }
    SplitJoin(',', parts);
    if i :| 0 <= i < |dates| && Contributes(dates[i], y) {
      assert Contributes(Strip(parts[i]), y);
    }
  }

  lemma {:induction false} NoCommaInSpaced(a: string, s: string, b: string)
    requires AllBlank(a) && AllBlank(b) && ',' !in s
    ensures ',' !in a + s + b
  {
  }

  // ---- Round trip ----

  lemma {:induction false} DecimalStep(n: nat)
    ensures |Decimal(n)| == if n < 10 then 1 else 1 + |Decimal(n / 10)|
  {
  }

  lemma {:induction false} DecimalLength(n: nat)
    ensures |Decimal(n)| == 4 <==> 1000 <= n <= 9999
    ensures |Decimal(n)| < 4 <==> n < 1000
  {
    var a := n / 10;
    var b := a / 10;
    var c := b / 10;
    DecimalStep(n);
    DecimalStep(a);
    DecimalStep(b);
    DecimalStep(c);
  }

  /** The ranges that the pattern can read back. */
  predicate FourDigit(r: Range) {
    r.first == r.last || (1000 <= r.first && r.last <= 9999)
  }

  lemma {:induction false} FourDigitsAtMost(s: string)
    requires |s| == 4 && AllDigits(s)
    ensures Value(s) <= 9999
  {
    assert s[..3][..2] == s[..2] && s[..2][..1] == s[..1];
    assert Value(s[..1]) <= 9;
    assert Value(s[..2]) <= 99;
    assert Value(s[..3]) <= 999;
  }

  /** A single year is read back. */
  lemma {:induction false} SingleYear(n: nat, y: nat)
    ensures Contributes(Decimal(n), y) <==> y == n
  {
    var s := Decimal(n);
    ParseDecimal(n);
    if |s| > 4 {
      assert IsDigit(s[4]);
    }
  }

  lemma {:induction false} DashedShape(a: nat, b: nat)
    ensures var s := Decimal(a) + "-" + Decimal(b);
            MatchRange(s) == if |Decimal(a)| == 4 && |Decimal(b)| >= 4
                             then Some((a, Value(Decimal(b)[..4]))) else None
    ensures ParseNat(Decimal(a) + "-" + Decimal(b)) == None
  {
    var A, B := Decimal(a), Decimal(b);
    var s := A + "-" + B;
    assert s[|A|] == '-' && !IsDigit(s[|A|]);
    if |A| == 4 {
      assert s[..4] == A && s[4] == '-' && s[5..] == B;
      ValueOfDecimal(a);
      assert SkipBlanks(s, 4) == 4 && SkipBlanks(s, 5) == 5 by {
        assert IsDigit(B[0]) && s[5] == B[0];
      }
      if |B| >= 4 {
        assert s[5..9] == B[..4];
      }
    } else if |A| > 4 {
      assert s[4] == A[4] && IsDigit(A[4]);
      assert SkipBlanks(s, 4) == 4;
    } else if |s| >= 4 {
      assert s[..4][|A|] == '-';
    }
  }

  /** A printed range contributes nothing outside it, and all of it exactly when it is readable. */
  lemma {:induction false} RangePart(r: Range)
    requires r.first <= r.last
    ensures forall y: nat :: Contributes(PrintRange(r), y) ==> r.first <= y <= r.last
    ensures FourDigit(r) ==> forall y: nat :: r.first <= y <= r.last ==> Contributes(PrintRange(r), y)
    ensures !FourDigit(r) ==> !Contributes(PrintRange(r), r.last)
  {
    if r.first == r.last {
      forall y: nat ensures Contributes(PrintRange(r), y) <==> y == r.first {
        SingleYear(r.first, y);
      }
    } else {
      var B := Decimal(r.last);
      DashedShape(r.first, r.last);
      DecimalLength(r.first);
      DecimalLength(r.last);
      ValueOfDecimal(r.last);
      if |B| >= 4 {
        FourDigitsAtMost(B[..4]);
        assert |B| == 4 ==> B[..4] == B;
      }
    }
  }

  lemma {:induction false} PartPlain(r: Range)
    ensures ',' !in PrintRange(r) && PrintRange(r) != "" && Strip(PrintRange(r)) == PrintRange(r)
  {
    var s := PrintRange(r);
    assert IsDigit(s[0]) && IsDigit(s[|s| - 1]) by {
      assert s[|s| - 1] == Decimal(r.last)[|Decimal(r.last)| - 1];
      assert s[0] == Decimal(r.first)[0];
    }
    StripNothing(s);
  }

  lemma {:induction false} ParsedIff(rs: seq<Range>, y: nat)
    requires rs != []
    ensures Parsed(Join(',', PrintAll(rs)), y) <==> exists i :: 0 <= i < |rs| && Contributes(PrintRange(rs[i]), y)
  {
    var parts := PrintAll(rs);
    forall i | 0 <= i < |rs| ensures ',' !in parts[i] && Strip(parts[i]) == PrintRange(rs[i]) {
      PartPlain(rs[i]);
    }
    SplitJoin(',', parts);
    if i :| 0 <= i < |rs| && Contributes(PrintRange(rs[i]), y) {
      assert Contributes(Strip(parts[i]), y);
    }
  }

  /** A list of separate ranges is read back exactly when each of its ranges can be. */
  lemma {:induction false} RangesRoundTrip(rs: seq<Range>)
    requires rs != [] && Separate(rs)
    ensures (forall y: nat :: Parsed(Join(',', PrintAll(rs)), y) <==> Covered(rs, y))
       <==> forall i :: 0 <= i < |rs| ==> FourDigit(rs[i])
  {
    forall i | 0 <= i < |rs|
      ensures forall y: nat :: Contributes(PrintRange(rs[i]), y) ==> rs[i].first <= y <= rs[i].last
      ensures FourDigit(rs[i]) ==> forall y: nat :: rs[i].first <= y <= rs[i].last ==> Contributes(PrintRange(rs[i]), y)
      ensures !FourDigit(rs[i]) ==> !Contributes(PrintRange(rs[i]), rs[i].last)
    {
      RangePart(rs[i]);
    }
    if forall i :: 0 <= i < |rs| ==> FourDigit(rs[i]) {
      forall y: nat ensures Parsed(Join(',', PrintAll(rs)), y) <==> Covered(rs, y) {
        ParsedIff(rs, y);
      }
    } else {
      var i :| 0 <= i < |rs| && !FourDigit(rs[i]);
      var y := rs[i].last;
      ParsedIff(rs, y);
      assert Covered(rs, y);
      forall j | 0 <= j < |rs| ensures !Contributes(PrintRange(rs[j]), y) {
        if j != i {
          assert !(rs[j].first <= y <= rs[j].last);
        }
      }
    }
  }

  /** Printing a set of years and parsing the text gives the set back exactly when no two
      consecutive years lie outside 1000 to 9999. */
  lemma {:induction false} YearsRoundTrip(rs: seq<Range>, years: set<nat>)
    requires rs != [] && RangesOf(rs, years)
    ensures (forall y: nat :: Parsed(Join(',', PrintAll(rs)), y) <==> y in years)
       <==> forall y: nat :: y in years && y + 1 in years ==> 1000 <= y && y + 1 <= 9999
  {
    RangesRoundTrip(rs);
    FourDigitIff(rs, years);
  }

  /** Of a range that starts before the year 1000, nothing is read back. */
  lemma {:induction false} ShortYearsAreLost(first: nat, last: nat, y: nat)
    requires first < last && first < 1000
    ensures !Parsed(Join(',', PrintAll([Range(first, last)])), y)
  {
    ParsedIff([Range(first, last)], y);
    DashedShape(first, last);
    DecimalLength(first);
  }

  lemma {:induction false} FourDigitIff(rs: seq<Range>, years: set<nat>)
    requires rs != [] && RangesOf(rs, years)
    ensures (forall i :: 0 <= i < |rs| ==> FourDigit(rs[i]))
       <==> forall y: nat :: y in years && y + 1 in years ==> 1000 <= y && y + 1 <= 9999
  {
    if forall i :: 0 <= i < |rs| ==> FourDigit(rs[i]) {
      forall y: nat | y in years && y + 1 in years ensures 1000 <= y && y + 1 <= 9999 {
        assert Covered(rs, y) && Covered(rs, y + 1);
        var i :| 0 <= i < |rs| && rs[i].first <= y <= rs[i].last;
        var j :| 0 <= j < |rs| && rs[j].first <= y + 1 <= rs[j].last;
        assert i == j;
      }
    } else {
      var i :| 0 <= i < |rs| && !FourDigit(rs[i]);
      var a, b := rs[i].first, rs[i].last;
      assert Covered(rs, a) && Covered(rs, a + 1) && Covered(rs, b) && Covered(rs, b - 1);
      assert b - 1 in years && b - 1 + 1 in years;
    }
  }
}
