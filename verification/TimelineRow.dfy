/**
 The text of one timeline of the O3 pipeline viewer (util/o3-pipeview.py): events, each with the column
 it falls into, are written as letters from left to right, with dots in the columns that have none. A
 column with several events holds several letters, so a line is longer than its width by one character
 for every event beyond the first in a column. The lemmas follow the writing loop event by event; they
 do not depend on where the columns come from.
 */
module TimelineRow {
  import opened Collections

  const SHORTHAND := "fdnpicrs"

  type StageIndex = i: nat | i < 8

  /** A drawn event: its offset in the line, the column this falls into, and the stage. */
  datatype Event = Event(offset: nat, column: nat, stage: StageIndex)

  // ---- The text of a line ----

  /** The letters of the events drawn in column `c`. */
  function Letters(es: seq<Event>, c: nat): string
  {
    if es == [] then ""
    else
      var e := es[|es| - 1];
      Letters(es[..|es| - 1], c) + if e.column == c then [SHORTHAND[e.stage]] else ""
  }

  function Cell(es: seq<Event>, dot: char, c: nat): string {
    var letters := Letters(es, c);
    if letters == "" then [dot] else letters
  }

  function Cells(es: seq<Event>, dot: char, hi: nat): seq<string> {
    seq(hi, c requires 0 <= c < hi => Cell(es, dot, c))
  }

  function Concat(cells: seq<string>): string {
    if cells == [] then "" else Concat(cells[..|cells| - 1]) + cells[|cells| - 1]
  }

  /** The text of columns `0 .. hi - 1`: each holds its letters, or a dot when it has none. */
  function Row(es: seq<Event>, dot: char, hi: nat): string {
    Concat(Cells(es, dot, hi))
  }

  lemma {:induction false} ConcatSnoc(cells: seq<string>, cell: string)
    ensures Concat(cells + [cell]) == Concat(cells) + cell
  {
    assert (cells + [cell])[..|cells|] == cells;
  }

  lemma {:induction false} RowStep(es: seq<Event>, dot: char, hi: nat)
    ensures Row(es, dot, hi + 1) == Row(es, dot, hi) + Cell(es, dot, hi)
  {
    assert Cells(es, dot, hi + 1) == Cells(es, dot, hi) + [Cell(es, dot, hi)];
    ConcatSnoc(Cells(es, dot, hi), Cell(es, dot, hi));
  }

  function Dots(dot: char, n: int): string {
    seq(if n > 0 then n else 0, _ => dot)
  }

  lemma {:induction false} LettersNone(es: seq<Event>, c: nat)
    requires forall e :: e in es ==> e.column != c
    ensures Letters(es, c) == ""
  {
    if es != [] {
      LettersNone(es[..|es| - 1], c);
    }
  }

  lemma {:induction false} DotsSnoc(dot: char, n: nat)
    ensures Dots(dot, n + 1) == Dots(dot, n) + [dot]
  {
  }

  lemma {:induction false} EmptyColumn(es: seq<Event>, dot: char, c: nat)
    requires forall e :: e in es ==> e.column < c
    ensures Row(es, dot, c + 1) == Row(es, dot, c) + [dot]
  {
    LettersNone(es, c);
    RowStep(es, dot, c);
  }

  lemma {:induction false} Appended(a: string, b: string, c: string)
    ensures (a + b) + c == a + (b + c)
  {
  }

  lemma {:induction false} RowDots(es: seq<Event>, dot: char, lo: nat, hi: nat)
    requires lo <= hi
    requires forall e :: e in es ==> e.column < lo
    ensures Row(es, dot, hi) == Row(es, dot, lo) + Dots(dot, hi - lo)
  {
    if lo < hi {
      RowDots(es, dot, lo, hi - 1);
      EmptyColumn(es, dot, hi - 1);
      DotsSnoc(dot, hi - 1 - lo);
      Appended(Row(es, dot, lo), Dots(dot, hi - 1 - lo), [dot]);
    } else {
      assert Dots(dot, 0) == "";
    }
  }

  lemma {:induction false} LettersSnoc(es: seq<Event>, e: Event, c: nat)
    ensures Letters(es + [e], c) == Letters(es, c) + if e.column == c then [SHORTHAND[e.stage]] else ""
  {
    assert (es + [e])[..|es|] == es;
  }

  lemma {:induction false} CellSnoc(es: seq<Event>, e: Event, dot: char, c: nat)
    ensures Cell(es + [e], dot, c)
         == if e.column == c then Letters(es, c) + [SHORTHAND[e.stage]] else Cell(es, dot, c)
  {
    LettersSnoc(es, e, c);
  }

  lemma {:induction false} RowIgnores(es: seq<Event>, e: Event, dot: char, hi: nat)
    requires hi <= e.column
    ensures Row(es + [e], dot, hi) == Row(es, dot, hi)
  {
    forall c: nat | c < hi ensures Cell(es + [e], dot, c) == Cell(es, dot, c) {
      CellSnoc(es, e, dot, c);
    }
    assert Cells(es + [e], dot, hi) == Cells(es, dot, hi);
  }

  /** Up to its own column a new event leaves the row alone; there it adds its letter. */
  lemma {:induction false} RowAtEvent(es: seq<Event>, e: Event, dot: char)
    ensures Row(es + [e], dot, e.column + 1)
         == Row(es, dot, e.column) + (Letters(es, e.column) + [SHORTHAND[e.stage]])
  {
    RowIgnores(es, e, dot, e.column);
    RowStep(es + [e], dot, e.column);
    CellSnoc(es, e, dot, e.column);
  }

  lemma {:induction false} RowLater(es: seq<Event>, e: Event, dot: char, pos: nat)
    requires e.column >= pos && forall i :: 0 <= i < |es| ==> es[i].column < pos
    ensures Row(es + [e], dot, e.column + 1)
         == Row(es, dot, pos) + Dots(dot, e.column - pos) + [SHORTHAND[e.stage]]
  {
    RowAtEvent(es, e, dot);
    LettersNone(es, e.column);
    RowDots(es, dot, pos, e.column);
  }

  lemma {:induction false} RowSame(es: seq<Event>, e: Event, dot: char)
    requires es != [] && es[|es| - 1].column == e.column
    ensures Row(es + [e], dot, e.column + 1) == Row(es, dot, e.column + 1) + [SHORTHAND[e.stage]]
  {
    RowAtEvent(es, e, dot);
    RowStep(es, dot, e.column);
    assert Letters(es, e.column) != "";
  }

  /** Drawing one more event, at or after the last drawn column. */
  lemma {:induction false} RowSnoc(es: seq<Event>, e: Event, dot: char, pos: nat)
    requires forall i :: 0 <= i < |es| ==> es[i].column < pos
    requires pos == 0 || (es != [] && es[|es| - 1].column == pos - 1)
    requires e.column >= pos - 1
    ensures Row(es + [e], dot, e.column + 1)
         == Row(es, dot, pos) + Dots(dot, e.column - pos) + [SHORTHAND[e.stage]]
  {
    if e.column >= pos {
      RowLater(es, e, dot, pos);
    } else {
      RowSame(es, e, dot);
      assert Row(es, dot, pos) + Dots(dot, e.column - pos) == Row(es, dot, pos);
    }
  }

  // ---- Which letters a column holds ----

  ghost predicate DrawnAt(es: seq<Event>, c: nat, s: StageIndex) {
    exists k :: 0 <= k < |es| && es[k].column == c && es[k].stage == s
  }

  lemma {:induction false} LettersDiffer(s: StageIndex, t: StageIndex)
    ensures SHORTHAND[s] == SHORTHAND[t] <==> s == t
  {
  }

  lemma {:induction false} DrawnAtSnoc(es: seq<Event>, e: Event, c: nat, s: StageIndex)
    ensures DrawnAt(es + [e], c, s) <==> DrawnAt(es, c, s) || (e.column == c && e.stage == s)
  {
    var es' := es + [e];
    if DrawnAt(es, c, s) {
      var k :| 0 <= k < |es| && es[k].column == c && es[k].stage == s;
      assert es'[k].column == c && es'[k].stage == s;
    }
    if e.column == c && e.stage == s {
      assert es'[|es|].column == c && es'[|es|].stage == s;
    }
  }

  lemma {:induction false} LetterIff(es: seq<Event>, c: nat, s: StageIndex)
    ensures SHORTHAND[s] in Letters(es, c) <==> DrawnAt(es, c, s)
  {
    if es != [] {
      var front, e := es[..|es| - 1], es[|es| - 1];
      assert es == front + [e];
      LetterIff(front, c, s);
      LettersDiffer(e.stage, s);
      DrawnAtSnoc(front, e, c, s);
      LettersSnoc(front, e, c);
    }
  }

  ghost predicate StagesDiffer(es: seq<Event>) {
    forall j, k :: 0 <= j < k < |es| ==> es[j].stage != es[k].stage
  }

  lemma {:induction false} LettersDistinct(es: seq<Event>, c: nat)
    requires StagesDiffer(es)
    ensures Distinct(Letters(es, c)) && forall ch :: ch in Letters(es, c) ==> ch in SHORTHAND
  {
    if es != [] {
      var front, e := es[..|es| - 1], es[|es| - 1];
      LettersDistinct(front, c);
      LetterIff(front, c, e.stage);
      assert SHORTHAND[e.stage] !in Letters(front, c);
    }
  }

  // ---- The length of a line ----

  /** The distinct columns below `hi` that events occupy. */
  ghost function Occupied(es: seq<Event>, hi: nat): set<nat> {
    set k | 0 <= k < |es| && es[k].column < hi :: es[k].column
  }

  function LetterCount(es: seq<Event>, hi: nat): nat {
    if hi == 0 then 0 else LetterCount(es, hi - 1) + |Letters(es, hi - 1)|
  }

  lemma {:induction false} LettersIff(es: seq<Event>, c: nat)
    ensures Letters(es, c) != "" <==> exists k :: 0 <= k < |es| && es[k].column == c
  {
    if es != [] {
      LettersIff(es[..|es| - 1], c);
    }
  }

  lemma {:induction false} LetterCountSnoc(es: seq<Event>, e: Event, hi: nat)
    ensures LetterCount(es + [e], hi) == LetterCount(es, hi) + if e.column < hi then 1 else 0
  {
    if hi > 0 {
      LetterCountSnoc(es, e, hi - 1);
      assert (es + [e])[..|es|] == es;
    }
  }

  lemma {:induction false} LetterCountNone(hi: nat)
    ensures LetterCount([], hi) == 0
  {
    if hi > 0 {
      LetterCountNone(hi - 1);
    }
  }

  lemma {:induction false} LetterCountAll(es: seq<Event>, hi: nat)
    requires forall k :: 0 <= k < |es| ==> es[k].column < hi
    ensures LetterCount(es, hi) == |es|
  {
    if es == [] {
      LetterCountNone(hi);
    } else {
      var front, e := es[..|es| - 1], es[|es| - 1];
      assert es == front + [e];
      LetterCountAll(front, hi);
      LetterCountSnoc(front, e, hi);
    }
  }

  /** Whether column `c` holds no letter, as a number. */
  function Blank(es: seq<Event>, c: nat): nat {
    if Letters(es, c) == "" then 1 else 0
  }

  lemma {:induction false} OccupiedStep(es: seq<Event>, c: nat)
    ensures |Occupied(es, c + 1)| == |Occupied(es, c)| + 1 - Blank(es, c)
  {
    LettersIff(es, c);
    if Blank(es, c) == 0 {
      assert Occupied(es, c + 1) == Occupied(es, c) + {c};
    } else {
      assert Occupied(es, c + 1) == Occupied(es, c);
    }
  }

  lemma {:induction false} LetterCountStep(es: seq<Event>, c: nat)
    ensures LetterCount(es, c + 1) == LetterCount(es, c) + |Letters(es, c)|
  {
  }

  lemma {:induction false} CellLength(es: seq<Event>, dot: char, c: nat)
    ensures |Cell(es, dot, c)| == |Letters(es, c)| + Blank(es, c)
  {
  }

  lemma {:induction false} RowLengthStep(es: seq<Event>, dot: char, c: nat)
    ensures |Row(es, dot, c + 1)| == |Row(es, dot, c)| + |Letters(es, c)| + Blank(es, c)
  {
    RowStep(es, dot, c);
    CellLength(es, dot, c);
  }

  lemma {:induction false} AddUp(row: int, count: int, occupied: int, letters: int, blank: int, c: int)
    requires row == c + count - occupied
    ensures row + letters + blank == (c + 1) + (count + letters) - (occupied + 1 - blank)
  {
  }

  lemma {:induction false} RowPrefixLength(es: seq<Event>, dot: char, hi: nat)
    ensures |Row(es, dot, hi)| == hi + LetterCount(es, hi) - |Occupied(es, hi)|
  {
    if hi == 0 {
      assert Occupied(es, hi) == {};
    } else {
      var c := hi - 1;
      RowPrefixLength(es, dot, c);
      RowLengthStep(es, dot, c);
      LetterCountStep(es, c);
      OccupiedStep(es, c);
      AddUp(|Row(es, dot, c)|, LetterCount(es, c), |Occupied(es, c)|, |Letters(es, c)|, Blank(es, c), c);
    }
  }

  /** A line is as long as its width, plus one letter for every event beyond the first in a column. */
  lemma {:induction false} RowLength(width: nat, es: seq<Event>, dot: char)
    requires forall k :: 0 <= k < |es| ==> es[k].column < width
    ensures |Row(es, dot, width)| == width + |es| - |Occupied(es, width)|
  {
    RowPrefixLength(es, dot, width);
    LetterCountAll(es, width);
  }
}
