/**
 The timeline that the O3 pipeline viewer draws for one instruction (`print_inst` in
 util/o3-pipeview.py): stage ticks are spread over one wrapped line or over several lines.
 */
module Timeline {
  import opened Collections
  import opened Division
  import opened Sorting
  import opened PipeWindow
  import opened TimelineRow

  /** Position of each stage's name in alphabetical order; events are sorted by column, then name. */
  const NAME_RANK := [3, 1, 5, 2, 4, 0, 6, 7]
  const DISPATCH := 3

  function Tick(x: Inst, stage: StageIndex): nat {
    [x.fetch, x.decode, x.rename, x.dispatch, x.issue, x.complete, x.retire, x.store][stage]
  }

  /** How the timeline is drawn: columns per line, ticks per column, and whether stores are shown. */
  datatype Layout = Layout(width: Positive, cycle: Positive, stores: bool) {
    function Stages(): (n: nat)
      ensures 0 < n <= 8
    {
      if stores then 8 else 7
    }

    function TimeWidth(): Positive {
      width * cycle
    }
  }

  function Latest(x: Inst, n: nat): (r: nat)
    requires 0 < n <= 8
    ensures forall s: StageIndex :: s < n ==> Tick(x, s) <= r
    ensures exists s: StageIndex :: s < n && Tick(x, s) == r
  {
    if n == 1 then assert Tick(x, 0) == x.fetch; x.fetch
    else Max(Latest(x, n - 1), Tick(x, n - 1))
  }

  function LastEvent(x: Inst, l: Layout): nat {
    Latest(x, l.Stages())
  }

  function BaseTick(x: Inst, l: Layout): nat
  {
    x.fetch / l.TimeWidth() * l.TimeWidth()
  }

  predicate Compact(x: Inst, l: Layout) {
    LastEvent(x, l) - x.fetch < l.TimeWidth()
  }

  function NumLines(x: Inst, l: Layout): (n: nat)
    ensures n >= 1
  {
    if Compact(x, l) then 1 else
    DivBlock(x.fetch, l.TimeWidth());
    (LastEvent(x, l) - BaseTick(x, l)) / l.TimeWidth() + 1
  }

  /** The tick at which line `i` starts. */
  function StartTick(x: Inst, l: Layout, i: nat): nat {
    BaseTick(x, l) + i * l.TimeWidth()
  }

  /** Whether a stage's tick falls into line `i`. */
  predicate InLine(x: Inst, l: Layout, i: nat, tick: nat)
  {
    var start := StartTick(x, l, i);
    var end := start + l.TimeWidth() + if NumLines(x, l) == 1 then x.fetch - BaseTick(x, l) else 0;
    tick != 0 && start <= tick < end
  }

  function LineOf(x: Inst, l: Layout, tick: nat): nat
    requires BaseTick(x, l) <= tick
  {
    if Compact(x, l) then 0 else (tick - BaseTick(x, l)) / l.TimeWidth()
  }

  lemma {:induction false} CompactIffOneLine(x: Inst, l: Layout)
    ensures Compact(x, l) <==> NumLines(x, l) == 1
  {
    var w := l.TimeWidth();
    DivBlock(x.fetch, w);
    if !Compact(x, l) {
      DivMonotone(w, LastEvent(x, l) - BaseTick(x, l), w);
      assert w / w == 1;
    }
  }

  /** A stage tick is drawn in at most one line, and in some line exactly when it is set and
      does not precede the tick at which the first line starts. */
  lemma {:induction false} DrawnInExactlyOneLine(x: Inst, l: Layout, stage: StageIndex, i: nat)
    requires stage < l.Stages()
    ensures var tick, base := Tick(x, stage), BaseTick(x, l);
            && (i < NumLines(x, l) ==>
                  (InLine(x, l, i, tick) <==> tick != 0 && base <= tick && i == LineOf(x, l, tick)))
            && (base <= tick ==> LineOf(x, l, tick) < NumLines(x, l))
  {
    var tick: nat, base: nat, w: nat := Tick(x, stage), BaseTick(x, l), l.TimeWidth();
    DivBlock(x.fetch, w);
    CompactIffOneLine(x, l);
    if Compact(x, l) {
      assert 0 * w == 0;
    } else if base <= tick {
      BlockIsQuotient(tick - base, w, i);
      assert (i + 1) * w == i * w + w;
      DivMonotone(tick - base, LastEvent(x, l) - base, w);
    }
  }

  /** With ticks as the simulator writes them (0 or not before fetch), every stage is drawn. */
  lemma {:induction false} SimulatedTicksAreDrawn(x: Inst, l: Layout, stage: StageIndex)
    requires stage < l.Stages()
    requires Tick(x, stage) >= x.fetch > 0
    ensures exists i :: 0 <= i < NumLines(x, l) && InLine(x, l, i, Tick(x, stage))
  {
    DivBlock(x.fetch, l.TimeWidth());
    var i := LineOf(x, l, Tick(x, stage));
    DrawnInExactlyOneLine(x, l, stage, i);
    assert InLine(x, l, i, Tick(x, stage));
  }

  // ---- One line of the timeline ----

  function EventAt(l: Layout, tick: nat, stage: StageIndex): Event {
    var offset := tick % l.TimeWidth();
    Event(offset, offset / l.cycle, stage)
  }

  const ByColumn: Event -> int := (e: Event) => e.offset * 8 + NAME_RANK[e.stage]

  /** The stages among the first `n` that fall into line `i`, in stage order. */
  function EventsOf(x: Inst, l: Layout, i: nat, n: nat): seq<Event>
    requires n <= 8
  {
    if n == 0 then []
    else
      var tick := Tick(x, n - 1);
      EventsOf(x, l, i, n - 1) + if InLine(x, l, i, tick) then [EventAt(l, tick, n - 1)] else []
  }

  /** Dispatch is not drawn when the instruction issued at the same tick. */
  predicate Visible(x: Inst, e: Event) {
    !(e.stage == DISPATCH && x.dispatch == x.issue)
  }

  function VisibleIn(x: Inst): Event -> bool {
    (e: Event) => Visible(x, e)
  }

  /** The events of line `i`, in the order in which they are written. */
  function SortedEvents(x: Inst, l: Layout, i: nat): seq<Event> {
    StableSort(ByColumn, EventsOf(x, l, i, l.Stages()))
  }

  function Drawn(x: Inst, l: Layout, i: nat): seq<Event> {
    Filter(VisibleIn(x), SortedEvents(x, l, i))
  }

  ghost predicate ColumnsAscend(es: seq<Event>)
  {
    forall i, j :: 0 <= i < j < |es| ==> es[i].column <= es[j].column
  }

  /** `text` is the line so far: the drawn events `es`, written up to column `pos`. */
  ghost predicate Written(es: seq<Event>, dot: char, pos: nat, text: string)
  {
    && text == Row(es, dot, pos)
    && (forall i :: 0 <= i < |es| ==> es[i].column < pos)
    && (if es == [] then pos == 0 else es[|es| - 1].column == pos - 1)
  }

  /** The events among the first `k` that are drawn. */
  function VisibleUpTo(x: Inst, events: seq<Event>, k: nat): seq<Event>
    requires k <= |events|
  {
    Filter(VisibleIn(x), events[..k])
  }

  lemma {:induction false} VisibleStep(x: Inst, events: seq<Event>, k: nat)
    requires k < |events|
    ensures VisibleUpTo(x, events, k + 1)
         == if Visible(x, events[k]) then VisibleUpTo(x, events, k) + [events[k]] else VisibleUpTo(x, events, k)
  {
    assert events[..k + 1] == events[..k] + [events[k]];
    FilterSnoc(VisibleIn(x), events[..k], events[k]);
  }

  /** The loop that writes one line: dots up to each event's column, then its letter. */
  method WriteLine(l: Layout, x: Inst, events: seq<Event>, dot: char) returns (text: string)
    requires ColumnsAscend(events)
    requires forall i :: 0 <= i < |events| ==> events[i].column < l.width
    ensures text == Row(Filter(VisibleIn(x), events), dot, l.width)
  {
    text := "";
    var pos := 0;
    ghost var done := [];
    for k := 0 to |events|
      invariant done == VisibleUpTo(x, events, k)
      invariant 0 <= pos <= l.width && Written(done, dot, pos, text)
      invariant forall j :: k <= j < |events| ==> events[j].column >= pos - 1
    {
      VisibleStep(x, events, k);
      if Visible(x, events[k]) {
        text, pos, done := WriteOne(done, dot, pos, text, events[k]);
      }
    }
    assert events[..|events|] == events;
    RowDots(done, dot, pos, l.width);
    text := text + Dots(dot, l.width - pos);
  }

  method WriteOne(ghost done: seq<Event>, dot: char, pos: nat, text: string, e: Event)
    returns (text': string, pos': nat, ghost done': seq<Event>)
    requires Written(done, dot, pos, text) && e.column >= pos - 1
    ensures done' == done + [e] && pos' == e.column + 1 && Written(done', dot, pos', text')
  {
    RowSnoc(done, e, dot, pos);
    text' := text + Dots(dot, e.column - pos) + [SHORTHAND[e.stage]];
    pos', done' := e.column + 1, done + [e];
  }

  // ---- The whole instruction ----

  datatype Outcome = Lines(rows: seq<(string, nat)>) | IndexError

  function Dot(x: Inst): char {
    if x.retire == 0 then '=' else '.'
  }

  ghost predicate EventIn(x: Inst, l: Layout, i: nat, n: nat, e: Event) {
    e.stage < n && InLine(x, l, i, Tick(x, e.stage)) && e == EventAt(l, Tick(x, e.stage), e.stage)
  }

  lemma {:induction false} EventsOfMembers(x: Inst, l: Layout, i: nat, n: nat)
    requires n <= 8
    ensures forall e :: e in EventsOf(x, l, i, n) <==> EventIn(x, l, i, n, e)
  {
    if n > 0 {
      EventsOfMembers(x, l, i, n - 1);
    }
  }

  lemma {:induction false} ColumnInRange(l: Layout, tick: nat)
    ensures tick % l.TimeWidth() / l.cycle < l.width
  {
    var m := tick % l.TimeWidth();
    DivBlock(m, l.cycle);
    if m / l.cycle >= l.width {
      MulOrder(l.width, m / l.cycle, l.cycle);
    }
  }

  lemma {:induction false} KeyOrderIsColumnOrder(l: Layout, a: Event, b: Event)
    requires ByColumn(a) <= ByColumn(b)
    requires a.column == a.offset / l.cycle && b.column == b.offset / l.cycle
    ensures a.column <= b.column
  {
    DivMonotone(a.offset, b.offset, l.cycle);
  }

  lemma {:induction false} SortedEventsAscend(x: Inst, l: Layout, i: nat)
    ensures var es := SortedEvents(x, l, i);
            && ColumnsAscend(es)
            && forall k :: 0 <= k < |es| ==> es[k].column < l.width
  {
    var events, es := EventsOf(x, l, i, l.Stages()), SortedEvents(x, l, i);
    StableSortSorted(ByColumn, events);
    StableSortPermutes(ByColumn, events);
    SameMembers(es, events);
    EventsOfMembers(x, l, i, l.Stages());
    forall j, k | 0 <= j < k < |es| ensures es[j].column <= es[k].column {
      assert es[j] in events && es[k] in events;
      KeyOrderIsColumnOrder(l, es[j], es[k]);
    }
    forall k | 0 <= k < |es| ensures es[k].column < l.width {
      assert es[k] in events;
      ColumnInRange(l, Tick(x, es[k].stage));
    }
  }

  /** The events drawn in line `i` are the visible stages whose tick falls into it. */
  lemma {:induction false} DrawnMembers(x: Inst, l: Layout, i: nat)
    ensures forall e :: e in Drawn(x, l, i) <==> EventIn(x, l, i, l.Stages(), e) && Visible(x, e)
  {
    var events := EventsOf(x, l, i, l.Stages());
    EventsOfMembers(x, l, i, l.Stages());
    StableSortPermutes(ByColumn, events);
    FilterMembers(VisibleIn(x), StableSort(ByColumn, events));
  }

  /** No stage of the instruction has a tick. */
  ghost predicate NeverSeen(x: Inst, l: Layout) {
    forall s: StageIndex :: s < l.Stages() ==> Tick(x, s) == 0
  }

  lemma {:induction false} SeveralLinesSeen(x: Inst, l: Layout)
    requires !Compact(x, l)
    ensures !NeverSeen(x, l)
  {
    assert LastEvent(x, l) > 0;
  }

  /** The only line has no event exactly when no stage tick is set. */
  lemma {:induction false} NoEventIff(x: Inst, l: Layout)
    requires Compact(x, l)
    ensures SortedEvents(x, l, 0) == [] <==> NeverSeen(x, l)
  {
    var events := EventsOf(x, l, 0, l.Stages());
    EventsOfMembers(x, l, 0, l.Stages());
    StableSortPermutes(ByColumn, events);
    DivBlock(x.fetch, l.TimeWidth());
    if events == [] {
      forall s: StageIndex | s < l.Stages() ensures Tick(x, s) == 0 {
        assert !EventIn(x, l, 0, l.Stages(), EventAt(l, Tick(x, s), s));
        DrawnInExactlyOneLine(x, l, 0, 0);
        DrawnInExactlyOneLine(x, l, s, 0);
        assert x.fetch > 0 ==> EventIn(x, l, 0, l.Stages(), EventAt(l, x.fetch, 0));
      }
    } else {
      assert EventIn(x, l, 0, l.Stages(), events[0]);
    }
  }

  /** One output line: its text and the tick it starts at. */
  function LineAt(x: Inst, l: Layout, i: nat): (string, nat) {
    (Row(Drawn(x, l, i), Dot(x), l.width), StartTick(x, l, i))
  }

  /** Every line is as long as the width, plus the letters that share a column with another. */
  lemma {:induction false} LineLength(x: Inst, l: Layout, i: nat)
    ensures |LineAt(x, l, i).0|
         == l.width + |Drawn(x, l, i)| - |Occupied(Drawn(x, l, i), l.width)|
  {
    var es := Drawn(x, l, i);
    forall k | 0 <= k < |es| ensures es[k].column < l.width {
      DrawnMembers(x, l, i);
      assert es[k] in es;
      ColumnInRange(l, Tick(x, es[k].stage));
    }
    RowLength(l.width, es, Dot(x));
  }

  // ---- What a line shows, from the ticks alone ----

  /** Whether `tick` falls into column `c` of a line that starts at tick `start`. */
  ghost predicate FallsIn(l: Layout, start: int, c: nat, tick: int) {
    start + c * l.cycle <= tick < start + (c + 1) * l.cycle
  }

  /** Whether a set tick is shown in column `c`: it falls into it, or the only line wraps around to it. */
  ghost predicate Shows(l: Layout, start: int, wraps: bool, c: nat, tick: int) {
    tick != 0 && (FallsIn(l, start, c, tick) || (wraps && FallsIn(l, start, c, tick - l.TimeWidth())))
  }

  lemma {:induction false} ColumnIff(l: Layout, offset: nat, c: nat)
    ensures offset / l.cycle == c <==> FallsIn(l, 0, c, offset)
  {
    BlockIsQuotient(offset, l.cycle, c);
  }

  lemma {:induction false} ColumnsEnd(l: Layout, c: nat)
    requires c < l.width
    ensures (c + 1) * l.cycle <= l.TimeWidth()
  {
    MulOrder(c + 1, l.width, l.cycle);
  }

  lemma {:induction false} OffsetIs(w: Positive, k: nat, tick: nat)
    requires k * w <= tick < k * w + w
    ensures tick % w == tick - k * w
  {
    DivUnique(tick, w, k, tick - k * w);
  }

  /** The tick printed for a line: a multiple of the line's width in ticks. */
  lemma {:induction false} StartIsMultiple(x: Inst, l: Layout, i: nat)
    ensures var w, k := l.TimeWidth(), x.fetch / l.TimeWidth();
            StartTick(x, l, i) == (k + i) * w && k * w <= x.fetch < k * w + w
  {
    DivBlock(x.fetch, l.TimeWidth());
    var w, k := l.TimeWidth(), x.fetch / l.TimeWidth();
    assert (k + i) * w == k * w + i * w && (k + 1) * w == k * w + w;
  }

  /** The column of a tick in the line of its own width. */
  lemma {:induction false} ColumnInLine(l: Layout, k: nat, c: nat, tick: nat)
    requires k * l.TimeWidth() <= tick < k * l.TimeWidth() + l.TimeWidth()
    ensures tick % l.TimeWidth() / l.cycle == c <==> FallsIn(l, k * l.TimeWidth(), c, tick)
  {
    OffsetIs(l.TimeWidth(), k, tick);
    ColumnIff(l, tick - k * l.TimeWidth(), c);
  }

  lemma {:induction false} ShownOnce(x: Inst, l: Layout, i: nat, s: StageIndex, c: nat)
    requires 1 < NumLines(x, l) && c < l.width
    ensures InLine(x, l, i, Tick(x, s)) && EventAt(l, Tick(x, s), s).column == c
       <==> Shows(l, StartTick(x, l, i), false, c, Tick(x, s))
  {
    var w, k, tick := l.TimeWidth(), x.fetch / l.TimeWidth(), Tick(x, s);
    StartIsMultiple(x, l, i);
    ColumnsEnd(l, c);
    if (k + i) * w <= tick < (k + i) * w + w {
      ColumnInLine(l, k + i, c, tick);
    } else {
      MulOrder(0, c, l.cycle);
    }
  }

  /** The end of the only line: no stage comes after it. */
  lemma {:induction false} OnlyLineEnds(x: Inst, l: Layout, s: StageIndex)
    requires NumLines(x, l) == 1 && s < l.Stages()
    ensures InLine(x, l, 0, Tick(x, s)) <==> Tick(x, s) != 0 && StartTick(x, l, 0) <= Tick(x, s)
    ensures Tick(x, s) < StartTick(x, l, 0) + 2 * l.TimeWidth()
  {
    CompactIffOneLine(x, l);
    DivBlock(x.fetch, l.TimeWidth());
  }

  lemma {:induction false} ShownWrapped(x: Inst, l: Layout, s: StageIndex, c: nat)
    requires NumLines(x, l) == 1 && s < l.Stages() && c < l.width
    ensures InLine(x, l, 0, Tick(x, s)) && EventAt(l, Tick(x, s), s).column == c
       <==> Shows(l, StartTick(x, l, 0), true, c, Tick(x, s))
  {
    StartIsMultiple(x, l, 0);
    OnlyLineEnds(x, l, s);
    ColumnsEnd(l, c);
    WrappedColumn(l, x.fetch / l.TimeWidth(), c, Tick(x, s));
  }

  lemma {:induction false} WrappedColumn(l: Layout, k: nat, c: nat, tick: nat)
    requires (c + 1) * l.cycle <= l.TimeWidth() && tick < k * l.TimeWidth() + 2 * l.TimeWidth()
    ensures k * l.TimeWidth() <= tick && tick % l.TimeWidth() / l.cycle == c
       <==> FallsIn(l, k * l.TimeWidth(), c, tick) || FallsIn(l, k * l.TimeWidth(), c, tick - l.TimeWidth())
  {
    var w := l.TimeWidth();
    MulOrder(0, c, l.cycle);
    assert (k + 1) * w == k * w + w;
    if k * w <= tick < k * w + w {
      ColumnInLine(l, k, c, tick);
    } else if k * w + w <= tick {
      ColumnInLine(l, k + 1, c, tick);
    }
  }

  /** A stage is in the event list of line `i` at column `c` exactly when that column shows its tick. */
  lemma {:induction false} EventShown(x: Inst, l: Layout, i: nat, s: StageIndex, c: nat)
    requires i < NumLines(x, l) && s < l.Stages() && c < l.width
    ensures InLine(x, l, i, Tick(x, s)) && EventAt(l, Tick(x, s), s).column == c
       <==> Shows(l, StartTick(x, l, i), NumLines(x, l) == 1, c, Tick(x, s))
  {
    if NumLines(x, l) == 1 {
      ShownWrapped(x, l, s, c);
    } else {
      ShownOnce(x, l, i, s, c);
    }
  }

  lemma {:induction false} StageShown(x: Inst, l: Layout, i: nat, c: nat, s: StageIndex)
    requires i < NumLines(x, l) && c < l.width
    ensures SHORTHAND[s] in Letters(Drawn(x, l, i), c)
       <==> && s < l.Stages() && !(s == DISPATCH && x.dispatch == x.issue)
            && Shows(l, StartTick(x, l, i), NumLines(x, l) == 1, c, Tick(x, s))
  {
    var es, e := Drawn(x, l, i), EventAt(l, Tick(x, s), s);
    LetterIff(es, c, s);
    DrawnMembers(x, l, i);
    if s < l.Stages() {
      EventShown(x, l, i, s, c);
    }
    if DrawnAt(es, c, s) {
      var k :| 0 <= k < |es| && es[k].column == c && es[k].stage == s;
      assert es[k] in es;
    } else {
      assert e in es ==> e.column != c;
    }
  }

  /** The letter of a stage is in a cell exactly when the cell's ticks include the stage's tick. */
  lemma {:induction false} CellShows(x: Inst, l: Layout, i: nat, c: nat)
    requires i < NumLines(x, l) && c < l.width
    ensures var cells := Cells(Drawn(x, l, i), Dot(x), l.width);
            LineAt(x, l, i).0 == Concat(cells) && |cells| == l.width
    ensures var cell := Cells(Drawn(x, l, i), Dot(x), l.width)[c];
            var start, wraps := LineAt(x, l, i).1, NumLines(x, l) == 1;
            && ('f' in cell <==> Shows(l, start, wraps, c, x.fetch))
            && ('d' in cell <==> Shows(l, start, wraps, c, x.decode))
            && ('n' in cell <==> Shows(l, start, wraps, c, x.rename))
            && ('p' in cell <==> Shows(l, start, wraps, c, x.dispatch) && x.dispatch != x.issue)
            && ('i' in cell <==> Shows(l, start, wraps, c, x.issue))
            && ('c' in cell <==> Shows(l, start, wraps, c, x.complete))
            && ('r' in cell <==> Shows(l, start, wraps, c, x.retire))
            && ('s' in cell <==> Shows(l, start, wraps, c, x.store) && l.stores)
  {
    StageShown(x, l, i, c, 0);
    StageShown(x, l, i, c, 1);
    StageShown(x, l, i, c, 2);
    StageShown(x, l, i, c, 3);
    StageShown(x, l, i, c, 4);
    StageShown(x, l, i, c, 5);
    StageShown(x, l, i, c, 6);
    StageShown(x, l, i, c, 7);
  }

  lemma {:induction false} EventsOfDistinct(x: Inst, l: Layout, i: nat, n: nat)
    requires n <= 8
    ensures Distinct(EventsOf(x, l, i, n))
  {
    if n > 0 {
      EventsOfDistinct(x, l, i, n - 1);
      EventsOfMembers(x, l, i, n - 1);
      assert forall e :: e in EventsOf(x, l, i, n - 1) ==> e.stage < n - 1;
    }
  }

  /** No stage is drawn twice in a line. */
  lemma {:induction false} DrawnOnce(x: Inst, l: Layout, i: nat)
    ensures StagesDiffer(Drawn(x, l, i))
  {
    var events, es := EventsOf(x, l, i, l.Stages()), Drawn(x, l, i);
    EventsOfDistinct(x, l, i, l.Stages());
    DistinctIsOnce(events);
    StableSortPermutes(ByColumn, events);
    forall e ensures multiset(es)[e] <= 1 {
      FilterCount(VisibleIn(x), SortedEvents(x, l, i), e);
    }
    OnceIsDistinct(es);
    DrawnMembers(x, l, i);
    forall j, k | 0 <= j < k < |es| ensures es[j].stage != es[k].stage {
      assert es[j] in es && es[k] in es;
    }
  }

  /** A cell holds each of its letters once, or a dot that tells abandoned instructions apart. */
  lemma {:induction false} CellIsLettersOrDot(x: Inst, l: Layout, i: nat, c: nat)
    requires c < l.width
    ensures var cell := Cells(Drawn(x, l, i), Dot(x), l.width)[c];
            || cell == (if x.retire == 0 then "=" else ".")
            || (cell != "" && Distinct(cell) && forall ch :: ch in cell ==> ch in "fdnpicrs")
  {
    DrawnOnce(x, l, i);
    LettersDistinct(Drawn(x, l, i), c);
  }

  const STAGE_NAMES := ["fetch", "decode", "rename", "dispatch", "issue", "complete", "retire", "store"]

  /** `a` comes before `b` in the dictionary, and is not a beginning of it. */
  ghost predicate Before(a: string, b: string) {
    exists k :: 0 <= k < |a| && k < |b| && a[..k] == b[..k] && a[k] < b[k]
  }

  lemma {:induction false} RankIsAlphabetical(s: StageIndex, t: StageIndex)
    requires NAME_RANK[s] < NAME_RANK[t]
    ensures Before(STAGE_NAMES[s], STAGE_NAMES[t])
  {
    var a, b := STAGE_NAMES[s], STAGE_NAMES[t];
    var k := if a[0] != b[0] then 0 else if a[1] != b[1] then 1 else 2;
    assert a[k] < b[k] && a[..k] == b[..k];
  }

  /** Letters are written in the order of their place in the line, and at the same place in the order
      of the stages' names. */
  lemma {:induction false} DrawnInOrder(x: Inst, l: Layout, i: nat, j: nat, k: nat)
    requires j < k < |Drawn(x, l, i)|
    ensures var a, b, w := Drawn(x, l, i)[j].stage, Drawn(x, l, i)[k].stage, l.TimeWidth();
            || Tick(x, a) % w < Tick(x, b) % w
            || (Tick(x, a) % w == Tick(x, b) % w && Before(STAGE_NAMES[a], STAGE_NAMES[b]))
  {
    var es := Drawn(x, l, i);
    DrawnMembers(x, l, i);
    DrawnOnce(x, l, i);
    assert es[j] in es && es[k] in es;
    DrawnSorted(x, l, i, j, k);
    RanksDiffer(es[j].stage, es[k].stage);
    if es[j].offset == es[k].offset {
      RankIsAlphabetical(es[j].stage, es[k].stage);
    }
  }

  lemma {:induction false} DrawnSorted(x: Inst, l: Layout, i: nat, j: nat, k: nat)
    requires j < k < |Drawn(x, l, i)|
    ensures ByColumn(Drawn(x, l, i)[j]) <= ByColumn(Drawn(x, l, i)[k])
  {
    var events := EventsOf(x, l, i, l.Stages());
    FilterStableSort(ByColumn, VisibleIn(x), events);
    StableSortSorted(ByColumn, Filter(VisibleIn(x), events));
  }

  lemma {:induction false} RanksDiffer(s: StageIndex, t: StageIndex)
    ensures NAME_RANK[s] == NAME_RANK[t] <==> s == t
    ensures 0 <= NAME_RANK[s] < 8
  {
  }

  /** The lines start at consecutive multiples of the width in ticks, the first with the fetch in it. */
  lemma {:induction false} LineStarts(x: Inst, l: Layout, i: nat)
    ensures var w, base := l.TimeWidth(), LineAt(x, l, 0).1;
            base % w == 0 && base <= x.fetch < base + w && LineAt(x, l, i).1 == base + i * w
  {
    var w, k := l.TimeWidth(), x.fetch / l.TimeWidth();
    StartIsMultiple(x, l, 0);
    DivUnique(k * w, w, k, 0);
  }

  lemma {:induction false} LastLineHolds(x: Inst, l: Layout)
    requires !Compact(x, l)
    ensures var start := StartTick(x, l, NumLines(x, l) - 1);
            start <= LastEvent(x, l) < start + l.TimeWidth()
  {
    var w, n := l.TimeWidth(), NumLines(x, l);
    DivBlock(x.fetch, w);
    DivBlock(LastEvent(x, l) - BaseTick(x, l), w);
    assert (n - 1 + 1) * w == (n - 1) * w + w;
  }

  /** There is one line exactly when every stage is within one width of the fetch; otherwise there are
      as many as it takes to reach the last stage. */
  lemma {:induction false} LineCount(x: Inst, l: Layout)
    ensures var w, n := l.TimeWidth(), NumLines(x, l);
            && (n == 1 <==> forall s: StageIndex :: s < l.Stages() ==> Tick(x, s) < x.fetch + w)
            && (n > 1 ==> exists s: StageIndex ::
                  s < l.Stages() && LineAt(x, l, n - 1).1 <= Tick(x, s) < LineAt(x, l, n - 1).1 + w)
  {
    CompactIffOneLine(x, l);
    var s: StageIndex :| s < l.Stages() && Tick(x, s) == LastEvent(x, l);
    if !Compact(x, l) {
      LastLineHolds(x, l);
    }
  }

  function LinesOf(x: Inst, l: Layout, n: nat): seq<(string, nat)> {
    seq(n, i requires 0 <= i < n => LineAt(x, l, i))
  }

  /** The loop over the lines; colours are left out. */
  method PrintLines(x: Inst, l: Layout, n: nat) returns (r: Outcome)
    ensures r == if n == 1 && SortedEvents(x, l, 0) == [] then IndexError else Lines(LinesOf(x, l, n))
  {
    var rows: seq<(string, nat)> := [];
    for i := 0 to n
      invariant |rows| == i && forall k :: 0 <= k < i ==> rows[k] == LineAt(x, l, k)
      invariant i > 0 && n == 1 ==> SortedEvents(x, l, 0) != []
    {
      var row, empty := DrawLine(x, l, i);
      if n == 1 && empty {
        return IndexError;
      }
      rows := rows + [row];
    }
    assert rows == LinesOf(x, l, n);
    r := Lines(rows);
  }

  method PrintInst(x: Inst, l: Layout) returns (r: Outcome)
    ensures r.IndexError? <==> NeverSeen(x, l)
    ensures r.Lines? ==> r.rows == LinesOf(x, l, NumLines(x, l))
  {
    r := PrintLines(x, l, NumLines(x, l));
    CompactIffOneLine(x, l);
    if Compact(x, l) {
      NoEventIff(x, l);
    } else {
      SeveralLinesSeen(x, l);
    }
  }

  method DrawText(x: Inst, l: Layout, i: nat) returns (text: string, empty: bool)
    ensures text == Row(Drawn(x, l, i), Dot(x), l.width)
    ensures empty <==> SortedEvents(x, l, i) == []
  {
    var events := GatherEvents(x, l, i);
    empty := events == [];
    SortedEventsAscend(x, l, i);
    text := WriteLine(l, x, events, Dot(x));
  }

  method DrawLine(x: Inst, l: Layout, i: nat) returns (row: (string, nat), empty: bool)
    ensures row == LineAt(x, l, i)
    ensures empty <==> SortedEvents(x, l, i) == []
  {
    var text;
    text, empty := DrawText(x, l, i);
    row := (text, StartTick(x, l, i));
  }

  method GatherEvents(x: Inst, l: Layout, i: nat) returns (events: seq<Event>)
    ensures events == SortedEvents(x, l, i)
  {
    events := [];
    for s := 0 to l.Stages()
      invariant events == EventsOf(x, l, i, s)
    {
      var tick := Tick(x, s);
      if InLine(x, l, i, tick) {
        events := events + [EventAt(l, tick, s)];
      }
    }
    events := StableSort(ByColumn, events);
  }
}
