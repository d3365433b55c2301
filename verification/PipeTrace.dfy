/**
 Reading an O3 pipeline trace (util/o3-pipeview.py): skipping to the range of interest,
 collecting one instruction per block of lines, stopping early, and handing each
 instruction to the print queue.
 */
module PipeTrace {
  import opened PipeWindow

  datatype Stage = Decode | Rename | Dispatch | Issue | Complete

  /** A trace line, split into its fields. */
  datatype Line =
    | Other
    | Fetch(tick: nat, pc: string, upc: string, sn: nat, disasm: string)
    | StageAt(stage: Stage, tick: nat)
    | Retire(tick: nat, store: nat)

  const NO_INST := Inst(0, 0, 0, 0, 0, 0, 0, 0, 0, "", "", "")

  function SetStage(x: Inst, stage: Stage, tick: nat): Inst {
    match stage
    case Decode => x.(decode := tick)
    case Rename => x.(rename := tick)
    case Dispatch => x.(dispatch := tick)
    case Issue => x.(issue := tick)
    case Complete => x.(complete := tick)
  }

  /** The instruction as queued when its retire line is read. */
  function Retired(cfg: Config, x: Inst, tick: nat, store: nat): Inst {
    x.(retire := tick,
       disasm := if tick == 0 then "-----" + x.disasm else x.disasm,
       store := if cfg.storeCompletions then store else x.store)
  }

  /** Whether a fetch line ends the run. */
  predicate Stops(cfg: Config, fetch: nat, sn: nat) {
    || (cfg.stopTick > 0 && fetch > cfg.stopTick + cfg.tickDrift)
    || (cfg.stopSn > 0 && sn > cfg.stopSn + cfg.maxThreshold)
  }

  /** The lines from the first one that satisfies `p` on. */
  function DropUntil(p: Line -> bool, lines: seq<Line>): seq<Line> {
    if lines == [] || p(lines[0]) then lines else DropUntil(p, lines[1..])
  }

  function AtOrAfterTick(tick: nat): Line -> bool {
    (l: Line) => !l.Other? && l.tick >= tick
  }

  function AtOrAfterSn(sn: nat): Line -> bool {
    (l: Line) => l.Fetch? && l.sn >= sn
  }

  const IsFetch: Line -> bool := (l: Line) => l.Fetch?

  /** The lines from the first instruction fetch of interest on. */
  function Region(cfg: Config, lines: seq<Line>): seq<Line> {
    DropUntil(IsFetch,
              if cfg.startTick != 0 then DropUntil(AtOrAfterTick(cfg.startTick), lines)
              else if cfg.startSn != 0 then DropUntil(AtOrAfterSn(cfg.startSn), lines)
              else lines)
  }

  /** The partly read instruction `curr` after one more line. */
  function ReadLine(cfg: Config, l: Line, curr: Inst): Inst {
    match l
    case Other => curr
    case StageAt(stage, tick) => SetStage(curr, stage, tick)
    case Fetch(tick, pc, upc, sn, disasm) =>
      curr.(fetch := tick, pc := pc, upc := upc, sn := sn, disasm := disasm)
    case Retire(tick, store) => Retired(cfg, curr, tick, store)
  }

  predicate LineStops(cfg: Config, l: Line) {
    l.Fetch? && Stops(cfg, l.tick, l.sn)
  }

  /** The instructions queued while reading `lines`: one per retire line, up to an early stop. */
  function Collect(cfg: Config, lines: seq<Line>, curr: Inst): seq<Inst> {
    if lines == [] || LineStops(cfg, lines[0]) then []
    else
      var next := ReadLine(cfg, lines[0], curr);
      (if lines[0].Retire? then [next] else []) + Collect(cfg, lines[1..], next)
  }

  /** What the viewer prints for a trace. */
  function Printed(cfg: Config, lines: seq<Line>): seq<Inst> {
    Output(cfg, Collect(cfg, Region(cfg, lines), NO_INST))
  }

  method SkipUntil(p: Line -> bool, lines: seq<Line>, from: nat) returns (i: nat)
    requires from <= |lines|
    ensures i <= |lines| && lines[i..] == DropUntil(p, lines[from..])
  {
    i := from;
    while i < |lines| && !p(lines[i])
      invariant from <= i <= |lines|
      invariant DropUntil(p, lines[i..]) == DropUntil(p, lines[from..])
    {
      assert lines[i..][1..] == lines[i + 1..];
      i := i + 1;
    }
  }

  /** The main loop of `process_trace`, from the first fetch of interest to the flush. */
  method ReadRegion(viewer: Viewer, lines: seq<Line>, from: nat)
    requires from <= |lines| && viewer.Valid() && viewer.arrivals == []
    modifies viewer
    ensures viewer.printed == Output(viewer.cfg, Collect(viewer.cfg, lines[from..], NO_INST))
  {
    var cfg := viewer.cfg;
    var i := from;
    var curr := NO_INST;
    while i < |lines|
      invariant i <= |lines| && viewer.Valid()
      invariant viewer.arrivals + Collect(cfg, lines[i..], curr) == Collect(cfg, lines[from..], NO_INST)
    {
      assert lines[i..][0] == lines[i] && lines[i..][1..] == lines[i + 1..];
      if LineStops(cfg, lines[i]) {
        break;
      }
      curr := ReadLine(cfg, lines[i], curr);
      ghost var rest := Collect(cfg, lines[i + 1..], curr);
      if lines[i].Retire? {
        assert viewer.arrivals + ([curr] + rest) == (viewer.arrivals + [curr]) + rest;
        viewer.QueueInst(curr);
      } else {
        assert viewer.arrivals + ([] + rest) == viewer.arrivals + rest;
      }
      i := i + 1;
    }
    assert viewer.arrivals == Collect(cfg, lines[from..], NO_INST);
    viewer.Flush();
  }

  /** Reads the whole trace through a fresh viewer. */
  method ProcessTrace(cfg: Config, lines: seq<Line>) returns (printed: seq<Inst>)
    ensures printed == Printed(cfg, lines)
  {
    assert lines[0..] == lines;
    var i := 0;
    if cfg.startTick != 0 {
      i := SkipUntil(AtOrAfterTick(cfg.startTick), lines, 0);
    } else if cfg.startSn != 0 {
      i := SkipUntil(AtOrAfterSn(cfg.startSn), lines, 0);
    }
    i := SkipUntil(IsFetch, lines, i);
    var viewer := new Viewer(cfg);
    ReadRegion(viewer, lines, i);
    printed := viewer.printed;
  }
}
