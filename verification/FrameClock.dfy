/** The frame scheduler as functions of the machine's state (src/board.cpp: check_interrupt,
    execute_frame, single_step), driving the raster and the interrupt latches. */
module FrameClock {
  import opened Bytes
  import opened MemoryMap
  import opened Raster
  import opened RasterFrame
  import opened Interrupts

  const OUT: nat := 0xD3
  const FRAME_STATES: nat := 59904 // FRAME_CLOCKS / 4
  const FRAME_TURNS: nat := 14976  // FRAME_CLOCKS / 16

  /** What the program does in one turn: an opcode, whether a conditional one is taken, the port
      and value of an OUT, and the memory the raster sees. */
  datatype Input = Input(opcode: byte, taken: bool, port: nat, value: byte, cells: Cells)

  datatype Setup = Setup(scr: Screen, rgb: nat -> nat, update: bool)

  datatype Machine = Machine(
    lines: Lines,
    lastOpcode: nat,
    cpuCycles: nat,
    instrTime: nat,
    between: int,
    video: State)

  /** cpu_cycles and v_cycles of i8080_execute. */
  datatype Cycles = Cycles(cpu: nat, v: nat)

  function Timing(opcode: byte, taken: bool): Cycles {
    var low := opcode % 8;
    if opcode < 0x40 then
      match low
      case 1 => Cycles(10, 12)
      case 2 => if opcode < 0x20 then Cycles(7, 8) else if opcode < 0x30 then Cycles(16, 20) else Cycles(13, 16)
      case 3 => Cycles(5, 8)
      case 4 => if opcode == 0x34 then Cycles(10, 12) else Cycles(5, 8)
      case 5 => if opcode == 0x35 then Cycles(10, 12) else Cycles(5, 8)
      case 6 => if opcode == 0x36 then Cycles(10, 12) else Cycles(7, 8)
      case _ => Cycles(4, 4)
    else if opcode < 0x80 then
      if opcode == 0x76 then Cycles(4, 4) else if low == 6 || opcode / 8 == 0xE then Cycles(7, 8) else Cycles(5, 8)
    else if opcode < 0xC0 then
      if low == 6 then Cycles(7, 8) else Cycles(4, 4)
    else
      match low
      case 0 => if taken then Cycles(11, 16) else Cycles(5, 8)
      case 1 => if opcode == 0xC9 || opcode == 0xD9 || opcode == 0xF1 then Cycles(10, 12)
                else if opcode == 0xE9 || opcode == 0xF9 then Cycles(5, 8) else Cycles(11, 12)
      case 2 => Cycles(10, 12)
      case 3 => if opcode == 0xE3 then Cycles(18, 24)
                else if opcode == 0xEB || opcode == EI || opcode == DI then Cycles(4, 4) else Cycles(10, 12)
      case 4 => if taken then Cycles(17, 24) else Cycles(11, 16)
      case 5 => if opcode / 8 % 2 == 0 then Cycles(11, 16) else Cycles(17, 24)
      case 6 => Cycles(7, 8)
      case _ => Cycles(11, 16)
  }

  /** Every instruction takes whole groups of four states, and no more than six of them. */
  lemma TimingIsWhole(opcode: byte, taken: bool) returns (groups: nat)
    ensures 1 <= groups <= 6 && Timing(opcode, taken).v == 4 * groups
  {
    groups := Timing(opcode, taken).v / 4;
  }

  /** The last machine cycle of the long instructions begins later than their length says. */
  function Threshold(cpuCycles: nat): nat {
    match cpuCycles
    case 11 => 15
    case 13 => 15
    case 17 => 23
    case 18 => 21
    case _ => cpuCycles
  }

  // ----- one turn of the frame loop -----

  /** check_interrupt, and filler.irq lowered after it. */
  function Checked(m: Machine): Machine {
    var t := Timing(RST7, false);
    var checked := if Acknowledges(m.lines) then m.(cpuCycles := t.cpu, instrTime := m.instrTime + t.v) else m;
    checked.(lines := Acked(m.lines), video := m.video.(beam := m.video.beam.(irq := false)))
  }

  /** The states carried over from the last frame are counted before its first instruction. */
  function Folded(m: Machine): Machine {
    if m.instrTime != 0 && m.between == 0 then m.(between := m.instrTime, instrTime := 0) else m
  }

  function Instructed(m: Machine, i: Input): Machine {
    var t := Timing(i.opcode, i.taken);
    var io := if i.opcode == OUT then m.video.io.(pending := Out(i.port, i.value)) else m.video.io;
    m.(lines := Executed(m.lines, i.opcode), lastOpcode := i.opcode, cpuCycles := t.cpu,
       instrTime := m.instrTime + t.v, video := m.video.(io := io))
  }

  /** The call of fill: an OUT is committed four states before its end, its palette byte five
      beam steps earlier. */
  function CallFor(su: Setup, m: Machine, i: Input): Call {
    var commit := if i.opcode == OUT then (m.instrTime - 4) * 4 else -1;
    Call(su.scr, i.cells, su.rgb, commit, if i.opcode == OUT then commit - 20 else -1, su.update)
  }

  function Shown(su: Setup, m: Machine, i: Input): (r: Machine)
    requires m.video.io.Valid()
    ensures r.video.io.Valid()
  {
    m.(video := Filled(CallFor(su, m, i), m.video, 2 * m.instrTime))
  }

  predicate Late(m: Machine) { m.video.beam.irqClk > Threshold(m.cpuCycles) * 4 }

  function Requested(m: Machine): Machine {
    m.(lines := Latched(m.lines, m.video.beam.irq, Late(m)))
  }

  function Accounted(m: Machine, afterbrk: nat): Machine {
    m.(between := m.between + m.instrTime - afterbrk / 4, instrTime := afterbrk / 4)
  }

  /** single_step */
  function Stepped(su: Setup, m: Machine, i: Input): (r: Machine)
    requires m.video.io.Valid()
    ensures r.video.io.Valid()
  {
    var ready := Instructed(Folded(m), i);
    Accounted(Requested(Shown(su, ready, i)), PastEnd(ready.video.beam, 2 * ready.instrTime))
  }

  function TurnOf(su: Setup, m: Machine, i: Input): (r: Machine)
    requires m.video.io.Valid()
    ensures r.video.io.Valid()
  {
    Stepped(su, Checked(m), i)
  }

  /** The turn as the latches see it. */
  function EventOf(su: Setup, m: Machine, i: Input): Event
    requires m.video.io.Valid()
  {
    Turn(i.opcode, TurnOf(su, m, i).video.beam.irq, Late(TurnOf(su, m, i)))
  }

  lemma LinesFollowEvents(su: Setup, m: Machine, i: Input)
    requires m.video.io.Valid()
    ensures var event := EventOf(su, m, i);
      TurnOf(su, m, i).lines == After(m.lines, event) && event.Turn? && event.pulse == TurnOf(su, m, i).video.beam.irq
  {
  }

  /** The start of execute_frame. */
  function Started(m: Machine): Machine {
    m.(lines := After(m.lines, NewFrame), between := 0, video := State(RasterFrame.Reset(m.video.beam), m.video.io, []))
  }

  /** An OUT to a port of the picture takes effect eight beam steps, four states, before its end and not
      earlier, whatever the turn began with; WriteTakesEffect says what each bit does. */
  lemma OutTakesEffect(su: Setup, m: Machine, i: Input, q: nat, b7: nat, b65: nat, b4: nat, low: nat)
    requires i.opcode == OUT && m.video.io.Valid() && m.video.io.paletteByte.Idle? && !(0x0c <= i.port <= 0x0f)
    requires b7 < 2 && b65 < 4 && b4 < 2 && low < 16 && i.value as int == 128 * b7 + 32 * b65 + 16 * b4 + low
    ensures var ready := Instructed(Folded(m), i);
      var c, n, io, cleared := CallFor(su, ready, i), 2 * ready.instrTime, m.video.io, i.port == 0 && b7 == 1;
      var after := io.(pending := Idle, border := if cleared then 0 else if i.port == 2 then low else io.border,
                       mode512 := if cleared then false else if i.port == 2 then b4 == 1 else io.mode512,
                       scroll := if cleared then 0 else if i.port == 3 then i.value as int else io.scroll);
      && n >= 24
      && Run(c, ready.video, q).io == (if q <= n - 8 then io.(pending := Out(i.port, i.value)) else after)
      && TurnedIo(su, m, i) == after
  {
    hide Run, Looked;
    var ready := Instructed(Folded(m), i);
    var c, n := CallFor(su, ready, i), 2 * ready.instrTime;
    WriteTakesEffect(c, ready.video, n - 8, q, i.port, b7, b65, b4, low);
    WriteTakesEffect(c, ready.video, n - 8, n, i.port, b7, b65, b4, low);
  }

  /** The ports after the fill of a turn. */
  function TurnedIo(su: Setup, m: Machine, i: Input): Io
    requires m.video.io.Valid()
  {
    Shown(su, Instructed(Folded(m), i), i).video.io
  }

  /** An OUT of a palette byte to port 0x0C gives the colour that the beam looks up eighteen steps before its
      end the new value. On ports 0x0D to 0x0F the byte is handed over only, and waits for the next OUT. */
  lemma PaletteOutTakesEffect(su: Setup, m: Machine, i: Input)
    requires i.opcode == OUT && m.video.io.Valid() && m.video.io.paletteByte.Idle? && 0x0c <= i.port <= 0x0f
    ensures var ready := Instructed(Folded(m), i);
      var c, n, io := CallFor(su, ready, i), 2 * ready.instrTime, m.video.io;
      && n >= 24
      && TurnedIo(su, m, i)
         == if i.port == 0x0c then
              var index := Looked(c, Run(c, ready.video, n - 18)).1;
              io.(palette := io.palette[index := su.rgb(i.value)], pending := Idle)
            else io.(paletteByte := Out(i.port, i.value), pending := Idle)
  {
    hide Run, Looked;
    var ready := Instructed(Folded(m), i);
    var c, n := CallFor(su, ready, i), 2 * ready.instrTime;
    PaletteWriteTakesEffect(c, ready.video, n - 8, n - 18, n, i.port, i.value);
  }

  /** A byte handed over before goes to its colour in the next OUT, of whatever port and value. */
  lemma HandedByteArrives(su: Setup, m: Machine, i: Input)
    requires i.opcode == OUT && m.video.io.Valid() && m.video.io.paletteByte.Out?
    ensures var ready := Instructed(Folded(m), i);
      var c, n, io := CallFor(su, ready, i), 2 * ready.instrTime, m.video.io;
      && n >= 24
      && var index := Looked(c, Run(c, ready.video, n - 18)).1;
         Run(c, ready.video, n - 8).io
         == io.(palette := io.palette[index := su.rgb(io.paletteByte.value)], paletteByte := Idle,
                pending := Out(i.port, i.value))
  {
    hide Run, Looked;
    var ready := Instructed(Folded(m), i);
    var c, n := CallFor(su, ready, i), 2 * ready.instrTime;
    HandedByteTakesEffect(c, ready.video, n - 8, n - 18, n - 8);
  }

  // ----- the frame in words and clocks -----

  /** In a frame of any program the bitmap grows by the formula's count. */
  predicate Counted(scr: Screen, update: bool, s: State) {
    && scr.Valid() && s.io.Valid() && OnScreen(s.beam) && FlagsOk(scr, update, s.beam)
    && |s.words| == WordsBefore(scr, update, s.beam.line, s.beam.pixel)
  }

  /** After its end the bitmap is full, or empty in a frame that is not shown. */
  predicate Complete(scr: Screen, update: bool, s: State) {
    && scr.Valid() && s.io.Valid() && OnScreen(s.beam) && s.beam.brk && !s.beam.visible && s.beam.line == 0
    && |s.words| == if update then BitmapSize(scr) else 0
  }

  lemma TickCounts(c: Call, s: State, clk: int)
    requires Counted(c.scr, c.update, s) && Position(s.beam) + 2 < FRAME_CLOCKS
    ensures Counted(c.scr, c.update, Tick(c, s, clk))
  {
    TickPosition(c, s, clk);
    WordsAdvance(c.scr, c.update, s.beam);
    SamePosition(s.beam, Tick(c, s, clk).beam);
    FlagsStep(c.scr, s.beam.(latch := Looked(c, s).0), Committed(c, s.io, Looked(c, s).1, clk).scroll, c.update, clk);
  }

  lemma TickCompletes(c: Call, s: State, clk: int)
    requires Counted(c.scr, c.update, s) && Position(s.beam) + 2 == FRAME_CLOCKS
    ensures Complete(c.scr, c.update, Tick(c, s, clk)) && Position(Tick(c, s, clk).beam) == 0
  {
    TickPosition(c, s, clk);
    WordsAdvance(c.scr, c.update, s.beam);
  }

  lemma TickAfterEnd(c: Call, s: State, clk: int)
    requires Complete(c.scr, c.update, s) && s.beam.pixel + 2 < LINE_CLOCKS
    ensures Complete(c.scr, c.update, Tick(c, s, clk)) && Position(Tick(c, s, clk).beam) == Position(s.beam) + 2
  {
    TickPosition(c, s, clk);
  }

  lemma {:induction false} RunCounts(c: Call, s: State, n: nat)
    requires Counted(c.scr, c.update, s) && Position(s.beam) + 2 * n < FRAME_CLOCKS
    ensures Counted(c.scr, c.update, Run(c, s, n)) && Position(Run(c, s, n).beam) == Position(s.beam) + 2 * n
  {
    hide Tick;
    if n > 0 {
      RunCounts(c, s, n - 1);
      TickCounts(c, Run(c, s, n - 1), 2 * (n - 1));
      TickPosition(c, Run(c, s, n - 1), 2 * (n - 1));
    }
  }

  lemma {:induction false} RunCompletes(c: Call, s: State, n: nat)
    requires Counted(c.scr, c.update, s) && FRAME_CLOCKS <= Position(s.beam) + 2 * n < FRAME_CLOCKS + LINE_CLOCKS
    ensures Complete(c.scr, c.update, Run(c, s, n))
      && Position(Run(c, s, n).beam) == Position(s.beam) + 2 * n - FRAME_CLOCKS
  {
    hide Tick;
    assert n > 0 by {
      assert Position(s.beam) < FRAME_CLOCKS;
    }
    if Position(s.beam) + 2 * n == FRAME_CLOCKS {
      RunCounts(c, s, n - 1);
      TickCompletes(c, Run(c, s, n - 1), 2 * (n - 1));
    } else {
      assert FRAME_CLOCKS <= Position(s.beam) + 2 * (n - 1) by {
        assert Position(s.beam) % 2 == 0;
      }
      RunCompletes(c, s, n - 1);
      TickAfterEnd(c, Run(c, s, n - 1), 2 * (n - 1));
    }
  }

  // ----- the clock of a frame -----

  /** States a frame counts twice over: those of an interrupt acknowledged before its first
      instruction go into the count but not into the raster. */
  function Extra(m: Machine): nat { if Acknowledges(m.lines) then 16 else 0 }

  /** After k turns of a frame that has not ended. */
  predicate Running(su: Setup, m: Machine, k: nat, extra: nat) {
    var p := Position(m.video.beam);
    && Counted(su.scr, su.update, m.video) && 16 * k <= p && p % 16 == 0
    && (k == 0 ==> m.between == 0 && m.instrTime < 40 && p == 4 * m.instrTime && extra == Extra(m))
    && (k > 0 ==> m.between > 0 && m.instrTime == 0 && p == 4 * (m.between - extra))
  }

  /** After the turn that ended it: every state of the frame is counted, and what the last
      instruction took beyond the frame is carried over. */
  predicate Ended(su: Setup, m: Machine, extra: nat) {
    && Complete(su.scr, su.update, m.video)
    && m.instrTime < 40 && m.instrTime % 4 == 0 && Position(m.video.beam) == 4 * m.instrTime
    && m.between == FRAME_STATES + extra
  }

  /** The states of a turn that the raster is moved by, four clocks each. */
  function TurnTime(m: Machine, i: Input): nat {
    Instructed(Folded(Checked(m)), i).instrTime
  }

  /** A turn moves the raster by its clocks, raises the request exactly when they pass its place,
      and ends the frame exactly when they pass its end. */
  lemma TurnMoves(su: Setup, m: Machine, i: Input)
    requires Counted(su.scr, su.update, m.video) && 4 * TurnTime(m, i) < LINE_CLOCKS
    ensures var r := TurnOf(su, m, i);
      var p := Position(m.video.beam);
      var end := p + 4 * TurnTime(m, i);
      && r.video.beam.irq == (p < IRQ_PIXEL <= end || end >= FRAME_CLOCKS + IRQ_PIXEL)
      && if end < FRAME_CLOCKS then Counted(su.scr, su.update, r.video) && Position(r.video.beam) == end
         else Complete(su.scr, su.update, r.video) && Position(r.video.beam) == end - FRAME_CLOCKS
  {
    var ready := Instructed(Folded(Checked(m)), i);
    var c, n := CallFor(su, ready, i), 2 * ready.instrTime;
    assert Counted(su.scr, su.update, ready.video);
    RunPosition(c, ready.video, n);
    if Position(m.video.beam) + 2 * n < FRAME_CLOCKS {
      RunCounts(c, ready.video, n);
    } else {
      RunCompletes(c, ready.video, n);
    }
  }

  lemma TurnTimeIsWhole(m: Machine, i: Input) returns (groups: nat)
    requires m.instrTime == 0
    ensures TurnTime(m, i) == 4 * groups && 1 <= groups <= 10
    ensures m.between == 0 ==> groups <= 6
  {
    var own := TimingIsWhole(i.opcode, i.taken);
    groups := if Acknowledges(m.lines) && m.between != 0 then own + 4 else own;
  }

  /** The books of a turn. */
  lemma TurnBooks(su: Setup, m: Machine, i: Input)
    requires m.video.io.Valid()
    ensures var r := TurnOf(su, m, i);
      var after := PastEnd(m.video.beam, 2 * TurnTime(m, i)) / 4;
      && r.instrTime == after
      && r.between == (if m.between == 0 then Checked(m).instrTime else m.between) + TurnTime(m, i) - after
  {
    hide Filled, Latched, Executed, Timing;
  }

  /** The first turn of a frame counts what was carried over and runs its instruction only. */
  lemma FirstTurnKeepsTime(su: Setup, m: Machine, i: Input)
    requires Running(su, m, 0, Extra(m))
    ensures var r := TurnOf(su, m, i);
      Running(su, r, 1, Extra(m)) && r.video.beam.irq == (Position(r.video.beam) >= IRQ_PIXEL)
  {
    hide TurnOf, Counted, Complete, TurnTime, Checked, Extra;
    CountedSays(su, m);
    var own := FirstTurnTime(su, m, i);
    TurnMoves(su, m, i);
    TurnBooks(su, m, i);
    WholeGroups(Position(m.video.beam), own);
  }

  lemma CountedSays(su: Setup, m: Machine)
    requires Counted(su.scr, su.update, m.video)
    ensures OnScreen(m.video.beam) && Position(m.video.beam) < FRAME_CLOCKS && m.video.io.Valid()
  {
  }

  lemma FirstTurnTime(su: Setup, m: Machine, i: Input) returns (own: nat)
    requires Running(su, m, 0, Extra(m))
    ensures TurnTime(m, i) == 4 * own && 1 <= own <= 6 && Checked(m).instrTime == m.instrTime + Extra(m)
  {
    own := TimingIsWhole(i.opcode, i.taken);
  }

  /** Whole groups stay whole over the end of the frame. */
  lemma WholeGroups(p: nat, groups: nat)
    requires p % 16 == 0 && p < FRAME_CLOCKS && groups <= 10
    ensures var end := p + 16 * groups;
      if end < FRAME_CLOCKS then end % 16 == 0
      else var after := end - FRAME_CLOCKS; after < 160 && after == 4 * (after / 4) && after / 4 % 4 == 0
  {
    var q := p / 16;
    assert p == 16 * q && FRAME_CLOCKS == 16 * FRAME_TURNS;
    if q + groups >= FRAME_TURNS {
      var over := q + groups - FRAME_TURNS;
      assert p + 16 * groups - FRAME_CLOCKS == 4 * (4 * over);
    }
  }

  lemma TurnBreaks(su: Setup, r: Machine)
    ensures Counted(su.scr, su.update, r.video) ==> !r.video.beam.brk
    ensures Complete(su.scr, su.update, r.video) ==> r.video.beam.brk
  {
  }

  lemma NextTurnKeepsTime(su: Setup, m: Machine, i: Input, k: nat, extra: nat)
    requires Running(su, m, k, extra) && k > 0
    ensures var r := TurnOf(su, m, i);
      && (if r.video.beam.brk then Ended(su, r, extra)
          else Running(su, r, k + 1, extra) && Position(m.video.beam) < Position(r.video.beam))
      && r.video.beam.irq == (Position(m.video.beam) < IRQ_PIXEL
                              && (r.video.beam.brk || Position(r.video.beam) >= IRQ_PIXEL))
  {
    hide TurnOf, Counted, Complete, TurnTime;
    CountedSays(su, m);
    var groups := TurnTimeIsWhole(m, i);
    TurnMoves(su, m, i);
    TurnBreaks(su, TurnOf(su, m, i));
    TurnBooks(su, m, i);
    WholeGroups(Position(m.video.beam), groups);
  }

  /** A frame from its k-th turn on: the machine at its end, and what the latches saw. */
  datatype FrameRun = FrameRun(end: Machine, events: seq<Event>)

  function FrameFrom(su: Setup, m: Machine, program: nat -> Input, k: nat, extra: nat): (r: FrameRun)
    requires Running(su, m, k, extra)
    ensures Ended(su, r.end, extra) && 0 < |r.events| <= FRAME_TURNS - k
    decreases FRAME_TURNS - k
  {
    var next := TurnOf(su, m, program(k));
    var event := EventOf(su, m, program(k));
    if k == 0 then
      FirstTurnKeepsTime(su, m, program(k));
      var rest := FrameFrom(su, next, program, 1, extra);
      FrameRun(rest.end, [event] + rest.events)
    else
      NextTurnKeepsTime(su, m, program(k), k, extra);
      if next.video.beam.brk then FrameRun(next, [event])
      else
        var rest := FrameFrom(su, next, program, k + 1, extra);
        FrameRun(rest.end, [event] + rest.events)
  }

  /** The machine between two frames. */
  predicate Between(su: Setup, m: Machine) {
    && su.scr.Valid() && m.video.io.Valid() && OnScreen(m.video.beam)
    && m.instrTime < 40 && m.instrTime % 4 == 0 && m.video.beam.pixel == 4 * m.instrTime
  }

  lemma StartedIsRunning(su: Setup, m: Machine)
    requires Between(su, m)
    ensures Running(su, Started(m), 0, Extra(m))
  {
  }

  /** execute_frame, from one frame boundary to the next. */
  function Frame(su: Setup, m: Machine, program: nat -> Input): (r: FrameRun)
    requires Between(su, m)
  {
    StartedIsRunning(su, m);
    var run := FrameFrom(su, Started(m), program, 0, Extra(m));
    FrameRun(run.end, [NewFrame] + run.events)
  }

  /** A frame ends within 14976 turns, at the top of the screen, with every word of the bitmap
      written. It has counted its 59904 states, 16 more exactly when an interrupt was acknowledged
      before its first instruction, and carries over what the raster is ahead by. */
  lemma FrameAccounts(su: Setup, m: Machine, program: nat -> Input)
    requires Between(su, m)
    ensures var r := Frame(su, m, program);
      && 2 <= |r.events| <= FRAME_TURNS + 1 && r.end.video.beam.brk && Between(su, r.end)
      && r.end.between == FRAME_STATES + Extra(m)
      && |r.end.video.words| == if su.update then BitmapSize(su.scr) else 0
  {
    hide FrameFrom, WordsBefore, BitmapSize, Started;
    StartedIsRunning(su, m);
    var run := FrameFrom(su, Started(m), program, 0, Extra(m));
    EndedIsBetween(su, run.end, Extra(m));
  }

  lemma EndedIsBetween(su: Setup, m: Machine, extra: nat)
    requires Ended(su, m, extra)
    ensures Between(su, m)
  {
  }

  // ----- frames after frames -----

  /** In a turn of a frame the pulse comes when the beam gets to its place. */
  lemma TurnPulses(su: Setup, m: Machine, i: Input, k: nat, extra: nat)
    requires Running(su, m, k, extra)
    ensures var r := TurnOf(su, m, i);
      && (k == 0 || !r.video.beam.brk ==> Running(su, r, k + 1, extra))
      && One(r.video.beam.irq) + (if k == 0 || !r.video.beam.brk then One(Position(r.video.beam) < IRQ_PIXEL) else 0)
         == One(Position(m.video.beam) < IRQ_PIXEL)
  {
    hide TurnOf, Counted, Complete;
    if k == 0 {
      FirstTurnKeepsTime(su, m, i);
    } else {
      NextTurnKeepsTime(su, m, i, k, extra);
    }
  }

  lemma RunningIsValid(su: Setup, m: Machine, k: nat, extra: nat)
    requires Running(su, m, k, extra)
    ensures m.video.io.Valid() && !m.video.beam.brk && k < FRAME_TURNS
  {
  }

  /** The first turn of what is left of a frame, and the rest. */
  lemma FrameUnfolds(su: Setup, m: Machine, program: nat -> Input, k: nat, extra: nat)
    requires Running(su, m, k, extra)
    ensures var next := TurnOf(su, m, program(k));
      var event := EventOf(su, m, program(k));
      var run := FrameFrom(su, m, program, k, extra);
      && (k > 0 && next.video.beam.brk ==> run == FrameRun(next, [event]))
      && (k == 0 || !next.video.beam.brk ==>
        Running(su, next, k + 1, extra) &&
        var rest := FrameFrom(su, next, program, k + 1, extra);
        run == FrameRun(rest.end, [event] + rest.events))
  {
    hide TurnOf, EventOf, Running, Ended;
    RunningIsValid(su, m, k, extra);
    TurnPulses(su, m, program(k), k, extra);
  }

  /** A frame under way: k turns done, the rest leads to its end. */
  predicate OnTrack(su: Setup, m: Machine, program: nat -> Input, k: nat, extra: nat, frame: FrameRun) {
    && Running(su, m, k, extra) && k < FRAME_TURNS
    && var rest := FrameFrom(su, m, program, k, extra);
      rest.end == frame.end && |rest.events| + k + 1 == |frame.events|
  }

  lemma StartsOnTrack(su: Setup, m: Machine, program: nat -> Input)
    requires Between(su, m)
    ensures OnTrack(su, Started(m), program, 0, Extra(m), Frame(su, m, program)) && !Started(m).video.beam.brk
  {
    hide FrameFrom, Running;
    StartedIsRunning(su, m);
  }

  lemma StaysOnTrack(su: Setup, m: Machine, program: nat -> Input, k: nat, extra: nat, frame: FrameRun)
    requires OnTrack(su, m, program, k, extra, frame)
    ensures m.video.io.Valid()
    ensures var next := TurnOf(su, m, program(k));
      if next.video.beam.brk then next == frame.end && k + 2 == |frame.events|
      else OnTrack(su, next, program, k + 1, extra, frame)
  {
    hide TurnOf, Running, FrameFrom;
    RunningIsValid(su, m, k, extra);
    FrameUnfolds(su, m, program, k, extra);
    TurnPulses(su, m, program(k), k, extra);
    var next := TurnOf(su, m, program(k));
    if k == 0 || !next.video.beam.brk {
      RunningIsValid(su, next, k + 1, extra);
    }
  }

  /** The rest of a frame, as the latches see it: the raster's pulse is still to come exactly when
      the beam is before its place. */
  lemma {:induction false} FrameEvents(su: Setup, m: Machine, program: nat -> Input, k: nat, extra: nat)
    requires Running(su, m, k, extra)
    ensures var r := FrameFrom(su, m, program, k, extra);
      && Before(m.lines, r.events, |r.events|) == r.end.lines
      && Pulses(r.events, |r.events|) == One(Position(m.video.beam) < IRQ_PIXEL)
    decreases FRAME_TURNS - k
  {
    hide TurnOf, After, Running, Ended, EventOf, One, FrameFrom, Before, Pulses;
    RunningIsValid(su, m, k, extra);
    TurnPulses(su, m, program(k), k, extra);
    FrameUnfolds(su, m, program, k, extra);
    var next, event := TurnOf(su, m, program(k)), EventOf(su, m, program(k));
    LinesFollowEvents(su, m, program(k));
    Single(m.lines, event);
    if k == 0 || !next.video.beam.brk {
      var rest := FrameFrom(su, next, program, k + 1, extra);
      FrameEvents(su, next, program, k + 1, extra);
      BeforeAppend(m.lines, [event], rest.events, |rest.events|);
    }
  }

  /** Frame after frame from a frame boundary, one program for each. */
  function History(su: Setup, m: Machine, programs: seq<nat -> Input>): (r: FrameRun)
    requires Between(su, m)
    ensures Between(su, r.end)
  {
    if programs == [] then FrameRun(m, [])
    else
      var past := History(su, m, programs[..|programs| - 1]);
      FrameAccounts(su, past.end, programs[|programs| - 1]);
      var run := Frame(su, past.end, programs[|programs| - 1]);
      FrameRun(run.end, past.events + run.events)
  }

  /** Over any number of frames the latches see exactly one pulse a frame. */
  lemma {:induction false} OnePulseAFrame(su: Setup, m: Machine, programs: seq<nat -> Input>)
    requires Between(su, m)
    ensures var r := History(su, m, programs);
      && Before(m.lines, r.events, |r.events|) == r.end.lines
      && Pulses(r.events, |r.events|) == |programs|
  {
    hide Frame, Between;
    if programs != [] {
      var past := History(su, m, programs[..|programs| - 1]);
      OnePulseAFrame(su, m, programs[..|programs| - 1]);
      FramePulses(su, past.end, programs[|programs| - 1]);
      var run := Frame(su, past.end, programs[|programs| - 1]);
      BeforeAppend(m.lines, past.events, run.events, |run.events|);
    }
  }

  lemma FramePulses(su: Setup, m: Machine, program: nat -> Input)
    requires Between(su, m)
    ensures var r := Frame(su, m, program);
      Before(m.lines, r.events, |r.events|) == r.end.lines && Pulses(r.events, |r.events|) == 1
  {
    hide FrameFrom, After;
    StartedIsRunning(su, m);
    var run := FrameFrom(su, Started(m), program, 0, Extra(m));
    FrameEvents(su, Started(m), program, 0, Extra(m));
    Single(m.lines, NewFrame);
    BeforeAppend(m.lines, [NewFrame], run.events, |run.events|);
  }

  /** No program gets more interrupts than there were frames, and one more for each request held
      at the start. */
  lemma AcksNeverOutnumberFrames(su: Setup, m: Machine, programs: seq<nat -> Input>)
    requires Between(su, m) && Sound(m.lines)
    ensures var r := History(su, m, programs);
      && Sound(r.end.lines)
      && Acks(m.lines, r.events, |r.events|) + One(r.end.lines.irq) + One(r.end.lines.irqCarry)
         <= |programs| + One(m.lines.irq) + One(m.lines.irqCarry)
  {
    hide History;
    var r := History(su, m, programs);
    OnePulseAFrame(su, m, programs);
    RunsAreSound(m.lines, r.events, |r.events|);
    AcksNeverOutnumberPulses(m.lines, r.events, |r.events|);
  }

  /** Over any number of frames every frame's request is acknowledged, still held, or lost in one of the
      stated ways: with nothing lost each frame gets its interrupt. */
  lemma EveryFrameCounts(su: Setup, m: Machine, programs: seq<nat -> Input>)
    requires Between(su, m) && Sound(m.lines)
    ensures var r := History(su, m, programs);
      var n := |r.events|;
      && Acks(m.lines, r.events, n) + One(r.end.lines.irq) + One(r.end.lines.irqCarry) + Lost(m.lines, r.events, n)
         == |programs| + One(m.lines.irq) + One(m.lines.irqCarry)
  {
    hide History;
    var r := History(su, m, programs);
    OnePulseAFrame(su, m, programs);
    EveryPulseCounts(m.lines, r.events, |r.events|);
  }

  /** The states of an instruction, up to the last of its machine cycles, that a pulse may come in to be
      latched with it: its own cycle count, and more where waits are put in before the last cycle. */
  lemma ThresholdIsInside(opcode: byte, taken: bool)
    ensures var t := Timing(opcode, taken);
      && t.cpu <= Threshold(t.cpu)
      && (Threshold(t.cpu) == t.cpu <==> t.cpu != 11 && t.cpu != 13 && t.cpu != 17 && t.cpu != 18)
      && (t.cpu == 11 && t.v == 16 ==> Threshold(t.cpu) == t.v - 1)
      && (t.cpu == 13 || t.cpu == 17 ==> Threshold(t.cpu) == t.v - 1)
      && (t.cpu == 18 ==> Threshold(t.cpu) == t.v - 3)
  {
  }

  /** A turn's pulse is late exactly when its place is more than four clocks for every such state behind
      where the beam was: for long instructions 60, 92 or 84 clocks. */
  lemma LateByPosition(su: Setup, m: Machine, i: Input)
    requires Counted(su.scr, su.update, m.video) && 4 * TurnTime(m, i) < LINE_CLOCKS
    requires var p := Position(m.video.beam); p < IRQ_PIXEL <= p + 4 * TurnTime(m, i) < FRAME_CLOCKS
    ensures var cycles := Timing(i.opcode, i.taken).cpu;
      var reach := if cycles == 11 || cycles == 13 then 60 else if cycles == 17 then 92
                   else if cycles == 18 then 84 else 4 * cycles;
      var e := EventOf(su, m, i);
      e.Turn? && e.pulse && (e.late <==> 172 - Position(m.video.beam) > reach)
  {
    hide Timing;
    var ready := Instructed(Folded(Checked(m)), i);
    RunPosition(CallFor(su, ready, i), ready.video, 2 * ready.instrTime);
    TurnMoves(su, m, i);
  }
}
