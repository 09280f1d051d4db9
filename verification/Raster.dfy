/** One step of the beam, as a function (src/filler.cpp: fetchPixels, shiftOutPixels,
    getColorIndex, the body of fill1, advanceLine; src/vio.h: commit, commit_palette). */
module Raster {
  import opened Bytes
  import opened MemoryMap

  const LINE_CLOCKS: nat := 768
  const LINES: nat := 312
  const FRAME_CLOCKS: nat := 239616 // LINE_CLOCKS * LINES
  const TOP_LINE: nat := 40         // 22 vsync + 18 border
  const BOTTOM_LINE: nat := 296
  const PICTURE_LEFT: nat := 152    // (768 - 512) / 2 + 24
  const PICTURE_RIGHT: nat := 664
  const SCROLL_PIXEL: nat := 150
  const IRQ_PIXEL: nat := 174

  /** Options: the first line copied to the bitmap, and the border on each side of the picture. */
  datatype Screen = Screen(firstVisible: nat, borderWidth: nat) {
    predicate Valid() { 1 <= firstVisible < 312 && borderWidth <= 104 }

    function CenterOffset(): int { 152 - borderWidth }

    function Width(): (w: nat)
      ensures w >= 512
    {
      512 + 2 * borderWidth
    }

    function Height(): nat
      requires Valid()
    {
      312 - firstVisible
    }
  }

  // ----- the video side of the ports -----

  datatype Pending = Idle | Out(port: nat, value: nat)

  /** Colours in the pixel format of the screen. */
  type Palette = p: seq<nat> | |p| == 16 witness seq(16, _ => 0)

  /** The port state the raster depends on, and a port write waiting to be committed. */
  datatype Io = Io(palette: Palette, scroll: nat, border: nat, mode512: bool, pending: Pending, paletteByte: Pending) {
    predicate Valid() { scroll < 256 && border < 16 }

    predicate Quiet() { pending.Idle? && paletteByte.Idle? }
  }

  /** realoutput, as far as the raster sees it: port 2 sets border and mode, port 3 the scroll,
      a control word on port 0 clears both, ports 0x0C to 0x0F hand over a palette byte. */
  function RealOutput(io: Io, port: nat, w8: nat): Io {
    match port
    case 0x00 => if w8 >= 0x80 then io.(border := 0, mode512 := false, scroll := 0) else io
    case 0x02 => io.(border := w8 % 16, mode512 := w8 / 16 % 2 == 1)
    case 0x03 => io.(scroll := w8 % 256)
    case 0x0c => io.(paletteByte := Out(port, w8))
    case 0x0d => io.(paletteByte := Out(port, w8))
    case 0x0e => io.(paletteByte := Out(port, w8))
    case 0x0f => io.(paletteByte := Out(port, w8))
    case _ => io
  }

  function Commit(io: Io): Io {
    match io.pending
    case Idle => io
    case Out(port, w8) => RealOutput(io, port, w8).(pending := Idle)
  }

  /** rgb stands for rgb2pixelformat on the three colour fields of a byte. */
  function CommitPalette(io: Io, index: nat, rgb: nat -> nat): Io
    requires index < 16
  {
    if io.paletteByte.Out? then io.(palette := io.palette[index := rgb(io.paletteByte.value)], paletteByte := Idle)
    else if io.pending.Out? && io.pending.port == 0x0c then
      io.(palette := io.palette[index := rgb(io.pending.value)], pending := Idle)
    else io
  }

  // ----- the beam -----

  /** A 32-bit word as its four bytes, lowest first. */
  datatype Word32 = Word32(b0: byte, b1: byte, b2: byte, b3: byte)

  /** fb_column and pixel32 */
  datatype Latch = Latch(column: nat, shifter: Word32)

  datatype Beam = Beam(
    pixel: nat,     // raster_pixel
    line: nat,      // raster_line
    latch: Latch,
    row: int,       // fb_row
    vborder: bool,
    visible: bool,
    brk: bool,
    irq: bool,
    irqClk: int)

  /** mem32[0x2000 + addr] */
  function WordAt(cells: Cells, addr: nat): Word32
    requires addr < 0x1_0000
  {
    var p := 4 * (0x2000 + addr);
    Word32(cells[p], cells[p + 1], cells[p + 2], cells[p + 3])
  }

  function VideoWord(cells: Cells, column: nat, row: int): Word32 {
    WordAt(cells, column % 256 * 256 + row % 256)
  }

  /** The top bit of every byte, one per bit plane:
      (p >> 4 & 8) | (p >> 13 & 4) | (p >> 22 & 2) | (p >> 31 & 1). */
  function Modeless(p: Word32): (n: nat)
    ensures n < 16
  {
    8 * (p.b0 / 128) + 4 * (p.b1 / 128) + 2 * (p.b2 / 128) + p.b3 / 128
  }

  /** p << 1 in 32 bits: every byte takes in the top bit of the one below. */
  function ShiftLeft(p: Word32): Word32 {
    Word32(ShiftByte(p.b0, 0), ShiftByte(p.b1, p.b0 / 128), ShiftByte(p.b2, p.b1 / 128), ShiftByte(p.b3, p.b2 / 128))
  }

  function ShiftByte(b: byte, carry: nat): byte
    requires carry <= 1
  {
    2 * b % 256 + carry
  }

  predicate FetchDue(rpixel: int) { rpixel % 16 == 0 }

  /** The shift register, reloaded on every sixteenth clock. */
  function Register(cells: Cells, latch: Latch, row: int, rpixel: int): Word32 {
    if FetchDue(rpixel) then VideoWord(cells, latch.column, row) else latch.shifter
  }

  function GetColorIndex(cells: Cells, io: Io, latch: Latch, row: int, rpixel: int, border: bool): (r: (Latch, nat))
    requires io.Valid()
    ensures r.1 < 16
  {
    if border then (latch.(column := 0), io.border)
    else
      var register := Register(cells, latch, row, rpixel);
      var column := if FetchDue(rpixel) then latch.column + 1 else latch.column;
      (Latch(column, ShiftLeft(register)), Modeless(register))
  }

  function AdvanceLine(scr: Screen, b: Beam, update: bool): Beam {
    var line := b.line + 1;
    var row := if !b.vborder && b.row - 1 < 0 then 0xff else b.row - 1;
    var visible := b.visible || (update && line == scr.firstVisible);
    var vborder := line < TOP_LINE || line >= BOTTOM_LINE;
    if line == 312 then b.(pixel := 0, line := 0, row := row, vborder := vborder, visible := false, brk := true)
    else b.(pixel := 0, line := line, row := row, vborder := vborder, visible := visible)
  }

  predicate IsBorder(b: Beam) {
    b.vborder || b.pixel < PICTURE_LEFT || b.pixel >= PICTURE_RIGHT
  }

  predicate InBitmap(scr: Screen, pixel: nat) {
    0 <= pixel - scr.CenterOffset() < scr.Width()
  }

  /** The two bitmap words of one step. */
  function Words(io: Io, index: nat): (w: seq<nat>)
    requires index < 16
    ensures |w| == 2
  {
    if io.mode512 then [io.palette[index % 4], io.palette[index / 4 * 4]] else [io.palette[index], io.palette[index]]
  }

  /** Beam movement at the end of a step; clk is only recorded. */
  function MoveBeam(scr: Screen, b: Beam, scroll: nat, update: bool, clk: int): Beam {
    var moved := b.(pixel := b.pixel + 2);
    Signalled(if moved.pixel == LINE_CLOCKS then AdvanceLine(scr, moved, update) else moved, scroll, clk)
  }

  /** The scroll load and the interrupt, at their places. */
  function Signalled(b: Beam, scroll: nat, clk: int): Beam {
    if b.line == TOP_LINE && b.pixel == SCROLL_PIXEL then b.(row := scroll)
    else if b.line == 0 && b.pixel == IRQ_PIXEL then b.(irq := true, irqClk := clk)
    else b
  }

  /** What stays fixed during one fill. */
  datatype Call = Call(scr: Screen, cells: Cells, rgb: nat -> nat, commit: int, commitPal: int, update: bool)

  datatype State = State(beam: Beam, io: Io, words: seq<nat>)

  function Looked(c: Call, s: State): (r: (Latch, nat))
    requires s.io.Valid()
    ensures r.1 < 16
  {
    GetColorIndex(c.cells, s.io, s.beam.latch, s.beam.row, s.beam.pixel - 24, IsBorder(s.beam))
  }

  /** The ports after what is committed at clock clk. */
  function Committed(c: Call, io: Io, index: nat, clk: int): (r: Io)
    requires io.Valid() && index < 16
    ensures r.Valid()
  {
    var io1 := if clk == c.commit then Commit(io) else io;
    if clk == c.commitPal then CommitPalette(io1, index, c.rgb) else io1
  }

  /** The words drawn by one step. */
  function Drawn(c: Call, b: Beam, io: Io, index: nat): (w: seq<nat>)
    requires index < 16
  {
    if b.visible && InBitmap(c.scr, b.pixel) then Words(io, index) else []
  }

  /** One two-clock step at clock clk of the call. */
  function Tick(c: Call, s: State, clk: int): (r: State)
    requires s.io.Valid()
    ensures r.io.Valid()
  {
    var index := Looked(c, s).1;
    var io := Committed(c, s.io, index, clk);
    State(MoveBeam(c.scr, s.beam.(latch := Looked(c, s).0), io.scroll, c.update, clk), io,
          s.words + Drawn(c, s.beam, io, index))
  }

  /** n steps from clock 0 of the call. */
  function Run(c: Call, s: State, n: nat): (r: State)
    requires s.io.Valid()
    ensures r.io.Valid()
  {
    if n == 0 then s else Tick(c, Run(c, s, n - 1), 2 * (n - 1))
  }

  /** The colour index of the last step, still at hand after the loop. */
  function LastIndex(c: Call, s: State, n: nat): (index: nat)
    requires s.io.Valid()
    ensures index < 16
  {
    if n == 0 then 0 else Looked(c, Run(c, s, n - 1)).1
  }

  /** The whole of fill1: n steps, and what is committed after them. */
  function Filled(c: Call, s: State, n: nat): (r: State)
    requires s.io.Valid()
    ensures r.io.Valid()
  {
    var r := Run(c, s, n);
    r.(io := Committed(c, r.io, LastIndex(c, s, n), 2 * n))
  }

  lemma QuietStaysPut(c: Call, io: Io, index: nat, clk: int)
    requires io.Valid() && io.Quiet() && index < 16
    ensures Committed(c, io, index, clk) == io
  {
  }

  // ----- where the beam is, whatever it draws -----

  /** Clocks since the start of the frame. */
  function Position(b: Beam): nat { b.line * LINE_CLOCKS + b.pixel }

  predicate OnScreen(b: Beam) {
    b.line < LINES && b.pixel < LINE_CLOCKS && b.pixel % 2 == 0
  }

  /** How far a beam has come and what it has signalled. */
  predicate Moved(b: Beam, b': Beam, clk: int) {
    var end := Position(b) + 2;
    && OnScreen(b')
    && Position(b') == (if end == FRAME_CLOCKS then 0 else end)
    && b'.brk == (b.brk || end == FRAME_CLOCKS)
    && b'.irq == (b.irq || end == IRQ_PIXEL)
    && b'.irqClk == (if end == IRQ_PIXEL then clk else b.irqClk)
  }

  lemma LineEnds(scr: Screen, b: Beam, update: bool)
    requires b.line < LINES
    ensures var r := AdvanceLine(scr, b, update);
      && r.pixel == 0 && r.line == (if b.line == LINES - 1 then 0 else b.line + 1)
      && r.brk == (b.brk || b.line == LINES - 1) && r.irq == b.irq && r.irqClk == b.irqClk
  {
  }

  lemma MoveBeamPosition(scr: Screen, b: Beam, scroll: nat, update: bool, clk: int)
    requires OnScreen(b)
    ensures Moved(b, MoveBeam(scr, b, scroll, update, clk), clk)
  {
    hide AdvanceLine;
    var moved := b.(pixel := b.pixel + 2);
    LineEnds(scr, moved, update);
    var b1 := if moved.pixel == LINE_CLOCKS then AdvanceLine(scr, moved, update) else moved;
    assert b1.line == 0 && b1.pixel == IRQ_PIXEL <==> Position(b) + 2 == IRQ_PIXEL;
  }

  /** One step moves the beam two clocks on, raises the interrupt exactly at its one place, and
      breaks exactly at the end of the frame. */
  lemma TickPosition(c: Call, s: State, clk: int)
    requires s.io.Valid() && OnScreen(s.beam)
    ensures Moved(s.beam, Tick(c, s, clk).beam, clk)
  {
    MoveBeamPosition(c.scr, s.beam.(latch := Looked(c, s).0), Committed(c, s.io, Looked(c, s).1, clk).scroll,
                     c.update, clk);
  }

  /** What n steps do to the beam, in closed form. */
  predicate MovedBy(b: Beam, b': Beam, n: nat) {
    var end := Position(b) + 2 * n;
    && OnScreen(b')
    && Position(b') == (if end < FRAME_CLOCKS then end else end - FRAME_CLOCKS)
    && b'.brk == (b.brk || end >= FRAME_CLOCKS)
    && b'.irq == (b.irq || Position(b) < IRQ_PIXEL <= end || end >= FRAME_CLOCKS + IRQ_PIXEL)
    && (Position(b) < IRQ_PIXEL <= end && end < FRAME_CLOCKS + IRQ_PIXEL ==> b'.irqClk == IRQ_PIXEL - 2 - Position(b))
  }

  /** The clocks that n steps from b spend past the end of the frame: what a fill returns. */
  function PastEnd(b: Beam, n: nat): nat {
    var end := Position(b) + 2 * n;
    if end < FRAME_CLOCKS then 0 else end - FRAME_CLOCKS
  }

  lemma MovedOnce(b: Beam, b1: Beam, b2: Beam, n: nat)
    requires OnScreen(b) && OnScreen(b1) && 2 * n + 2 < FRAME_CLOCKS
    requires MovedBy(b, b1, n) && Moved(b1, b2, 2 * n)
    ensures MovedBy(b, b2, n + 1)
  {
  }

  /** A fill of n steps in closed form, for a fill that stays shorter than a frame. */
  lemma {:induction false} RunPosition(c: Call, s: State, n: nat)
    requires s.io.Valid() && OnScreen(s.beam) && 2 * n < FRAME_CLOCKS
    ensures MovedBy(s.beam, Run(c, s, n).beam, n)
  {
    hide Tick, Moved;
    if n > 0 {
      RunPosition(c, s, n - 1);
      TickPosition(c, Run(c, s, n - 1), 2 * (n - 1));
      MovedOnce(s.beam, Run(c, s, n - 1).beam, Run(c, s, n).beam, n - 1);
    }
  }

  // ----- port writes during a fill -----

  lemma NextIo(c: Call, s: State, n: nat)
    requires s.io.Valid() && n > 0
    ensures Run(c, s, n).io == Committed(c, Run(c, s, n - 1).io, Looked(c, Run(c, s, n - 1)).1, 2 * (n - 1))
  {
  }

  /** A write that waits for clock 2 j changes nothing before step j and has taken effect from it on. By the
      bits of the byte: port 2 sets the border and the mode, port 3 the scroll, a control word with bit 7 up
      on port 0 clears all three, and nothing else does anything to the picture. */
  lemma {:induction false} WriteTakesEffect(c: Call, s: State, j: nat, n: nat, port: nat, b7: nat, b65: nat, b4: nat,
                                            low: nat)
    requires b7 < 2 && b65 < 4 && b4 < 2 && low < 16 && !(0x0c <= port <= 0x0f) && c.commit == 2 * j
    requires s.io.Valid() && s.io.paletteByte.Idle?
    requires s.io.pending == Out(port, 128 * b7 + 32 * b65 + 16 * b4 + low)
    ensures var r, cleared := Run(c, s, n).io, port == 0 && b7 == 1;
      if n <= j then r == s.io
      else r == s.io.(pending := Idle, border := if cleared then 0 else if port == 2 then low else s.io.border,
                      mode512 := if cleared then false else if port == 2 then b4 == 1 else s.io.mode512,
                      scroll := if cleared then 0
                                else if port == 3 then 128 * b7 + 32 * b65 + 16 * b4 + low else s.io.scroll)
  {
    hide Looked, Run, Commit;
    if n == 0 {
      NoRun(c, s);
    } else {
      NextIo(c, s, n);
      WriteTakesEffect(c, s, j, n - 1, port, b7, b65, b4, low);
      if n - 1 == j {
        CommittedBits(s.io, port, b7, b65, b4, low);
      } else if n - 1 > j {
        NothingPending(Run(c, s, n - 1).io);
      }
    }
  }

  lemma NoRun(c: Call, s: State)
    requires s.io.Valid()
    ensures Run(c, s, 0) == s
  {
  }

  lemma NothingPending(io: Io)
    requires io.pending.Idle?
    ensures Commit(io) == io
  {
  }

  lemma CommittedBits(io: Io, port: nat, b7: nat, b65: nat, b4: nat, low: nat)
    requires b7 < 2 && b65 < 4 && b4 < 2 && low < 16 && !(0x0c <= port <= 0x0f)
    requires io.pending == Out(port, 128 * b7 + 32 * b65 + 16 * b4 + low)
    ensures var cleared := port == 0 && b7 == 1;
      Commit(io)
      == io.(pending := Idle, border := if cleared then 0 else if port == 2 then low else io.border,
             mode512 := if cleared then false else if port == 2 then b4 == 1 else io.mode512,
             scroll := if cleared then 0
                       else if port == 3 then 128 * b7 + 32 * b65 + 16 * b4 + low else io.scroll)
  {
    var w8 := 128 * b7 + 32 * b65 + 16 * b4 + low;
    assert w8 / 16 == 8 * b7 + 2 * b65 + b4 && w8 % 16 == low;
  }

  /** A palette byte is due ahead of the write, as on the board. On port 0x0C it is then taken from the
      write itself and goes to the colour that the beam is looking up; on 0x0D to 0x0F it is still on its
      way, and the write only hands it over. */
  lemma {:induction false} PaletteWriteTakesEffect(c: Call, s: State, j: nat, k: nat, n: nat, port: nat, w8: nat)
    requires 0x0c <= port <= 0x0f && k < j && c.commit == 2 * j && c.commitPal == 2 * k
    requires s.io.Valid() && s.io.paletteByte.Idle? && s.io.pending == Out(port, w8)
    ensures var r, index := Run(c, s, n).io, Looked(c, Run(c, s, k)).1;
      if port == 0x0c then
        r == if n <= k then s.io else s.io.(palette := s.io.palette[index := c.rgb(w8)], pending := Idle)
      else r == if n <= j then s.io else s.io.(paletteByte := Out(port, w8), pending := Idle)
  {
    hide Looked, Run;
    if n == 0 {
      NoRun(c, s);
    } else {
      PaletteWriteTakesEffect(c, s, j, k, n - 1, port, w8);
      NextIo(c, s, n);
    }
  }

  /** A byte handed over goes, at the palette clock of the next write of any port, to the colour that the
      beam is looking up; that write itself is still to come. */
  lemma {:induction false} HandedByteTakesEffect(c: Call, s: State, j: nat, k: nat, n: nat)
    requires n <= j && c.commit == 2 * j && c.commitPal == 2 * k
    requires s.io.Valid() && s.io.paletteByte.Out?
    ensures var r, index := Run(c, s, n).io, Looked(c, Run(c, s, k)).1;
      r == if n <= k then s.io
           else s.io.(palette := s.io.palette[index := c.rgb(s.io.paletteByte.value)], paletteByte := Idle)
  {
    hide Looked, Run, Commit;
    if n == 0 {
      NoRun(c, s);
    } else {
      HandedByteTakesEffect(c, s, j, k, n - 1);
      NextIo(c, s, n);
    }
  }
}
