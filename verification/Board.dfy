/** The frame loop in place (src/board.cpp, class Board; src/i8080.cpp: EI, DI and the pending
    countdown; src/hal.cpp: i8080_hal_iff). */
module BoardLoop {
  import opened Bytes
  import opened MemoryMap
  import opened Raster
  import RasterFrame
  import Interrupts
  import PixelFiller
  import opened FrameClock

  /** The board hands fill a commit time of -1, or of at least 32 for an OUT: never 0, so its frames
      are drawn by the slow loop alone. */
  lemma BoardTakesSlowLoop(su: Setup, m: Machine, i: Input, b: Beam, clocks: nat)
    requires m.video.io.Valid()
    ensures var c := CallFor(su, Instructed(Folded(Checked(m)), i), i);
      PixelFiller.TakesSlowLoop(b, clocks, c.commit, c.commitPal)
  {
    assert i.opcode == OUT ==> Timing(i.opcode, i.taken).v == 12;
  }

  class Board {
    const scr: Screen
    const rgb: nat -> nat
    var inte: bool
    var irq: bool
    var irqCarry: bool
    var iff: bool        // cpu.iff
    var eiPending: nat   // cpu.ei_pending
    var cpuCycles: nat   // cpu.cpu_cycles
    var lastOpcode: nat
    var instrTime: nat
    var between: int
    var video: State     // the filler; its in-place form is PixelFiller

    ghost function TheLines(): Interrupts.Lines
      reads this
    {
      Interrupts.Lines(inte, irq, irqCarry, iff, eiPending)
    }

    ghost function View(): Machine
      reads this
    {
      Machine(TheLines(), lastOpcode, cpuCycles, instrTime, between, video)
    }

    ghost function TheSetup(update: bool): Setup {
      Setup(scr, rgb, update)
    }

    method Interrupt(on: bool)
      modifies this`inte, this`irq
      ensures TheLines() == Interrupts.Interrupt(old(TheLines()), on)
    {
      inte := on;
      irq := irq && on;
    }

    /** i8080_execute: what it does to the latches, and how long it takes. */
    method Execute(opcode: byte, taken: bool) returns (v: nat)
      modifies this`inte, this`irq, this`iff, this`eiPending, this`cpuCycles
      ensures TheLines() == Interrupts.Executed(old(TheLines()), opcode)
      ensures cpuCycles == Timing(opcode, taken).cpu && v == Timing(opcode, taken).v
    {
      if opcode == Interrupts.DI {
        iff := false;
        eiPending := 0;
        Interrupt(iff);
      } else if opcode == Interrupts.EI {
        iff := false;
        Interrupt(true);
        eiPending := 2;
      }
      if eiPending > 0 {
        eiPending := eiPending - 1;
        if eiPending == 0 {
          iff := true;
          Interrupt(iff);
        }
      }
      cpuCycles := Timing(opcode, taken).cpu;
      v := Timing(opcode, taken).v;
    }

    method CheckInterrupt() returns (acked: bool)
      modifies this`inte, this`irq, this`iff, this`eiPending, this`cpuCycles, this`instrTime
      ensures View().(video := video.(beam := video.beam.(irq := false))) == Checked(old(View()))
      ensures acked == Interrupts.Acknowledges(old(TheLines()))
    {
      acked := irq && iff;
      if acked {
        Interrupt(false);
        var v := Execute(Interrupts.RST7, false);
        instrTime := instrTime + v;
      }
    }

    /** The interrupt latch at the end of single_step. */
    method LatchRequest()
      modifies this`irq, this`irqCarry
      ensures View() == Requested(old(View()))
    {
      if video.beam.irq {
        if video.beam.irqClk > Threshold(cpuCycles) * 4 {
          irqCarry := true;
        } else {
          irq := irq || inte;
        }
      } else if irqCarry {
        irqCarry := false;
        irq := irq || inte;
      }
    }

    /** The instruction of a step, and when its output is committed. */
    method Instruct(i: Input) returns (commitTime: int, commitTimePal: int)
      requires video.io.Valid()
      modifies this
      ensures View() == Instructed(Folded(old(View())), i) && video.io.Valid()
      ensures commitTime == if i.opcode == OUT then (instrTime - 4) * 4 else -1
      ensures commitTimePal == if i.opcode == OUT then commitTime - 20 else -1
    {
      hide Timing, Interrupts.Executed;
      if instrTime != 0 && between == 0 {
        between := between + instrTime;
        instrTime := 0;
      }
      var v := Execute(i.opcode, i.taken);
      lastOpcode := i.opcode;
      instrTime := instrTime + v;
      commitTime, commitTimePal := -1, -1;
      if lastOpcode == OUT {
        video := video.(io := video.io.(pending := Out(i.port, i.value)));
        commitTime := (instrTime - 4) * 4;
        commitTimePal := commitTime - 20;
      }
    }

    method SingleStep(i: Input, update: bool)
      requires video.io.Valid()
      modifies this
      ensures View() == Stepped(TheSetup(update), old(View()), i)
    {
      hide Filled, Requested, PastEnd, Instructed, Folded;
      var commitTime, commitTimePal := Instruct(i);
      var afterbrk12 := PastEnd(video.beam, 2 * instrTime);
      video := Filled(Call(scr, i.cells, rgb, commitTime, commitTimePal, update), video, 2 * instrTime);
      LatchRequest();
      between := between + instrTime;
      instrTime := afterbrk12 / 4;
      between := between - instrTime;
    }

    /** One turn of the frame loop. */
    method OneTurn(i: Input, update: bool)
      requires video.io.Valid()
      modifies this
      ensures View() == TurnOf(TheSetup(update), old(View()), i)
    {
      var acked := CheckInterrupt();
      video := video.(beam := video.beam.(irq := false));
      SingleStep(i, update);
    }

    /** The start of a frame: filler.reset() and the counters. */
    method Start()
      modifies this`video, this`irqCarry, this`between
      ensures View() == Started(old(View()))
    {
      video := State(RasterFrame.Reset(video.beam), video.io, []);
      irqCarry := false;
      between := 0;
    }

    /** execute_frame without a debugger or a script; how many turns it took. */
    method ExecuteFrame(program: nat -> Input, update: bool) returns (turns: nat)
      requires FrameClock.Between(TheSetup(update), View())
      modifies this
      ensures var frame := Frame(TheSetup(update), old(View()), program);
        View() == frame.end && turns + 1 == |frame.events|
    {
      hide TurnOf, Frame, Running, FrameFrom, Started;
      ghost var su, before := TheSetup(update), View();
      ghost var frame := Frame(su, before, program);
      StartsOnTrack(su, before, program);
      Start();
      turns := 0;
      while !video.beam.brk
        invariant video.beam.brk ==> View() == frame.end && turns + 1 == |frame.events|
        invariant !video.beam.brk ==> OnTrack(su, View(), program, turns, Extra(before), frame)
        decreases !video.beam.brk, FRAME_TURNS - turns
      {
        StaysOnTrack(su, View(), program, turns, Extra(before), frame);
        OneTurn(program(turns), update);
        turns := turns + 1;
      }
    }
  }
}
