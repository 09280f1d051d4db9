/** The interrupt latches of the machine and of its processor (src/board.cpp: interrupt,
    check_interrupt, the latch at the end of single_step; src/i8080.cpp: DI, EI, EI_PENDING;
    src/hal.cpp: i8080_hal_iff). */
module Interrupts {
  import opened Bytes

  const EI: nat := 0xFB
  const DI: nat := 0xF3
  const RST7: nat := 0xFF

  datatype Lines = Lines(
    inte: bool,     // the INTE pin
    irq: bool,      // the request on the latch
    irqCarry: bool, // a request that came too late in its instruction
    iff: bool,      // the processor's own enable
    pending: nat)   // EI_PENDING

  function Interrupt(l: Lines, on: bool): Lines {
    l.(inte := on, irq := l.irq && on)
  }

  /** The countdown at the end of i8080_execute. */
  function CountDown(l: Lines): Lines {
    if l.pending == 0 then l
    else if l.pending == 1 then Interrupt(l.(pending := 0, iff := true), true)
    else l.(pending := l.pending - 1)
  }

  /** i8080_execute, as far as the latches see it. */
  function Executed(l: Lines, opcode: nat): Lines {
    if opcode == DI then CountDown(Interrupt(l.(iff := false, pending := 0), false))
    else if opcode == EI then CountDown(Interrupt(l.(iff := false), true).(pending := 2))
    else CountDown(l)
  }

  predicate Acknowledges(l: Lines) { l.irq && l.iff }

  /** check_interrupt */
  function Acked(l: Lines): Lines {
    if Acknowledges(l) then Executed(Interrupt(l, false), RST7) else l
  }

  /** The latch after an instruction: pulse is the raster's request during it, late whether it fell
      past the instruction's last machine cycle. */
  function Latched(l: Lines, pulse: bool, late: bool): Lines {
    if pulse && late then l.(irqCarry := true)
    else if pulse then l.(irq := l.irq || l.inte)
    else if l.irqCarry then l.(irqCarry := false, irq := l.irq || l.inte)
    else l
  }

  /** What can happen to the latches: a frame begins, one turn of the frame loop, Board::reset. */
  datatype Event = NewFrame | Turn(opcode: nat, pulse: bool, late: bool) | Reset

  function After(l: Lines, e: Event): Lines {
    match e
    case NewFrame => l.(irqCarry := false)
    case Turn(opcode, pulse, late) => Latched(Executed(Acked(l), opcode), pulse, late)
    case Reset => Interrupt(l, false)
  }

  /** The latches before event n. */
  function Before(l: Lines, es: seq<Event>, n: nat): Lines
    requires n <= |es|
  {
    if n == 0 then l else After(Before(l, es, n - 1), es[n - 1])
  }

  predicate AckAt(l: Lines, es: seq<Event>, n: nat)
    requires n < |es|
  {
    es[n].Turn? && Acknowledges(Before(l, es, n))
  }

  // ----- what holds in every run -----

  /** A request needs INTE; a pending EI keeps the processor from acknowledging; INTE up means that
      the processor is enabled or about to be. */
  predicate Sound(l: Lines) {
    && (l.irq ==> l.inte)
    && (l.pending > 0 ==> !l.iff)
    && (l.inte ==> l.iff || l.pending > 0)
    && l.pending <= 1
  }

  lemma SoundStep(l: Lines, e: Event)
    requires Sound(l)
    ensures Sound(After(l, e))
  {
    var acked := Acked(l);
    assert Sound(acked);
    if e.Turn? {
      assert Sound(Executed(acked, e.opcode));
    }
  }

  lemma {:induction false} RunsAreSound(l: Lines, es: seq<Event>, n: nat)
    requires Sound(l) && n <= |es|
    ensures Sound(Before(l, es, n))
  {
    if n > 0 {
      RunsAreSound(l, es, n - 1);
      SoundStep(Before(l, es, n - 1), es[n - 1]);
    }
  }

  // ----- an acknowledgement needs an EI and one more instruction -----

  /** An EI at k, and the next instruction at m, neither EI nor DI, with both in from..to. */
  predicate Enables(es: seq<Event>, k: nat, m: nat)
    requires k < m < |es|
  {
    && es[k].Turn? && es[k].opcode == EI
    && es[m].Turn? && es[m].opcode != EI && es[m].opcode != DI
    && NoTurns(es, k + 1, m)
  }

  predicate NoTurns(es: seq<Event>, from: nat, to: nat)
    requires from <= to <= |es|
  {
    forall n :: from <= n < to ==> !es[n].Turn?
  }

  ghost predicate Enabled(es: seq<Event>, from: nat, to: nat)
    requires to <= |es|
  {
    exists k, m :: from <= k < m < to && Enables(es, k, m)
  }

  /** An EI whose next instruction has not come yet. */
  ghost predicate Waiting(es: seq<Event>, from: nat, to: nat)
    requires to <= |es|
  {
    exists k :: from <= k < to && es[k].Turn? && es[k].opcode == EI && NoTurns(es, k + 1, to)
  }

  /** Since an acknowledgement at i: INTE and IFF both up only after an EI and its next
      instruction; an EI pending only while that instruction has not come. */
  lemma {:induction false} SinceAck(l: Lines, es: seq<Event>, i: nat, n: nat)
    requires Sound(l) && i < n <= |es| && AckAt(l, es, i)
    ensures AckState(Before(l, es, n), es, i, n)
  {
    hide After;
    RunsAreSound(l, es, n - 1);
    if n == i + 1 {
      AckStep(Before(l, es, i), es, i);
    } else {
      SinceAck(l, es, i, n - 1);
      NextStep(Before(l, es, n - 1), es, i, n - 1);
    }
  }

  ghost predicate AckState(b: Lines, es: seq<Event>, i: nat, n: nat)
    requires n <= |es|
  {
    (b.inte && b.iff ==> Enabled(es, i, n)) && (b.pending > 0 ==> Waiting(es, i, n))
  }

  lemma AckStep(b: Lines, es: seq<Event>, i: nat)
    requires Sound(b) && i < |es| && es[i].Turn? && Acknowledges(b)
    ensures AckState(After(b, es[i]), es, i, i + 1)
  {
    var acked := Acked(b);
    assert !acked.inte && acked.pending == 0;
    assert NoTurns(es, i + 1, i + 1);
  }

  lemma NextStep(b: Lines, es: seq<Event>, i: nat, n: nat)
    requires Sound(b) && i < n < |es| && AckState(b, es, i, n)
    ensures AckState(After(b, es[n]), es, i, n + 1)
  {
    hide After, Sound, Enables;
    if Enabled(es, i, n) {
      EnabledLater(es, i, n);
    }
    if Waiting(es, i, n) {
      WaitingEnds(es, i, n);
    }
    assert NoTurns(es, n + 1, n + 1);
    LinesStep(b, es[n]);
  }

  /** What an event makes of the latches that let an acknowledgement through. */
  lemma LinesStep(b: Lines, e: Event)
    requires Sound(b)
    ensures var r := After(b, e);
      && (r.pending > 0 ==> if e.Turn? then e.opcode == EI else b.pending > 0)
      && (r.inte && r.iff ==> (b.inte && b.iff) || (b.pending > 0 && e.Turn? && e.opcode != EI && e.opcode != DI))
  {
  }

  /** What the event after a wait makes of it. */
  lemma WaitingEnds(es: seq<Event>, i: nat, n: nat)
    requires n < |es| && Waiting(es, i, n)
    ensures if !es[n].Turn? then Waiting(es, i, n + 1)
      else es[n].opcode != EI && es[n].opcode != DI ==> Enabled(es, i, n + 1)
  {
    var k :| i <= k < n && es[k].Turn? && es[k].opcode == EI && NoTurns(es, k + 1, n);
    if es[n].Turn? {
      if es[n].opcode != EI && es[n].opcode != DI {
        assert Enables(es, k, n);
      }
    } else {
      assert NoTurns(es, k + 1, n + 1);
    }
  }

  lemma EnabledLater(es: seq<Event>, from: nat, to: nat)
    requires to < |es| && Enabled(es, from, to)
    ensures Enabled(es, from, to + 1)
  {
    var k, m :| from <= k < m < to && Enables(es, k, m);
  }

  /** Between two acknowledgements there is an EI, followed by a completed instruction that is
      neither EI nor DI. */
  lemma EiBetweenAcks(l: Lines, es: seq<Event>, i: nat, j: nat)
    requires Sound(l) && i < j < |es| && AckAt(l, es, i) && AckAt(l, es, j)
    ensures Enabled(es, i, j)
  {
    RunsAreSound(l, es, j);
    SinceAck(l, es, i, j);
  }

  /** A request that waits for the processor to be enabled. */
  predicate Held(l: Lines) { l.irq && l.inte && !l.iff && l.pending == 1 }

  /** What may come while a request waits: frames, and EI over and over. */
  predicate OnlyEi(e: Event) { e.NewFrame? || (e.Turn? && e.opcode == EI) }

  lemma HeldStep(l: Lines, e: Event)
    requires Held(l)
    ensures OnlyEi(e) ==> Held(After(l, e))
    ensures e.Turn? && e.opcode != EI && e.opcode != DI ==> Acknowledges(After(l, e))
  {
  }

  lemma {:induction false} HeldRun(l: Lines, es: seq<Event>, k: nat)
    requires Held(l) && k <= |es| && forall i :: 0 <= i < k ==> OnlyEi(es[i])
    ensures Held(Before(l, es, k))
  {
    hide Held, OnlyEi, After;
    if k > 0 {
      HeldRun(l, es, k - 1);
      HeldStep(Before(l, es, k - 1), es[k - 1]);
    }
  }

  /** A latched request is served at once, or right after the first instruction that is neither EI nor
      DI, however many EI and frames come before it. */
  lemma RequestIsServed(l: Lines, es: seq<Event>, k: nat)
    requires Sound(l) && l.irq && k < |es| && forall i :: 0 <= i < k ==> OnlyEi(es[i])
    requires es[k].Turn? && es[k].opcode != EI && es[k].opcode != DI
    ensures Acknowledges(l) || Acknowledges(Before(l, es, k + 1))
  {
    if !l.iff {
      HeldRun(l, es, k);
      HeldStep(Before(l, es, k), es[k]);
    }
  }

  // ----- acknowledgements against requests -----

  function Acks(l: Lines, es: seq<Event>, n: nat): nat
    requires n <= |es|
  {
    if n == 0 then 0 else Acks(l, es, n - 1) + One(AckAt(l, es, n - 1))
  }

  function Pulses(es: seq<Event>, n: nat): nat
    requires n <= |es|
  {
    if n == 0 then 0 else Pulses(es, n - 1) + One(es[n - 1].Turn? && es[n - 1].pulse)
  }

  /** No request is served twice: acknowledgements and requests still held never outnumber the
      raster's pulses and the requests held at the start. */
  lemma {:induction false} AcksNeverOutnumberPulses(l: Lines, es: seq<Event>, n: nat)
    requires Sound(l) && n <= |es|
    ensures var b := Before(l, es, n);
      Acks(l, es, n) + One(b.irq) + One(b.irqCarry) <= Pulses(es, n) + One(l.irq) + One(l.irqCarry)
  {
    if n > 0 {
      RunsAreSound(l, es, n - 1);
      AcksNeverOutnumberPulses(l, es, n - 1);
    }
  }

  // ----- what becomes of every pulse -----

  /** The latches after the instruction of a turn, before the request is latched. */
  function Instructed(l: Lines, e: Event): Lines
    requires e.Turn?
  {
    Executed(Acked(l), e.opcode)
  }

  /** INTE after an instruction: EI raises it, DI and an acknowledgement lower it; one more instruction
      after EI raises IFF, and INTE once more, should a reset have come between. */
  lemma InstructionSetsInte(l: Lines, e: Event)
    requires Sound(l) && e.Turn?
    ensures var r := Instructed(l, e);
      && (r.inte <==> e.opcode == EI || (e.opcode != DI && ((l.inte && !Acknowledges(l)) || l.pending == 1)))
      && (r.irq <==> l.irq && e.opcode != DI && !Acknowledges(l))
      && (r.iff <==> e.opcode != EI && e.opcode != DI && (l.iff || l.pending == 1))
      && r.irqCarry == l.irqCarry
  {
  }

  /** A pulse in time is latched exactly when INTE is up after the instruction. */
  lemma PulseInTime(l: Lines, e: Event)
    requires Sound(l) && e.Turn? && e.pulse && !e.late
    ensures After(l, e).irq == Instructed(l, e).inte && After(l, e).irqCarry == l.irqCarry
  {
  }

  /** A late pulse waits for the next turn without a pulse, and is latched exactly when INTE is up after
      the instruction of that. */
  lemma LatePulse(l: Lines, e: Event, next: Event)
    requires Sound(l) && e.Turn? && e.pulse && e.late && next.Turn? && !next.pulse
    ensures var l1 := After(l, e);
      && l1.irqCarry && l1.irq == Instructed(l, e).irq && Sound(l1)
      && After(l1, next).irq == Instructed(l1, next).inte && !After(l1, next).irqCarry
  {
    SoundStep(l, e);
  }

  /** A turn in which a request gets to the latch: a pulse in time, or a late one from before. */
  predicate Arrives(l: Lines, e: Event) { e.Turn? && if e.pulse then !e.late else l.irqCarry }

  /** It finds INTE down. */
  predicate Unfound(l: Lines, e: Event) { e.Turn? && Arrives(l, e) && !Instructed(l, e).inte }

  /** It finds another request still held. */
  predicate Merges(l: Lines, e: Event) { e.Turn? && Arrives(l, e) && Instructed(l, e).irq }

  /** A held request is taken away. */
  predicate Drops(l: Lines, e: Event) {
    l.irq && (e.Reset? || (e.Turn? && e.opcode == DI && !Acknowledges(l)))
  }

  /** A late pulse is forgotten: a frame begins, or another late one comes. */
  predicate Forgets(l: Lines, e: Event) { l.irqCarry && (e.NewFrame? || (e.Turn? && e.pulse && e.late)) }

  /** How many pulses of the first n events came to nothing. */
  function Lost(l: Lines, es: seq<Event>, n: nat): nat
    requires n <= |es|
  {
    if n == 0 then 0
    else
      var b, e := Before(l, es, n - 1), es[n - 1];
      Lost(l, es, n - 1) + One(Unfound(b, e)) + One(Merges(b, e)) + One(Drops(b, e)) + One(Forgets(b, e))
  }

  lemma EventBalance(b: Lines, e: Event)
    requires Sound(b)
    ensures var r, ack := After(b, e), e.Turn? && Acknowledges(b);
      One(ack) + One(r.irq) + One(r.irqCarry)
      + One(Unfound(b, e)) + One(Merges(b, e)) + One(Drops(b, e)) + One(Forgets(b, e))
      == One(b.irq) + One(b.irqCarry) + One(e.Turn? && e.pulse)
  {
    hide Executed;
    if e.Turn? {
      InstructionSetsInte(b, e);
    }
  }

  /** Every pulse of the raster is acknowledged, still held, or came to nothing: it found INTE down or
      another request held, was taken away by DI or a reset, or was late and forgotten. */
  lemma {:induction false} EveryPulseCounts(l: Lines, es: seq<Event>, n: nat)
    requires Sound(l) && n <= |es|
    ensures var b := Before(l, es, n);
      Acks(l, es, n) + One(b.irq) + One(b.irqCarry) + Lost(l, es, n)
      == Pulses(es, n) + One(l.irq) + One(l.irqCarry)
  {
    hide After, Sound, Unfound, Merges, Drops, Forgets, Acknowledges;
    if n > 0 {
      RunsAreSound(l, es, n - 1);
      EveryPulseCounts(l, es, n - 1);
      EventBalance(Before(l, es, n - 1), es[n - 1]);
    }
  }

  /** While no pulse finds INTE down or a request held, and none is taken away or forgotten, nothing is
      lost; and the other way round. */
  lemma {:induction false} NothingLost(l: Lines, es: seq<Event>, n: nat)
    requires n <= |es|
    ensures Lost(l, es, n) == 0
       <==> forall i :: 0 <= i < n ==>
              var b := Before(l, es, i);
              !Unfound(b, es[i]) && !Merges(b, es[i]) && !Drops(b, es[i]) && !Forgets(b, es[i])
  {
    hide After, Unfound, Merges, Drops, Forgets;
    if n > 0 {
      NothingLost(l, es, n - 1);
    }
  }

  // ----- runs joined -----

  lemma {:induction false} BeforeAppend(l: Lines, a: seq<Event>, b: seq<Event>, n: nat)
    requires n <= |b|
    ensures Before(l, a + b, |a| + n) == Before(Before(l, a, |a|), b, n)
    ensures Pulses(a + b, |a| + n) == Pulses(a, |a|) + Pulses(b, n)
    decreases |a| + n
  {
    hide After;
    if n > 0 {
      BeforeAppend(l, a, b, n - 1);
      assert (a + b)[|a| + n - 1] == b[n - 1];
    } else if |a| > 0 {
      PrefixOnly(l, a, b, |a|);
    }
  }

  lemma {:induction false} PrefixOnly(l: Lines, a: seq<Event>, b: seq<Event>, n: nat)
    requires n <= |a|
    ensures Before(l, a + b, n) == Before(l, a, n) && Pulses(a + b, n) == Pulses(a, n)
  {
    hide After;
    if n > 0 {
      PrefixOnly(l, a, b, n - 1);
      assert (a + b)[n - 1] == a[n - 1];
    }
  }

  lemma Single(l: Lines, e: Event)
    ensures Before(l, [e], 1) == After(l, e) && Pulses([e], 1) == One(e.Turn? && e.pulse)
  {
    assert Before(l, [e], 0) == l && Pulses([e], 0) == 0;
  }
}
