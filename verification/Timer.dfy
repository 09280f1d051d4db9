/** One counter of the interval timer (src/8253.h, class CounterUnit): modes 0 to 3, latching, BCD. */
module Timer {
  import opened Bytes

  const LATCH_DELAY: nat := 1

  datatype Counter = Counter(
    latchValue: int,   // -1 when nothing is latched
    writeState: nat,
    latchMode: nat,
    out: bool,
    value: int,
    mode: nat,
    writeLsb: byte,
    loadValue: nat,
    armed: bool,
    load: bool,
    enabled: bool,
    bcd: bool,
    delay: nat)

  /** What a load value of zero stands for. */
  function Full(c: Counter): nat { if c.bcd then 10000 else 0x1_0000 }

  function Reload(c: Counter): nat { if c.loadValue == 0 then Full(c) else c.loadValue }

  // ----- one count, mode by mode -----

  function Count0(c: Counter): Counter {
    var c1 := Loaded0(c);
    if !c1.enabled then c1
    else if c1.value - 1 > 0 then c1.(value := c1.value - 1)
    else c1.(value := c1.value - 1 + Full(c1), out := c1.out || (c1.armed && c1.value != 0), armed := false)
  }

  /** Taken from the load value only at the next reload: in mode 1 also after the first write. */
  function Count1(c: Counter): Counter {
    var c1 := if !c.enabled && c.load then c.(enabled := true) else c;
    if !c1.enabled then c1
    else if c1.value - 1 > 0 then c1.(value := c1.value - 1)
    else c1.(value := c1.value - 1 + if c1.loadValue == 0 then Full(c1) else c1.loadValue + 1)
  }

  function Loaded(c: Counter): Counter {
    if !c.enabled && c.load then c.(value := c.loadValue, enabled := true) else c
  }

  function Count2(c: Counter): Counter {
    var c1 := Loaded(c);
    if !c1.enabled then c1
    else if c1.value - 1 > 0 then c1.(value := c1.value - 1)
    else c1.(value := c1.value - 1 + Reload(c1))
  }

  function Step3(c: Counter): nat {
    if c.value == c.loadValue && c.value % 2 == 1 then if !c.out then 3 else 1 else 2
  }

  function Count3(c: Counter): Counter {
    var c1 := Loaded(c);
    if !c1.enabled then c1
    else if c1.value - Step3(c1) > 0 then c1.(value := c1.value - Step3(c1))
    else c1.(value := c1.value - Step3(c1) + Reload(c1), out := !c1.out)
  }

  function Count(c: Counter): Counter {
    if c.delay > 0 then c.(delay := c.delay - 1)
    else if !c.enabled && !c.load then c
    else
      (match c.mode
       case 0 => Count0(c)
       case 1 => Count1(c)
       case 2 => Count2(c)
       case 3 => Count3(c)
       case _ => c).(load := false)
  }

  // ----- what a count returns -----

  /** Mode 0 at the load: the counter as it is counted down. */
  function Loaded0(c: Counter): Counter {
    if c.load then c.(value := c.loadValue, enabled := true, armed := true, out := false) else c
  }

  /** The value that a count returns, which the mixer adds up. In mode 0, when the count is spent, it is
      one more than how far the counter is below zero. */
  function Returned(c: Counter): int {
    if c.delay > 0 || (!c.enabled && !c.load) then One(c.out)
    else
      match c.mode
      case 0 =>
        var c1 := Loaded0(c);
        if c1.enabled && c1.value - 1 <= 0 && c1.armed then 2 - c1.value else One(c1.out)
      case 3 => One(Count3(c).out)
      case _ => One(c.out)
  }

  /** An armed counter of mode 0 that is already at zero or below is counted. */
  predicate Overshoots(c: Counter) {
    c.delay == 0 && c.mode == 0 && (c.enabled || c.load) && Loaded0(c).armed && Loaded0(c).value <= 0
  }

  /** A count returns its output, except when mode 0 overshoots. */
  lemma ReturnsOutput(c: Counter)
    ensures Returned(c) == One(Count(c).out) <==> !Overshoots(c)
  {
    hide Step3, Reload, Full;
  }

  function Counts(c: Counter, n: nat): Counter {
    if n == 0 then c else Count(Counts(c, n - 1))
  }

  // ----- the square wave -----

  /** A counter about to take load value n in mode 3 with its output up. */
  predicate Armed3(c: Counter, n: nat) {
    c.mode == 3 && c.delay == 0 && c.load && !c.enabled && c.out && c.loadValue == n
  }

  /** Mode 3 within a half period: k counts into it. */
  predicate InHalf(c: Counter, n: nat, up: bool, k: nat) {
    && c.mode == 3 && c.delay == 0 && c.enabled && !c.load && c.loadValue == n && c.out == up
    && k < Half(n, up)
    && c.value == (if k == 0 then n else if n % 2 == 0 then n - 2 * k else if up then n + 1 - 2 * k else n - 1 - 2 * k)
  }

  /** The output is up for the longer half of an odd period. */
  function Half(n: nat, up: bool): nat { if up then (n + 1) / 2 else n / 2 }

  lemma HalfAdds(n: nat)
    ensures Half(n, true) + Half(n, false) == n
    ensures n % 2 == 0 ==> 2 * Half(n, true) == n && 2 * Half(n, false) == n
    ensures n % 2 == 1 ==> 2 * Half(n, true) == n + 1 && 2 * Half(n, false) == n - 1
  {
  }

  lemma HalfStep(c: Counter, n: nat, up: bool, k: nat)
    requires n >= 2 && InHalf(c, n, up, k)
    ensures var r := Count(c);
      && (if k + 1 < Half(n, up) then InHalf(r, n, up, k + 1) else InHalf(r, n, !up, 0))
      && 1 <= r.value <= n
  {
    HalfAdds(n);
  }

  /** Where n counts from the start of a period fall. */
  function Phase(n: nat, t: nat): (bool, nat)
    requires n >= 2
  {
    HalfAdds(n);
    var r := t % n;
    if r < Half(n, true) then (true, r) else (false, r - Half(n, true))
  }

  lemma NextPhase(n: nat, t: nat)
    requires n >= 2
    ensures var (up, k) := Phase(n, t);
      k < Half(n, up) && Phase(n, t + 1) == if k + 1 < Half(n, up) then (up, k + 1) else (!up, 0)
  {
    HalfAdds(n);
    NextMod(t, n);
  }

  lemma NextMod(t: nat, n: nat)
    requires n > 0
    ensures (t + 1) % n == if t % n + 1 == n then 0 else t % n + 1
  {
    var q, r := t / n, t % n;
    assert t == q * n + r;
    if r + 1 == n {
      assert t + 1 == (q + 1) * n;
      ModUnique(t + 1, n, q + 1, 0);
    } else {
      ModUnique(t + 1, n, q, r + 1);
    }
  }

  /** The counter t counts after its load takes effect, on a load value of at least 2. */
  lemma {:induction false} PeriodAt(c: Counter, n: nat, t: nat)
    requires n >= 2 && InHalf(c, n, true, 0)
    ensures var (up, k) := Phase(n, t); InHalf(Counts(c, t), n, up, k)
  {
    hide InHalf, Phase, Count;
    if t == 0 {
      PhaseZero(n);
    } else {
      PeriodAt(c, n, t - 1);
      var (up, k) := Phase(n, t - 1);
      NextPhase(n, t - 1);
      HalfStep(Counts(c, t - 1), n, up, k);
    }
  }

  lemma PhaseZero(n: nat)
    requires n >= 2
    ensures Phase(n, 0) == (true, 0)
  {
  }

  /** The first count takes the load and counts at once. */
  lemma FirstCount(c: Counter, n: nat)
    requires n >= 2 && Armed3(c, n)
    ensures Count(c) == Count(c.(value := n, enabled := true, load := false))
    ensures InHalf(c.(value := n, enabled := true, load := false), n, true, 0)
  {
    HalfAdds(n);
  }

  lemma {:induction false} SameCounts(c: Counter, d: Counter, t: nat)
    requires Count(c) == Count(d) && t > 0
    ensures Counts(c, t) == Counts(d, t)
  {
    hide Count;
    if t > 1 {
      SameCounts(c, d, t - 1);
    } else {
      assert Counts(c, 0) == c && Counts(d, 0) == d;
    }
  }

  /** Mode 3 with a load value n of at least 2, even or odd: t counts after the load takes effect the
      output is up exactly when t mod n is below the upper half of n, and the counter is in 1..n. */
  lemma SquareWave(c: Counter, n: nat, t: nat)
    requires n >= 2 && Armed3(c, n) && t > 0
    ensures var r := Counts(c, t); r.out == (t % n < (n + 1) / 2) && 1 <= r.value <= n
  {
    hide Counts, Armed3;
    var d := c.(value := n, enabled := true, load := false);
    FirstCount(c, n);
    SameCounts(c, d, t);
    PeriodAt(d, n, t);
    HalfAdds(n);
    NextPhase(n, t);
  }

  /** Mode 3 on a load value of zero: k counts into a half of the full period. */
  predicate InFullHalf(c: Counter, full: nat, up: bool, k: nat) {
    && c.mode == 3 && c.delay == 0 && c.enabled && !c.load && c.loadValue == 0 && c.out == up
    && Full(c) == full && k < full / 2 && c.value == full - 2 * k
  }

  lemma FullHalfStep(c: Counter, full: nat, up: bool, k: nat)
    requires InFullHalf(c, full, up, k)
    ensures if k + 1 < full / 2 then InFullHalf(Count(c), full, up, k + 1) else InFullHalf(Count(c), full, !up, 0)
  {
  }

  lemma {:induction false} FullPeriodAt(c: Counter, full: nat, t: nat)
    requires full >= 2 && full % 2 == 0 && InFullHalf(c, full, false, 0)
    ensures var (up, k) := Phase(full, t); InFullHalf(Counts(c, t), full, !up, k)
  {
    hide InFullHalf, Phase, Count;
    HalfAdds(full);
    if t == 0 {
      PhaseZero(full);
    } else {
      FullPeriodAt(c, full, t - 1);
      var (up, k) := Phase(full, t - 1);
      NextPhase(full, t - 1);
      FullHalfStep(Counts(c, t - 1), full, !up, k);
    }
  }

  /** A load value of zero stands for the full period, but its first count turns the output over: from
      then on the wave is upside down. */
  lemma ZeroLoadIsInverted(c: Counter, t: nat)
    requires Armed3(c, 0) && t > 0
    ensures Counts(c, t).out == (t % Full(c) >= Full(c) / 2)
  {
    hide Counts;
    var d := c.(value := Full(c), enabled := true, load := false, out := false);
    assert Count(c) == Count(d);
    SameCounts(c, d, t);
    FullPeriodAt(d, Full(c), t);
    HalfAdds(Full(c));
    NextPhase(Full(c), t);
  }

  // ----- the other modes -----

  /** A counter about to take load value n. */
  predicate ArmedFor(c: Counter, mode: nat, n: nat) {
    c.mode == mode && c.delay == 0 && c.load && !c.enabled && c.loadValue == n
  }

  predicate InRate(c: Counter, period: nat, value: nat) {
    c.mode == 2 && c.delay == 0 && c.enabled && !c.load && Reload(c) == period && c.value == value
  }

  lemma RateStep(c: Counter, period: nat, value: nat)
    requires period >= 1 && value >= 1 && InRate(c, period, value)
    ensures InRate(Count(c), period, if value == 1 then period else value - 1)
  {
  }

  /** Mode 2: the counter goes down from its load value to 1 and starts again; zero stands for the full
      count. */
  lemma {:induction false} RateGenerator(c: Counter, n: nat, t: nat)
    requires ArmedFor(c, 2, n) && t > 0
    ensures var period := if n == 0 then Full(c) else n; InRate(Counts(c, t), period, Left(period, t))
  {
    hide InRate, Count, Left, Full;
    var period := Reload(c);
    FullIsBig(c);
    NextLeft(period, t - 1);
    if t == 1 {
      NoCounts(c);
      NoneCounted(period);
      RateStarts(c, n);
    } else {
      RateGenerator(c, n, t - 1);
      RateStep(Counts(c, t - 1), period, Left(period, t - 1));
    }
  }

  lemma FullIsBig(c: Counter)
    ensures Full(c) > 1
  {
  }

  /** What is left of a period of n after t counts. */
  function Left(n: nat, t: nat): nat
    requires n >= 1
  {
    n - t % n
  }

  lemma NextLeft(n: nat, t: nat)
    requires n >= 1
    ensures 1 <= Left(n, t) <= n && Left(n, t + 1) == if Left(n, t) == 1 then n else Left(n, t) - 1
  {
    NextMod(t, n);
  }

  lemma NoneCounted(n: nat)
    requires n >= 1
    ensures Left(n, 0) == n
  {
    ModUnique(0, n, 0, 0);
  }

  lemma RateStarts(c: Counter, n: nat)
    requires ArmedFor(c, 2, n)
    ensures var period := Reload(c); InRate(Count(c), period, if period == 1 then period else period - 1)
  {
  }

  /** Mode 0: the output falls with the load and rises with the n-th count, for good. */
  lemma {:induction false} TerminalCount(c: Counter, n: nat, t: nat)
    requires 1 <= n && ArmedFor(c, 0, n) && t > 0
    ensures var r := Counts(c, t);
      && r.out == (t >= n) && r.armed == (t < n) && r.mode == 0 && r.delay == 0 && r.enabled && !r.load
      && (t < n ==> r.value == n - t) && Full(r) == Full(c) && 1 <= r.value
  {
    if t == 1 {
      assert Counts(c, 0) == c;
    } else {
      TerminalCount(c, n, t - 1);
    }
  }

  /** Mode 0 on a load value of zero never fires: the first count spends the arming. */
  lemma {:induction false} ZeroLoadNeverFires(c: Counter, t: nat)
    requires ArmedFor(c, 0, 0) && t > 0
    ensures var r := Counts(c, t);
      !r.out && !r.armed && r.mode == 0 && r.delay == 0 && r.enabled && !r.load && Full(r) == Full(c)
  {
    if t == 1 {
      assert Counts(c, 0) == c;
    } else {
      ZeroLoadNeverFires(c, t - 1);
    }
  }

  /** With a load value of at least 1 mode 0 returns 1 from the n-th count on; with zero its first count
      returns 2, though the output stays down. */
  lemma TerminalReturns(c: Counter, n: nat, t: nat)
    requires ArmedFor(c, 0, n)
    ensures n >= 1 ==> Returned(Counts(c, t)) == One(t + 1 >= n)
    ensures n == 0 ==> Returned(Counts(c, t)) == if t == 0 then 2 else 0
  {
    hide Counts;
    if t == 0 {
      NoCounts(c);
    } else if n >= 1 {
      TerminalCount(c, n, t);
    } else {
      ZeroLoadNeverFires(c, t);
    }
  }

  /** Mode 1 does not take its load value at once: from v it counts down to one, and only then starts
      again, from one more than the load value, or from the full count for zero. Its output stays. */
  lemma {:induction false} OneShotRuns(c: Counter, t: nat)
    requires c.mode == 1 && c.delay == 0 && (c.enabled || c.load) && c.value >= 1
    ensures var r, period := Counts(c, t), if c.loadValue == 0 then Full(c) else c.loadValue + 1;
      && r.value == (if t < c.value then c.value - t else Left(period, t - c.value))
      && r.out == c.out && r.mode == 1 && r.delay == 0 && (r.enabled || r.load) && r.loadValue == c.loadValue
      && r.bcd == c.bcd
  {
    hide Left;
    var period := if c.loadValue == 0 then Full(c) else c.loadValue + 1;
    NoneCounted(period);
    if t > 0 {
      OneShotRuns(c, t - 1);
      if t > c.value {
        NextLeft(period, t - 1 - c.value);
      }
    }
  }

  // ----- programming -----

  /** SetMode */
  function SetMode(c: Counter, newMode: nat, latchMode: nat, bcd: bool): Counter {
    var mode := if newMode % 4 == 2 then 2 else if newMode % 4 == 3 then 3 else newMode;
    var c1 := Count(c).(delay := LATCH_DELAY, bcd := bcd, mode := mode, out := mode != 0, enabled := false,
                        load := false, latchMode := latchMode, writeState := 0);
    if mode <= 1 then c1.(armed := true) else c1
  }

  /** write_value: the byte */
  function TakeByte(c: Counter, w8: byte): Counter {
    if c.latchMode == 3 then
      if c.writeState == 0 then c.(writeLsb := w8, writeState := 1)
      else if c.writeState == 1 then c.(writeState := 0, loadValue := Word(c.writeLsb, w8), load := true)
      else c
    else if c.latchMode == 1 then c.(loadValue := w8, load := true)
    else if c.latchMode == 2 then c.(value := w8 * 256, loadValue := w8 * 256, load := true)
    else c
  }

  /** write_value: the delay of the load */
  function Delayed(c: Counter): Counter {
    var c1 := if c.bcd then c.(loadValue := FromBcd(c.loadValue, 4)) else c;
    if c1.mode == 0 then c1.(delay := 3)
    else if c1.mode <= 3 then if c1.enabled then c1 else c1.(delay := 3)
    else c1.(delay := 4)
  }

  /** write_value */
  function WriteByte(c: Counter, w8: byte): Counter {
    var c1 := TakeByte(c, w8);
    if c1.load then Delayed(c1) else c1
  }

  /** Control word, low byte and high byte, with j and k counts in between. */
  function Programmed(c: Counter, newMode: nat, n: nat, bcd: bool, j: nat, k: nat): Counter
    requires n < 0x1_0000
  {
    WriteByte(Counts(WriteByte(Counts(SetMode(c, newMode, 3, bcd), j), n % 256), k), n / 256)
  }

  /** Control word for one byte, and the byte. */
  function ProgrammedByte(c: Counter, newMode: nat, latchMode: nat, w8: byte, bcd: bool, j: nat): Counter {
    WriteByte(Counts(SetMode(c, newMode, latchMode, bcd), j), w8)
  }

  /** The modes that take their load value with the first count: 0, 2 and 3, the last two also as 6 and 7. */
  predicate Loads(newMode: nat) { newMode == 0 || newMode % 4 == 2 || newMode % 4 == 3 }

  /** The load value that a written word stands for. */
  function Asked(n: nat, bcd: bool): nat { if bcd then FromBcd(n, 4) else n }

  /** Before the load nothing but the delay moves. */
  lemma {:induction false} IdleCounts(c: Counter, j: nat)
    requires !c.enabled && !c.load
    ensures Counts(c, j) == c.(delay := Counts(c, j).delay)
  {
    if j > 0 {
      IdleCounts(c, j - 1);
    }
  }

  /** Between the control word and the load. */
  predicate Waiting(s: Counter, mode: nat, latchMode: nat, bcd: bool) {
    !s.enabled && !s.load && s.mode == mode && s.out == (mode != 0) && s.bcd == bcd && s.latchMode == latchMode
  }

  /** Loaded with n, the delay still to come. */
  predicate Waited(s: Counter, mode: nat, n: nat, bcd: bool) {
    s.delay == 3 && s.bcd == bcd && s.out == (mode != 0) && ArmedFor(s.(delay := 0), mode, Asked(n, bcd))
  }

  lemma ModeIsSet(c: Counter, newMode: nat, latchMode: nat, bcd: bool)
    requires Loads(newMode)
    ensures var s := SetMode(c, newMode, latchMode, bcd);
      Waiting(s, newMode % 4, latchMode, bcd) && s.writeState == 0
  {
    hide Count;
  }

  lemma BytesWritten(s: Counter, mode: nat, bcd: bool, n: nat, d: nat, e: nat)
    requires Waiting(s, mode, 3, bcd) && s.writeState == 0 && mode <= 3 && mode != 1 && n < 0x1_0000
    ensures var low := WriteByte(s.(delay := d), n % 256); !low.enabled && !low.load
    ensures Waited(WriteByte(WriteByte(s.(delay := d), n % 256).(delay := e), n / 256), mode, n, bcd)
  {
    hide FromBcd;
    assert Word(n % 256, n / 256) == n;
  }

  lemma ByteWritten(s: Counter, mode: nat, latchMode: nat, bcd: bool, w8: byte)
    requires Waiting(s, mode, latchMode, bcd) && mode <= 3 && mode != 1 && (latchMode == 1 || latchMode == 2)
    ensures Waited(WriteByte(s, w8), mode, if latchMode == 1 then w8 else 256 * (w8 as int), bcd)
  {
    hide FromBcd;
  }

  /** After the high byte the counter waits three counts, armed, whatever came in between. */
  lemma ProgrammedIsArmed(c: Counter, newMode: nat, n: nat, bcd: bool, j: nat, k: nat)
    requires Loads(newMode) && n < 0x1_0000
    ensures Waited(Programmed(c, newMode, n, bcd, j, k), newMode % 4, n, bcd)
  {
    hide SetMode, Count, WriteByte, Waited, Counts;
    var s := SetMode(c, newMode, 3, bcd);
    ModeIsSet(c, newMode, 3, bcd);
    IdleCounts(s, j);
    var d := Counts(s, j).delay;
    var low := WriteByte(s.(delay := d), n % 256);
    BytesWritten(s, newMode % 4, bcd, n, d, 0);
    IdleCounts(low, k);
    BytesWritten(s, newMode % 4, bcd, n, d, Counts(low, k).delay);
  }

  /** A control word that asks for one byte only: latch mode 1 takes it for the low byte of a load value
      whose high byte is zero, latch mode 2 for the high byte of one whose low byte is. */
  lemma ProgrammedByteIsArmed(c: Counter, newMode: nat, latchMode: nat, w8: byte, bcd: bool, j: nat)
    requires Loads(newMode) && (latchMode == 1 || latchMode == 2)
    ensures Waited(ProgrammedByte(c, newMode, latchMode, w8, bcd, j), newMode % 4,
                   if latchMode == 1 then w8 else 256 * (w8 as int), bcd)
  {
    hide SetMode, Count, WriteByte, Waited, Counts;
    ModeIsSet(c, newMode, latchMode, bcd);
    IdleCounts(SetMode(c, newMode, latchMode, bcd), j);
    ByteWritten(Counts(SetMode(c, newMode, latchMode, bcd), j), newMode % 4, latchMode, bcd, w8);
  }

  lemma DelayIsOver(s: Counter, mode: nat, n: nat, bcd: bool, t: nat)
    requires Waited(s, mode, n, bcd)
    ensures Counts(s, 3 + t) == Counts(s.(delay := 0), t)
  {
    hide Counts;
    ThreeDelays(s);
    CountsAppend(s, 3, t);
  }

  /** The output of mode 3, t counts after load value n takes effect: up for the upper half of every
      period from 2 on, upside down for 0, and turned over by every count for 1. */
  function Wave(n: nat, bcd: bool, t: nat): bool {
    if n == 0 then t == 0 || t % Period(bcd) >= Period(bcd) / 2
    else if n == 1 then t % 2 == 0
    else t % n < (n + 1) / 2
  }

  function Period(bcd: bool): (n: nat)
    ensures n > 0
  {
    if bcd then 10000 else 0x1_0000
  }

  /** What a programmed counter does t counts after its delay: its output in modes 0 and 3, its value in
      mode 2. */
  predicate Plays(r: Counter, mode: nat, n: nat, bcd: bool, t: nat) {
    match mode
    case 0 => r.out == (1 <= n <= t)
    case 2 => r.out && (t > 0 ==> r.value == var period := if n == 0 then Period(bcd) else n; Left(period, t))
    case _ => r.out == Wave(n, bcd, t)
  }

  /** Programmed for mode 0, 2 or 3 from any state, with any word, in binary or BCD, and with any number of
      counts between the three writes, the counter waits three counts and then does what its mode is for
      with its load value. */
  lemma ProgrammedPlays(c: Counter, newMode: nat, n: nat, bcd: bool, j: nat, k: nat, t: nat)
    requires Loads(newMode) && n < 0x1_0000
    ensures Plays(Counts(Programmed(c, newMode, n, bcd, j, k), 3 + t), newMode % 4, Asked(n, bcd), bcd, t)
  {
    hide Programmed, Waited, Plays;
    ProgrammedIsArmed(c, newMode, n, bcd, j, k);
    WaitedPlays(Programmed(c, newMode, n, bcd, j, k), newMode % 4, n, bcd, t);
  }

  /** The same with one byte: the low one, or the high one. */
  lemma ProgrammedBytePlays(c: Counter, newMode: nat, latchMode: nat, w8: byte, bcd: bool, j: nat, t: nat)
    requires Loads(newMode) && (latchMode == 1 || latchMode == 2)
    ensures Plays(Counts(ProgrammedByte(c, newMode, latchMode, w8, bcd, j), 3 + t), newMode % 4,
                  Asked(if latchMode == 1 then w8 else 256 * (w8 as int), bcd), bcd, t)
  {
    hide ProgrammedByte, Waited, Plays;
    ProgrammedByteIsArmed(c, newMode, latchMode, w8, bcd, j);
    WaitedPlays(ProgrammedByte(c, newMode, latchMode, w8, bcd, j), newMode % 4,
                if latchMode == 1 then w8 else 256 * (w8 as int), bcd, t);
  }

  lemma WaitedPlays(s: Counter, mode: nat, n: nat, bcd: bool, t: nat)
    requires mode <= 3 && mode != 1 && Waited(s, mode, n, bcd)
    ensures Plays(Counts(s, 3 + t), mode, Asked(n, bcd), bcd, t)
  {
    hide Counts, Count, Asked, Wave, Left;
    var ready, load := s.(delay := 0), Asked(n, bcd);
    DelayIsOver(s, mode, n, bcd, t);
    NoCounts(ready);
    match mode
    case 0 =>
      if t > 0 && load >= 1 {
        TerminalCount(ready, load, t);
      } else if t > 0 {
        ZeroLoadNeverFires(ready, t);
      }
    case 2 =>
      OutputStays(ready, t);
      if t > 0 {
        RateGenerator(ready, load, t);
      }
    case _ => WaveFollows(ready, load, t);
  }

  lemma {:induction false} OutputStays(c: Counter, t: nat)
    requires c.mode == 2
    ensures Counts(c, t).out == c.out && Counts(c, t).mode == 2
  {
    if t > 0 {
      OutputStays(c, t - 1);
    }
  }

  lemma WaveFollows(ready: Counter, load: nat, t: nat)
    requires Armed3(ready, load)
    ensures Counts(ready, t).out == Wave(load, ready.bcd, t)
  {
    hide Counts, Count;
    if t == 0 {
      NoCounts(ready);
      WaveStartsUp(load, ready.bcd);
    } else if load == 0 {
      ZeroLoadIsInverted(ready, t);
    } else if load == 1 {
      UnitLoadRunsAway(ready, t);
    } else {
      SquareWave(ready, load, t);
    }
  }

  lemma WaveStartsUp(n: nat, bcd: bool)
    ensures Wave(n, bcd, 0)
  {
    if n >= 2 {
      ModUnique(0, n, 0, 0);
    }
  }

  /** Mode 3 on a load value of 1 turns the output over with every count, and after the first the
      counter goes down without end. */
  lemma {:induction false} UnitLoadRunsAway(c: Counter, t: nat)
    requires Armed3(c, 1) && t > 0
    ensures var r := Counts(c, t);
      && r.out == (t % 2 == 0) && r.value == (if t == 1 then 1 else 1 - t)
      && r.mode == 3 && r.delay == 0 && r.enabled && !r.load && r.loadValue == 1
  {
    if t == 1 {
      assert Counts(c, 0) == c;
    } else {
      UnitLoadRunsAway(c, t - 1);
    }
  }

  lemma ThreeDelays(s: Counter)
    requires s.delay == 3
    ensures Counts(s, 3) == s.(delay := 0)
  {
    assert Counts(s, 0) == s;
    assert Counts(s, 1) == s.(delay := 2);
    assert Counts(s, 2) == s.(delay := 1);
  }

  lemma NoCounts(c: Counter)
    ensures Counts(c, 0) == c
  {
  }

  lemma {:induction false} CountsAppend(c: Counter, a: nat, b: nat)
    ensures Counts(c, a + b) == Counts(Counts(c, a), b)
  {
    hide Count;
    if b > 0 {
      CountsAppend(c, a, b - 1);
    }
  }

  // ----- latching -----

  function Latch(c: Counter): Counter {
    var c1 := Count(c);
    c1.(delay := LATCH_DELAY, latchValue := c1.value)
  }

  /** A latch and the next count take the counter exactly as far as one count does, or as the counts
      that a pending delay would swallow: a delay above 1 is cut short. */
  lemma LatchKeepsTime(c: Counter)
    ensures Count(Latch(c)) == Counts(c, Longer(c.delay)).(latchValue := Latch(c).value)
    ensures Count(Latch(c)).(latchValue := c.latchValue) == Count(c) <==> c.delay <= 1
  {
    hide Count0, Count1, Count2, Count3;
    CountKeepsLatch(c);
    Delays(c, c.delay);
    assert Counts(c, 0) == c && Counts(c, 1) == Count(c);
  }

  function Longer(delay: nat): nat { if delay == 0 then 1 else delay }

  lemma {:induction false} Delays(c: Counter, n: nat)
    requires n <= c.delay
    ensures Counts(c, n) == c.(delay := c.delay - n)
  {
    if n > 0 {
      Delays(c, n - 1);
    }
  }

  /** read_value */
  function ReadByte(c: Counter): (Counter, nat) {
    var held := if c.latchValue != -1 then c.latchValue else c.value;
    var shown := Shown(held, c.bcd);
    match c.latchMode
    case 1 => (c.(latchValue := -1), shown % 256)
    case 2 => (c.(latchValue := -1), shown / 256 % 256)
    case 3 =>
      if c.writeState == 0 then (c.(writeState := 1), shown % 256)
      else if c.writeState == 1 then (c.(latchValue := -1, writeState := 0), shown / 256 % 256)
      else (c, shown)
    case _ => (c, 0)
  }

  predicate SameLatch(r: Counter, c: Counter) {
    && r.latchValue == c.latchValue && r.writeState == c.writeState && r.latchMode == c.latchMode
    && r.bcd == c.bcd && r.delay == c.delay
  }

  lemma ModesKeepLatch(c: Counter)
    ensures SameLatch(Count0(c), c) && SameLatch(Count1(c), c) && SameLatch(Count2(c), c)
  {
  }

  lemma SquareKeepsLatch(c: Counter)
    ensures SameLatch(Count3(c), c)
  {
    hide Step3, Reload;
  }

  lemma CountKeepsLatch(c: Counter)
    ensures var r := Count(c);
      && r.latchValue == c.latchValue && r.writeState == c.writeState && r.latchMode == c.latchMode && r.bcd == c.bcd
      && r.delay == if c.delay == 0 then 0 else c.delay - 1
  {
    hide Count0, Count1, Count2, Count3;
    ModesKeepLatch(c);
    SquareKeepsLatch(c);
  }

  lemma {:induction false} CountsKeepLatch(c: Counter, k: nat)
    ensures var r := Counts(c, k);
      r.latchValue == c.latchValue && r.writeState == c.writeState && r.latchMode == c.latchMode && r.bcd == c.bcd
  {
    hide Count;
    if k > 0 {
      CountsKeepLatch(c, k - 1);
      CountKeepsLatch(Counts(c, k - 1));
    }
  }

  /** What a read shows of a value. */
  function Shown(value: int, bcd: bool): (w: nat)
    ensures w < 0x1_0000
  {
    if bcd then PackedIsWord(value % 0x1_0000); ToBcd(value % 0x1_0000, 4) else value % 0x1_0000
  }

  lemma PackedIsWord(x: nat)
    ensures ToBcd(x, 4) < 0x1_0000
  {
    assert Pow16(4) == 0x1_0000;
  }

  /** Counts may come between a latch and its two reads: both bytes are of the latched value, whatever
      the counter is by then, and after the second the latch is open again. The value -1 alone does
      not hold: it says that nothing is latched. */
  lemma LatchedReadsBack(c: Counter, j: nat, k: nat)
    requires c.latchMode == 3 && c.writeState == 0
    ensures var first := ReadByte(Counts(Latch(c), j));
      var second := ReadByte(Counts(first.0, k));
      && second.0.latchValue == -1 && second.0.writeState == 0
      && (Latch(c).value != -1 ==> first.1 + 256 * second.1 == Shown(Latch(c).value, c.bcd))
      && (Latch(c).value == -1 ==> first.1 == Shown(Counts(Latch(c), j).value, c.bcd) % 256)
  {
    hide Counts, Count;
    LatchKeepsModes(c);
    CountsKeepLatch(Latch(c), j);
    CountsKeepLatch(ReadByte(Counts(Latch(c), j)).0, k);
  }

  /** A decimal counter below 10000 is shown as its digits. */
  lemma ShownDigits(value: nat)
    requires value < 10000
    ensures FromBcd(Shown(value, true), 4) == value && AllDigits(Shown(value, true), 4)
  {
    hide ToBcd, FromBcd, AllDigits;
    assert Pow10(1) == 10 && Pow10(2) == 100 && Pow10(3) == 1000 && Pow10(4) == 10000;
    BcdRoundTrip(value, 4);
  }

  lemma LatchKeepsModes(c: Counter)
    ensures Latch(c).latchMode == c.latchMode && Latch(c).writeState == c.writeState && Latch(c).bcd == c.bcd
    ensures Latch(c).latchValue == Latch(c).value
  {
    hide Count;
    CountKeepsLatch(c);
  }

  // ----- decimal -----

  /** n decimal digits of x, packed. */
  function ToBcd(x: nat, n: nat): (r: nat)
    ensures r < Pow16(n)
  {
    if n == 0 then 0 else x % 10 + 16 * ToBcd(x / 10, n - 1)
  }

  /** n packed digits, those above 9 read as 9. */
  function FromBcd(x: nat, n: nat): nat {
    if n == 0 then 0 else Digit(x % 16) + 10 * FromBcd(x / 16, n - 1)
  }

  function Digit(d: nat): (r: nat)
    ensures r <= 9
  {
    if d > 9 then 9 else d
  }

  function Pow16(n: nat): nat { if n == 0 then 1 else 16 * Pow16(n - 1) }

  predicate AllDigits(x: nat, n: nat) {
    n == 0 || (x % 16 <= 9 && AllDigits(x / 16, n - 1))
  }

  /** A number that fits comes back from its packed digits. */
  lemma {:induction false} BcdRoundTrip(x: nat, n: nat)
    requires x < Pow10(n)
    ensures FromBcd(ToBcd(x, n), n) == x && AllDigits(ToBcd(x, n), n)
  {
    if n > 0 {
      BcdRoundTrip(x / 10, n - 1);
      SplitDigit(x % 10, ToBcd(x / 10, n - 1));
    }
  }

  lemma SplitDigit(d: nat, rest: nat)
    requires d < 16
    ensures (d + 16 * rest) % 16 == d && (d + 16 * rest) / 16 == rest
  {
  }

  /** Packed digits come back from their number exactly when they are all decimal. */
  lemma {:induction false} PackedRoundTrip(x: nat, n: nat)
    requires x < Pow16(n)
    ensures FromBcd(x, n) < Pow10(n) && (ToBcd(FromBcd(x, n), n) == x <==> AllDigits(x, n))
  {
    if n > 0 {
      PackedRoundTrip(x / 16, n - 1);
      var d, rest := Digit(x % 16), FromBcd(x / 16, n - 1);
      assert (d + 10 * rest) % 10 == d && (d + 10 * rest) / 10 == rest;
      SplitDigit(d, ToBcd(rest, n - 1));
      assert x == x % 16 + 16 * (x / 16);
      SplitDigit(x % 16, x / 16);
    }
  }

  // ----- the counter in place -----

  class CounterUnit {
    var latchValue: int
    var writeState: nat
    var latchMode: nat
    var out: bool
    var value: int
    var mode: nat
    var writeLsb: byte
    var loadValue: nat
    var armed: bool
    var load: bool
    var enabled: bool
    var bcd: bool
    var delay: nat

    ghost function View(): Counter
      reads this
    {
      Counter(latchValue, writeState, latchMode, out, value, mode, writeLsb, loadValue, armed, load, enabled, bcd,
              delay)
    }

    method Tick() returns (result: int)
      modifies this
      ensures View() == Count(old(View())) && result == Returned(old(View()))
    {
      hide Count0, Count1, Count2, Count3;
      if delay > 0 {
        delay := delay - 1;
        return One(out);
      }
      if !enabled && !load {
        return One(out);
      }
      result := One(out);
      match mode {
        case 0 => result := Tick0();
        case 1 => Tick1();
        case 2 => Tick2();
        case 3 =>
          Tick3();
          result := One(out);
        case _ =>
      }
      load := false;
    }

    method Tick0() returns (result: int)
      requires delay == 0 && (enabled || load) && mode == 0
      modifies this`value, this`enabled, this`armed, this`out
      ensures View() == Count0(old(View())) && result == Returned(old(View()))
    {
      result := One(out);
      if load {
        value := loadValue;
        enabled := true;
        armed := true;
        out := false;
        result := 0;
      }
      if enabled {
        var previous := value;
        value := value - 1;
        if value <= 0 {
          if armed {
            if previous != 0 {
              out := true;
            }
            result := -value + 1;
            armed := false;
          }
          value := value + if bcd then 10000 else 65536;
        }
      }
    }

    method Tick1()
      modifies this`value, this`enabled
      ensures View() == Count1(old(View()))
    {
      if !enabled && load {
        enabled := true;
      }
      if enabled {
        value := value - 1;
        if value <= 0 {
          var reload := if loadValue == 0 then if bcd then 10000 else 0x1_0000 else loadValue + 1;
          value := value + reload;
        }
      }
    }

    method Tick2()
      modifies this`value, this`enabled
      ensures View() == Count2(old(View()))
    {
      if !enabled && load {
        value := loadValue;
        enabled := true;
      }
      if enabled {
        value := value - 1;
        if value <= 0 {
          var reload := if loadValue == 0 then if bcd then 10000 else 0x1_0000 else loadValue;
          value := value + reload;
        }
      }
    }

    method Tick3()
      modifies this`value, this`enabled, this`out
      ensures View() == Count3(old(View()))
    {
      if !enabled && load {
        value := loadValue;
        enabled := true;
      }
      if enabled {
        value := value - if value == loadValue && value % 2 == 1 then if !out then 3 else 1 else 2;
        if value <= 0 {
          out := !out;
          var reload := if loadValue == 0 then if bcd then 10000 else 0x1_0000 else loadValue;
          value := value + reload;
        }
      }
    }

    method LatchValue()
      modifies this
      ensures View() == Latch(old(View()))
    {
      var _ := Tick();
      delay := LATCH_DELAY;
      latchValue := value;
    }

    method Program(newMode: nat, newLatchMode: nat, newBcd: bool)
      modifies this
      ensures View() == SetMode(old(View()), newMode, newLatchMode, newBcd)
    {
      hide Count;
      var _ := Tick();
      delay := LATCH_DELAY;
      bcd := newBcd;
      if newMode % 4 == 2 {
        mode := 2;
      } else if newMode % 4 == 3 {
        mode := 3;
      } else {
        mode := newMode;
      }
      match mode {
        case 0 =>
          out := false;
          armed := true;
          enabled := false;
        case 1 =>
          out := true;
          armed := true;
          enabled := false;
        case _ =>
          out := true;
          enabled := false;
      }
      load := false;
      latchMode := newLatchMode;
      writeState := 0;
    }

    method WriteValue(w8: byte)
      requires loadValue < 0x1_0000
      modifies this
      ensures View() == WriteByte(old(View()), w8)
    {
      hide TakeByte, Delayed;
      Take(w8);
      if load {
        DelayLoad();
      }
    }

    method Take(w8: byte)
      requires loadValue < 0x1_0000
      modifies this`writeLsb, this`writeState, this`loadValue, this`load, this`value
      ensures View() == TakeByte(old(View()), w8) && loadValue < 0x1_0000
    {
      if latchMode == 3 {
        if writeState == 0 {
          writeLsb := w8;
          writeState := 1;
        } else if writeState == 1 {
          writeState := 0;
          loadValue := Word(writeLsb, w8);
          load := true;
        }
      } else if latchMode == 1 {
        loadValue := w8;
        load := true;
      } else if latchMode == 2 {
        value := w8 * 256;
        loadValue := value;
        load := true;
      }
    }

    method DelayLoad()
      requires loadValue < 0x1_0000
      modifies this`loadValue, this`delay
      ensures View() == Delayed(old(View()))
    {
      if bcd {
        var number := UnpackDigits(loadValue);
        loadValue := number;
      }
      if mode == 0 {
        delay := 3;
      } else if mode <= 3 {
        if !enabled {
          delay := 3;
        }
      } else {
        delay := 4;
      }
    }

    method ReadValue() returns (shown: nat)
      modifies this`latchValue, this`writeState
      ensures (View(), shown) == ReadByte(old(View()))
    {
      hide ToBcd;
      shown := 0;
      if latchMode == 1 || latchMode == 2 || latchMode == 3 {
        shown := (if latchValue != -1 then latchValue else value) % 0x1_0000;
        if bcd {
          shown := PackDigits(shown);
        }
        if latchMode == 1 {
          latchValue := -1;
          shown := shown % 256;
        } else if latchMode == 2 {
          latchValue := -1;
          shown := shown / 256 % 256;
        } else if writeState == 0 {
          writeState := 1;
          shown := shown % 256;
        } else if writeState == 1 {
          latchValue := -1;
          writeState := 0;
          shown := shown / 256 % 256;
        }
      }
    }

    /** tobcd */
    static method PackDigits(x: nat) returns (result: nat)
      requires x < 0x1_0000
      ensures result == ToBcd(x, 4)
    {
      var rest: nat := x;
      result := 0;
      for i := 0 to 4
        invariant ToBcd(x, 4) == result + Pow16(i) * ToBcd(rest, 4 - i)
      {
        PackOne(result, Pow16(i), rest, 4 - i);
        result := result + rest % 10 * Pow16(i);
        rest := rest / 10;
      }
    }

    /** frombcd: the top digit first, the rest shifted up in 16 bits. */
    static method UnpackDigits(x: nat) returns (result: nat)
      requires x < 0x1_0000
      ensures result == FromBcd(x, 4)
    {
      ghost var a, b, c, d := FourDigits(x);
      var shifted: nat := x;
      result := 0;
      for i := 0 to 4
        invariant shifted == DigitsLeft(a, b, c, d, i) && result == Taken(a, b, c, d, i)
      {
        NextDigit(a, b, c, d, i);
        var digit := shifted / 4096;
        if digit > 9 {
          digit := 9;
        }
        result := result * 10 + digit;
        shifted := shifted * 16 % 0x1_0000;
      }
    }
  }

  /** What is left of the packed digits a, b, c, d when i are taken, and the number taken. */
  function DigitsLeft(a: nat, b: nat, c: nat, d: nat, i: nat): nat {
    match i
    case 0 => 4096 * a + 256 * b + 16 * c + d
    case 1 => 4096 * b + 256 * c + 16 * d
    case 2 => 4096 * c + 256 * d
    case 3 => 4096 * d
    case _ => 0
  }

  function Taken(a: nat, b: nat, c: nat, d: nat, i: nat): nat {
    match i
    case 0 => 0
    case 1 => Digit(a)
    case 2 => 10 * Digit(a) + Digit(b)
    case 3 => 100 * Digit(a) + 10 * Digit(b) + Digit(c)
    case _ => 1000 * Digit(a) + 100 * Digit(b) + 10 * Digit(c) + Digit(d)
  }

  lemma NextDigit(a: nat, b: nat, c: nat, d: nat, i: nat)
    requires a < 16 && b < 16 && c < 16 && d < 16 && i < 4
    ensures DigitsLeft(a, b, c, d, i) * 16 % 0x1_0000 == DigitsLeft(a, b, c, d, i + 1)
    ensures Taken(a, b, c, d, i + 1) == 10 * Taken(a, b, c, d, i) + Digit(DigitsLeft(a, b, c, d, i) / 4096)
  {
    match i
    case 0 => TopDigit(a, 256 * b + 16 * c + d);
    case 1 => TopDigit(b, 256 * c + 16 * d);
    case 2 => TopDigit(c, 256 * d);
    case _ => TopDigit(d, 0);
  }

  lemma TopDigit(top: nat, rest: nat)
    requires top < 16 && rest < 4096
    ensures (4096 * top + rest) * 16 % 0x1_0000 == 16 * rest && (4096 * top + rest) / 4096 == top
  {
  }

  lemma PackOne(result: nat, weight: nat, rest: nat, n: nat)
    requires n > 0
    ensures result + weight * ToBcd(rest, n) == (result + rest % 10 * weight) + 16 * weight * ToBcd(rest / 10, n - 1)
  {
  }

  lemma FourDigits(x: nat) returns (a: nat, b: nat, c: nat, d: nat)
    requires x < 0x1_0000
    ensures a < 16 && b < 16 && c < 16 && d < 16 && x == 4096 * a + 256 * b + 16 * c + d
    ensures FromBcd(x, 4) == 1000 * Digit(a) + 100 * Digit(b) + 10 * Digit(c) + Digit(d)
  {
    var x1 := x / 16;
    var x2 := x1 / 16;
    a, b, c, d := x2 / 16, x2 % 16, x1 % 16, x % 16;
    assert FromBcd(a, 1) == Digit(a) + 10 * FromBcd(a / 16, 0);
    assert FromBcd(x2, 2) == Digit(b) + 10 * FromBcd(a, 1);
    assert FromBcd(x1, 3) == Digit(c) + 10 * FromBcd(x2, 2);
  }
}
