/** The sound generator and its integer fast path (psp/src/ay.h, class AY), over the reals. */
module Ay {
  const NOISE_STATES: nat := 0x2_0000

  /** The generator's fields. regs holds the sixteen registers and the three tone counters. */
  datatype State = State(
    regs: seq<nat>,
    envc: nat,
    envv: nat,
    envx: nat,
    ay13: nat,
    tons: seq<bool>, // its three bits
    noic: nat,
    noiv: nat,
    noir: nat,
    ayreg: nat)

  predicate Bit(x: nat, weight: nat)
    requires weight > 0
  {
    x / weight % 2 == 1
  }

  /** x ^ weight */
  function Flip(x: nat, weight: nat): nat
    requires weight > 0
  {
    if Bit(x, weight) then FlipDown(x, weight); x - weight else x + weight
  }

  lemma FlipDown(x: nat, weight: nat)
    requires weight > 0 && Bit(x, weight)
    ensures x >= weight
  {
    var q := x / weight;
    assert x == q * weight + x % weight;
    assert q >= 1 ==> q * weight >= weight;
  }

  /** What every run keeps: levels stay in the tables and the noise register never gets stuck. */
  predicate Good(s: State) {
    && |s.regs| == 19 && |s.tons| == 3 && s.ayreg < 16 && s.envv <= 15 && s.envx <= 16 && s.noiv <= 1
      && 1 <= s.noir < NOISE_STATES
  }

  // ----- the envelope -----

  /** estep: the state after it, and the level. */
  function EStep(s: State): (State, nat)
    requires s.envx <= 16
  {
    if s.envx == 16 && Bit(s.ay13, 1) then (s, if Bit(s.ay13, 4) != Bit(s.ay13, 2) then 15 else 0)
    else
      var s1 := if s.envx < 16 then s
                else s.(envx := 0, ay13 := if Bit(s.ay13, 2) then Flip(s.ay13, 4) else s.ay13);
      (s1.(envx := s1.envx + 1), if Bit(s1.ay13, 4) then s1.envx else 15 - s1.envx)
  }

  /** The state before the n-th estep. */
  function Before(s: State, n: nat): (r: State)
    requires s.envx <= 16
    ensures r.envx <= 16
  {
    if n == 0 then s else EStep(Before(s, n - 1)).0
  }

  /** The level of the n-th estep. */
  function Level(s: State, n: nat): nat
    requires s.envx <= 16
  {
    EStep(Before(s, n)).1
  }

  /** The shape's level k steps into its b-th ramp: attack up or down, turned over on every other ramp
      when ALT is set; after the first ramp a held shape stays at the end its ATT and ALT ask for. */
  function Shape(shape: nat, b: nat, k: nat): nat
    requires k < 16
  {
    var att, alt, hold := Bit(shape, 4), Bit(shape, 2), Bit(shape, 1);
    if hold && b > 0 then if att != alt then 15 else 0
    else if (if alt && b % 2 == 1 then !att else att) then k
    else 15 - k
  }

  /** Flipping bit 2 leaves bits 0 and 1 and turns bit 2 over. */
  lemma FlipAttack(x: nat)
    ensures var y := Flip(x, 4); Bit(y, 4) != Bit(x, 4) && Bit(y, 2) == Bit(x, 2) && Bit(y, 1) == Bit(x, 1)
  {
    var q, r := x / 4, x % 4;
    LowBits(q, r);
    if Bit(x, 4) {
      LowBits(q - 1, r);
    } else {
      LowBits(q + 1, r);
    }
  }

  lemma LowBits(q: nat, r: nat)
    requires r < 4
    ensures var x := 4 * q + r; x / 4 == q && (Bit(x, 2) <==> r >= 2) && (Bit(x, 1) <==> r % 2 == 1)
  {
    var x := 4 * q + r;
    assert x / 2 == 2 * q + r / 2;
  }

  predicate InRamp(s: State, shape: nat, b: nat, k: nat) {
    && s.envx == (if Bit(shape, 1) && b > 0 then 16 else k + 1) && Bit(s.ay13, 1) == Bit(shape, 1)
      && Bit(s.ay13, 2) == Bit(shape, 2)
    && Bit(s.ay13, 4) == if !Bit(shape, 1) && Bit(shape, 2) && b % 2 == 1 then !Bit(shape, 4) else Bit(shape, 4)
  }

  lemma RampStep(s: State, shape: nat, b: nat, k: nat)
    requires k < 16 && InRamp(s, shape, b, k)
    ensures var b', k' := if k < 15 then b else b + 1, if k < 15 then k + 1 else 0;
      s.envx <= 16 && InRamp(EStep(s).0, shape, b', k') && EStep(s).1 == Shape(shape, b', k')
  {
    FlipAttack(s.ay13);
  }

  /** The envelope in closed form: the level of step 16 b + k from the write of a shape. */
  lemma {:induction false} EnvelopeShape(s: State, b: nat, k: nat)
    requires s.envx == 0 && k < 16
    ensures Level(s, 16 * b + k) == Shape(s.ay13, b, k) && InRamp(Before(s, 16 * b + k + 1), s.ay13, b, k)
    decreases b, k
  {
    hide EStep, InRamp, Shape;
    if k > 0 {
      EnvelopeShape(s, b, k - 1);
      RampStep(Before(s, 16 * b + k), s.ay13, b, k - 1);
    } else if b > 0 {
      EnvelopeShape(s, b - 1, 15);
      RampStep(Before(s, 16 * b), s.ay13, b - 1, 15);
    } else {
      FirstLevel(s);
    }
  }

  lemma FirstLevel(s: State)
    requires s.envx == 0
    ensures Level(s, 0) == Shape(s.ay13, 0, 0) && InRamp(Before(s, 1), s.ay13, 0, 0)
  {
    assert Before(s, 0) == s;
  }

  // ----- one step -----

  function EnvelopeTick(s: State): State
    requires Good(s)
  {
    if s.envc + 1 >= 2 * s.regs[11] + 512 * s.regs[12] then
      var (s1, level) := EStep(s.(envc := 0));
      s1.(envv := level)
    else s.(envc := s.envc + 1)
  }

  /** (noir ^ (noiv * 0x24000)) >> 1 with noiv the low bit. */
  function NextNoise(noir: nat): nat {
    if noir % 2 == 1 then (Flip(noir, 0x4000) + NOISE_STATES) / 2 else noir / 2
  }

  function NoiseTick(s: State): State
    requires Good(s)
  {
    if s.noic + 1 >= 2 * s.regs[6] then s.(noic := 0, noiv := s.noir % 2, noir := NextNoise(s.noir))
    else s.(noic := s.noic + 1)
  }

  function Weight(ch: nat): (w: nat)
    ensures w > 0
  {
    if ch == 0 then 1 else 2 * Weight(ch - 1)
  }

  function ToneTick(s: State, ch: nat): (r: State)
    requires |s.regs| == 19 && |s.tons| == 3 && ch < 3
    ensures |r.regs| == 19 && |r.tons| == 3
  {
    if s.regs[ch + 16] + 1 >= s.regs[2 * ch] + 256 * s.regs[2 * ch + 1] then
      s.(regs := s.regs[ch + 16 := 0], tons := s.tons[ch := !s.tons[ch]])
    else s.(regs := s.regs[ch + 16 := s.regs[ch + 16] + 1])
  }

  function Stepped(s: State): State
    requires Good(s)
  {
    GoodTicks(s);
    ToneTick(ToneTick(ToneTick(NoiseTick(EnvelopeTick(s)), 0), 1), 2)
  }

  lemma NoiseStaysUp(noir: nat)
    requires 1 <= noir < NOISE_STATES
    ensures 1 <= NextNoise(noir) < NOISE_STATES
  {
    if noir % 2 == 1 && !Bit(noir, 0x4000) {
      HighNoise(noir);
    }
  }

  lemma HighNoise(noir: nat)
    requires noir < NOISE_STATES && !Bit(noir, 0x4000)
    ensures noir + 0x4000 < NOISE_STATES
  {
    var q := noir / 0x4000;
    assert q < 8 && q % 2 == 0;
  }

  lemma GoodTicks(s: State)
    requires Good(s)
    ensures Good(EnvelopeTick(s)) && Good(NoiseTick(s)) && Good(NoiseTick(EnvelopeTick(s)))
  {
    NoiseStaysUp(s.noir);
    assert Good(EnvelopeTick(s));
  }

  /** The noise register runs through a permutation of its states: no two lead to the same one. */
  lemma NoiseIsReversible(a: nat, b: nat)
    requires 1 <= a < NOISE_STATES && 1 <= b < NOISE_STATES && NextNoise(a) == NextNoise(b)
    ensures a == b
  {
    NoiseHalves(a);
    NoiseHalves(b);
  }

  /** The top bit of the next state is the bit shifted out; the rest is the state shifted, with bit 13
      turned over when that bit was set. */
  lemma NoiseHalves(a: nat)
    requires 1 <= a < NOISE_STATES
    ensures var h := a / 2;
      NextNoise(a) == if a % 2 == 1 then Flip(h, 0x2000) + 0x1_0000 else h
    ensures Flip(a / 2, 0x2000) < 0x1_0000 && Flip(Flip(a / 2, 0x2000), 0x2000) == a / 2
  {
    var h := a / 2;
    var q := h / 0x2000;
    assert h == 0x2000 * q + h % 0x2000 && q < 8;
    assert a == 2 * h + a % 2;
    assert a / 0x4000 == q;
    if q % 2 == 1 {
      assert h - 0x2000 == 0x2000 * (q - 1) + h % 0x2000;
      assert (h - 0x2000) / 0x2000 == q - 1;
    } else {
      assert h + 0x2000 == 0x2000 * (q + 1) + h % 0x2000;
      assert (h + 0x2000) / 0x2000 == q + 1;
    }
  }

  // ----- the two outputs -----

  const AMP: seq<real> := [
    0.0, 0.0137, 0.0205, 0.0291, 0.0423, 0.0618, 0.0847, 0.1369,
    0.1691, 0.2647, 0.3527, 0.4499, 0.5704, 0.6873, 0.8482, 1.0
  ]

  const AMP_INT: seq<nat> := [
    0, 56, 84, 119, 173, 253, 347, 561,
    693, 1084, 1445, 1843, 2336, 2815, 3474, 4096
  ]

  /** Whether a channel is on: tone and noise each enabled and up, or disabled. */
  predicate Mixed(s: State, ch: nat)
    requires Good(s) && ch < 3
  {
    (Bit(s.regs[7], Weight(ch)) || s.tons[ch]) && (Bit(s.regs[7], Weight(ch + 3)) || s.noiv == 1)
  }

  /** The place in the level tables. */
  function Loudness(s: State, ch: nat): (a: nat)
    requires Good(s) && ch < 3
    ensures a < 16
  {
    if Bit(s.regs[8 + ch], 0x10) then s.envv else s.regs[8 + ch] % 16
  }

  function Channel(s: State, ch: nat): real
    requires Good(s) && ch < 3
  {
    if Mixed(s, ch) then AMP[Loudness(s, ch)] else 0.0
  }

  function ChannelInt(s: State, ch: nat): nat
    requires Good(s) && ch < 3
  {
    if Mixed(s, ch) then AMP_INT[Loudness(s, ch)] else 0
  }

  function Enabled(on: bool): int { if on then 1 else 0 }

  function Output(s: State, e0: bool, e1: bool, e2: bool): real
    requires Good(s)
  {
    Channel(s, 0) * (Enabled(e0) as real) + Channel(s, 1) * (Enabled(e1) as real)
      + Channel(s, 2) * (Enabled(e2) as real)
  }

  function OutputInt(s: State, e0: bool, e1: bool, e2: bool): int
    requires Good(s)
  {
    ChannelInt(s, 0) * Enabled(e0) + ChannelInt(s, 1) * Enabled(e1) + ChannelInt(s, 2) * Enabled(e2)
  }

  lemma LevelsClose(a: nat)
    requires a < 16
    ensures -0.5 <= AMP_INT[a] as real - 4096.0 * AMP[a] <= 0.5
  {
  }

  lemma ChannelsClose(s: State, ch: nat, on: bool)
    requires Good(s) && ch < 3
    ensures -0.5 <= (ChannelInt(s, ch) * Enabled(on)) as real - 4096.0 * (Channel(s, ch) * (Enabled(on) as real)) <= 0.5
  {
    hide Mixed, Loudness;
    LevelsClose(Loudness(s, ch));
  }

  /** The integer output stays within 1.5 of 4096 times the real one. */
  lemma OutputsClose(s: State, e0: bool, e1: bool, e2: bool)
    requires Good(s)
    ensures -1.5 <= OutputInt(s, e0, e1, e2) as real - 4096.0 * Output(s, e0, e1, e2) <= 1.5
  {
    hide Channel, ChannelInt;
    ChannelsClose(s, 0, e0);
    ChannelsClose(s, 1, e1);
    ChannelsClose(s, 2, e2);
    var x, y, z := ChannelInt(s, 0) * Enabled(e0), ChannelInt(s, 1) * Enabled(e1), ChannelInt(s, 2) * Enabled(e2);
    assert (x + y + z) as real == x as real + y as real + z as real;
  }

  // ----- register writes -----

  const RMASK: seq<nat> := [0x100, 0x10, 0x100, 0x10, 0x100, 0x10, 0x20, 0x100, 0x20, 0x20, 0x20, 0x100, 0x100, 0x10,
                            0x100, 0x100]

  /** write: the masks keep low bits only, so they are taken as remainders. A shape without CONT stands
      for one that is held. */
  function Written(s: State, addr: nat, val: nat): State
    requires Good(s)
  {
    if addr == 1 then s.(ayreg := val % 16)
    else
      var s1 := s.(regs := s.regs[s.ayreg := val % RMASK[s.ayreg]]);
      var held := if val / 4 % 4 == 0 then 9 else if val / 4 % 4 == 1 then 15 else val;
      if s.ayreg == 13 then s1.(envx := 0, ay13 := held) else s1
  }

  datatype Op = Write(addr: nat, val: nat) | Step

  function Done(s: State, op: Op): (r: State)
    requires Good(s)
    ensures Good(r)
  {
    match op
    case Write(addr, val) => Written(s, addr, val)
    case Step => SteppedIsGood(s); Stepped(s)
  }

  lemma SteppedIsGood(s: State)
    requires Good(s)
    ensures Good(Stepped(s))
  {
    hide EnvelopeTick, NoiseTick, Flip;
    GoodTicks(s);
  }

  function After(s: State, ops: seq<Op>): (r: State)
    requires Good(s)
    ensures Good(r)
  {
    if ops == [] then s else Done(After(s, ops[..|ops| - 1]), ops[|ops| - 1])
  }

  /** From any good state, over any writes and steps, the levels stay in the tables, the noise register
      never becomes zero, and the two outputs stay close. */
  lemma RunsStayClose(s: State, ops: seq<Op>, e0: bool, e1: bool, e2: bool)
    requires Good(s)
    ensures var r := After(s, ops);
      && Good(r) && r.noir != 0 && r.envv <= 15
      && -1.5 <= OutputInt(r, e0, e1, e2) as real - 4096.0 * Output(r, e0, e1, e2) <= 1.5
  {
    hide Output, OutputInt;
    OutputsClose(After(s, ops), e0, e1, e2);
  }

  /** The channels are stepped in any order: C++ leaves that of step open. */
  lemma ChannelsCommute(s: State, i: nat, j: nat)
    requires |s.regs| == 19 && |s.tons| == 3 && i < 3 && j < 3
    ensures ToneTick(ToneTick(s, i), j) == ToneTick(ToneTick(s, j), i)
  {
  }
}
