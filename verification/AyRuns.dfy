/** What the sound generator does over many steps (psp/src/ay.h): its dividers, the bits of its noise, its
    mixer and its envelope shapes in closed form. */
module AyRuns {
  import opened Bytes
  import opened Ay

  function Steps(s: State, n: nat): (r: State)
    requires Good(s)
    ensures Good(r)
  {
    if n == 0 then s else SteppedIsGood(Steps(s, n - 1)); Stepped(Steps(s, n - 1))
  }

  // ----- dividers -----

  /** How often a counter that starts at c and is reset at period has been reset after n steps. One that
      starts too high, as after a period is shortened, is reset by the first step. */
  function Resets(c: nat, period: nat, n: nat): nat
    requires period >= 1
  {
    if c < period then (c + n) / period else if n == 0 then 0 else 1 + (n - 1) / period
  }

  function CounterAfter(c: nat, period: nat, n: nat): nat
    requires period >= 1
  {
    if c < period then (c + n) % period else if n == 0 then c else (n - 1) % period
  }

  lemma DividerStep(c: nat, period: nat, n: nat)
    requires period >= 1 && n >= 1
    ensures var k, before := CounterAfter(c, period, n - 1), Resets(c, period, n - 1);
      && CounterAfter(c, period, n) == (if k + 1 >= period then 0 else k + 1)
      && Resets(c, period, n) == if k + 1 >= period then before + 1 else before
  {
    if c < period {
      NextQuotient(c + n - 1, period);
    } else if n > 1 {
      NextQuotient(n - 2, period);
    } else {
      DivUnique(0, period, 0, 0);
    }
  }

  lemma NextQuotient(t: nat, n: nat)
    requires n > 0
    ensures (t + 1) % n == if t % n + 1 == n then 0 else t % n + 1
    ensures (t + 1) / n == if t % n + 1 == n then t / n + 1 else t / n
    ensures t % n < n
  {
    var q, r := t / n, t % n;
    assert t == q * n + r;
    if r + 1 == n {
      assert t + 1 == (q + 1) * n;
      DivUnique(t + 1, n, q + 1, 0);
    } else {
      DivUnique(t + 1, n, q, r + 1);
    }
  }

  lemma DividerStarts(c: nat, period: nat)
    requires period >= 1
    ensures CounterAfter(c, period, 0) == c && Resets(c, period, 0) == 0
  {
    if c < period {
      DivUnique(c, period, 0, c);
    }
  }

  /** A period of zero counts as one. */
  function AtLeastOne(n: nat): (r: nat)
    ensures r >= 1
  {
    if n == 0 then 1 else n
  }

  function TonePeriod(s: State, ch: nat): (n: nat)
    requires Good(s) && ch < 3
    ensures n >= 1
  {
    AtLeastOne(s.regs[2 * ch] + 256 * s.regs[2 * ch + 1])
  }

  function NoisePeriod(s: State): (n: nat)
    requires Good(s)
    ensures n >= 1
  {
    AtLeastOne(2 * s.regs[6])
  }

  function EnvelopePeriod(s: State): (n: nat)
    requires Good(s)
    ensures n >= 1
  {
    AtLeastOne(2 * s.regs[11] + 512 * s.regs[12])
  }

  // ----- one step, part by part -----

  /** The three channels in order: each turns itself over and nothing else. */
  lemma TonesTick(s: State)
    requires Good(s)
    ensures var r := ToneTick(ToneTick(ToneTick(s, 0), 1), 2);
      && r == s.(regs := r.regs, tons := r.tons) && |r.regs| == 19 && |r.tons| == 3 && r.regs[..16] == s.regs[..16]
      && forall ch | 0 <= ch < 3 :: ToneTicked(s, r, ch)
  {
  }

  predicate ToneTicked(s: State, r: State, ch: nat)
    requires Good(s) && |r.regs| == 19 && |r.tons| == 3 && ch < 3
  {
    var due := s.regs[16 + ch] + 1 >= TonePeriod(s, ch);
    r.regs[16 + ch] == (if due then 0 else s.regs[16 + ch] + 1) && r.tons[ch] == (s.tons[ch] != due)
  }

  lemma EStepAlike(s: State, r: State)
    requires s.envx <= 16 && r.envx == s.envx && r.ay13 == s.ay13
    ensures EStep(r).0 == r.(envx := EStep(s).0.envx, ay13 := EStep(s).0.ay13) && EStep(r).1 == EStep(s).1
  {
  }

  /** The envelope and the noise. */
  lemma SlowTicks(s: State)
    requires Good(s)
    ensures var e, n := s.envc + 1 >= EnvelopePeriod(s), s.noic + 1 >= NoisePeriod(s);
      Good(EnvelopeTick(s)) && NoiseTick(EnvelopeTick(s))
      == s.(envc := if e then 0 else s.envc + 1, envx := if e then EStep(s).0.envx else s.envx,
            ay13 := if e then EStep(s).0.ay13 else s.ay13, envv := if e then EStep(s).1 else s.envv,
            noic := if n then 0 else s.noic + 1, noir := if n then NextNoise(s.noir) else s.noir,
            noiv := if n then s.noir % 2 else s.noiv)
  {
    hide EStep, NextNoise;
    GoodTicks(s);
    EStepAlike(s, s.(envc := 0));
  }

  /** One step: the tones, the noise and the envelope each on their own. */
  lemma StepParts(s: State)
    requires Good(s)
    ensures var r, e, n := Stepped(s), s.envc + 1 >= EnvelopePeriod(s), s.noic + 1 >= NoisePeriod(s);
      && Good(r) && r.regs[..16] == s.regs[..16] && (forall ch | 0 <= ch < 3 :: ToneTicked(s, r, ch))
      && r.noic == (if n then 0 else s.noic + 1) && r.noir == (if n then NextNoise(s.noir) else s.noir)
      && r.noiv == (if n then s.noir % 2 else s.noiv)
      && r.envc == (if e then 0 else s.envc + 1) && r.envv == (if e then EStep(s).1 else s.envv)
      && r.envx == (if e then EStep(s).0.envx else s.envx)
      && r.ay13 == if e then EStep(s).0.ay13 else s.ay13
  {
    hide EStep, NextNoise, EnvelopeTick, NoiseTick, ToneTick, EnvelopePeriod, NoisePeriod;
    GoodTicks(s);
    SteppedIsGood(s);
    SlowTicks(s);
    var slow := NoiseTick(EnvelopeTick(s));
    TonesTick(slow);
    forall ch | 0 <= ch < 3 ensures ToneTicked(s, Stepped(s), ch) {
      assert ToneTicked(slow, Stepped(s), ch);
    }
  }

  lemma SamePeriods(s: State, r: State)
    requires Good(s) && Good(r) && r.regs[..16] == s.regs[..16]
    ensures forall ch | 0 <= ch < 3 :: TonePeriod(r, ch) == TonePeriod(s, ch)
    ensures NoisePeriod(r) == NoisePeriod(s) && EnvelopePeriod(r) == EnvelopePeriod(s)
  {
    forall i | 0 <= i < 16 ensures r.regs[i] == s.regs[i] {
      assert r.regs[..16][i] == s.regs[..16][i];
    }
  }

  lemma {:induction false} RegistersStay(s: State, n: nat)
    requires Good(s)
    ensures Steps(s, n).regs[..16] == s.regs[..16]
  {
    hide Stepped;
    if n > 0 {
      RegistersStay(s, n - 1);
      StepParts(Steps(s, n - 1));
    }
  }

  lemma PeriodsStay(s: State, n: nat)
    requires Good(s)
    ensures var r := Steps(s, n); forall ch | 0 <= ch < 3 :: TonePeriod(r, ch) == TonePeriod(s, ch)
    ensures var r := Steps(s, n); NoisePeriod(r) == NoisePeriod(s) && EnvelopePeriod(r) == EnvelopePeriod(s)
  {
    hide TonePeriod, NoisePeriod, EnvelopePeriod, Steps;
    RegistersStay(s, n);
    SamePeriods(s, Steps(s, n));
  }

  // ----- any number of steps -----

  /** A tone turns over every period of steps, a period of zero counting as one, whatever the other
      channels, the noise and the envelope do. */
  lemma {:induction false} ToneInSteps(s: State, ch: nat, n: nat)
    requires Good(s) && ch < 3
    ensures var r, period := Steps(s, n), AtLeastOne(s.regs[2 * ch] + 256 * s.regs[2 * ch + 1]);
      && r.regs[16 + ch] == CounterAfter(s.regs[16 + ch], period, n)
      && r.tons[ch] == (s.tons[ch] != (Resets(s.regs[16 + ch], period, n) % 2 == 1))
  {
    hide Stepped, CounterAfter, Resets;
    var c, period := s.regs[16 + ch], TonePeriod(s, ch);
    if n == 0 {
      DividerStarts(c, period);
    } else {
      ToneInSteps(s, ch, n - 1);
      PeriodsStay(s, n - 1);
      StepParts(Steps(s, n - 1));
      assert ToneTicked(Steps(s, n - 1), Steps(s, n), ch);
      DividerStep(c, period, n);
    }
  }

  function NoiseAfter(noir: nat, n: nat): (r: nat)
    requires 1 <= noir < NOISE_STATES
    ensures 1 <= r < NOISE_STATES
  {
    if n == 0 then noir else NoiseStaysUp(NoiseAfter(noir, n - 1)); NextNoise(NoiseAfter(noir, n - 1))
  }

  /** The noise register moves on once every period, and what is heard is the bit shifted out last. */
  lemma {:induction false} NoiseInSteps(s: State, n: nat)
    requires Good(s)
    ensures var r, k := Steps(s, n), Resets(s.noic, AtLeastOne(2 * s.regs[6]), n);
      && r.noic == CounterAfter(s.noic, AtLeastOne(2 * s.regs[6]), n) && r.noir == NoiseAfter(s.noir, k)
      && r.noiv == if k == 0 then s.noiv else NoiseAfter(s.noir, k - 1) % 2
  {
    hide Stepped, CounterAfter, Resets, NextNoise;
    var period := NoisePeriod(s);
    if n == 0 {
      DividerStarts(s.noic, period);
    } else {
      NoiseInSteps(s, n - 1);
      PeriodsStay(s, n - 1);
      StepParts(Steps(s, n - 1));
      DividerStep(s.noic, period, n);
    }
  }

  /** The envelope takes its next step once every period. */
  lemma {:induction false} EnvelopeInSteps(s: State, n: nat)
    requires Good(s)
    ensures var r, period := Steps(s, n), AtLeastOne(2 * s.regs[11] + 512 * s.regs[12]);
      var k := Resets(s.envc, period, n);
      && r.envc == CounterAfter(s.envc, period, n)
      && r.envx == Before(s, k).envx && r.ay13 == Before(s, k).ay13
      && r.envv == if k == 0 then s.envv else Level(s, k - 1)
  {
    hide Stepped, CounterAfter, Resets, EStep;
    var period := EnvelopePeriod(s);
    if n == 0 {
      DividerStarts(s.envc, period);
    } else {
      EnvelopeInSteps(s, n - 1);
      PeriodsStay(s, n - 1);
      StepParts(Steps(s, n - 1));
      DividerStep(s.envc, period, n);
      EStepAlike(Before(s, Resets(s.envc, period, n - 1)), Steps(s, n - 1));
    }
  }

  // ----- the bits of the noise -----

  predicate BitAt(x: nat, i: nat) { Bit(x, Weight(i)) }

  /** The bit that the n-th shift puts out. */
  predicate NoiseBit(noir: nat, n: nat)
    requires 1 <= noir < NOISE_STATES
  {
    NoiseAfter(noir, n) % 2 == 1
  }

  lemma {:induction false} WeightsMultiply(i: nat, j: nat)
    ensures Weight(i + j) == Weight(i) * Weight(j)
  {
    if i > 0 {
      WeightsMultiply(i - 1, j);
      assert Weight(i) * Weight(j) == 2 * (Weight(i - 1) * Weight(j));
    }
  }

  /** A change by a multiple of 2 w leaves the bit of weight w. */
  lemma HigherChange(x: nat, y: nat, w: nat, c: nat)
    requires w > 0 && y == x + 2 * w * c
    ensures Bit(y, w) == Bit(x, w)
  {
    var q, r := x / w, x % w;
    assert y == (q + 2 * c) * w + r;
    DivUnique(y, w, q + 2 * c, r);
  }

  /** Turning bit 13 over leaves the lower bits. */
  lemma FlipLeavesLower(h: nat, i: nat)
    requires i < 13
    ensures BitAt(Flip(h, 0x2000), i) == BitAt(h, i)
  {
    WeightsMultiply(i, 12 - i);
    assert Weight(12) == 0x1000;
    var w, c := Weight(i), Weight(12 - i);
    assert 2 * w * c == 0x2000;
    if Bit(h, 0x2000) {
      FlipDown(h, 0x2000);
      HigherChange(h - 0x2000, h, w, c);
    } else {
      HigherChange(h, h + 0x2000, w, c);
    }
  }

  lemma FlipAt13(h: nat)
    requires h < 0x1_0000
    ensures var f := Flip(h, 0x2000);
      f < 0x1_0000 && Bit(f, 0x2000) != Bit(h, 0x2000) && f / 0x4000 == h / 0x4000
  {
    var q := h / 0x2000;
    assert h == 0x2000 * q + h % 0x2000 && q < 8;
    if q % 2 == 1 {
      assert (h - 0x2000) / 0x2000 == q - 1;
    } else {
      assert (h + 0x2000) / 0x2000 == q + 1;
    }
  }

  lemma UpperBits(h: nat)
    ensures Weight(13) == 0x2000 && Weight(14) == 0x4000 && Weight(15) == 0x8000 && Weight(16) == 0x1_0000
    ensures h / 0x8000 == h / 0x4000 / 2 && (h < 0x1_0000 ==> h / 0x1_0000 == 0)
  {
    assert Weight(12) == 0x1000;
  }

  lemma HalfBits(x: nat, i: nat)
    ensures BitAt(x / 2, i) == BitAt(x, i + 1)
  {
    var w, q, r := Weight(i), x / 2 / Weight(i), x / 2 % Weight(i);
    assert x == q * (2 * w) + (2 * r + x % 2);
    DivUnique(x, 2 * w, q, 2 * r + x % 2);
  }

  lemma AddedTop(f: nat, i: nat)
    requires f < 0x1_0000 && i <= 16
    ensures BitAt(f + 0x1_0000, i) == if i == 16 then true else BitAt(f, i)
  {
    UpperBits(f);
    if i < 16 {
      WeightsMultiply(i, 15 - i);
      assert 2 * Weight(i) * Weight(15 - i) == 0x1_0000;
      HigherChange(f, f + 0x1_0000, Weight(i), Weight(15 - i));
    } else {
      assert (f + 0x1_0000) / 0x1_0000 == 1;
    }
  }

  /** One shift by bits: bit 0 goes into bit 16, and into bit 13 on top of what comes down. */
  lemma NextNoiseBits(x: nat, i: nat)
    requires 1 <= x < NOISE_STATES && i <= 16
    ensures BitAt(NextNoise(x), i)
        <==> (if i == 16 then x % 2 == 1 else if i == 13 then BitAt(x, 14) != (x % 2 == 1) else BitAt(x, i + 1))
  {
    hide NextNoise, Flip, Bit, Weight;
    var h := x / 2;
    NoiseHalves(x);
    UpperBits(h);
    HalfBits(x, i);
    if x % 2 == 1 {
      AddedTop(Flip(h, 0x2000), i);
      FlippedBits(h, i);
    } else if i == 16 {
      NoTopBit(h);
    }
  }

  lemma NoTopBit(h: nat)
    requires h < 0x1_0000
    ensures !BitAt(h, 16)
  {
    UpperBits(h);
  }

  lemma FlippedBits(h: nat, i: nat)
    requires h < 0x1_0000 && i < 17
    ensures i < 16 ==> BitAt(Flip(h, 0x2000), i) == if i == 13 then !BitAt(h, 13) else BitAt(h, i)
  {
    hide Flip;
    UpperBits(h);
    FlipAt13(h);
    UpperBits(Flip(h, 0x2000));
    if i < 13 {
      FlipLeavesLower(h, i);
    }
  }

  /** A bit comes down one place with every shift, past bit 13 only from there. */
  lemma {:induction false} BitsMoveDown(x: nat, n: nat, i: nat, j: nat)
    requires 1 <= x < NOISE_STATES && j <= i <= 16 && (i <= 13 || i - j >= 14)
    ensures BitAt(NoiseAfter(x, n + j), i - j) == BitAt(NoiseAfter(x, n), i)
  {
    hide BitAt, NextNoise;
    if j > 0 {
      BitsMoveDown(x, n, i, j - 1);
      NextNoiseBits(NoiseAfter(x, n + j - 1), i - j);
    }
  }

  lemma LowestBit(x: nat)
    ensures BitAt(x, 0) == (x % 2 == 1)
  {
  }

  /** The noise in closed form: each bit is the exclusive or of the ones 17 and 14 shifts before. */
  lemma NoiseRecurrence(noir: nat, n: nat)
    requires 1 <= noir < NOISE_STATES
    ensures NoiseBit(noir, n + 17) == (NoiseBit(noir, n) != NoiseBit(noir, n + 3))
  {
    hide BitAt, NextNoise, NoiseAfter;
    NoiseShift(noir, n);
    NextNoiseBits(NoiseAfter(noir, n), 16);
    BitsMoveDown(noir, n + 1, 16, 2);
    NoiseShift(noir, n + 3);
    NextNoiseBits(NoiseAfter(noir, n + 3), 13);
    BitsMoveDown(noir, n + 4, 13, 13);
    LowestBit(NoiseAfter(noir, n + 17));
  }

  lemma NoiseShift(noir: nat, n: nat)
    requires 1 <= noir < NOISE_STATES
    ensures NoiseAfter(noir, n + 1) == NextNoise(NoiseAfter(noir, n))
  {
  }

  // ----- the mixer and the levels -----

  /** Register 7 by its bits: a tone or the noise is let through to a channel while its bit is down, and a
      channel is at its level while none of those let through to it is low. */
  lemma MixerByBits(s: State, tA: nat, tB: nat, tC: nat, nA: nat, nB: nat, nC: nat, ports: nat)
    requires Good(s) && tA < 2 && tB < 2 && tC < 2 && nA < 2 && nB < 2 && nC < 2
    requires s.regs[7] == tA + 2 * tB + 4 * tC + 8 * nA + 16 * nB + 32 * nC + 64 * ports
    ensures Mixed(s, 0) <==> !(tA == 0 && !s.tons[0]) && !(nA == 0 && s.noiv == 0)
    ensures Mixed(s, 1) <==> !(tB == 0 && !s.tons[1]) && !(nB == 0 && s.noiv == 0)
    ensures Mixed(s, 2) <==> !(tC == 0 && !s.tons[2]) && !(nC == 0 && s.noiv == 0)
  {
    assert Weight(1) == 2 && Weight(2) == 4 && Weight(3) == 8 && Weight(4) == 16 && Weight(5) == 32;
    SixBits(tA, tB, tC, nA, nB, nC, ports);
  }

  lemma SixBits(b0: nat, b1: nat, b2: nat, b3: nat, b4: nat, b5: nat, rest: nat)
    requires b0 < 2 && b1 < 2 && b2 < 2 && b3 < 2 && b4 < 2 && b5 < 2
    ensures var x := b0 + 2 * b1 + 4 * b2 + 8 * b3 + 16 * b4 + 32 * b5 + 64 * rest;
      && x / 1 % 2 == b0 && x / 2 % 2 == b1 && x / 4 % 2 == b2
      && x / 8 % 2 == b3 && x / 16 % 2 == b4 && x / 32 % 2 == b5
  {
    var x := b0 + 2 * b1 + 4 * b2 + 8 * b3 + 16 * b4 + 32 * b5 + 64 * rest;
    NextBit(x, 1, b0, b1 + 2 * b2 + 4 * b3 + 8 * b4 + 16 * b5 + 32 * rest);
    NextBit(x, 2, b1, b2 + 2 * b3 + 4 * b4 + 8 * b5 + 16 * rest);
    NextBit(x, 4, b2, b3 + 2 * b4 + 4 * b5 + 8 * rest);
    NextBit(x, 8, b3, b4 + 2 * b5 + 4 * rest);
    NextBit(x, 16, b4, b5 + 2 * rest);
    NextBit(x, 32, b5, rest);
  }

  lemma NextBit(x: nat, w: nat, b: nat, above: nat)
    requires w > 0 && b < 2 && 0 <= x - w * (b + 2 * above) < w
    ensures x / w % 2 == b
  {
    DivUnique(x, w, b + 2 * above, x - w * (b + 2 * above));
    ModUnique(b + 2 * above, 2, above, b);
  }

  /** With one output enabled that channel alone is heard: while it is let through, at the level of the four
      low bits of its volume register, or of the envelope with bit 4 up. */
  lemma OneChannelIsHeard(s: State, ch: nat, rest: nat, m: nat, volume: nat)
    requires Good(s) && ch < 3 && m < 2 && volume < 16 && s.regs[8 + ch] == 32 * rest + 16 * m + volume
    ensures var a := if m == 1 then s.envv else volume;
      && Output(s, ch == 0, ch == 1, ch == 2) == (if Mixed(s, ch) then AMP[a] else 0.0)
      && OutputInt(s, ch == 0, ch == 1, ch == 2) == if Mixed(s, ch) then AMP_INT[a] else 0
  {
    hide Output, OutputInt, Mixed, Bit, Loudness;
    LoudnessByBits(s, ch, rest, m, volume);
    OneEnabled(s, ch);
  }

  lemma LoudnessByBits(s: State, ch: nat, rest: nat, m: nat, volume: nat)
    requires Good(s) && ch < 3 && m < 2 && volume < 16 && s.regs[8 + ch] == 32 * rest + 16 * m + volume
    ensures Loudness(s, ch) == if m == 1 then s.envv else volume
  {
    DivUnique(32 * rest + 16 * m + volume, 16, 2 * rest + m, volume);
    ModUnique(2 * rest + m, 2, rest, m);
  }

  lemma OneEnabled(s: State, ch: nat)
    requires Good(s) && ch < 3
    ensures Output(s, ch == 0, ch == 1, ch == 2) == Channel(s, ch)
    ensures OutputInt(s, ch == 0, ch == 1, ch == 2) == ChannelInt(s, ch)
  {
    hide Channel, ChannelInt;
    if ch == 0 {
      Weighted(Channel(s, 0), Channel(s, 1), Channel(s, 2));
    } else if ch == 1 {
      Weighted(Channel(s, 1), Channel(s, 0), Channel(s, 2));
    } else {
      Weighted(Channel(s, 2), Channel(s, 0), Channel(s, 1));
    }
  }

  lemma Weighted(x: real, y: real, z: real)
    ensures x * (Enabled(true) as real) == x
    ensures y * (Enabled(false) as real) == 0.0 && z * (Enabled(false) as real) == 0.0
  {
  }

  /** What a shape written to register 13 plays: without CONT (8) one ramp, up with ATT (4) and down
      without, and silence ever after; with CONT the ramp of EnvelopeShape for the value itself. */
  lemma WrittenShape(s: State, val: nat, b: nat, k: nat)
    requires Good(s) && s.ayreg == 13 && k < 16
    ensures var r := Written(s, 0, val);
      && r.envx == 0
      && Level(r, 16 * b + k)
         == if val / 8 % 2 == 1 then Shape(val, b, k)
            else if b > 0 then 0 else if val / 4 % 2 == 1 then k else 15 - k
  {
    hide Shape, Level, Before;
    EnvelopeShape(Written(s, 0, val), b, k);
    ContByBits(val);
    ShapesWithoutCont(b, k);
  }

  lemma ContByBits(val: nat)
    ensures val / 4 % 4 == 2 * (val / 8 % 2) + val / 4 % 2
  {
    var q, r := val / 8, val % 8;
    DivUnique(val, 4, 2 * q + r / 4, r % 4);
    ModUnique(2 * q + r / 4, 2, q, r / 4);
    ModUnique(2 * q + r / 4, 4, q / 2, 2 * (q % 2) + r / 4);
  }

  lemma ShapesWithoutCont(b: nat, k: nat)
    requires k < 16
    ensures Shape(9, b, k) == if b > 0 then 0 else 15 - k
    ensures Shape(15, b, k) == if b > 0 then 0 else k
  {
  }
}
