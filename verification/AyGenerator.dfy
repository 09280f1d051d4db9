/** The sound generator in place (psp/src/ay.h, class AY): step over the reals and its integer fast
    path, proved to go through the same states. */
module AyGenerator {
  import opened Ay

  /** Counting another channel on does not change what a channel gives. */
  lemma OtherChannel(s: State, i: nat, j: nat)
    requires Good(s) && i < 3 && j < 3 && i != j
    ensures Good(ToneTick(s, j)) && Channel(ToneTick(s, j), i) == Channel(s, i)
      && ChannelInt(ToneTick(s, j), i) == ChannelInt(s, i)
  {
  }

  class AY {
    const ayr: array<nat>
    var envc: nat
    var envv: nat
    var envx: nat
    var ay13: nat
    var tons: seq<bool>
    var noic: nat
    var noiv: nat
    var noir: nat
    var ayreg: nat

    ghost function View(): State
      reads this, ayr
    {
      State(ayr[..], envc, envv, envx, ay13, tons, noic, noiv, noir, ayreg)
    }

    ghost predicate Valid()
      reads this, ayr
    {
      Good(View())
    }

    constructor ()
      ensures Valid() && fresh(ayr)
    {
      ayr := new nat[19](_ => 0);
      envc := 0;
      envv := 0;
      envx := 0;
      ay13 := 0;
      tons := [false, false, false];
      noic := 0;
      noiv := 0;
      noir := 1;
      ayreg := 0;
    }

    method EnvelopeStep() returns (level: nat)
      requires envx <= 16
      modifies this`envx, this`ay13
      ensures (View(), level) == EStep(old(View()))
    {
      if envx == 16 {
        if Bit(ay13, 1) {
          return if Bit(ay13, 4) != Bit(ay13, 2) then 15 else 0;
        }
        envx := 0;
        if Bit(ay13, 2) {
          ay13 := Flip(ay13, 4);
        }
      }
      level := if Bit(ay13, 4) then envx else 15 - envx;
      envx := envx + 1;
    }

    /** The envelope and noise counters, the same in both steps. */
    method CountEnvelopeAndNoise()
      requires Valid()
      modifies this
      ensures Valid() && View() == NoiseTick(EnvelopeTick(old(View())))
    {
      GoodTicks(View());
      envc := envc + 1;
      if envc >= 2 * ayr[11] + 512 * ayr[12] {
        envc := 0;
        envv := EnvelopeStep();
      }
      assert View() == EnvelopeTick(old(View()));
      noic := noic + 1;
      if noic >= 2 * ayr[6] {
        noic := 0;
        noiv := noir % 2;
        noir := NextNoise(noir);
      }
    }

    method CountTone(ch: nat)
      requires Valid() && ch < 3
      modifies this`tons, ayr
      ensures Valid() && View() == ToneTick(old(View()), ch)
    {
      ayr[ch + 16] := ayr[ch + 16] + 1;
      if ayr[ch + 16] >= ayr[2 * ch] + 256 * ayr[2 * ch + 1] {
        ayr[ch + 16] := 0;
        tons := tons[ch := !tons[ch]];
      }
      assert ayr[..] == ToneTick(old(View()), ch).regs;
    }

    /** cstep */
    method CStep(ch: nat) returns (result: real)
      requires Valid() && ch < 3
      modifies this`tons, ayr
      ensures Valid() && View() == ToneTick(old(View()), ch) && result == Channel(View(), ch)
    {
      CountTone(ch);
      var mix := (Bit(ayr[7], Weight(ch)) || tons[ch]) && (Bit(ayr[7], Weight(ch + 3)) || noiv == 1);
      var loudness := if Bit(ayr[8 + ch], 0x10) then envv else ayr[8 + ch] % 16;
      result := if mix then AMP[loudness] else 0.0;
    }

    /** step, the channels in order. */
    method Step(e0: bool, e1: bool, e2: bool) returns (result: real)
      requires Valid()
      modifies this, ayr
      ensures Valid() && View() == Stepped(old(View())) && result == Output(View(), e0, e1, e2)
    {
      hide Channel, ChannelInt, ToneTick, NoiseTick, EnvelopeTick, Good;
      CountEnvelopeAndNoise();
      var a := CStep(0);
      OtherChannel(View(), 0, 1);
      var b := CStep(1);
      OtherChannel(View(), 0, 2);
      OtherChannel(View(), 1, 2);
      var c := CStep(2);
      result := a * (Enabled(e0) as real) + b * (Enabled(e1) as real) + c * (Enabled(e2) as real);
    }

    /** step_int */
    method StepInt(e0: bool, e1: bool, e2: bool) returns (out: int)
      requires Valid()
      modifies this, ayr
      ensures Valid() && View() == Stepped(old(View())) && out == OutputInt(View(), e0, e1, e2)
    {
      hide Channel, ChannelInt, ToneTick, NoiseTick, EnvelopeTick, Good;
      CountEnvelopeAndNoise();
      var a := AddChannel(0, 0, Enabled(e0));
      OtherChannel(View(), 0, 1);
      var b := AddChannel(1, a, Enabled(e1));
      OtherChannel(View(), 0, 2);
      OtherChannel(View(), 1, 2);
      out := AddChannel(2, b, Enabled(e2));
    }

    /** One turn of the loop of step_int. */
    method AddChannel(ch: nat, sum: int, ena: int) returns (out: int)
      requires Valid() && ch < 3
      modifies this`tons, ayr
      ensures Valid() && View() == ToneTick(old(View()), ch) && out == sum + ChannelInt(View(), ch) * ena
    {
      CountTone(ch);
      out := sum;
      var mix := (Bit(ayr[7], Weight(ch)) || tons[ch]) && (Bit(ayr[7], Weight(ch + 3)) || noiv == 1);
      if mix {
        var loudness := if Bit(ayr[8 + ch], 0x10) then envv else ayr[8 + ch] % 16;
        out := out + AMP_INT[loudness] * ena;
      }
    }

    method Write(addr: nat, val: nat)
      requires Valid()
      modifies this`ayreg, this`envx, this`ay13, ayr
      ensures Valid() && View() == Written(old(View()), addr, val)
    {
      if addr == 1 {
        ayreg := val % 16;
      } else {
        ayr[ayreg] := val % RMASK[ayreg];
        if ayreg == 13 {
          envx := 0;
          ay13 := if val / 4 % 4 == 0 then 9 else if val / 4 % 4 == 1 then 15 else val;
        }
        assert ayr[..] == Written(old(View()), addr, val).regs;
      }
    }
  }
}
