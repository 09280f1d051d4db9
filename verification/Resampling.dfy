/** What the resampler computes (src/resampler.cpp): the input stuffed with zeros to five times its
    rate, convolved with the interpolation filter, every 156th value kept. Over the reals. */
module Resampling {
  const UP: nat := 5
  const DOWN: nat := 156
  const ALLTAPS: nat := 483
  const NTAPS: nat := 97 // (ALLTAPS + UP) / UP

  type Filter = c: seq<real> | |c| == 483 witness seq(483, _ => 0.0)

  function Padded(coefs: Filter): (p: seq<real>)
    ensures |p| == ALLTAPS + UP
  {
    coefs + [0.0, 0.0, 0.0, 0.0, 0.0]
  }

  /** The coefficients of one phase filter. */
  function PhaseTaps(coefs: Filter, phase: nat): (n: seq<real>)
    requires phase < UP
    ensures |n| == NTAPS && forall k :: 0 <= k < NTAPS ==> n[k] == Padded(coefs)[phase + UP * k]
  {
    seq(NTAPS, k requires 0 <= k < NTAPS => Padded(coefs)[phase + UP * k])
  }

  /** The k-th newest sample. */
  function Newest(xs: seq<real>, k: nat): real {
    if k < |xs| then xs[|xs| - 1 - k] else 0.0
  }

  function Weighted(x: real, c: real): real { x * c }

  /** n terms of a phase filter. */
  function Dot(xs: seq<real>, taps: seq<real>, n: nat): real
    requires n <= |taps|
  {
    if n == 0 then 0.0 else Dot(xs, taps, n - 1) + Weighted(Newest(xs, n - 1), taps[n - 1])
  }

  function PhaseOut(coefs: Filter, xs: seq<real>, phase: nat): real
    requires phase < UP
  {
    Dot(xs, PhaseTaps(coefs, phase), NTAPS)
  }

  /** The input at five times its rate, zeros between the samples. */
  function Upsampled(xs: seq<real>, t: int): real {
    if t >= 0 && t % UP == 0 && t / UP < |xs| then xs[t / UP] else 0.0
  }

  /** n terms of the convolution at place t. */
  function Terms(coefs: Filter, xs: seq<real>, t: int, n: nat): real
    requires n <= ALLTAPS + UP
  {
    if n == 0 then 0.0 else Terms(coefs, xs, t, n - 1) + Weighted(Upsampled(xs, t - (n - 1)), Padded(coefs)[n - 1])
  }

  /** The interpolated signal at place t: the whole convolution. */
  function Interpolated(coefs: Filter, xs: seq<real>, t: int): real {
    Terms(coefs, xs, t, ALLTAPS + UP)
  }

  lemma UpsampledAt(xs: seq<real>, phase: nat, k: nat, q: nat)
    requires xs != [] && phase < UP && q < UP
    ensures Upsampled(xs, UP * (|xs| - 1) + phase - (UP * k + q)) == if q == phase then Newest(xs, k) else 0.0
  {
    var t := UP * (|xs| - 1) + phase - (UP * k + q);
    var d := |xs| - 1 - k;
    assert t == UP * d + (phase - q);
  }

  lemma OneTerm(coefs: Filter, xs: seq<real>, phase: nat, k: nat, q: nat)
    requires xs != [] && phase < UP && q < UP && UP * k + q < ALLTAPS + UP
    ensures var t := UP * (|xs| - 1) + phase;
      Terms(coefs, xs, t, UP * k + q + 1)
      == Terms(coefs, xs, t, UP * k + q) + if q == phase then Weighted(Newest(xs, k), Padded(coefs)[UP * k + q])
        else 0.0
  {
    UpsampledAt(xs, phase, k, q);
  }

  lemma FiveTerms(coefs: Filter, xs: seq<real>, phase: nat, k: nat)
    requires xs != [] && phase < UP && k < NTAPS
    ensures var t := UP * (|xs| - 1) + phase;
      Terms(coefs, xs, t, UP * (k + 1)) == Terms(coefs, xs, t, UP * k)
        + Weighted(Newest(xs, k), Padded(coefs)[UP * k + phase])
  {
    hide Terms, Weighted, Padded, Newest;
    OneTerm(coefs, xs, phase, k, 0);
    OneTerm(coefs, xs, phase, k, 1);
    OneTerm(coefs, xs, phase, k, 2);
    OneTerm(coefs, xs, phase, k, 3);
    OneTerm(coefs, xs, phase, k, 4);
  }

  lemma NoTerms(coefs: Filter, xs: seq<real>, t: int)
    ensures Terms(coefs, xs, t, 0) == 0.0
  {
  }

  lemma {:induction false} PhaseTerms(coefs: Filter, xs: seq<real>, phase: nat, n: nat)
    requires xs != [] && phase < UP && n <= NTAPS
    ensures Dot(xs, PhaseTaps(coefs, phase), n) == Terms(coefs, xs, UP * (|xs| - 1) + phase, UP * n)
  {
    hide Terms, Padded, Newest, Weighted;
    NoTerms(coefs, xs, UP * (|xs| - 1) + phase);
    if n > 0 {
      PhaseTerms(coefs, xs, phase, n - 1);
      FiveTerms(coefs, xs, phase, n - 1);
      assert PhaseTaps(coefs, phase)[n - 1] == Padded(coefs)[phase + UP * (n - 1)];
    }
  }

  /** A phase filter on the samples so far is the interpolated signal at its place. */
  lemma PolyphaseIsConvolution(coefs: Filter, xs: seq<real>, phase: nat)
    requires xs != [] && phase < UP
    ensures PhaseOut(coefs, xs, phase) == Interpolated(coefs, xs, UP * (|xs| - 1) + phase)
  {
    var t := UP * (|xs| - 1) + phase;
    PhaseTerms(coefs, xs, phase, NTAPS);
    assert Padded(coefs)[485] == 0.0 && Padded(coefs)[486] == 0.0 && Padded(coefs)[487] == 0.0;
    assert Terms(coefs, xs, t, 486) == Terms(coefs, xs, t, 485);
    assert Terms(coefs, xs, t, 487) == Terms(coefs, xs, t, 486);
    assert Terms(coefs, xs, t, 488) == Terms(coefs, xs, t, 487);
  }

  lemma UpsampledIsCausal(xs: seq<real>, ys: seq<real>, t: int)
    requires t < UP * |xs|
    ensures Upsampled(xs + ys, t) == Upsampled(xs, t)
  {
  }

  /** Samples still to come do not change the interpolated signal. */
  lemma {:induction false} TermsAreCausal(coefs: Filter, xs: seq<real>, ys: seq<real>, t: nat, n: nat)
    requires t < UP * |xs| && n <= ALLTAPS + UP
    ensures Terms(coefs, xs + ys, t, n) == Terms(coefs, xs, t, n)
  {
    hide Upsampled, Padded, Weighted;
    if n > 0 {
      TermsAreCausal(coefs, xs, ys, t, n - 1);
      UpsampledIsCausal(xs, ys, t - (n - 1));
    }
  }

  lemma InterpolatedIsCausal(coefs: Filter, xs: seq<real>, ys: seq<real>, t: nat)
    requires t < UP * |xs|
    ensures Interpolated(coefs, xs + ys, t) == Interpolated(coefs, xs, t)
  {
    TermsAreCausal(coefs, xs, ys, t, ALLTAPS + UP);
  }

  // ----- the commutator -----

  /** The turn of the commutator over the phases from i on, at every tick of which the decimator
      counts: the counter after it, and the phase picked, UP when none was. */
  function Commutator(ctr: nat, i: nat): (nat, nat)
    requires i <= UP
    decreases UP - i
  {
    if i == UP then (ctr, UP)
    else
      var rest := Commutator(if ctr + 1 == DOWN then 0 else ctr + 1, i + 1);
      (rest.0, if rest.1 == UP && ctr + 1 == DOWN then i else rest.1)
  }

  /** The same in one step. */
  function Shortcut(ctr: nat): (nat, nat)
    requires ctr < DOWN
  {
    if ctr + UP >= DOWN then (ctr + UP - DOWN, UP - (ctr + UP - DOWN) - 1) else (ctr + UP, UP)
  }

  lemma {:induction false} CommutatorRest(ctr: nat, i: nat)
    requires ctr < DOWN && i <= UP
    ensures Commutator(ctr, i) == if ctr + (UP - i) >= DOWN then (ctr + (UP - i) - DOWN, i + DOWN - ctr - 1)
      else (ctr + (UP - i), UP)
    decreases UP - i
  {
    if i < UP {
      CommutatorRest(if ctr + 1 == DOWN then 0 else ctr + 1, i + 1);
    }
  }

  /** The shortcut picks the phase the commutator stops at, and leaves the same counter. */
  lemma ShortcutIsCommutator(ctr: nat)
    requires ctr < DOWN
    ensures Shortcut(ctr) == Commutator(ctr, 0)
  {
    CommutatorRest(ctr, 0);
  }

  // ----- a whole stream -----

  /** The counter after n samples. */
  function CtrAfter(n: nat): (ctr: nat)
    ensures ctr < DOWN
  {
    if n == 0 then 0 else Shortcut(CtrAfter(n - 1)).0
  }

  /** floor(x * 1e7) * 1e-7 */
  function Rounded(x: real): real {
    (x * 10000000.0).Floor as real / 10000000.0
  }

  /** Rounding goes down, by less than 1e-7, to a value that it then keeps. */
  lemma RoundedIsClose(x: real)
    ensures Rounded(x) <= x < Rounded(x) + 0.0000001 && Rounded(Rounded(x)) == Rounded(x)
  {
    var n := (x * 10000000.0).Floor;
    assert Rounded(x) * 10000000.0 == n as real;
  }

  /** One output of a phase filter. */
  function Output(coefs: Filter, xs: seq<real>, phase: nat): real
    requires phase < UP
  {
    Rounded(UP as real * PhaseOut(coefs, xs, phase))
  }

  /** The outputs after n samples of a stream. */
  function Outputs(coefs: Filter, xs: seq<real>): seq<real> {
    if xs == [] then []
    else
      var before := Outputs(coefs, xs[..|xs| - 1]);
      var phase := Shortcut(CtrAfter(|xs| - 1)).1;
      if phase == UP then before else before + [Output(coefs, xs, phase)]
  }

  /** The stream is the input, zero-stuffed by five, convolved with the padded filter, scaled by five,
      taken at every 156th place and rounded; its length is the floor of 5n / 156. */
  lemma {:induction false} OutputsAreDecimated(coefs: Filter, xs: seq<real>)
    ensures var ys := Outputs(coefs, xs);
      && DOWN * |ys| + CtrAfter(|xs|) == UP * |xs|
      && forall m :: 0 <= m < |ys| ==> ys[m] == Rounded(UP as real * Interpolated(coefs, xs, DOWN * (m + 1) - 1))
  {
    hide Rounded, Interpolated, PhaseOut;
    if xs != [] {
      var front, last := xs[..|xs| - 1], xs[|xs| - 1];
      var before := Outputs(coefs, front);
      OutputsAreDecimated(coefs, front);
      assert front + [last] == xs;
      forall m | 0 <= m < |before|
        ensures before[m] == Rounded(UP as real * Interpolated(coefs, xs, DOWN * (m + 1) - 1))
      {
        InterpolatedIsCausal(coefs, front, [last], DOWN * (m + 1) - 1);
      }
      var phase := Shortcut(CtrAfter(|front|)).1;
      if phase != UP {
        PolyphaseIsConvolution(coefs, xs, phase);
        assert UP * (|xs| - 1) + phase == DOWN * (|before| + 1) - 1;
      }
    }
  }

  lemma OutputCount(coefs: Filter, xs: seq<real>)
    ensures |Outputs(coefs, xs)| == UP * |xs| / DOWN
  {
    OutputsAreDecimated(coefs, xs);
  }
}
