/** The resampler in place (src/resampler.cpp): the mirrored ring of the phase filters, and the
    merged commutator and decimator. */
module ResamplerInPlace {
  import opened Resampling

  class Fir {
    const coef: array<real>
    const taps: array<real>
    var index: nat
    ghost var history: seq<real> // every sample fed

    /** The ring holds every tap twice, and from index on the newest samples in order. */
    ghost predicate Valid()
      reads this, coef, taps
    {
      && coef.Length == NTAPS && taps.Length == 2 * NTAPS && coef != taps && index < NTAPS
      && (forall k :: 0 <= k < NTAPS ==> taps[k] == taps[k + NTAPS])
      && (forall k :: 0 <= k < NTAPS ==> taps[index + k] == Newest(history, k))
    }

    constructor (coefs: seq<real>)
      requires |coefs| == NTAPS
      ensures Valid() && fresh(coef) && fresh(taps) && coef[..] == coefs && history == []
    {
      coef := new real[NTAPS](k requires 0 <= k < NTAPS => coefs[k]);
      taps := new real[2 * NTAPS](_ => 0.0);
      index := 0;
      history := [];
    }

    method In(x: real)
      requires Valid()
      modifies this`index, this`history, taps
      ensures Valid() && history == old(history) + [x]
    {
      var i := (index - 1) % 0x1_0000_0000; // unsigned
      if i >= NTAPS {
        i := NTAPS - 1;
      }
      index := i;
      taps[index] := x;
      taps[index + NTAPS] := x;
      history := history + [x];
      forall k | 0 <= k < NTAPS
        ensures taps[index + k] == Newest(history, k)
      {
        if k > 0 {
          assert Newest(history, k) == Newest(old(history), k - 1) == old(taps[index + (k - 1)]);
        }
      }
    }

    method Out() returns (result: real)
      requires Valid()
      ensures result == Dot(history, coef[..], NTAPS)
    {
      result := 0.0;
      for k := 0 to NTAPS
        invariant result == Dot(history, coef[..], k)
      {
        assert coef[..][k] == coef[k];
        assert taps[index + k] == Newest(history, k);
        result := result + Weighted(taps[index + k], coef[k]);
      }
    }
  }

  /** The coefficients of one phase, picked out of the padded filter. */
  method PickPhase(padded: seq<real>, phase: nat, ghost coefs: Filter) returns (n: seq<real>)
    requires padded == Padded(coefs) && phase < UP
    ensures n == PhaseTaps(coefs, phase)
  {
    n := [];
    var i := phase;
    for k := 0 to NTAPS
      invariant i == phase + UP * k && |n| == k
      invariant forall j :: 0 <= j < k ==> n[j] == padded[phase + UP * j]
    {
      n := n + [padded[i]];
      i := i + UP;
    }
  }

  /** Filters for the phases from 0 on, all distinct. */
  ghost predicate IsBank(bank: seq<Fir>, coefs: Filter)
    reads bank, set f | f in bank :: f.coef, set f | f in bank :: f.taps
  {
    && |bank| <= UP
    && (forall i :: 0 <= i < |bank| ==> bank[i].Valid() && bank[i].coef[..] == PhaseTaps(coefs, i))
    && (forall i, j :: 0 <= i < |bank| && 0 <= j < |bank| ==>
      && (i != j ==> bank[i] != bank[j] && bank[i].taps != bank[j].taps)
      && bank[i].taps != bank[j].coef)
  }

  lemma BankAt(bank: seq<Fir>, coefs: Filter, i: nat)
    requires IsBank(bank, coefs) && i < |bank|
    ensures bank[i].Valid() && bank[i].coef[..] == PhaseTaps(coefs, i)
  {
  }

  lemma EmptyBank(coefs: Filter)
    ensures IsBank([], coefs)
  {
  }

  lemma BankGrows(bank: seq<Fir>, fir: Fir, coefs: Filter)
    requires |bank| < UP && IsBank(bank, coefs)
    requires fir.Valid() && fir.coef[..] == PhaseTaps(coefs, |bank|) && fir.taps != fir.coef
    requires forall f :: f in bank ==> f != fir && f.taps != fir.taps && f.taps != fir.coef && f.coef != fir.taps
    ensures IsBank(bank + [fir], coefs)
  {
    hide PhaseTaps;
    forall f | f in bank + [fir] ensures f in bank || f == fir {
    }
  }

  /** The filters of all phases, still unfed. */
  method CreateFilter(filter: Filter) returns (bank: seq<Fir>)
    ensures |bank| == UP && IsBank(bank, filter)
    ensures forall f :: f in bank ==> fresh(f) && fresh(f.taps) && fresh(f.coef) && f.history == []
  {
    hide IsBank, PhaseTaps, Padded;
    bank := [];
    EmptyBank(filter);
    var padded := Padded(filter);
    for phase := 0 to UP
      invariant |bank| == phase && IsBank(bank, filter)
      invariant forall f :: f in bank ==> fresh(f) && fresh(f.taps) && fresh(f.coef) && f.history == []
    {
      var n := PickPhase(padded, phase, filter);
      var fir := new Fir(n);
      BankGrows(bank, fir, filter);
      bank := bank + [fir];
    }
  }

  class Resampler {
    var filterbank: seq<Fir>
    var dcmCtr: nat
    var out: real
    var egg: bool
    var thru: bool
    ghost var coefs: Filter
    ghost var fed: seq<real> // every sample the filters were fed

    ghost predicate Valid()
      reads this, filterbank, set f | f in filterbank :: f.coef, set f | f in filterbank :: f.taps
    {
      && |filterbank| == UP && IsBank(filterbank, coefs) && dcmCtr < DOWN
      && forall i :: 0 <= i < UP ==> filterbank[i].history == fed
    }

    constructor (filter: Filter)
      ensures Valid() && fresh(filterbank) && (forall f :: f in filterbank ==> fresh(f.taps))
      ensures coefs == filter && fed == [] && dcmCtr == 0 && !thru && !egg
    {
      var bank := CreateFilter(filter);
      filterbank := bank;
      dcmCtr := 0;
      thru := false;
      egg := false;
      out := 0.0;
      coefs := filter;
      fed := [];
    }

    /** Every phase filter takes the sample. */
    method Feed(s: real)
      requires Valid()
      modifies this`fed, filterbank, set f | f in filterbank :: f.taps
      ensures Valid() && fed == old(fed) + [s]
    {
      for i := 0 to UP
        invariant IsBank(filterbank, coefs) && fed == old(fed)
        invariant forall j :: 0 <= j < UP ==> filterbank[j].history == if j < i then fed + [s] else fed
      {
        filterbank[i].In(s);
      }
      fed := fed + [s];
    }

    method Sample(s: real) returns (r: real)
      requires Valid()
      modifies this`dcmCtr, this`out, this`egg, this`fed, filterbank, set f | f in filterbank :: f.taps
      ensures Valid() && r == out && dcmCtr == Shortcut(old(dcmCtr)).0
      ensures fed == if thru then old(fed) else old(fed) + [s]
      ensures egg == (old(egg) || Shortcut(old(dcmCtr)).1 != UP)
      ensures var phase := Shortcut(old(dcmCtr)).1;
        out == if thru then s else if phase == UP then old(out) else Output(coefs, fed, phase)
    {
      hide IsBank, Newest, Padded, PhaseTaps, Dot;
      if !thru {
        Feed(s);
        dcmCtr := dcmCtr + UP;
        if dcmCtr >= DOWN {
          dcmCtr := dcmCtr - DOWN;
          var phase := UP - dcmCtr - 1;
          BankAt(filterbank, coefs, phase);
          var value := filterbank[phase].Out();
          out := UP as real * value;
          out := (out * 10000000.0).Floor as real / 10000000.0;
          egg := true;
        }
      } else {
        dcmCtr := dcmCtr + UP;
        if dcmCtr >= DOWN {
          dcmCtr := dcmCtr - DOWN;
          egg := true;
        }
        out := s;
      }
      r := out;
    }

    /** A whole stream through a fresh resampler, each output taken when egg announces it. */
    method Stream(xs: seq<real>) returns (ys: seq<real>)
      requires Valid() && fed == [] && dcmCtr == 0 && !thru && !egg
      modifies this, filterbank, set f | f in filterbank :: f.taps
      ensures ys == Outputs(coefs, xs)
    {
      hide IsBank, Output, Shortcut;
      ys := [];
      for i := 0 to |xs|
        invariant Valid() && !thru && !egg && coefs == old(coefs) && filterbank == old(filterbank)
        invariant fed == xs[..i] && dcmCtr == CtrAfter(i) && ys == Outputs(coefs, xs[..i])
      {
        assert xs[..i + 1][..i] == xs[..i] && xs[..i + 1] == xs[..i] + [xs[i]];
        var r := Sample(xs[i]);
        if egg {
          egg := false;
          ys := ys + [r];
        }
      }
      assert xs[..|xs|] == xs;
    }
  }
}
