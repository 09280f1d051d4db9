/** A frame drawn through the dispatcher (src/filler.cpp, fill), fast forms and all, against the
    slow loop. */
module DispatchedFrame {
  import opened Bytes
  import opened MemoryMap
  import opened Raster
  import opened RasterFrame
  import opened PixelFiller

  /** The two states differ at most in the latch, where it does not matter, and in the words. */
  predicate Alike(d: State, s: State) {
    && d.io == s.io && |d.words| == |s.words| && d.beam == s.beam.(latch := d.beam.latch)
    && (s.beam.visible && !IsBorder(s.beam) ==> SameLatch(d.beam, s.beam))
  }

  predicate SameLatch(d: Beam, s: Beam) {
    d.latch.column == s.latch.column && (FetchDue(s.pixel - 24) || d.latch == s.latch)
  }

  lemma LookedAlike(c: Call, d: State, s: State)
    requires s.io.Valid() && Alike(d, s)
    ensures IsBorder(s.beam) ==> Looked(c, d).1 == Looked(c, s).1 && Looked(c, d).0.column == Looked(c, s).0.column == 0
    ensures s.beam.visible && !IsBorder(s.beam) ==> Looked(c, d) == Looked(c, s)
  {
  }

  lemma MovedAlike(scr: Screen, d: Beam, s: Beam, scroll: nat, update: bool, clk: int)
    requires d == s.(latch := d.latch)
    ensures var d', s' := MoveBeam(scr, d, scroll, update, clk), MoveBeam(scr, s, scroll, update, clk);
      d' == s'.(latch := d.latch) && s'.latch == s.latch
  {
    hide AdvanceLine, Signalled;
    var d1, s1 := d.(pixel := d.pixel + 2), s.(pixel := s.pixel + 2);
    AdvancedAlike(scr, d1, s1, update);
    var end := s1.pixel == LINE_CLOCKS;
    SignalledAlike(if end then AdvanceLine(scr, d1, update) else d1,
                   if end then AdvanceLine(scr, s1, update) else s1, scroll, clk);
  }

  lemma SignalledAlike(d: Beam, s: Beam, scroll: nat, clk: int)
    requires d == s.(latch := d.latch)
    ensures Signalled(d, scroll, clk) == Signalled(s, scroll, clk).(latch := d.latch)
    ensures Signalled(s, scroll, clk).latch == s.latch
  {
  }

  lemma AdvancedAlike(scr: Screen, d: Beam, s: Beam, update: bool)
    requires d == s.(latch := d.latch)
    ensures AdvanceLine(scr, d, update) == AdvanceLine(scr, s, update).(latch := d.latch)
    ensures AdvanceLine(scr, s, update).latch == s.latch
  {
  }

  /** The picture of a shown line is entered from its left border. */
  lemma MovedIntoPicture(scr: Screen, s: Beam, scroll: nat, update: bool, clk: int)
    requires OnScreen(s)
    ensures var s' := MoveBeam(scr, s, scroll, update, clk);
      s'.visible && !IsBorder(s') ==> s'.pixel == s.pixel + 2 && s.visible && (IsBorder(s) ==> FetchDue(s'.pixel - 24))
  {
  }

  lemma AlikeTick(c: Call, d: State, s: State, clk: int)
    requires s.io.Valid() && s.io.Quiet() && OnScreen(s.beam) && Alike(d, s)
    ensures Alike(Tick(c, d, clk), Tick(c, s, clk)) && Tick(c, s, clk).io == s.io
    ensures Tick(c, d, clk).words == Tick(c, s, clk).words <==> d.words == s.words
  {
    hide Looked, MoveBeam, Words, Committed, IsBorder, FetchDue, InBitmap;
    LookedAlike(c, d, s);
    QuietStaysPut(c, s.io, Looked(c, d).1, clk);
    QuietStaysPut(c, s.io, Looked(c, s).1, clk);
    var lookedD, lookedS := d.beam.(latch := Looked(c, d).0), s.beam.(latch := Looked(c, s).0);
    MovedAlike(c.scr, lookedD, lookedS, s.io.scroll, c.update, clk);
    MovedIntoPicture(c.scr, lookedS, s.io.scroll, c.update, clk);
    SameBorder(s.beam, lookedS);
    SameEnds(d.words, s.words, Drawn(c, d.beam, s.io, Looked(c, d).1), Drawn(c, s.beam, s.io, Looked(c, s).1));
  }

  lemma SameBorder(b: Beam, b': Beam)
    requires b' == b.(latch := b'.latch)
    ensures IsBorder(b) == IsBorder(b')
  {
  }

  lemma SameEnds(a: seq<nat>, b: seq<nat>, x: seq<nat>, y: seq<nat>)
    requires |a| == |b|
    ensures a + x == b + y <==> a == b && x == y
  {
    assert (a + x)[..|a|] == a && (b + y)[..|b|] == b;
    assert (a + x)[|a|..] == x && (b + y)[|b|..] == y;
  }

  lemma {:induction false} AlikeRun(c: Call, d: State, s: State, n: nat)
    requires s.io.Valid() && s.io.Quiet() && OnScreen(s.beam) && Alike(d, s) && 2 * n < FRAME_CLOCKS
    ensures Alike(Run(c, d, n), Run(c, s, n)) && Run(c, s, n).io == s.io && OnScreen(Run(c, s, n).beam)
    ensures Run(c, d, n).words == Run(c, s, n).words <==> d.words == s.words
  {
    hide Tick, Alike, MovedBy;
    AlikeIo(d, s);
    if n > 0 {
      AlikeRun(c, d, s, n - 1);
      AlikeIo(Run(c, d, n - 1), Run(c, s, n - 1));
      AlikeTick(c, Run(c, d, n - 1), Run(c, s, n - 1), 2 * (n - 1));
      TickPosition(c, Run(c, s, n - 1), 2 * (n - 1));
    }
  }

  lemma AlikeIo(d: State, s: State)
    requires Alike(d, s)
    ensures d.io == s.io
  {
  }

  /** A fast form draws what the slow loop does, but for a shown border of two colours. */
  predicate OneColor(s: State)
    requires s.io.Valid()
  {
    s.beam.visible && s.beam.vborder && s.io.mode512 ==> OneBorderColor(s.io)
  }

  lemma FastAlike(c: Call, d: State, s: State, n: nat)
    requires Undisturbed(c, s, n) && n > 0 && Alike(d, s) && OnScreen(s.beam) && 2 * n < FRAME_CLOCKS
    ensures Alike(FastState(c, d, n), Run(c, s, n))
    ensures FastState(c, d, n).words == Run(c, s, n).words <==> d.words == s.words && OneColor(s)
  {
    hide Run, Undisturbed, Looks, BorderWords, Repeated, IsBorder, FetchDue, OneBorderColor;
    UndisturbedAlike(c, d, s, n);
    AlikeRun(c, d, s, n);
    if !s.beam.visible {
      InvisibleSteps(c, s, n);
    } else if s.beam.vborder {
      BorderSteps(c, d, n);
      BorderSteps(c, s, n);
      BorderColorsAgree(s.io, n);
      SameEnds(d.words, s.words, Repeated(s.io.palette[s.io.border], 2 * n), BorderWords(s.io, n));
    }
  }

  lemma UndisturbedAlike(c: Call, d: State, s: State, n: nat)
    requires Undisturbed(c, s, n) && Alike(d, s)
    ensures Undisturbed(c, d, n) && s.io.Valid() && s.io.Quiet()
  {
  }

  // ----- whole frames -----

  /** The call of one fill, as the dispatcher answers it. */
  function DispatchedFills(c: Call, s: State, fs: seq<Fill>): (r: State)
    requires s.io.Valid()
    ensures r.io.Valid()
  {
    if fs == [] then s
    else
      var before, last := DispatchedFills(c, s, fs[..|fs| - 1]), fs[|fs| - 1];
      RunIsValid(CallOf(c, last), before, last.n);
      Dispatched(CallOf(c, last), before, 2 * last.n)
  }

  lemma RunIsValid(c: Call, s: State, n: nat)
    requires s.io.Valid()
    ensures Dispatched(c, s, 2 * n).io.Valid()
  {
  }

  predicate IsFast(b: Beam, f: Fill) { !TakesSlowLoop(b, 2 * f.n, f.commit, f.commitPal) }

  /** What the fast forms ask of their calls: whole groups from an aligned place. */
  predicate Aligned(c: Call, s: State, fs: seq<Fill>)
    requires s.io.Valid()
  {
    fs != [] ==>
      var before, last := Fills(c, s, fs[..|fs| - 1]), fs[|fs| - 1];
      && Aligned(c, s, fs[..|fs| - 1])
      && (IsFast(before.beam, last) ==> last.n > 0 && last.n % 8 == 0 && before.beam.pixel % 16 == 0)
  }

  /** No fast form draws a shown border of two colours. */
  predicate OneColorFills(c: Call, s: State, fs: seq<Fill>)
    requires s.io.Valid()
  {
    fs != [] ==>
      var before, last := Fills(c, s, fs[..|fs| - 1]), fs[|fs| - 1];
      OneColorFills(c, s, fs[..|fs| - 1]) && (IsFast(before.beam, last) ==> OneColor(before))
  }

  lemma DispatchedAlike(c: Call, d: State, s: State, f: Fill)
    requires c.scr.Valid() && s.io.Valid() && s.io.Quiet() && OnScreen(s.beam) && Alike(d, s) && 2 * f.n < FRAME_CLOCKS
    requires IsFast(s.beam, f) ==> f.n > 0 && f.n % 8 == 0 && s.beam.pixel % 16 == 0
    ensures var d', s' := Dispatched(CallOf(c, f), d, 2 * f.n), Filled(CallOf(c, f), s, f.n);
      && Alike(d', s') && s'.io == s.io && OnScreen(s'.beam)
      && (d'.words == s'.words <==> d.words == s.words && (IsFast(s.beam, f) ==> OneColor(s)))
  {
    hide Run, Alike, FastState, OneColor, Filled, OnScreen;
    var c' := CallOf(c, f);
    AlikeIo(d, s);
    SlowSide(d, s, f);
    AlikeRun(c', d, s, f.n);
    AlikeIo(Run(c', d, f.n), Run(c', s, f.n));
    FilledIsRun(c', d, f.n);
    FilledIsRun(c', s, f.n);
    if IsFast(s.beam, f) {
      AlignedIsUndisturbed(c', s, f.n);
      FastAlike(c', d, s, f.n);
    }
  }

  lemma SlowSide(d: State, s: State, f: Fill)
    requires Alike(d, s)
    ensures TakesSlowLoop(d.beam, 2 * f.n, f.commit, f.commitPal) <==> !IsFast(s.beam, f)
  {
  }

  lemma {:induction false} FillsAlike(c: Call, s: State, fs: seq<Fill>)
    requires c.scr.Valid() && s.io.Valid() && s.io.Quiet() && OnScreen(s.beam) && Aligned(c, s, fs)
    requires forall i :: 0 <= i < |fs| ==> 2 * fs[i].n < FRAME_CLOCKS
    ensures Alike(DispatchedFills(c, s, fs), Fills(c, s, fs))
    ensures Fills(c, s, fs).io == s.io && OnScreen(Fills(c, s, fs).beam)
    ensures DispatchedFills(c, s, fs).words == Fills(c, s, fs).words <==> OneColorFills(c, s, fs)
  {
    hide Alike, Dispatched, Filled, OnScreen, IsFast, OneColor;
    if fs == [] {
      AlikeItself(s);
    } else {
      var front, last := fs[..|fs| - 1], fs[|fs| - 1];
      FillsAlike(c, s, front);
      DispatchedAlike(c, DispatchedFills(c, s, front), Fills(c, s, front), last);
    }
  }

  lemma AlikeItself(s: State)
    ensures Alike(s, s)
  {
  }

  lemma {:induction false} FillsAreShort(fs: seq<Fill>, clocks: nat)
    requires 2 * Steps(fs) <= clocks
    ensures forall i :: 0 <= i < |fs| ==> 2 * fs[i].n <= clocks
  {
    if fs != [] {
      var front := fs[..|fs| - 1];
      FillsAreShort(front, clocks);
      assert forall i :: 0 <= i < |front| ==> fs[i] == front[i];
    }
  }

  /** A frame of dispatched fills gets the beam where the slow loop does, with as many words, and
      draws the bitmap of the formula exactly when no fast form draws a shown border of two colours. */
  lemma DispatchedFrameIsDrawn(c: Call, io: Io, b: Beam, fs: seq<Fill>)
    requires c.scr.Valid() && io.Valid() && io.Quiet() && OnScreen(b) && fs != []
    requires var before := b.pixel + 2 * Steps(fs[..|fs| - 1]);
      before < FRAME_CLOCKS <= before + 2 * fs[|fs| - 1].n && 2 * fs[|fs| - 1].n <= LINE_CLOCKS
    requires Aligned(c, State(Reset(b), io, []), fs)
    ensures var s0 := State(Reset(b), io, []);
      var r := DispatchedFills(c, s0, fs);
      && r.beam.brk && Position(r.beam) == b.pixel + 2 * Steps(fs) - FRAME_CLOCKS
      && |r.words| == (if c.update then BitmapSize(c.scr) else 0)
      && (r.words == (if c.update then Bitmap(c, io) else []) <==> OneColorFills(c, s0, fs))
  {
    hide Fills, DispatchedFills, OneColorFills, Aligned;
    var s0 := State(Reset(b), io, []);
    var front, last := fs[..|fs| - 1], fs[|fs| - 1];
    FillsAreShort(front, FRAME_CLOCKS - 1);
    assert forall i :: 0 <= i < |front| ==> fs[i] == front[i];
    FillsAlike(c, s0, fs);
    FrameIsDrawn(c, io, b, fs);
  }
}
