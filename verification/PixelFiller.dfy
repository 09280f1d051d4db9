/** The beam loop in place, and its fast forms (src/filler.cpp, class PixelFiller). */
module PixelFiller {
  import opened Bytes
  import opened MemoryMap
  import opened Raster

  // ----- the fast forms against the slow one -----

  /** n colour lookups in a row, without moving the beam. */
  function Looks(cells: Cells, io: Io, latch: Latch, row: int, rpixel: int, n: nat): (r: (Latch, seq<nat>))
    requires io.Valid()
    ensures |r.1| == n && forall i :: 0 <= i < n ==> r.1[i] < 16
  {
    if n == 0 then (latch, [])
    else
      var before := Looks(cells, io, latch, row, rpixel, n - 1);
      var look := GetColorIndex(cells, io, before.0, row, rpixel + 2 * (n - 1), false);
      (look.0, before.1 + [look.1])
  }

  function WordsOf(io: Io, indices: seq<nat>): (w: seq<nat>)
    requires forall i :: 0 <= i < |indices| ==> indices[i] < 16
    ensures |w| == 2 * |indices|
  {
    if indices == [] then [] else WordsOf(io, indices[..|indices| - 1]) + Words(io, indices[|indices| - 1])
  }

  /** n steps from b stay on one line, drawing every one of them, clear of the scroll load and the
      interrupt, with nothing to commit. */
  predicate Undisturbed(c: Call, s: State, n: nat) {
    && c.scr.Valid() && s.io.Valid() && s.io.Quiet()
    && s.beam.line != 0 && PICTURE_LEFT <= s.beam.pixel && s.beam.pixel + 2 * n <= PICTURE_RIGHT
  }

  /** What n lookups from the beam's place yield. */
  function LooksFrom(c: Call, s: State, n: nat): (r: (Latch, seq<nat>))
    requires s.io.Valid()
    ensures |r.1| == n && forall i :: 0 <= i < n ==> r.1[i] < 16
  {
    Looks(c.cells, s.io, s.beam.latch, s.beam.row, s.beam.pixel - 24, n)
  }

  lemma LooksNext(c: Call, s: State, n: nat)
    requires s.io.Valid()
    ensures var before := LooksFrom(c, s, n);
      var look := GetColorIndex(c.cells, s.io, before.0, s.beam.row, s.beam.pixel - 24 + 2 * n, false);
      LooksFrom(c, s, n + 1) == (look.0, before.1 + [look.1])
  {
  }

  /** In the picture, n slow steps are n lookups and the same words. */
  lemma {:induction false} PictureSteps(c: Call, s: State, n: nat)
    requires Undisturbed(c, s, n) && s.beam.visible && !s.beam.vborder
    ensures Run(c, s, n) == State(s.beam.(latch := LooksFrom(c, s, n).0, pixel := s.beam.pixel + 2 * n), s.io,
                                  s.words + WordsOf(s.io, LooksFrom(c, s, n).1))
  {
    hide Undisturbed, Looked, Tick, LooksFrom, WordsOf;
    if n == 0 {
      NothingLooked(c, s);
    } else {
      FewerSteps(c, s, n);
      PictureSteps(c, s, n - 1);
      PictureStep(c, s, Run(c, s, n - 1), LooksFrom(c, s, n - 1), n);
    }
  }

  /** Every pixel is two words of its colour, and in the 512-pixel mode one of the colour of its two low
      bits and one of that of its two high ones. */
  ghost predicate PixelWords(io: Io, indices: seq<nat>, words: seq<nat>) {
    && |words| == 2 * |indices| && (forall i :: 0 <= i < |indices| ==> indices[i] < 16)
    && forall i :: 0 <= i < |indices| ==>
         && words[2 * i] == io.palette[if io.mode512 then indices[i] % 4 else indices[i]]
         && words[2 * i + 1] == io.palette[if io.mode512 then indices[i] - indices[i] % 4 else indices[i]]
  }

  lemma {:induction false} WordsOfPixels(io: Io, indices: seq<nat>)
    requires forall i :: 0 <= i < |indices| ==> indices[i] < 16
    ensures PixelWords(io, indices, WordsOf(io, indices))
  {
    hide Words;
    if indices != [] {
      var front, last := indices[..|indices| - 1], indices[|indices| - 1];
      WordsOfPixels(io, front);
      assert WordsOf(io, indices) == WordsOf(io, front) + Words(io, last);
      forall i | 0 <= i < |front|
        ensures indices[i] == front[i] && WordsOf(io, indices)[2 * i] == WordsOf(io, front)[2 * i]
        ensures WordsOf(io, indices)[2 * i + 1] == WordsOf(io, front)[2 * i + 1]
      {
      }
      OnePixelWords(io, last);
      assert WordsOf(io, indices)[2 * |front|] == Words(io, last)[0];
      assert WordsOf(io, indices)[2 * |front| + 1] == Words(io, last)[1];
    }
  }

  lemma OnePixelWords(io: Io, index: nat)
    requires index < 16
    ensures Words(io, index)[0] == io.palette[if io.mode512 then index % 4 else index]
    ensures Words(io, index)[1] == io.palette[if io.mode512 then index - index % 4 else index]
  {
  }

  lemma InWidth(scr: Screen, pixel: nat)
    requires scr.Valid() && PICTURE_LEFT <= pixel < PICTURE_RIGHT
    ensures InBitmap(scr, pixel)
  {
  }

  lemma NothingLooked(c: Call, s: State)
    requires Undisturbed(c, s, 0)
    ensures LooksFrom(c, s, 0) == (s.beam.latch, []) && s.words + WordsOf(s.io, []) == s.words
  {
    assert s.words + [] == s.words;
  }

  lemma PictureStep(c: Call, s: State, r: State, before: (Latch, seq<nat>), n: nat)
    requires n > 0 && Undisturbed(c, s, n) && s.beam.visible && !s.beam.vborder
    requires before == LooksFrom(c, s, n - 1)
    requires r == State(s.beam.(latch := before.0, pixel := s.beam.pixel + 2 * (n - 1)), s.io,
                        s.words + WordsOf(s.io, before.1))
    ensures Tick(c, r, 2 * (n - 1))
         == State(s.beam.(latch := LooksFrom(c, s, n).0, pixel := s.beam.pixel + 2 * n), s.io,
                  s.words + WordsOf(s.io, LooksFrom(c, s, n).1))
  {
    hide MoveBeam, Committed, Register, VideoWord, ShiftLeft, Modeless, LooksFrom, Words, WordsOf;
    var look := Looked(c, r);
    LooksNext(c, s, n - 1);
    InWidth(c.scr, r.beam.pixel);
    QuietStaysPut(c, s.io, look.1, 2 * (n - 1));
    MoveInPicture(c.scr, r.beam.(latch := look.0), s.io.scroll, c.update, 2 * (n - 1));
    OneMoreWord(s.io, before.1, look.1);
    Assoc(s.words, WordsOf(s.io, before.1), Words(s.io, look.1));
  }

  lemma NoWords(io: Io)
    ensures WordsOf(io, []) == []
  {
  }

  /** Lookups do not depend on what a call commits or updates. */
  lemma SameLooks(c: Call, c': Call, s: State, n: nat)
    requires s.io.Valid() && c.cells == c'.cells
    ensures LooksFrom(c, s, n) == LooksFrom(c', s, n)
  {
  }

  lemma OneMoreWord(io: Io, indices: seq<nat>, index: nat)
    requires index < 16 && forall i :: 0 <= i < |indices| ==> indices[i] < 16
    ensures WordsOf(io, indices + [index]) == WordsOf(io, indices) + Words(io, index)
  {
    assert (indices + [index])[..|indices|] == indices;
  }

  lemma MoveInPicture(scr: Screen, b: Beam, scroll: nat, update: bool, clk: int)
    requires b.line != 0 && SCROLL_PIXEL <= b.pixel && b.pixel + 2 < LINE_CLOCKS
    ensures MoveBeam(scr, b, scroll, update, clk) == b.(pixel := b.pixel + 2)
  {
  }

  /** The words of n steps in the vertical border. */
  function BorderWords(io: Io, n: nat): (w: seq<nat>)
    requires io.Valid()
    ensures |w| == 2 * n
  {
    if n == 0 then [] else BorderWords(io, n - 1) + Words(io, io.border)
  }

  /** In the vertical border, n slow steps clear the column and draw the border colour. */
  lemma {:induction false} BorderSteps(c: Call, s: State, n: nat)
    requires Undisturbed(c, s, n) && s.beam.vborder && n > 0
    ensures Run(c, s, n) == State(s.beam.(latch := s.beam.latch.(column := 0), pixel := s.beam.pixel + 2 * n), s.io,
                                  s.words + if s.beam.visible then BorderWords(s.io, n) else [])
  {
    if n == 1 {
      assert Run(c, s, 0) == s;
      BorderStep(c, s, s, 1);
    } else {
      BorderSteps(c, s, n - 1);
      BorderStep(c, s, Run(c, s, n - 1), n);
    }
  }

  lemma BorderStep(c: Call, s: State, r: State, n: nat)
    requires Undisturbed(c, s, n) && s.beam.vborder && n > 0
    requires r.io == s.io && r.beam == s.beam.(latch := s.beam.latch.(column := r.beam.latch.column),
                                               pixel := s.beam.pixel + 2 * (n - 1))
    requires r.words == s.words + if s.beam.visible then BorderWords(s.io, n - 1) else []
    ensures Tick(c, r, 2 * (n - 1))
         == State(s.beam.(latch := s.beam.latch.(column := 0), pixel := s.beam.pixel + 2 * n), s.io,
                  s.words + if s.beam.visible then BorderWords(s.io, n) else [])
  {
    QuietStaysPut(c, s.io, s.io.border, 2 * (n - 1));
    MoveInPicture(c.scr, r.beam.(latch := Looked(c, r).0), s.io.scroll, c.update, 2 * (n - 1));
    Assoc(s.words, BorderWords(s.io, n - 1), Words(s.io, s.io.border));
  }

  function Repeated(p: nat, n: nat): (w: seq<nat>)
    ensures |w| == n && forall i :: 0 <= i < n ==> w[i] == p
  {
    seq(n, _ => p)
  }

  /** The single-colour border of fill4 is that of fill1 exactly when the 512-pixel mode is off or
      its two border colours are the single one. */
  lemma {:induction false} BorderColorsAgree(io: Io, n: nat)
    requires io.Valid() && n > 0
    ensures BorderWords(io, n) == Repeated(io.palette[io.border], 2 * n) <==>
      (io.mode512 ==> OneBorderColor(io))
  {
    var p := io.palette[io.border];
    assert Repeated(p, 2 * n) == Repeated(p, 2 * n - 2) + [p, p];
    assert BorderWords(io, n)[2 * n - 2..] == Words(io, io.border);
    if n == 1 {
      assert BorderWords(io, 0) == [];
    } else {
      BorderColorsAgree(io, n - 1);
      assert BorderWords(io, n)[..2 * n - 2] == BorderWords(io, n - 1);
    }
    assert BorderWords(io, n) == Repeated(p, 2 * n) ==> Words(io, io.border) == [p, p] by {
      if BorderWords(io, n) == Repeated(p, 2 * n) {
        assert Repeated(p, 2 * n)[2 * n - 2..] == [p, p];
      }
    }
    assert Words(io, io.border) == [p, p] <==> Words(io, io.border)[0] == p && Words(io, io.border)[1] == p;
  }

  lemma {:induction false} WordsOfJoin(io: Io, a: seq<nat>, b: seq<nat>)
    requires forall i :: 0 <= i < |a| ==> a[i] < 16
    requires forall i :: 0 <= i < |b| ==> b[i] < 16
    ensures WordsOf(io, a + b) == WordsOf(io, a) + WordsOf(io, b)
  {
    if b == [] {
      assert a + b == a;
      assert WordsOf(io, a) + [] == WordsOf(io, a);
    } else {
      var front, last := b[..|b| - 1], b[|b| - 1];
      assert a + b == (a + front) + [last];
      WordsOfJoin(io, a, front);
      OneMoreWord(io, a + front, last);
      Assoc(WordsOf(io, a), WordsOf(io, front), Words(io, last));
    }
  }

  /** The latch that n slow steps leave: the border clears the column, the picture goes on fetching
      and shifting whether it is shown or not. */
  function LatchAfter(c: Call, s: State, n: nat): Latch
    requires s.io.Valid()
  {
    if !s.beam.vborder then LooksFrom(c, s, n).0 else if n == 0 then s.beam.latch else s.beam.latch.(column := 0)
  }

  /** While the picture is not shown, n slow steps move the beam and the latch, and draw nothing. */
  lemma {:induction false} InvisibleSteps(c: Call, s: State, n: nat)
    requires Undisturbed(c, s, n) && !s.beam.visible
    ensures Run(c, s, n) == State(s.beam.(pixel := s.beam.pixel + 2 * n, latch := LatchAfter(c, s, n)), s.io, s.words)
  {
    hide Undisturbed, Looked, Tick, LooksFrom;
    if n == 0 {
      NoSteps(c, s);
    } else {
      FewerSteps(c, s, n);
      InvisibleSteps(c, s, n - 1);
      InvisibleStep(c, s, Run(c, s, n - 1), n);
    }
  }

  lemma NoSteps(c: Call, s: State)
    requires Undisturbed(c, s, 0)
    ensures LatchAfter(c, s, 0) == s.beam.latch
  {
  }

  lemma FewerSteps(c: Call, s: State, n: nat)
    requires Undisturbed(c, s, n) && n > 0
    ensures Undisturbed(c, s, n - 1)
  {
  }

  lemma InvisibleStep(c: Call, s: State, r: State, n: nat)
    requires n > 0 && Undisturbed(c, s, n) && !s.beam.visible
    requires r == State(s.beam.(pixel := s.beam.pixel + 2 * (n - 1), latch := LatchAfter(c, s, n - 1)), s.io, s.words)
    ensures Tick(c, r, 2 * (n - 1))
         == State(s.beam.(pixel := s.beam.pixel + 2 * n, latch := LatchAfter(c, s, n)), s.io, s.words)
  {
    hide MoveBeam, Committed, Register, VideoWord, ShiftLeft, Modeless, LooksFrom;
    LooksNext(c, s, n - 1);
    QuietStaysPut(c, s.io, Looked(c, r).1, 2 * (n - 1));
    MoveInPicture(c.scr, r.beam.(latch := Looked(c, r).0), s.io.scroll, c.update, 2 * (n - 1));
    assert s.words + [] == s.words;
  }

  lemma NoLooks(c: Call, s: State)
    requires s.io.Valid()
    ensures LooksFrom(c, s, 0) == (s.beam.latch, [])
  {
  }

  /** From an aligned place, the columns that n lookups fetch. */
  lemma {:induction false} ColumnsFetched(c: Call, s: State, n: nat)
    requires s.io.Valid() && s.beam.pixel % 16 == 0
    ensures LooksFrom(c, s, n).0.column == s.beam.latch.column + (n + 3) / 8
  {
    hide VideoWord, ShiftLeft, Modeless, LooksFrom, FetchDue;
    if n == 0 {
      NoLooks(c, s);
    } else {
      ColumnsFetched(c, s, n - 1);
      LooksNext(c, s, n - 1);
      DueInGroup(s.beam.pixel, n - 1);
    }
  }

  /** From an aligned place the fifth lookup of every eight fetches. */
  lemma DueInGroup(pixel: nat, i: nat)
    requires pixel % 16 == 0
    ensures FetchDue(pixel - 24 + 2 * i) <==> i % 8 == 4
    ensures (i + 4) / 8 == (i + 3) / 8 + if i % 8 == 4 then 1 else 0
  {
    var q, r, p := i / 8, i % 8, pixel / 16;
    assert pixel - 24 + 2 * i == 16 * (p - 2 + q) + (2 * r + 8);
  }

  // ----- the loops -----

  /** afterbrk as the loop counts it: two for every step that ends with brk raised. */
  function CountAfterBreak(c: Call, s: State, n: nat): nat
    requires s.io.Valid()
  {
    if n == 0 then 0 else CountAfterBreak(c, s, n - 1) + if Run(c, s, n).beam.brk then 2 else 0
  }

  /** The count is two more than the clocks spent past the end of the frame. */
  lemma {:induction false} CountedClocks(c: Call, s: State, n: nat)
    requires s.io.Valid() && OnScreen(s.beam) && !s.beam.brk && 2 * n < FRAME_CLOCKS
    ensures var end := Position(s.beam) + 2 * n;
      CountAfterBreak(c, s, n) == if end < FRAME_CLOCKS then 0 else end - FRAME_CLOCKS + 2
  {
    if n > 0 {
      CountedClocks(c, s, n - 1);
      RunPosition(c, s, n);
    }
  }

  lemma {:induction false} WordsGrow(c: Call, s: State, m: nat, n: nat)
    requires s.io.Valid() && m <= n
    ensures |Run(c, s, m).words| <= |Run(c, s, n).words|
  {
    hide Tick;
    if m < n {
      WordsGrow(c, s, m, n - 1);
      TickAppends(c, Run(c, s, n - 1), 2 * (n - 1));
    }
  }

  lemma TickAppends(c: Call, s: State, clk: int)
    requires s.io.Valid()
    ensures |s.words| <= |Tick(c, s, clk).words|
  {
    hide MoveBeam, Committed, Looked;
  }

  /** A run whose words fit leaves room for the words of each of its steps. */
  lemma RoomForStep(c: Call, s: State, m: nat, n: nat)
    requires s.io.Valid() && m < n
    ensures var r := Run(c, s, m);
      r.beam.visible && InBitmap(c.scr, r.beam.pixel) ==> |r.words| + 2 <= |Run(c, s, n).words|
  {
    WordsGrow(c, s, m + 1, n);
    assert Run(c, s, m + 1) == Tick(c, Run(c, s, m), 2 * m);
  }

  /** The dispatcher's conditions for the slow loop. */
  predicate TakesSlowLoop(b: Beam, clocks: nat, commitTime: int, commitTimePal: int) {
    || commitTime != 0 || commitTimePal != 0
    || b.line == 22 + 18 || b.line == 0 || b.line == 311
    || b.pixel <= (768 - 512) / 2 + clocks || b.pixel + clocks >= 768 - (768 - 512) / 2
  }

  /** What the fast forms leave after n steps: an unseen line leaves the latch as it was, the vertical
      border is drawn in one colour, and the picture is that of n slow steps. */
  function FastState(c: Call, s: State, n: nat): State
    requires s.io.Valid()
  {
    var slow := Run(c, s, n);
    if !s.beam.visible then slow.(beam := slow.beam.(latch := s.beam.latch))
    else if s.beam.vborder then slow.(words := s.words + Repeated(s.io.palette[s.io.border], 2 * n))
    else slow
  }

  /** fill: the slow loop with its commits, or a fast form. */
  function Dispatched(c: Call, s: State, clocks: nat): State
    requires s.io.Valid()
  {
    if TakesSlowLoop(s.beam, clocks, c.commit, c.commitPal) then Filled(c, s, (clocks + 1) / 2)
    else FastState(c, s, clocks / 2)
  }

  /** Where the fast forms do what the slow loop does. */
  predicate FastIsExact(s: State)
    requires s.io.Valid()
  {
    if !s.beam.visible then s.beam.vborder && s.beam.latch.column == 0
    else s.beam.vborder && s.io.mode512 ==> OneBorderColor(s.io)
  }

  /** The two border colours of the 512-pixel mode are the single one. */
  predicate OneBorderColor(io: Io)
    requires io.Valid()
  {
    io.palette[io.border % 4] == io.palette[io.border] == io.palette[io.border / 4 * 4]
  }

  /** The fast forms agree with the slow loop exactly there; an unseen picture line always differs, by
      a column for every eight pixels. */
  lemma FastAgreesExactly(c: Call, s: State, n: nat)
    requires Undisturbed(c, s, n) && n > 0 && n % 8 == 0 && s.beam.pixel % 16 == 0
    ensures FastState(c, s, n) == Run(c, s, n) <==> FastIsExact(s)
  {
    hide Run, Undisturbed, Looks, BorderWords, Repeated;
    if !s.beam.visible {
      InvisibleSteps(c, s, n);
      ColumnsFetched(c, s, n);
    } else if s.beam.vborder {
      BorderSteps(c, s, n);
      BorderColorsAgree(s.io, n);
      SameWords(s.words, BorderWords(s.io, n), Repeated(s.io.palette[s.io.border], 2 * n));
    }
  }

  lemma SameWords(a: seq<nat>, b: seq<nat>, c: seq<nat>)
    ensures a + b == a + c <==> b == c
  {
    assert (a + b)[|a|..] == b && (a + c)[|a|..] == c;
  }

  lemma AlignedIsUndisturbed(c: Call, s: State, n: nat)
    requires c.scr.Valid() && s.io.Valid() && s.io.Quiet() && n > 0
    requires !TakesSlowLoop(s.beam, 2 * n, 0, 0)
    requires 2 * n % 16 == 0 && s.beam.pixel % 16 == 0
    ensures Undisturbed(c, s, n)
  {
    var q, g := s.beam.pixel / 16, n / 8;
    assert s.beam.pixel == 16 * q && n == 8 * g;
  }

  class PixelFiller {
    const scr: Screen
    const cells: array<byte>   // the memory buffer the words are fetched from
    const rgb: nat -> nat
    const pixels: array<nat> // the bitmap
    var io: Io
    var rasterPixel: nat
    var rasterLine: nat
    var latch: Latch
    var fbRow: int
    var vborder: bool
    var visible: bool
    var bmpofs: nat
    var brk: bool
    var irq: bool
    var irqClk: int

    ghost predicate Valid()
      reads this
    {
      scr.Valid() && cells.Length == TOTAL && io.Valid() && bmpofs <= pixels.Length
    }

    ghost function TheBeam(): Beam
      reads this
    {
      Beam(rasterPixel, rasterLine, latch, fbRow, vborder, visible, brk, irq, irqClk)
    }

    ghost function View(): State
      reads this, pixels
      requires bmpofs <= pixels.Length
    {
      State(TheBeam(), io, pixels[..bmpofs])
    }

    ghost function TheCall(commit: int, commitPal: int, update: bool): Call
      reads this, cells
      requires cells.Length == TOTAL
    {
      Call(scr, cells[..], rgb, commit, commitPal, update)
    }

    method Reset()
      modifies this
      ensures TheBeam() == old(TheBeam()).(line := 0, latch := old(latch).(column := 0), row := 0, vborder := true,
                                           visible := false, brk := false, irq := false)
      ensures bmpofs == 0 && io == old(io)
    {
      rasterLine := 0;
      latch := latch.(column := 0);
      fbRow := 0;
      vborder := true;
      visible := false;
      bmpofs := 0;
      brk := false;
      irq := false;
    }

    method LookUp(rpixel: int, border: bool) returns (index: nat)
      requires Valid()
      modifies this`latch
      ensures (latch, index) == GetColorIndex(cells[..], io, old(latch), fbRow, rpixel, border)
    {
      if border {
        latch := latch.(column := 0);
        index := io.border;
      } else {
        if FetchDue(rpixel) {
          latch := Latch(latch.column + 1, VideoWord(cells[..], latch.column, fbRow));
        }
        index := Modeless(latch.shifter);
        latch := latch.(shifter := ShiftLeft(latch.shifter));
      }
    }

    method NextLine(update: bool)
      modifies this`rasterPixel, this`rasterLine, this`fbRow, this`vborder, this`visible, this`brk
      ensures TheBeam() == AdvanceLine(scr, old(TheBeam()), update)
    {
      rasterPixel := 0;
      rasterLine := rasterLine + 1;
      fbRow := fbRow - 1;
      if !vborder && fbRow < 0 {
        fbRow := 0xff;
      }
      vborder := rasterLine < 40 || rasterLine >= 40 + 256;
      visible := visible || (update && rasterLine == scr.firstVisible);
      if rasterLine == 312 {
        rasterLine := 0;
        visible := false;
        brk := true;
      }
    }

    /** The end of a step: two clocks on, a new line, the scroll load, the interrupt. */
    method Move(update: bool, clk: int)
      requires Valid()
      modifies this`rasterPixel, this`rasterLine, this`fbRow, this`vborder, this`visible, this`brk, this`irq,
        this`irqClk
      ensures TheBeam() == MoveBeam(scr, old(TheBeam()), io.scroll, update, clk)
    {
      rasterPixel := rasterPixel + 2;
      if rasterPixel == 768 {
        NextLine(update);
      }
      if rasterLine == 22 + 18 && rasterPixel == 150 {
        fbRow := io.scroll;
      } else if rasterLine == 0 && rasterPixel == 174 {
        irq := true;
        irqClk := clk;
      }
    }

    method CommitAt(index: nat, clk: int, commitTime: int, commitTimePal: int)
      requires Valid() && index < 16
      modifies this`io
      ensures io == Committed(TheCall(commitTime, commitTimePal, false), old(io), index, clk)
    {
      if clk == commitTime {
        io := Commit(io);
      }
      if clk == commitTimePal {
        io := CommitPalette(io, index, rgb);
      }
    }

    /** Two words of one colour, or of two in the 512-pixel mode. */
    method Put(index: nat)
      requires Valid() && index < 16 && bmpofs + 2 <= pixels.Length
      modifies this`bmpofs, pixels
      ensures Valid() && pixels[..bmpofs] == old(pixels[..bmpofs]) + Words(io, index)
    {
      if io.mode512 {
        pixels[bmpofs] := io.palette[index % 4];
        pixels[bmpofs + 1] := io.palette[index / 4 * 4];
      } else {
        var p := io.palette[index];
        pixels[bmpofs] := p;
        pixels[bmpofs + 1] := p;
      }
      bmpofs := bmpofs + 2;
    }

    /** One turn of the loop of fill1. */
    method Step(clk: int, commitTime: int, commitTimePal: int, update: bool) returns (index: nat)
      requires Valid()
      requires visible && InBitmap(scr, rasterPixel) ==> bmpofs + 2 <= pixels.Length
      modifies this, pixels
      ensures Valid() && index == Looked(TheCall(commitTime, commitTimePal, update), old(View())).1
      ensures View() == Tick(TheCall(commitTime, commitTimePal, update), old(View()), clk)
    {
      hide MoveBeam, CommitPalette, Words;
      ghost var s := View();
      ghost var c := TheCall(commitTime, commitTimePal, update);
      var border := vborder || rasterPixel - 24 < (768 - 512) / 2 || rasterPixel - 24 >= 768 - (768 - 512) / 2;
      index := LookUp(rasterPixel - 24, border);
      assert (latch, index) == Looked(c, s);
      CommitAt(index, clk, commitTime, commitTimePal);
      assert io == Committed(c, s.io, index, clk);
      if visible && 0 <= rasterPixel - scr.CenterOffset() < scr.Width() {
        Put(index);
      }
      Move(update, clk);
    }

    /** The loop of fill1 after some of its steps, with its bookkeeping and room for the rest. */
    ghost predicate Ran(c: Call, s: State, done: nat, total: nat, clk: nat, index: nat, afterbrk: nat)
      reads this, pixels, cells
    {
      && Valid() && s.io.Valid() && done <= total && clk == 2 * done
      && c.scr == scr && c.cells == cells[..] && c.rgb == rgb
      && View() == Run(c, s, done) && |Run(c, s, total).words| <= pixels.Length
      && index == LastIndex(c, s, done) && afterbrk == CountAfterBreak(c, s, done)
    }

    /** One turn of the loop of fill1, with its bookkeeping. */
    method Turn(clk: nat, index: nat, afterbrk: nat, commitTime: int, commitTimePal: int, update: bool,
                ghost c: Call, ghost s: State, ghost done: nat, ghost total: nat)
      returns (clk': nat, index': nat, afterbrk': nat)
      requires Ran(c, s, done, total, clk, index, afterbrk) && done < total
      requires c.commit == commitTime && c.commitPal == commitTimePal && c.update == update
      modifies this, pixels
      ensures Ran(c, s, done + 1, total, clk', index', afterbrk') && clk' == clk + 2
    {
      RoomForStep(c, s, done, total);
      index' := Step(clk, commitTime, commitTimePal, update);
      afterbrk' := afterbrk + if brk then 2 else 0;
      clk' := clk + 2;
    }

    /** The loop of fill1. */
    method Steps(clocks: nat, commitTime: int, commitTimePal: int, update: bool, ghost c: Call, ghost s: State,
                 ghost total: nat)
      returns (clk: nat, index: nat, afterbrk: nat)
      requires Ran(c, s, 0, total, 0, 0, 0) && clocks <= 2 * total <= clocks + 1
      requires c.commit == commitTime && c.commitPal == commitTimePal && c.update == update
      modifies this, pixels
      ensures Ran(c, s, total, total, clk, index, afterbrk)
    {
      hide Run, LastIndex, CountAfterBreak;
      ghost var done: nat := 0;
      clk, index, afterbrk := 0, 0, 0;
      while clk < clocks
        invariant clk == 2 * done && done <= total
        invariant Ran(c, s, done, total, clk, index, afterbrk)
      {
        clk, index, afterbrk := Turn(clk, index, afterbrk, commitTime, commitTimePal, update, c, s, done, total);
        done := done + 1;
      }
    }

    method Fill1(clocks: nat, commitTime: int, commitTimePal: int, update: bool) returns (afterbrk: int)
      requires Valid() && OnScreen(TheBeam()) && !brk && clocks + 1 < FRAME_CLOCKS
      requires |Run(TheCall(commitTime, commitTimePal, update), View(), (clocks + 1) / 2).words| <= pixels.Length
      modifies this, pixels
      ensures Valid() && View() == Filled(TheCall(commitTime, commitTimePal, update), old(View()), (clocks + 1) / 2)
      ensures afterbrk == PastEnd(old(TheBeam()), (clocks + 1) / 2)
    {
      CountedClocks(TheCall(commitTime, commitTimePal, update), View(), (clocks + 1) / 2);
      var clk, index;
      clk, index, afterbrk := Steps(clocks, commitTime, commitTimePal, update,
                                    TheCall(commitTime, commitTimePal, update), View(), (clocks + 1) / 2);
      CommitAt(index, clk, commitTime, commitTimePal);
      if afterbrk != 0 {
        afterbrk := afterbrk - 2;
      }
    }

    // ----- the fast forms -----

    /** What the picture loops leave after n pixels, before the pixel counter. */
    ghost predicate Painted(c: Call, s: State, n: nat)
      reads this, cells, pixels
    {
      && Valid() && s.io.Valid() && c.cells == cells[..] && io == s.io
      && TheBeam() == s.beam.(latch := LooksFrom(c, s, n).0, pixel := rasterPixel)
      && pixels[..bmpofs] == s.words + WordsOf(s.io, LooksFrom(c, s, n).1)
    }

    lemma NothingPainted(c: Call, s: State)
      requires Valid() && s.io.Valid() && c.cells == cells[..] && View() == s.(beam := s.beam.(pixel := rasterPixel))
      ensures Painted(c, s, 0)
    {
      NoLooks(c, s);
      assert s.words + [] == s.words;
    }

    lemma PaintedWords(c: Call, s: State, n: nat)
      requires Painted(c, s, n)
      ensures |s.words| <= bmpofs <= pixels.Length
      ensures PixelWords(io, LooksFrom(c, s, n).1, pixels[|s.words|..bmpofs])
    {
      hide WordsOf, LooksFrom, PixelWords;
      WordsOfPixels(io, LooksFrom(c, s, n).1);
      assert pixels[..bmpofs][|s.words|..] == pixels[|s.words|..bmpofs];
    }

    /** Eight lookups, n pixels into the fill. */
    method LookGroup(rpixel: int, ghost c: Call, ghost s: State, ghost n: nat) returns (group: seq<nat>)
      requires Valid() && s.io == io && c.cells == cells[..] && s.beam.row == fbRow
      requires rpixel == s.beam.pixel - 24 + 2 * n && latch == LooksFrom(c, s, n).0
      modifies this`latch
      ensures |group| == 8 && forall i :: 0 <= i < 8 ==> group[i] < 16
      ensures latch == LooksFrom(c, s, n + 8).0 && LooksFrom(c, s, n + 8).1 == LooksFrom(c, s, n).1 + group
    {
      hide LooksFrom, GetColorIndex;
      group := [];
      for j := 0 to 8
        invariant c.cells == cells[..]
        invariant |group| == j && forall i :: 0 <= i < j ==> group[i] < 16
        invariant latch == LooksFrom(c, s, n + j).0
        invariant LooksFrom(c, s, n + j).1 == LooksFrom(c, s, n).1 + group
      {
        LooksNext(c, s, n + j);
        var index := LookUp(rpixel + 2 * j, false);
        Assoc(LooksFrom(c, s, n).1, group, [index]);
        group := group + [index];
      }
    }

    method PutGroup(group: seq<nat>)
      requires Valid() && bmpofs + 2 * |group| <= pixels.Length
      requires forall i :: 0 <= i < |group| ==> group[i] < 16
      modifies this`bmpofs, pixels
      ensures Valid() && pixels[..bmpofs] == old(pixels[..bmpofs]) + WordsOf(io, group)
    {
      hide Words, WordsOf;
      assert group[..0] == [] && old(pixels[..bmpofs]) + [] == old(pixels[..bmpofs]);
      NoWords(io);
      for j := 0 to |group|
        invariant bmpofs == old(bmpofs) + 2 * j
        invariant pixels[..bmpofs] == old(pixels[..bmpofs]) + WordsOf(io, group[..j])
      {
        assert group[..j + 1] == group[..j] + [group[j]];
        OneMoreWord(io, group[..j], group[j]);
        Assoc(old(pixels[..bmpofs]), WordsOf(io, group[..j]), Words(io, group[j]));
        Put(group[j]);
      }
      assert group[..|group|] == group;
    }

    /** Sixteen clocks of fill2: eight lookups and then sixteen words. */
    method PaintGroup(rpixel: int, ghost c: Call, ghost s: State, ghost n: nat)
      requires Painted(c, s, n) && bmpofs + 16 <= pixels.Length && rpixel == s.beam.pixel - 24 + 2 * n
      modifies this`latch, this`bmpofs, pixels
      ensures Painted(c, s, n + 8) && bmpofs == old(bmpofs) + 16
    {
      hide LooksFrom, WordsOf;
      ghost var before := LooksFrom(c, s, n).1;
      var group := LookGroup(rpixel, c, s, n);
      WordsOfJoin(io, before, group);
      Assoc(s.words, WordsOf(io, before), WordsOf(io, group));
      PutGroup(group);
    }

    /** One pixel of fill3: a lookup and its two words. */
    method PaintPixel(rpixel: int, ghost c: Call, ghost s: State, ghost n: nat)
      requires Painted(c, s, n) && bmpofs + 2 <= pixels.Length && rpixel == s.beam.pixel - 24 + 2 * n
      modifies this`latch, this`bmpofs, pixels
      ensures Painted(c, s, n + 1) && bmpofs == old(bmpofs) + 2
    {
      hide GetColorIndex, LooksFrom, WordsOf, Words;
      ghost var before := LooksFrom(c, s, n).1;
      LooksNext(c, s, n);
      var index := LookUp(rpixel, false);
      OneMoreWord(io, before, index);
      Assoc(s.words, WordsOf(io, before), Words(io, index));
      Put(index);
    }

    method Fill2(clocks: nat)
      requires Valid() && clocks % 16 == 0 && bmpofs + clocks <= pixels.Length && !io.mode512
      modifies this`latch, this`bmpofs, this`rasterPixel, pixels
      ensures Painted(TheCall(0, 0, false), old(View()), clocks / 2) && rasterPixel == old(rasterPixel) + clocks
      ensures PixelWords(io, LooksFrom(TheCall(0, 0, false), old(View()), clocks / 2).1, pixels[old(bmpofs)..bmpofs])
    {
      hide Looks, LooksFrom, WordsOf, Painted, GetColorIndex, PixelWords;
      ghost var c, s := TheCall(0, 0, false), View();
      var rpixel := rasterPixel - 24;
      rasterPixel := rasterPixel + clocks;
      var clk: nat := 0;
      ghost var g: nat, groups := 0, clocks / 16;
      NothingPainted(c, s);
      while clk < clocks
        invariant clk == 16 * g && g <= groups && rpixel == s.beam.pixel - 24 + clk
        invariant Painted(c, s, 8 * g) && bmpofs + (clocks - clk) <= pixels.Length
          && rasterPixel == old(rasterPixel) + clocks
      {
        PaintGroup(rpixel, c, s, 8 * g);
        rpixel := rpixel + 16;
        clk := clk + 16;
        g := g + 1;
      }
      PaintedWords(c, s, 8 * g);
    }

    /** Eight pixels of fill3. */
    method PaintPixels(rpixel: int, ghost c: Call, ghost s: State, ghost n: nat)
      requires Painted(c, s, n) && bmpofs + 16 <= pixels.Length && rpixel == s.beam.pixel - 24 + 2 * n
      modifies this`latch, this`bmpofs, pixels
      ensures Painted(c, s, n + 8) && bmpofs == old(bmpofs) + 16
    {
      hide Painted;
      for j := 0 to 8
        invariant Painted(c, s, n + j) && bmpofs == old(bmpofs) + 2 * j
      {
        PaintPixel(rpixel + 2 * j, c, s, n + j);
      }
    }

    method Fill3(clocks: nat)
      requires Valid() && clocks % 16 == 0 && bmpofs + clocks <= pixels.Length && io.mode512
      modifies this`latch, this`bmpofs, this`rasterPixel, pixels
      ensures Painted(TheCall(0, 0, false), old(View()), clocks / 2) && rasterPixel == old(rasterPixel) + clocks
      ensures PixelWords(io, LooksFrom(TheCall(0, 0, false), old(View()), clocks / 2).1, pixels[old(bmpofs)..bmpofs])
    {
      hide Looks, LooksFrom, WordsOf, Painted, GetColorIndex, PixelWords;
      ghost var c, s := TheCall(0, 0, false), View();
      var rpixel := rasterPixel - 24;
      rasterPixel := rasterPixel + clocks;
      var clk: nat := 0;
      ghost var g: nat, groups := 0, clocks / 16;
      NothingPainted(c, s);
      while clk < clocks
        invariant clk == 16 * g && g <= groups && rpixel == s.beam.pixel - 24 + clk
        invariant Painted(c, s, 8 * g) && bmpofs + (clocks - clk) <= pixels.Length
          && rasterPixel == old(rasterPixel) + clocks
      {
        PaintPixels(rpixel, c, s, 8 * g);
        rpixel := rpixel + 16;
        clk := clk + 16;
        g := g + 1;
      }
      PaintedWords(c, s, 8 * g);
    }

    method PutSixteen(p: nat)
      requires bmpofs + 16 <= pixels.Length
      modifies this`bmpofs, pixels
      ensures bmpofs <= pixels.Length && pixels[..bmpofs] == old(pixels[..bmpofs]) + Repeated(p, 16)
    {
      forall i | 0 <= i < 16 {
        pixels[bmpofs + i] := p;
      }
      bmpofs := bmpofs + 16;
    }

    method Fill4(clocks: nat)
      requires Valid() && clocks % 16 == 0 && bmpofs + clocks <= pixels.Length
      modifies this`latch, this`bmpofs, this`rasterPixel, pixels
      ensures Valid()
      ensures TheBeam() == old(TheBeam()).(latch := old(latch).(column := 0), pixel := old(rasterPixel) + clocks)
      ensures pixels[..bmpofs] == old(pixels[..bmpofs]) + Repeated(io.palette[io.border], clocks)
    {
      rasterPixel := rasterPixel + clocks;
      var index := LookUp(0, true);
      var p := io.palette[index];
      var clk: nat := 0;
      assert pixels[..bmpofs] + Repeated(p, 0) == pixels[..bmpofs];
      while clk < clocks
        invariant clk % 16 == 0 && clk <= clocks && bmpofs == old(bmpofs) + clk <= pixels.Length
        invariant TheBeam() == old(TheBeam()).(latch := old(latch).(column := 0), pixel := old(rasterPixel) + clocks)
        invariant pixels[..bmpofs] == old(pixels[..bmpofs]) + Repeated(p, clk)
      {
        Assoc(old(pixels[..bmpofs]), Repeated(p, clk), Repeated(p, 16));
        assert Repeated(p, clk) + Repeated(p, 16) == Repeated(p, clk + 16);
        PutSixteen(p);
        clk := clk + 16;
      }
    }

    /** The fast side of the dispatcher. */
    method FillFast(clocks: nat, update: bool)
      requires Valid() && clocks > 0 && clocks % 16 == 0
      requires Undisturbed(TheCall(0, 0, update), View(), clocks / 2)
      requires |Run(TheCall(0, 0, update), View(), clocks / 2).words| <= pixels.Length
      modifies this, pixels
      ensures Valid() && View() == FastState(TheCall(0, 0, update), old(View()), clocks / 2)
    {
      hide Run, Undisturbed, Looks, LooksFrom, WordsOf, BorderWords, GetColorIndex, Repeated;
      ghost var c, s, n := TheCall(0, 0, update), View(), clocks / 2;
      if !visible {
        InvisibleSteps(c, s, n);
        rasterPixel := rasterPixel + clocks;
      } else if vborder {
        BorderSteps(c, s, n);
        Fill4(clocks);
      } else {
        PictureSteps(c, s, n);
        SameLooks(c, TheCall(0, 0, false), s, n);
        if io.mode512 {
          Fill3(clocks);
        } else {
          Fill2(clocks);
        }
      }
    }

    /** fill, as (clocks + 1) / 2 steps. */
    method Fill(clocks: nat, commitTime: int, commitTimePal: int, update: bool) returns (afterbrk: int)
      requires Valid() && OnScreen(TheBeam()) && !brk && clocks + 1 < FRAME_CLOCKS
      requires |Run(TheCall(commitTime, commitTimePal, update), View(), (clocks + 1) / 2).words| <= pixels.Length
      requires !TakesSlowLoop(TheBeam(), clocks, commitTime, commitTimePal) ==>
        clocks > 0 && clocks % 16 == 0 && rasterPixel % 16 == 0 && io.Quiet()
      modifies this, pixels
      ensures Valid()
      ensures afterbrk == PastEnd(old(TheBeam()), (clocks + 1) / 2)
      ensures View() == Dispatched(TheCall(commitTime, commitTimePal, update), old(View()), clocks)
    {
      hide Run, Undisturbed, FastState, Committed;
      var slow := commitTime != 0 || commitTimePal != 0 || rasterLine == 22 + 18 || rasterLine == 0 || rasterLine == 311
         || rasterPixel <= (768 - 512) / 2 + clocks || rasterPixel + clocks >= 768 - (768 - 512) / 2;
      assert slow == TakesSlowLoop(TheBeam(), clocks, commitTime, commitTimePal);
      if slow {
        afterbrk := Fill1(clocks, commitTime, commitTimePal, update);
      } else {
        assert commitTime == 0 && commitTimePal == 0;
        AlignedIsUndisturbed(TheCall(0, 0, update), View(), clocks / 2);
        FillFast(clocks, update);
        afterbrk := 0;
      }
    }
  }
}
