/** What a whole frame draws: the beam machine against a formula for the pixel at (x, y). */
module RasterFrame {
  import opened Bytes
  import opened MemoryMap
  import opened Raster

  // ----- the pixel formula -----

  function Pow2(j: nat): nat
    requires j < 8
  {
    match j
    case 0 => 1 case 1 => 2 case 2 => 4 case 3 => 8 case 4 => 16 case 5 => 32 case 6 => 64 case _ => 128
  }

  /** Bit 7 - j of a byte: the top bit after j shifts. */
  function Bit(c: byte, j: nat): (n: nat)
    requires j < 8
    ensures n <= 1
    decreases j
  {
    if j == 0 then c / 128 else Bit(ShiftByte(c, 0), j - 1)
  }

  /** Address within a plane of the byte that holds picture pixel x of picture line k. */
  function PlaneAddress(scroll: nat, x: nat, k: nat): (a: nat)
    requires x < 256
    ensures a < 0x2000
  {
    256 * (x / 8) + (scroll - k) % 256
  }

  /** The palette index of picture pixel x of picture line k: one bit from each plane, as the
      four planes' bytes of an address lie side by side in the cells. */
  function PictureIndex(cells: Cells, scroll: nat, x: nat, k: nat): (n: nat)
    requires x < 256
    ensures n < 16
  {
    WordIndex(WordAt(cells, PlaneAddress(scroll, x, k)), x % 8)
  }

  /** Bit 7 - j of each byte of a word. */
  function WordIndex(w: Word32, j: nat): (n: nat)
    requires j < 8
    ensures n < 16
  {
    8 * Bit(w.b0, j) + 4 * Bit(w.b1, j) + 2 * Bit(w.b2, j) + Bit(w.b3, j)
  }

  predicate BorderAt(line: nat, pixel: nat) {
    line < TOP_LINE || line >= BOTTOM_LINE || pixel < PICTURE_LEFT || pixel >= PICTURE_RIGHT
  }

  function IndexAt(cells: Cells, io: Io, line: nat, pixel: nat): (n: nat)
    requires io.Valid()
    ensures n < 16
  {
    if BorderAt(line, pixel) then io.border
      else PictureIndex(cells, io.scroll, (pixel - PICTURE_LEFT) / 2, line - TOP_LINE)
  }

  // ----- the shift register -----

  /** A word shifted left j times by one. */
  function Shifted(w: Word32, j: nat): Word32 {
    if j == 0 then w else ShiftLeft(Shifted(w, j - 1))
  }

  /** i / n and i % n, by taking rows of n away. */
  function RowOf(i: nat, n: nat): nat
    requires n > 0
  {
    if i < n then 0 else 1 + RowOf(i - n, n)
  }

  function PlaceInRow(i: nat, n: nat): (w: nat)
    requires n > 0
    ensures w < n
  {
    if i < n then i else PlaceInRow(i - n, n)
  }

  lemma {:induction false} RowMajor(a: nat, w: nat, n: nat)
    requires w < n
    ensures RowOf(a * n + w, n) == a && PlaceInRow(a * n + w, n) == w
  {
    if a == 0 {
      assert a * n == 0;
    } else {
      assert a * n + w - n == (a - 1) * n + w;
      RowMajor(a - 1, w, n);
    }
  }

  /** The bits are the binary digits, the highest first. */
  lemma {:induction false} BitIsDigit(c: byte, j: nat)
    requires j < 8
    ensures Bit(c, j) == c / Pow2(7 - j) % 2
    decreases j
  {
    if j > 0 {
      BitIsDigit(ShiftByte(c, 0), j - 1);
      DigitShift(c, 0, j - 1);
    }
  }

  /** A shifted byte has the digits of the byte one place on, but for the one that came in. */
  lemma DigitShift(b: byte, carry: nat, j: nat)
    requires j < 7 && carry <= 1
    ensures ShiftByte(b, carry) / Pow2(7 - j) % 2 == b / Pow2(6 - j) % 2
  {
    var t: nat, u: nat := b / 128, b % 128;
    assert 2 * b % 256 == 2 * u && b == 128 * t + u;
    assert Pow2(7 - j) == 2 * Pow2(6 - j) && Pow2(6 - j) * Pow2(j) == 64;
    Halves(u, carry, Pow2(6 - j));
    UpperBitGone(t, u, Pow2(6 - j), Pow2(j));
  }

  lemma BitShift(b: byte, carry: nat, j: nat)
    requires j < 7 && carry <= 1
    ensures Bit(ShiftByte(b, carry), j) == Bit(b, j + 1)
  {
    BitIsDigit(ShiftByte(b, carry), j);
    BitIsDigit(b, j + 1);
    DigitShift(b, carry, j);
  }

  lemma Halves(u: nat, carry: nat, m: nat)
    requires carry <= 1 && m > 0
    ensures (2 * u + carry) / (2 * m) == u / m
  {
    var q, r := u / m, u % m;
    assert u == q * m + r;
    assert 2 * u + carry == q * (2 * m) + (2 * r + carry);
    DivUnique(2 * u + carry, 2 * m, q, 2 * r + carry);
  }

  lemma UpperBitGone(t: nat, u: nat, m: nat, k: nat)
    requires m * k == 64 && m > 0
    ensures (128 * t + u) / m % 2 == u / m % 2
  {
    var q, r := u / m, u % m;
    var n := k * t;
    assert 128 * t + u == (2 * n + q) * m + r by {
      assert u == q * m + r;
      assert 2 * n * m == 2 * t * (m * k);
    }
    DivUnique(128 * t + u, m, 2 * n + q, r);
    EvenMore(n, q);
  }

  lemma EvenMore(n: nat, q: nat)
    ensures (2 * n + q) % 2 == q % 2
  {
  }

  lemma {:induction false} ShiftFirst(w: Word32, j: nat)
    ensures Shifted(w, j + 1) == Shifted(ShiftLeft(w), j)
  {
    if j > 0 {
      ShiftFirst(w, j - 1);
    }
  }

  /** After j shifts the register shows bit 7 - j of each of its four bytes. */
  lemma {:induction false} ShiftedBits(w: Word32, j: nat)
    requires j < 8
    ensures Modeless(Shifted(w, j)) == WordIndex(w, j)
    decreases j
  {
    if j > 0 {
      ShiftFirst(w, j - 1);
      ShiftedBits(ShiftLeft(w), j - 1);
      BitShift(w.b0, 0, j - 1);
      BitShift(w.b1, w.b0 / 128, j - 1);
      BitShift(w.b2, w.b1 / 128, j - 1);
      BitShift(w.b3, w.b2 / 128, j - 1);
    }
  }

  // ----- the state of the beam inside a frame -----

  predicate RowOk(io: Io, b: Beam) {
    TOP_LINE <= b.line < BOTTOM_LINE && (b.line > TOP_LINE || b.pixel >= SCROLL_PIXEL) ==>
      b.row == (io.scroll - (b.line - TOP_LINE)) % 256
  }

  /** Column and shift register just before pixel sub of a byte column. */
  predicate LatchAt(cells: Cells, b: Beam, column: nat, sub: nat) {
    if sub == 0 then b.latch.column == column
    else b.latch == Latch(column + 1, Shifted(VideoWord(cells, column, b.row), sub))
  }

  predicate ColumnOk(cells: Cells, b: Beam) {
    TOP_LINE <= b.line < BOTTOM_LINE && PICTURE_LEFT <= b.pixel < PICTURE_RIGHT ==>
      var x := (b.pixel - PICTURE_LEFT) / 2;
      LatchAt(cells, b, x / 8, x % 8)
  }

  predicate FlagsOk(scr: Screen, update: bool, b: Beam) {
    && b.vborder == (b.line < TOP_LINE || b.line >= BOTTOM_LINE)
    && b.visible == (update && b.line >= scr.firstVisible)
    && !b.brk
  }

  predicate InFrame(c: Call, io: Io, b: Beam) {
    && c.scr.Valid() && io.Valid() && io.Quiet()
    && OnScreen(b) && FlagsOk(c.scr, c.update, b) && RowOk(io, b) && ColumnOk(c.cells, b)
  }

  /** Byte column and place within it of a raster position. */
  lemma PixelParts(pixel: nat) returns (column: nat, sub: nat)
    requires PICTURE_LEFT <= pixel < PICTURE_RIGHT && pixel % 2 == 0
    ensures column < 32 && sub < 8 && pixel == PICTURE_LEFT + 16 * column + 2 * sub
    ensures var x := (pixel - PICTURE_LEFT) / 2; x == 8 * column + sub && x / 8 == column && x % 8 == sub
    ensures FetchDue(pixel - 24) <==> sub == 0
  {
    var x := (pixel - PICTURE_LEFT) / 2;
    column, sub := x / 8, x % 8;
    assert pixel - 24 == 16 * (column + 8) + 2 * sub;
  }

  /** A lookup at pixel sub of a byte column shows that bit of the fetched word, and leaves the
      register one shift on. */
  lemma LookAt(cells: Cells, io: Io, b: Beam, rpixel: int, column: nat, sub: nat)
    requires io.Valid() && LatchAt(cells, b, column, sub) && (FetchDue(rpixel) <==> sub == 0)
    ensures var word := VideoWord(cells, column, b.row);
      GetColorIndex(cells, io, b.latch, b.row, rpixel, false)
        == (Latch(column + 1, Shifted(word, sub + 1)), Modeless(Shifted(word, sub)))
  {
  }

  lemma VideoWordAt(cells: Cells, column: nat, row: nat)
    requires column < 32 && row < 256
    ensures VideoWord(cells, column, row) == WordAt(cells, 256 * column + row)
  {
  }

  /** The colour lookup answers the formula. */
  lemma ColorInPicture(cells: Cells, io: Io, b: Beam)
    requires io.Valid() && OnScreen(b) && RowOk(io, b) && ColumnOk(cells, b)
    requires !BorderAt(b.line, b.pixel)
    ensures GetColorIndex(cells, io, b.latch, b.row, b.pixel - 24, false).1 == IndexAt(cells, io, b.line, b.pixel)
  {
    var column, sub := PixelParts(b.pixel);
    var index := WordIndex(WordAt(cells, 256 * column + b.row), sub);
    assert GetColorIndex(cells, io, b.latch, b.row, b.pixel - 24, false).1 == index by {
      ColorByParts(cells, io, b, b.pixel - 24, column, sub);
    }
    assert IndexAt(cells, io, b.line, b.pixel) == index by {
      IndexByParts(cells, io, b.line, b.pixel, column, sub, b.row);
    }
  }

  lemma ColorByParts(cells: Cells, io: Io, b: Beam, rpixel: int, column: nat, sub: nat)
    requires io.Valid() && LatchAt(cells, b, column, sub) && (FetchDue(rpixel) <==> sub == 0)
    requires column < 32 && sub < 8 && 0 <= b.row < 256
    ensures GetColorIndex(cells, io, b.latch, b.row, rpixel, false).1
      == WordIndex(WordAt(cells, 256 * column + b.row), sub)
  {
    LookAt(cells, io, b, rpixel, column, sub);
    VideoWordAt(cells, column, b.row);
    ShiftedBits(WordAt(cells, 256 * column + b.row), sub);
  }

  lemma IndexByParts(cells: Cells, io: Io, line: nat, pixel: nat, column: nat, sub: nat, row: nat)
    requires io.Valid() && !BorderAt(line, pixel) && column < 32 && sub < 8
    requires var x := (pixel - PICTURE_LEFT) / 2; x / 8 == column && x % 8 == sub
    requires row == (io.scroll - (line - TOP_LINE)) % 256
    ensures IndexAt(cells, io, line, pixel) == WordIndex(WordAt(cells, 256 * column + row), sub)
  {
  }

  // ----- one step inside a frame -----

  lemma FlagsStep(scr: Screen, b: Beam, scroll: nat, update: bool, clk: int)
    requires scr.Valid() && OnScreen(b) && FlagsOk(scr, update, b) && Position(b) + 2 < FRAME_CLOCKS
    ensures FlagsOk(scr, update, MoveBeam(scr, b, scroll, update, clk))
  {
  }

  lemma RowStep(scr: Screen, io: Io, b: Beam, update: bool, clk: int)
    requires scr.Valid() && io.Valid() && OnScreen(b) && FlagsOk(scr, update, b) && RowOk(io, b)
    ensures RowOk(io, MoveBeam(scr, b, io.scroll, update, clk))
  {
    var b' := MoveBeam(scr, b, io.scroll, update, clk);
    if b.pixel + 2 == LINE_CLOCKS && TOP_LINE < b'.line < BOTTOM_LINE {
      RowAbove(io.scroll, b.line - TOP_LINE);
    }
  }

  /** The row counts down, and on from 255 after 0. */
  lemma RowAbove(scroll: nat, k: nat)
    ensures (scroll - (k + 1)) % 256 == if (scroll - k) % 256 == 0 then 0xff else (scroll - k) % 256 - 1
  {
  }

  /** Moving within a line keeps column, register and (past the scroll load) row. */
  lemma MoveInLine(scr: Screen, b: Beam, scroll: nat, update: bool, clk: int)
    requires OnScreen(b) && b.pixel + 2 < LINE_CLOCKS
    ensures var b' := MoveBeam(scr, b, scroll, update, clk);
      && b'.pixel == b.pixel + 2 && b'.line == b.line && b'.latch == b.latch
      && (b.pixel >= SCROLL_PIXEL ==> b'.row == b.row)
  {
  }

  lemma NextColumn(cells: Cells, b: Beam, b': Beam, column: nat, sub: nat)
    requires b.pixel == PICTURE_LEFT + 16 * column + 2 * sub && sub < 8
    requires b'.pixel == b.pixel + 2 && b'.row == b.row
    requires b'.latch == Latch(column + 1, Shifted(VideoWord(cells, column, b.row), sub + 1))
    ensures ColumnOk(cells, b')
  {
    if b'.pixel < PICTURE_RIGHT {
      var column', sub' := NextParts(b'.pixel, column, sub);
    }
  }

  lemma NextParts(pixel: nat, column: nat, sub: nat) returns (column': nat, sub': nat)
    requires pixel == PICTURE_LEFT + 16 * column + 2 * sub + 2 && sub < 8 && pixel < PICTURE_RIGHT
    ensures if sub == 7 then column' == column + 1 && sub' == 0 else column' == column && sub' == sub + 1
    ensures var x := (pixel - PICTURE_LEFT) / 2; x / 8 == column' && x % 8 == sub'
  {
    column', sub' := if sub == 7 then column + 1 else column, if sub == 7 then 0 else sub + 1;
    assert (pixel - PICTURE_LEFT) / 2 == 8 * column' + sub';
  }

  /** What a lookup in the picture leaves in the latch. */
  lemma LookedLatch(c: Call, s: State) returns (column: nat, sub: nat)
    requires InFrame(c, s.io, s.beam) && !BorderAt(s.beam.line, s.beam.pixel)
    ensures s.beam.pixel == PICTURE_LEFT + 16 * column + 2 * sub && sub < 8
    ensures Looked(c, s).0 == Latch(column + 1, Shifted(VideoWord(c.cells, column, s.beam.row), sub + 1))
  {
    column, sub := PixelParts(s.beam.pixel);
    LookedAt(c, s, column, sub);
  }

  lemma LookedAt(c: Call, s: State, column: nat, sub: nat)
    requires s.io.Valid() && !IsBorder(s.beam)
    requires LatchAt(c.cells, s.beam, column, sub) && (FetchDue(s.beam.pixel - 24) <==> sub == 0)
    ensures Looked(c, s).0 == Latch(column + 1, Shifted(VideoWord(c.cells, column, s.beam.row), sub + 1))
  {
    LookAt(c.cells, s.io, s.beam, s.beam.pixel - 24, column, sub);
  }

  lemma ColumnStep(c: Call, s: State, clk: int)
    requires InFrame(c, s.io, s.beam)
    ensures ColumnOk(c.cells, MoveBeam(c.scr, s.beam.(latch := Looked(c, s).0), s.io.scroll, c.update, clk))
  {
    if s.beam.pixel + 2 < LINE_CLOCKS {
      var latch := Looked(c, s).0;
      MoveInLine(c.scr, s.beam.(latch := latch), s.io.scroll, c.update, clk);
      if !BorderAt(s.beam.line, s.beam.pixel) {
        var column, sub := LookedLatch(c, s);
        NextColumn(c.cells, s.beam, MoveBeam(c.scr, s.beam.(latch := latch), s.io.scroll, c.update, clk), column, sub);
      }
    }
  }

  /** Every step but the last keeps the frame state. */
  lemma TickInFrame(c: Call, s: State, clk: int)
    requires InFrame(c, s.io, s.beam) && Position(s.beam) + 2 < FRAME_CLOCKS
    ensures var s' := Tick(c, s, clk);
      s'.io == s.io && InFrame(c, s.io, s'.beam) && Position(s'.beam) == Position(s.beam) + 2
  {
    TickPosition(c, s, clk);
    QuietStaysPut(c, s.io, Looked(c, s).1, clk);
    FlagsStep(c.scr, s.beam.(latch := Looked(c, s).0), s.io.scroll, c.update, clk);
    RowStep(c.scr, s.io, s.beam.(latch := Looked(c, s).0), c.update, clk);
    ColumnStep(c, s, clk);
  }

  /** What a step draws, by the formula. */
  lemma TickDraws(c: Call, s: State, clk: int)
    requires InFrame(c, s.io, s.beam)
    ensures Tick(c, s, clk).words == s.words + Drawn(c, s.beam, s.io, IndexAt(c.cells, s.io, s.beam.line, s.beam.pixel))
  {
    QuietStaysPut(c, s.io, Looked(c, s).1, clk);
    if !IsBorder(s.beam) {
      ColorInPicture(c.cells, s.io, s.beam);
    }
  }

  // ----- whole frames -----

  /** Raster position of bitmap column w. */
  function PixelOf(scr: Screen, w: nat): nat
    requires scr.Valid()
  {
    scr.CenterOffset() + scr.CenterOffset() % 2 + (w - w % 2)
  }

  /** Bitmap word w of a raster line. */
  function WordOf(c: Call, io: Io, line: nat, w: nat): nat
    requires c.scr.Valid() && io.Valid()
  {
    Words(io, IndexAt(c.cells, io, line, PixelOf(c.scr, w)))[w % 2]
  }

  /** The formula for the whole bitmap. */
  function BitmapWord(c: Call, io: Io, i: nat): nat
    requires c.scr.Valid() && io.Valid()
  {
    WordOf(c, io, c.scr.firstVisible + RowOf(i, c.scr.Width()), PlaceInRow(i, c.scr.Width()))
  }

  function BitmapSize(scr: Screen): nat
    requires scr.Valid()
  {
    scr.Height() * scr.Width()
  }

  function Bitmap(c: Call, io: Io): (w: seq<nat>)
    requires c.scr.Valid() && io.Valid()
    ensures |w| == BitmapSize(c.scr)
  {
    seq(BitmapSize(c.scr), i requires 0 <= i => BitmapWord(c, io, i))
  }

  /** Words of a line drawn before the beam gets to pixel. */
  function InLine(scr: Screen, pixel: nat): (n: nat)
    requires scr.Valid()
    ensures n <= scr.Width() && n % 2 == 0
  {
    var d := pixel - scr.CenterOffset();
    if d <= 0 then 0 else if d >= scr.Width() then scr.Width() else d / 2 * 2
  }

  function WordsBefore(scr: Screen, update: bool, line: nat, pixel: nat): nat
    requires scr.Valid()
  {
    if !update || line < scr.firstVisible then 0 else (line - scr.firstVisible) * scr.Width() + InLine(scr, pixel)
  }

  lemma PixelInLine(scr: Screen, pixel: nat)
    requires scr.Valid() && InBitmap(scr, pixel) && pixel % 2 == 0
    ensures var w := InLine(scr, pixel);
      w % 2 == 0 && w + 1 < scr.Width() && PixelOf(scr, w) == pixel && PixelOf(scr, w + 1) == pixel
  {
  }

  lemma WordsOfPixel(c: Call, io: Io, line: nat, pixel: nat, w: nat)
    requires c.scr.Valid() && io.Valid() && w % 2 == 0
    requires PixelOf(c.scr, w) == pixel && PixelOf(c.scr, w + 1) == pixel
    ensures Words(io, IndexAt(c.cells, io, line, pixel)) == [WordOf(c, io, line, w), WordOf(c, io, line, w + 1)]
  {
  }

  lemma BitmapWordAt(c: Call, io: Io, line: nat, w: nat)
    requires c.scr.Valid() && io.Valid() && c.scr.firstVisible <= line && w < c.scr.Width()
    ensures BitmapWord(c, io, (line - c.scr.firstVisible) * c.scr.Width() + w) == WordOf(c, io, line, w)
  {
    RowMajor(line - c.scr.firstVisible, w, c.scr.Width());
  }

  /** A drawn step draws the next two words of the formula. */
  lemma DrawnIsBitmap(c: Call, io: Io, line: nat, pixel: nat, n: nat)
    requires c.scr.Valid() && io.Valid() && c.update && c.scr.firstVisible <= line
    requires InBitmap(c.scr, pixel) && pixel % 2 == 0 && n == WordsBefore(c.scr, c.update, line, pixel)
    ensures Words(io, IndexAt(c.cells, io, line, pixel)) == [BitmapWord(c, io, n), BitmapWord(c, io, n + 1)]
  {
    hide InLine, PixelOf, BitmapWord, WordOf, Words, IndexAt, InBitmap;
    var w := InLine(c.scr, pixel);
    PixelInLine(c.scr, pixel);
    BitmapWordAt(c, io, line, w);
    BitmapWordAt(c, io, line, w + 1);
    WordsOfPixel(c, io, line, pixel, w);
  }

  /** The count of words moves with the beam, over the end of a line too. */
  lemma WordsAdvance(scr: Screen, update: bool, b: Beam)
    requires scr.Valid() && OnScreen(b) && FlagsOk(scr, update, b)
    ensures var n := WordsBefore(scr, update, b.line, b.pixel);
      var more := if b.visible && InBitmap(scr, b.pixel) then 2 else 0;
      && (b.pixel + 2 < LINE_CLOCKS ==> WordsBefore(scr, update, b.line, b.pixel + 2) == n + more)
      && (b.pixel + 2 == LINE_CLOCKS && b.line + 1 != LINES ==> WordsBefore(scr, update, b.line + 1, 0) == n + more)
      && (b.pixel + 2 == LINE_CLOCKS && b.line + 1 == LINES ==> n + more == if update then BitmapSize(scr) else 0)
  {
    InLineAdvances(scr, b.pixel);
    if b.pixel + 2 == LINE_CLOCKS && b.visible {
      NextRow(b.line - scr.firstVisible, scr.Width());
    }
  }

  lemma InLineAdvances(scr: Screen, pixel: nat)
    requires scr.Valid() && pixel < LINE_CLOCKS && pixel % 2 == 0
    ensures InLine(scr, pixel) + (if InBitmap(scr, pixel) then 2 else 0) == InLine(scr, pixel + 2)
    ensures InLine(scr, 0) == 0 && InLine(scr, LINE_CLOCKS) == scr.Width()
  {
  }

  lemma NextRow(a: nat, n: nat)
    ensures a * n + n == (a + 1) * n
  {
  }

  /** Inside a frame: the beam is in step and everything drawn so far agrees with the formula. */
  predicate FrameOk(c: Call, io: Io, s: State) {
    && s.io == io && InFrame(c, io, s.beam)
    && |s.words| == WordsBefore(c.scr, c.update, s.beam.line, s.beam.pixel)
    && forall i :: 0 <= i < |s.words| ==> s.words[i] == BitmapWord(c, io, i)
  }

  /** After the end of a frame: the whole bitmap is there, and nothing more. */
  predicate FrameDone(c: Call, io: Io, s: State) {
    && c.scr.Valid() && io.Valid() && s.io == io && io.Quiet() && OnScreen(s.beam) && s.beam.brk && !s.beam.visible
    && s.beam.vborder && s.beam.line == 0
    && |s.words| == (if c.update then BitmapSize(c.scr) else 0)
    && forall i :: 0 <= i < |s.words| ==> s.words[i] == BitmapWord(c, io, i)
  }

  lemma AppendWords(c: Call, io: Io, words: seq<nat>)
    requires c.scr.Valid() && io.Valid()
    requires forall i :: 0 <= i < |words| ==> words[i] == BitmapWord(c, io, i)
    ensures var more := words + [BitmapWord(c, io, |words|), BitmapWord(c, io, |words| + 1)];
      forall i :: 0 <= i < |more| ==> more[i] == BitmapWord(c, io, i)
  {
  }

  lemma TickWords(c: Call, io: Io, s: State, clk: int)
    requires FrameOk(c, io, s)
    ensures var s' := Tick(c, s, clk);
      && |s'.words| == |s.words| + (if s.beam.visible && InBitmap(c.scr, s.beam.pixel) then 2 else 0)
      && forall i :: 0 <= i < |s'.words| ==> s'.words[i] == BitmapWord(c, io, i)
  {
    TickDraws(c, s, clk);
    var drawn := Drawn(c, s.beam, io, IndexAt(c.cells, io, s.beam.line, s.beam.pixel));
    if s.beam.visible && InBitmap(c.scr, s.beam.pixel) {
      DrawnIsBitmap(c, io, s.beam.line, s.beam.pixel, |s.words|);
      AppendWords(c, io, s.words);
      assert drawn == [BitmapWord(c, io, |s.words|), BitmapWord(c, io, |s.words| + 1)];
    } else {
      assert s.words + drawn == s.words;
    }
  }

  lemma TickKeepsFrame(c: Call, io: Io, s: State, clk: int)
    requires FrameOk(c, io, s) && Position(s.beam) + 2 < FRAME_CLOCKS
    ensures FrameOk(c, io, Tick(c, s, clk))
  {
    TickWords(c, io, s, clk);
    TickInFrame(c, s, clk);
    WordsAdvance(c.scr, c.update, s.beam);
    SamePosition(s.beam, Tick(c, s, clk).beam);
  }

  lemma SamePosition(b: Beam, b': Beam)
    requires OnScreen(b) && OnScreen(b') && Position(b') == Position(b) + 2
    ensures if b.pixel + 2 < LINE_CLOCKS then b'.line == b.line && b'.pixel == b.pixel + 2
      else b'.line == b.line + 1 && b'.pixel == 0
  {
  }

  lemma LastTick(c: Call, io: Io, s: State, clk: int)
    requires FrameOk(c, io, s) && Position(s.beam) + 2 == FRAME_CLOCKS
    ensures FrameDone(c, io, Tick(c, s, clk)) && Position(Tick(c, s, clk).beam) == 0
  {
    TickWords(c, io, s, clk);
    TickPosition(c, s, clk);
    WordsAdvance(c.scr, c.update, s.beam);
    QuietStaysPut(c, s.io, Looked(c, s).1, clk);
  }

  /** Up to a line after the end of the frame nothing more is drawn. */
  lemma TickAfterFrame(c: Call, io: Io, s: State, clk: int)
    requires FrameDone(c, io, s) && Position(s.beam) + 2 < LINE_CLOCKS
    ensures FrameDone(c, io, Tick(c, s, clk)) && Position(Tick(c, s, clk).beam) == Position(s.beam) + 2
  {
    TickPosition(c, s, clk);
    QuietStaysPut(c, s.io, Looked(c, s).1, clk);
  }

  lemma {:induction false} FillInFrame(c: Call, io: Io, s: State, n: nat)
    requires FrameOk(c, io, s) && Position(s.beam) + 2 * n < FRAME_CLOCKS
    ensures FrameOk(c, io, Run(c, s, n)) && Position(Run(c, s, n).beam) == Position(s.beam) + 2 * n
  {
    if n > 0 {
      FillInFrame(c, io, s, n - 1);
      TickKeepsFrame(c, io, Run(c, s, n - 1), 2 * (n - 1));
      TickPosition(c, Run(c, s, n - 1), 2 * (n - 1));
    }
  }

  /** The step that ends the frame. */
  lemma FillReachesEnd(c: Call, io: Io, s: State, n: nat)
    requires FrameOk(c, io, s) && n > 0 && Position(s.beam) + 2 * n == FRAME_CLOCKS
    ensures FrameDone(c, io, Run(c, s, n)) && Position(Run(c, s, n).beam) == 0
  {
    FillInFrame(c, io, s, n - 1);
    LastTick(c, io, Run(c, s, n - 1), 2 * (n - 1));
  }

  lemma {:induction false} FillPastEnd(c: Call, io: Io, s: State, m: nat, n: nat)
    requires s.io.Valid() && m <= n && 2 * (n - m) < LINE_CLOCKS
    requires FrameDone(c, io, Run(c, s, m)) && Position(Run(c, s, m).beam) == 0
    ensures FrameDone(c, io, Run(c, s, n)) && Position(Run(c, s, n).beam) == 2 * (n - m)
  {
    hide Tick;
    if m < n {
      FillPastEnd(c, io, s, m, n - 1);
      TickAfterFrame(c, io, Run(c, s, n - 1), 2 * (n - 1));
    }
  }

  lemma FillEndsFrame(c: Call, io: Io, s: State, n: nat)
    requires FrameOk(c, io, s) && FRAME_CLOCKS <= Position(s.beam) + 2 * n && 2 * n <= LINE_CLOCKS
    ensures FrameDone(c, io, Run(c, s, n)) && Position(Run(c, s, n).beam) == Position(s.beam) + 2 * n - FRAME_CLOCKS
  {
    var m := (FRAME_CLOCKS - Position(s.beam)) / 2;
    assert Position(s.beam) % 2 == 0;
    FillReachesEnd(c, io, s, m);
    FillPastEnd(c, io, s, m, n);
  }

  lemma FilledIsRun(c: Call, s: State, n: nat)
    requires s.io.Valid() && Run(c, s, n).io.Quiet()
    ensures Filled(c, s, n) == Run(c, s, n)
  {
    QuietStaysPut(c, Run(c, s, n).io, LastIndex(c, s, n), 2 * n);
  }

  // ----- a frame as a sequence of fills -----

  /** One call of fill1: n steps, with its two commit times. */
  datatype Fill = Fill(commit: int, commitPal: int, n: nat)

  function CallOf(c: Call, f: Fill): Call {
    c.(commit := f.commit, commitPal := f.commitPal)
  }

  function Fills(c: Call, s: State, fs: seq<Fill>): (r: State)
    requires s.io.Valid()
    ensures r.io.Valid()
  {
    if fs == [] then s
    else Filled(CallOf(c, fs[|fs| - 1]), Fills(c, s, fs[..|fs| - 1]), fs[|fs| - 1].n)
  }

  function Steps(fs: seq<Fill>): nat {
    if fs == [] then 0 else Steps(fs[..|fs| - 1]) + fs[|fs| - 1].n
  }

  /** reset() at the start of a frame: the horizontal position is carried over. */
  function Reset(b: Beam): Beam {
    b.(line := 0, latch := b.latch.(column := 0), row := 0, vborder := true, visible := false, brk := false,
       irq := false)
  }

  lemma ResetIsInFrame(c: Call, io: Io, b: Beam)
    requires c.scr.Valid() && io.Valid() && io.Quiet() && OnScreen(b)
    ensures FrameOk(c, io, State(Reset(b), io, []))
  {
  }

  lemma SameFrame(c: Call, f: Fill, io: Io, s: State)
    requires FrameOk(c, io, s)
    ensures FrameOk(CallOf(c, f), io, s)
  {
    forall i | 0 <= i < |s.words| ensures s.words[i] == BitmapWord(CallOf(c, f), io, i) {
      assert s.words[i] == BitmapWord(c, io, i);
    }
  }

  lemma SameFrameBack(c: Call, f: Fill, io: Io, s: State)
    ensures FrameOk(CallOf(c, f), io, s) ==> FrameOk(c, io, s)
    ensures FrameDone(CallOf(c, f), io, s) ==> FrameDone(c, io, s)
  {
    if FrameOk(CallOf(c, f), io, s) || FrameDone(CallOf(c, f), io, s) {
      forall i | 0 <= i < |s.words| ensures s.words[i] == BitmapWord(c, io, i) {
        assert s.words[i] == BitmapWord(CallOf(c, f), io, i);
      }
    }
  }

  lemma {:induction false} FillsInFrame(c: Call, io: Io, s: State, fs: seq<Fill>)
    requires FrameOk(c, io, s) && Position(s.beam) + 2 * Steps(fs) < FRAME_CLOCKS
    ensures FrameOk(c, io, Fills(c, s, fs)) && Position(Fills(c, s, fs).beam) == Position(s.beam) + 2 * Steps(fs)
  {
    if fs != [] {
      var front, last := fs[..|fs| - 1], fs[|fs| - 1];
      FillsInFrame(c, io, s, front);
      SameFrame(c, last, io, Fills(c, s, front));
      FillInFrame(CallOf(c, last), io, Fills(c, s, front), last.n);
      FilledIsRun(CallOf(c, last), Fills(c, s, front), last.n);
      SameFrameBack(c, last, io, Fills(c, s, fs));
    }
  }

  /** From the start of a frame, any sequence of fills that reaches its end only with its last,
      each at most a line long, with the ports at rest, draws the whole bitmap exactly as the
      formula says: screen_width * screen_height words when the frame is shown, none when not. */
  lemma FrameIsDrawn(c: Call, io: Io, b: Beam, fs: seq<Fill>)
    requires c.scr.Valid() && io.Valid() && io.Quiet() && OnScreen(b) && fs != []
    requires var before := b.pixel + 2 * Steps(fs[..|fs| - 1]);
      before < FRAME_CLOCKS <= before + 2 * fs[|fs| - 1].n && 2 * fs[|fs| - 1].n <= LINE_CLOCKS
    ensures var s := Fills(c, State(Reset(b), io, []), fs);
      && s.beam.brk && Position(s.beam) == b.pixel + 2 * Steps(fs) - FRAME_CLOCKS
      && s.words == if c.update then Bitmap(c, io) else []
  {
    var s0 := State(Reset(b), io, []);
    var front, last := fs[..|fs| - 1], fs[|fs| - 1];
    ResetIsInFrame(c, io, b);
    FillsInFrame(c, io, s0, front);
    SameFrame(c, last, io, Fills(c, s0, front));
    FillEndsFrame(CallOf(c, last), io, Fills(c, s0, front), last.n);
    FilledIsRun(CallOf(c, last), Fills(c, s0, front), last.n);
    SameFrameBack(c, last, io, Fills(c, s0, fs));
  }

  /** The same index by memory addresses: bits 3 to 0 come from the planes at 0x8000, 0xA000,
      0xC000 and 0xE000. */
  function RamIndex(cells: Cells, a: nat, j: nat): (n: nat)
    requires a < 0x2000 && j < 8
    ensures n < 16
  {
    8 * Bit(Cell(cells, 0x8000 + a), j) + 4 * Bit(Cell(cells, 0xa000 + a), j)
    + 2 * Bit(Cell(cells, 0xc000 + a), j) + Bit(Cell(cells, 0xe000 + a), j)
  }

  lemma PlaneCell(cells: Cells, plane: nat, a: nat)
    requires plane < 4 && a < 0x2000
    ensures Cell(cells, 0x8000 + 0x2000 * plane + a) == cells[0x8000 + 4 * a + plane]
  {
    ToBankFields(1, plane, a);
  }

  /** The word fetched at a plane address joins the bytes of that address of the four planes. */
  lemma WordJoinsPlanes(cells: Cells, a: nat, j: nat)
    requires a < 0x2000 && j < 8
    ensures WordAt(cells, a) == Word32(Cell(cells, 0x8000 + a), Cell(cells, 0xa000 + a), Cell(cells, 0xc000 + a),
                                       Cell(cells, 0xe000 + a))
    ensures WordIndex(WordAt(cells, a), j) == RamIndex(cells, a, j)
  {
    PlaneCell(cells, 0, a);
    PlaneCell(cells, 1, a);
    PlaneCell(cells, 2, a);
    PlaneCell(cells, 3, a);
  }

  /** The same, read at picture pixel (x, k): in 256-colour mode both its words are the palette
      entry whose index comes from bit 7 - x % 8 of the four planes' bytes. */
  lemma PictureWords(c: Call, io: Io, x: nat, k: nat, n: nat)
    requires c.scr.Valid() && io.Valid() && !io.mode512 && c.update && x < 256 && k < 256
    requires TOP_LINE + k >= c.scr.firstVisible && n == WordsBefore(c.scr, c.update, TOP_LINE + k, PICTURE_LEFT + 2 * x)
    ensures BitmapWord(c, io, n) == BitmapWord(c, io, n + 1)
      == io.palette[RamIndex(c.cells, PlaneAddress(io.scroll, x, k), x % 8)]
  {
    DrawnIsBitmap(c, io, TOP_LINE + k, PICTURE_LEFT + 2 * x, n);
    InPicture(c, io, x, k);
    WordJoinsPlanes(c.cells, PlaneAddress(io.scroll, x, k), x % 8);
    var index := PictureIndex(c.cells, io.scroll, x, k);
    PairOf(Words(io, IndexAt(c.cells, io, TOP_LINE + k, PICTURE_LEFT + 2 * x)), io.palette[index],
           BitmapWord(c, io, n), BitmapWord(c, io, n + 1));
  }

  lemma InPicture(c: Call, io: Io, x: nat, k: nat)
    requires io.Valid() && !io.mode512 && x < 256 && k < 256
    ensures var color := io.palette[PictureIndex(c.cells, io.scroll, x, k)];
      Words(io, IndexAt(c.cells, io, TOP_LINE + k, PICTURE_LEFT + 2 * x)) == [color, color]
  {
    assert (PICTURE_LEFT + 2 * x - PICTURE_LEFT) / 2 == x;
  }

  /** In the 512-pixel mode the two words of picture pixel (x, k) are two half-pixels of four colours
      each: the first from the planes at 0xE000 and 0xC000, the second from those at 0xA000 and 0x8000. */
  lemma PictureHalfPixels(c: Call, io: Io, x: nat, k: nat, n: nat)
    requires c.scr.Valid() && io.Valid() && io.mode512 && c.update && x < 256 && k < 256
    requires TOP_LINE + k >= c.scr.firstVisible && n == WordsBefore(c.scr, c.update, TOP_LINE + k, PICTURE_LEFT + 2 * x)
    ensures var a, j := PlaneAddress(io.scroll, x, k), x % 8;
      && BitmapWord(c, io, n) == io.palette[Bit(Cell(c.cells, 0xe000 + a), j) + 2 * Bit(Cell(c.cells, 0xc000 + a), j)]
      && BitmapWord(c, io, n + 1)
         == io.palette[4 * Bit(Cell(c.cells, 0xa000 + a), j) + 8 * Bit(Cell(c.cells, 0x8000 + a), j)]
  {
    hide BitmapWord, WordsBefore, Cell, Bit, Words, WordIndex, WordAt, RamIndex, PictureIndex, IndexAt, PlaneAddress;
    IndexFromRam(c.cells, io.scroll, x, k);
    RamHalves(c.cells, PlaneAddress(io.scroll, x, k), x % 8);
    DrawnIsBitmap(c, io, TOP_LINE + k, PICTURE_LEFT + 2 * x, n);
    PictureHalves(c, io, x, k);
    var index := PictureIndex(c.cells, io.scroll, x, k);
    HalvesOf(Words(io, IndexAt(c.cells, io, TOP_LINE + k, PICTURE_LEFT + 2 * x)), io.palette[index % 4],
             io.palette[index - index % 4], BitmapWord(c, io, n), BitmapWord(c, io, n + 1));
  }

  lemma IndexFromRam(cells: Cells, scroll: nat, x: nat, k: nat)
    requires x < 256
    ensures PictureIndex(cells, scroll, x, k) == RamIndex(cells, PlaneAddress(scroll, x, k), x % 8)
  {
    hide RamIndex, WordIndex, WordAt, PlaneAddress;
    WordJoinsPlanes(cells, PlaneAddress(scroll, x, k), x % 8);
  }

  lemma RamHalves(cells: Cells, a: nat, j: nat)
    requires a < 0x2000 && j < 8
    ensures var index := RamIndex(cells, a, j);
      && index % 4 == Bit(Cell(cells, 0xe000 + a), j) + 2 * Bit(Cell(cells, 0xc000 + a), j)
      && index - index % 4 == 4 * Bit(Cell(cells, 0xa000 + a), j) + 8 * Bit(Cell(cells, 0x8000 + a), j)
  {
    hide Cell, Bit;
  }

  lemma PictureHalves(c: Call, io: Io, x: nat, k: nat)
    requires io.Valid() && io.mode512 && x < 256 && k < 256
    ensures var index := PictureIndex(c.cells, io.scroll, x, k);
      Words(io, IndexAt(c.cells, io, TOP_LINE + k, PICTURE_LEFT + 2 * x))
      == [io.palette[index % 4], io.palette[index - index % 4]]
  {
    hide PictureIndex;
    assert (PICTURE_LEFT + 2 * x - PICTURE_LEFT) / 2 == x;
  }

  lemma HalvesOf(w: seq<nat>, first: nat, second: nat, a: nat, b: nat)
    requires w == [first, second] == [a, b]
    ensures a == first && b == second
  {
    assert w[0] == a && w[1] == b;
  }

  /** In the border the two words are one colour, and in the 512-pixel mode that of the two low bits of
      the border index before that of the two high ones. */
  lemma BorderHalfPixels(c: Call, io: Io, line: nat, pixel: nat, n: nat, b3: nat, b2: nat, b1: nat, b0: nat)
    requires c.scr.Valid() && io.Valid() && c.update && c.scr.firstVisible <= line && BorderAt(line, pixel)
    requires InBitmap(c.scr, pixel) && pixel % 2 == 0 && n == WordsBefore(c.scr, c.update, line, pixel)
    requires b3 <= 1 && b2 <= 1 && b1 <= 1 && b0 <= 1 && io.border == 8 * b3 + 4 * b2 + 2 * b1 + b0
    ensures BitmapWord(c, io, n) == io.palette[if io.mode512 then 2 * b1 + b0 else io.border]
    ensures BitmapWord(c, io, n + 1) == io.palette[if io.mode512 then 8 * b3 + 4 * b2 else io.border]
  {
    hide BitmapWord, WordsBefore, PictureIndex;
    DrawnIsBitmap(c, io, line, pixel, n);
    var w := Words(io, IndexAt(c.cells, io, line, pixel));
    assert w[0] == BitmapWord(c, io, n) && w[1] == BitmapWord(c, io, n + 1);
  }

  lemma PairOf(w: seq<nat>, color: nat, a: nat, b: nat)
    requires w == [color, color] == [a, b]
    ensures a == b == color
  {
    assert w[0] == a && w[1] == b;
  }

  // ----- every video word is fetched once -----

  /** Inside a frame a step reloads the register exactly at every eighth picture pixel, with the
      word at that pixel's plane address. */
  lemma FetchInFrame(c: Call, io: Io, b: Beam)
    requires InFrame(c, io, b)
    ensures !IsBorder(b) && FetchDue(b.pixel - 24)
      <==> !BorderAt(b.line, b.pixel) && (b.pixel - PICTURE_LEFT) / 2 % 8 == 0
    ensures !IsBorder(b) && FetchDue(b.pixel - 24) ==>
      Register(c.cells, b.latch, b.row, b.pixel - 24)
        == WordAt(c.cells, PlaneAddress(io.scroll, (b.pixel - PICTURE_LEFT) / 2, b.line - TOP_LINE))
  {
    if !BorderAt(b.line, b.pixel) {
      var column, sub := PixelParts(b.pixel);
      VideoWordAt(c.cells, column, b.row);
    }
  }

  /** The plane address that the step from s fetches, if it fetches. */
  function FetchedAt(s: State): Option<nat> {
    if !IsBorder(s.beam) && FetchDue(s.beam.pixel - 24) then Some(s.beam.latch.column % 256 * 256 + s.beam.row % 256)
    else None
  }

  /** How often n steps fetch plane address a. */
  function Fetches(c: Call, s: State, n: nat, a: nat): nat
    requires s.io.Valid()
  {
    if n == 0 then 0 else Fetches(c, s, n - 1, a) + if FetchedAt(Run(c, s, n - 1)) == Some(a) then 1 else 0
  }

  /** The same over a run of fills. */
  function FetchesOfFills(c: Call, s: State, fs: seq<Fill>, a: nat): nat
    requires s.io.Valid()
  {
    if fs == [] then 0
    else
      var front, last := fs[..|fs| - 1], fs[|fs| - 1];
      FetchesOfFills(c, s, front, a) + Fetches(CallOf(c, last), Fills(c, s, front), last.n, a)
  }

  /** Clocks from the start of a frame to the fetch of plane address a. */
  function FetchClock(scroll: nat, a: nat): nat {
    (TOP_LINE + (scroll - a % 256) % 256) * LINE_CLOCKS + PICTURE_LEFT + 16 * (a / 256)
  }

  /** A place of the picture fetches a exactly when it is the one of a. */
  lemma FetchClockIs(scroll: nat, a: nat, k: nat, column: nat)
    requires a < 0x2000 && k < 256 && column < 32
    ensures 256 * column + (scroll - k) % 256 == a
       <==> (TOP_LINE + k) * LINE_CLOCKS + PICTURE_LEFT + 16 * column == FetchClock(scroll, a)
  {
    var k', column' := (scroll - a % 256) % 256, a / 256;
    assert (scroll - k') % 256 == a % 256;
    if 256 * column + (scroll - k) % 256 == a {
      assert a % 256 == (scroll - k) % 256;
    }
  }

  /** Inside a frame a step fetches a exactly at its clock. */
  lemma FetchedAtItsClock(c: Call, io: Io, s: State, a: nat)
    requires InFrame(c, io, s.beam) && s.io == io && a < 0x2000
    ensures FetchedAt(s) == Some(a) <==> Position(s.beam) == FetchClock(io.scroll, a)
  {
    hide FetchClock;
    var b := s.beam;
    if BorderAt(b.line, b.pixel) {
      FetchIsInPicture(io.scroll, a, b);
    } else {
      var column, sub := PixelParts(b.pixel);
      FetchIsFirst(io.scroll, a, b.line, column, sub);
      if sub == 0 {
        FetchClockIs(io.scroll, a, b.line - TOP_LINE, column);
        FetchedInColumn(s, column);
      }
    }
  }

  lemma FetchedInColumn(s: State, column: nat)
    requires column < 32 && 0 <= s.beam.row < 256 && s.beam.latch.column == column
    requires !IsBorder(s.beam) && FetchDue(s.beam.pixel - 24)
    ensures FetchedAt(s) == Some(256 * column + s.beam.row)
  {
  }

  lemma FetchIsFirst(scroll: nat, a: nat, line: nat, column: nat, sub: nat)
    requires sub < 8 && column < 32 && a < 0x2000
    ensures line * LINE_CLOCKS + PICTURE_LEFT + 16 * column + 2 * sub == FetchClock(scroll, a) ==> sub == 0
  {
  }

  lemma FetchIsInPicture(scroll: nat, a: nat, b: Beam)
    requires a < 0x2000 && OnScreen(b)
    ensures Position(b) == FetchClock(scroll, a) ==> !BorderAt(b.line, b.pixel)
  {
    var k: nat, column: nat := (scroll - a % 256) % 256, a / 256;
    assert k < 256 && column < 32;
  }

  lemma FetchClockBounds(scroll: nat, a: nat)
    requires a < 0x2000
    ensures LINE_CLOCKS <= FetchClock(scroll, a) < FRAME_CLOCKS && FetchClock(scroll, a) % 2 == 0
  {
  }

  /** Within a frame, n steps fetch a once if they pass its clock, and never otherwise. */
  lemma {:induction false} FetchesInFrame(c: Call, io: Io, s: State, n: nat, a: nat)
    requires FrameOk(c, io, s) && Position(s.beam) + 2 * n <= FRAME_CLOCKS && a < 0x2000
    ensures Fetches(c, s, n, a)
         == if Position(s.beam) <= FetchClock(io.scroll, a) < Position(s.beam) + 2 * n then 1 else 0
  {
    hide FetchedAt, FrameOk, Run, FetchClock, Position;
    FrameOkGives(c, io, s);
    FetchClockBounds(io.scroll, a);
    if n > 0 {
      FetchesInFrame(c, io, s, n - 1, a);
      FillInFrame(c, io, s, n - 1);
      FrameOkGives(c, io, Run(c, s, n - 1));
      FetchedAtItsClock(c, io, Run(c, s, n - 1), a);
    }
  }

  lemma FrameOkGives(c: Call, io: Io, s: State)
    requires FrameOk(c, io, s)
    ensures InFrame(c, io, s.beam) && s.io == io && io.Valid() && Position(s.beam) % 2 == 0
  {
  }

  /** Steps in the first line past the end of a frame fetch nothing. */
  lemma {:induction false} NoFetchPastEnd(c: Call, io: Io, s: State, m: nat, n: nat, a: nat)
    requires s.io.Valid() && m <= n && 2 * (n - m) < LINE_CLOCKS
    requires FrameDone(c, io, Run(c, s, m)) && Position(Run(c, s, m).beam) == 0
    ensures Fetches(c, s, n, a) == Fetches(c, s, m, a)
  {
    hide Tick, Run;
    if m < n {
      NoFetchPastEnd(c, io, s, m, n - 1, a);
      FillPastEnd(c, io, s, m, n - 1);
    }
  }

  /** The fill that ends a frame fetches what is left. */
  lemma FetchesAtEnd(c: Call, io: Io, s: State, n: nat, a: nat)
    requires FrameOk(c, io, s) && FRAME_CLOCKS <= Position(s.beam) + 2 * n && 2 * n <= LINE_CLOCKS && a < 0x2000
    ensures Fetches(c, s, n, a) == if Position(s.beam) <= FetchClock(io.scroll, a) then 1 else 0
  {
    hide FrameDone, Run, Fetches, FetchClock;
    FetchClockBounds(io.scroll, a);
    var m := (FRAME_CLOCKS - Position(s.beam)) / 2;
    assert Position(s.beam) % 2 == 0;
    FillReachesEnd(c, io, s, m);
    FetchesInFrame(c, io, s, m, a);
    NoFetchPastEnd(c, io, s, m, n, a);
  }

  lemma {:induction false} FetchesOfFillsInFrame(c: Call, io: Io, s: State, fs: seq<Fill>, a: nat)
    requires FrameOk(c, io, s) && Position(s.beam) + 2 * Steps(fs) < FRAME_CLOCKS && a < 0x2000
    ensures FetchesOfFills(c, s, fs, a)
         == if Position(s.beam) <= FetchClock(io.scroll, a) < Position(s.beam) + 2 * Steps(fs) then 1 else 0
  {
    hide FrameOk, FetchClock, Fetches, Position, Filled, InFrame;
    FrameOkGives(c, io, s);
    FetchClockBounds(io.scroll, a);
    if fs != [] {
      var front, last := fs[..|fs| - 1], fs[|fs| - 1];
      FetchesOfFillsInFrame(c, io, s, front, a);
      FillsInFrame(c, io, s, front);
      SameFrame(c, last, io, Fills(c, s, front));
      FetchesInFrame(CallOf(c, last), io, Fills(c, s, front), last.n, a);
    }
  }

  /** Over a whole frame, however it is cut into fills and whether it is shown or not, every plane
      address is fetched exactly once. */
  lemma FetchedOnce(c: Call, io: Io, b: Beam, fs: seq<Fill>, a: nat)
    requires c.scr.Valid() && io.Valid() && io.Quiet() && OnScreen(b) && fs != [] && a < 0x2000
    requires var before := b.pixel + 2 * Steps(fs[..|fs| - 1]);
      before < FRAME_CLOCKS <= before + 2 * fs[|fs| - 1].n && 2 * fs[|fs| - 1].n <= LINE_CLOCKS
    ensures FetchesOfFills(c, State(Reset(b), io, []), fs, a) == 1
  {
    hide FrameOk, Fetches, FetchClock, Filled;
    FetchClockBounds(io.scroll, a);
    var s0 := State(Reset(b), io, []);
    var front, last := fs[..|fs| - 1], fs[|fs| - 1];
    ResetIsInFrame(c, io, b);
    FillsInFrame(c, io, s0, front);
    FetchesOfFillsInFrame(c, io, s0, front, a);
    SameFrame(c, last, io, Fills(c, s0, front));
    FetchesAtEnd(CallOf(c, last), io, Fills(c, s0, front), last.n, a);
  }
}
