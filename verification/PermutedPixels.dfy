/** The permuted shift register of src/filler.cpp (USE_BIT_PERMUTE) beside the plane register it
    replaces: four permutation steps at the fetch buy one plain shift per pixel. */
module PermutedPixels {
  import opened Bytes
  import opened Raster
  import opened RasterFrame

  // bit_permute_step, once for each shift it is called with
  function PermuteStep9(x: bv32): bv32 { var t := ((x >> 9) ^ x) & 0x0055_0055; (x ^ t) ^ (t << 9) }

  function PermuteStep18(x: bv32): bv32 { var t := ((x >> 18) ^ x) & 0x0000_3333; (x ^ t) ^ (t << 18) }

  function PermuteStep12(x: bv32): bv32 { var t := ((x >> 12) ^ x) & 0x000f_000f; (x ^ t) ^ (t << 12) }

  function PermuteStep24(x: bv32): bv32 { var t := ((x >> 24) ^ x) & 0x0000_00ff; (x ^ t) ^ (t << 24) }

  /** The permutation at the fetch. */
  function Grouped(w: bv32): bv32 {
    PermuteStep24(PermuteStep12(PermuteStep18(PermuteStep9(w))))
  }

  /** One pixel out of the permuted register: its top four bits. */
  function GroupedPixel(g: bv32): bv32 { g >> 28 }

  /** One pixel out of the plane register: the top bit of every byte. */
  function PlanePixel(p: bv32): bv32 {
    ((p >> 4) & 8) | ((p >> 13) & 4) | ((p >> 22) & 2) | ((p >> 31) & 1)
  }

  /** The permuted register after j pixels. */
  function GroupedAfter(x: bv32, j: nat): bv32
    requires j < 8
  {
    match j
    case 0 => x
    case 1 => x << 4
    case 2 => x << 4 << 4
    case 3 => x << 4 << 4 << 4
    case 4 => x << 4 << 4 << 4 << 4
    case 5 => x << 4 << 4 << 4 << 4 << 4
    case 6 => x << 4 << 4 << 4 << 4 << 4 << 4
    case _ => x << 4 << 4 << 4 << 4 << 4 << 4 << 4
  }

  function ShiftWord(x: bv32): bv32 { x << 1 }

  /** The plane register after j pixels. */
  function PlanesAfter(x: bv32, j: nat): bv32
    requires j < 8
  {
    match j
    case 0 => x
    case 1 => ShiftWord(x)
    case 2 => ShiftWord(ShiftWord(x))
    case 3 => ShiftWord(ShiftWord(ShiftWord(x)))
    case 4 => ShiftWord(ShiftWord(ShiftWord(ShiftWord(x))))
    case 5 => ShiftWord(ShiftWord(ShiftWord(ShiftWord(ShiftWord(x)))))
    case 6 => ShiftWord(ShiftWord(ShiftWord(ShiftWord(ShiftWord(ShiftWord(x))))))
    case _ => ShiftWord(ShiftWord(ShiftWord(ShiftWord(ShiftWord(ShiftWord(ShiftWord(x)))))))
  }

  /** The two registers yield the same eight pixels, and the next fetch comes before a ninth. */
  lemma GroupedRefinesPlanes(w: bv32, j: nat)
    requires j < 8
    ensures GroupedPixel(GroupedAfter(Grouped(w), j)) == PlanePixel(PlanesAfter(w, j))
  {
    match j
    case 0 => case 1 => case 2 => case 3 => case 4 => case 5 => case 6 => case _ =>
  }

  /** A ninth pixel would differ: the permuted register is then empty, the plane register is not. */
  lemma NinthPixelDiffers(w: bv32)
    ensures GroupedPixel(GroupedAfter(Grouped(w), 7) << 4) == 0
    ensures PlanePixel(ShiftWord(PlanesAfter(0x80, 7))) == 4
  {
  }

  // ----- the register of the frame -----

  // the four bytes of a word, lowest first
  function Byte0(x: bv32): bv8 { (x & 0xff) as bv8 }

  function Byte1(x: bv32): bv8 { ((x >> 8) & 0xff) as bv8 }

  function Byte2(x: bv32): bv8 { ((x >> 16) & 0xff) as bv8 }

  function Byte3(x: bv32): bv8 { ((x >> 24) & 0xff) as bv8 }

  /** A 32-bit word as the four bytes that the beam machine keeps. */
  function ToWord(x: bv32): Word32 {
    Word32(Value(Byte0(x)), Value(Byte1(x)), Value(Byte2(x)), Value(Byte3(x)))
  }

  function Value(b: bv8): byte { b as int }

  function Joined(b0: bv8, b1: bv8, b2: bv8, b3: bv8): bv32 {
    (b3 as bv32 << 24) | (b2 as bv32 << 16) | (b1 as bv32 << 8) | b0 as bv32
  }

  function OfWord(w: Word32): bv32 { Joined(Bits(w.b0), Bits(w.b1), Bits(w.b2), Bits(w.b3)) }

  lemma JoinedBytes(b0: bv8, b1: bv8, b2: bv8, b3: bv8)
    ensures var x := Joined(b0, b1, b2, b3); Byte0(x) == b0 && Byte1(x) == b1 && Byte2(x) == b2 && Byte3(x) == b3
  {
  }

  /** A byte as bits. */
  function Bits(b: byte): bv8
    decreases b
  {
    if b == 0 then 0 else OneMore(Bits(b - 1))
  }

  function OneMore(b: bv8): bv8 { b + 1 }

  lemma OneMoreValue(b: bv8)
    requires Value(b) < 255
    ensures Value(OneMore(b)) == Value(b) + 1
  {
  }

  lemma NoBits()
    ensures Value(Bits(0)) == 0
  {
  }

  lemma {:induction false} ByteThereAndBack(b: byte)
    ensures Value(Bits(b)) == b
    decreases b
  {
    hide Value, OneMore;
    if b == 0 {
      NoBits();
    } else {
      ByteThereAndBack(b - 1);
      OneMoreValue(Bits(b - 1));
    }
  }

  lemma WordThereAndBack(w: Word32)
    ensures ToWord(OfWord(w)) == w
  {
    hide Joined, Byte0, Byte1, Byte2, Byte3, Value, Bits;
    JoinedBytes(Bits(w.b0), Bits(w.b1), Bits(w.b2), Bits(w.b3));
    ByteThereAndBack(w.b0);
    ByteThereAndBack(w.b1);
    ByteThereAndBack(w.b2);
    ByteThereAndBack(w.b3);
  }

  // a byte shifted by one, its top bit, and a bit taken in below

  function ShiftBits(b: bv8): bv8 { b << 1 }

  function TopBit(b: bv8): bv8 { b >> 7 }

  function TakeBit(b: bv8, c: bv8): bv8 { b | c }

  lemma ShiftedBytes(x: bv32)
    ensures Byte0(ShiftWord(x)) == ShiftBits(Byte0(x))
    ensures Byte1(ShiftWord(x)) == TakeBit(ShiftBits(Byte1(x)), TopBit(Byte0(x)))
    ensures Byte2(ShiftWord(x)) == TakeBit(ShiftBits(Byte2(x)), TopBit(Byte1(x)))
    ensures Byte3(ShiftWord(x)) == TakeBit(ShiftBits(Byte3(x)), TopBit(Byte2(x)))
  {
  }

  lemma ShiftValue(b: bv8)
    ensures Value(ShiftBits(b)) == 2 * Value(b) % 256
  {
  }

  lemma TopValue(b: bv8)
    ensures Value(TopBit(b)) == Value(b) / 128
  {
  }

  lemma TopIsBit(b: bv8)
    ensures TopBit(b) <= 1
  {
  }

  lemma TakenValue(b: bv8, c: bv8)
    requires c <= 1
    ensures Value(TakeBit(ShiftBits(b), c)) == Value(ShiftBits(b)) + Value(c)
  {
  }

  lemma ShiftedByte(b: bv8, c: bv8)
    ensures Value(ShiftBits(b)) == ShiftByte(Value(b), 0)
    ensures Value(TakeBit(ShiftBits(b), TopBit(c))) == ShiftByte(Value(b), Value(c) / 128)
  {
    hide ShiftBits, TopBit, TakeBit, Value;
    ShiftValue(b);
    TopValue(c);
    TopIsBit(c);
    TakenValue(b, TopBit(c));
  }

  /** The plain shift of the word is the shift of the beam machine. */
  lemma ShiftIsShift(x: bv32)
    ensures ToWord(ShiftWord(x)) == ShiftLeft(ToWord(x))
  {
    hide Byte0, Byte1, Byte2, Byte3, ShiftWord, ShiftBits, TopBit, TakeBit, Value, ShiftByte;
    ShiftedBytes(x);
    ShiftedByte(Byte0(x), Byte0(x));
    ShiftedByte(Byte1(x), Byte0(x));
    ShiftedByte(Byte2(x), Byte1(x));
    ShiftedByte(Byte3(x), Byte2(x));
  }

  function FourBits(a: bv8, b: bv8, c: bv8, d: bv8): bv8 { (a << 3) | (b << 2) | (c << 1) | d }

  function Widened(b: bv8): bv32 { b as bv32 }

  lemma PixelBits(x: bv32)
    ensures PlanePixel(x) == Widened(FourBits(TopBit(Byte0(x)), TopBit(Byte1(x)), TopBit(Byte2(x)), TopBit(Byte3(x))))
  {
  }

  lemma FourBitsValue(a: bv8, b: bv8, c: bv8, d: bv8)
    requires a <= 1 && b <= 1 && c <= 1 && d <= 1
    ensures Value(FourBits(a, b, c, d)) == 8 * Value(a) + 4 * Value(b) + 2 * Value(c) + Value(d)
  {
  }

  /** The pixel of the plane register is that of the beam machine. */
  lemma PixelIsModeless(x: bv32) returns (n: bv8)
    ensures PlanePixel(x) == Widened(n) && Value(n) == Modeless(ToWord(x))
  {
    hide PlanePixel, Byte0, Byte1, Byte2, Byte3, FourBits, TopBit, Widened, Value;
    PixelBits(x);
    var a, b, c, d := Byte0(x), Byte1(x), Byte2(x), Byte3(x);
    TopIsBit(a);
    TopIsBit(b);
    TopIsBit(c);
    TopIsBit(d);
    TopValue(a);
    TopValue(b);
    TopValue(c);
    TopValue(d);
    FourBitsValue(TopBit(a), TopBit(b), TopBit(c), TopBit(d));
    n := FourBits(TopBit(a), TopBit(b), TopBit(c), TopBit(d));
  }

  lemma PlanesAfterNext(x: bv32, j: nat)
    requires 0 < j < 8
    ensures PlanesAfter(x, j) == ShiftWord(PlanesAfter(x, j - 1))
  {
    hide ShiftWord;
  }

  lemma {:induction false} PlanesAreShifted(x: bv32, j: nat)
    requires j < 8
    ensures ToWord(PlanesAfter(x, j)) == Shifted(ToWord(x), j)
  {
    hide ToWord, ShiftLeft, PlanesAfter, ShiftWord;
    if j == 0 {
      NoPlanesAfter(x);
    } else {
      PlanesAreShifted(x, j - 1);
      PlanesAfterNext(x, j);
      ShiftIsShift(PlanesAfter(x, j - 1));
    }
  }

  lemma NoPlanesAfter(x: bv32)
    ensures PlanesAfter(x, 0) == x
  {
  }

  /** The permuted register yields, pixel by pixel, what the register of the beam machine does: bit 7 - j
      of each of the four bytes of the fetched word. */
  lemma PermutedIsShifted(w: Word32, j: nat) returns (n: bv8)
    requires j < 8
    ensures GroupedPixel(GroupedAfter(Grouped(OfWord(w)), j)) == Widened(n)
    ensures Value(n) == Modeless(Shifted(w, j)) == WordIndex(w, j)
  {
    hide Grouped, GroupedPixel, GroupedAfter, PlanesAfter, PlanePixel, ToWord, OfWord, Modeless, Shifted, WordIndex,
      Widened, Value;
    WordThereAndBack(w);
    GroupedRefinesPlanes(OfWord(w), j);
    PlanesAreShifted(OfWord(w), j);
    n := PixelIsModeless(PlanesAfter(OfWord(w), j));
    ShiftedBits(w, j);
  }
}
