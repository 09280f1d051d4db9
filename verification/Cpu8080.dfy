/** The arithmetic of the processor by its tables, the flag byte and the stack
    (src/i8080.cpp: ADD, ADC, SUB, SBB, CMP, DAA, PUSH, POP, HLT, RST 7). */
module Cpu8080 {
  import opened Bytes
  import opened MemoryMap

  datatype Flags = Flags(sign: bool, zero: bool, half: bool, parity: bool, carry: bool)

  // ----- what the operations mean -----

  predicate EvenParity(x: nat) {
    if x == 0 then true else EvenParity(x / 2) != (x % 2 == 1)
  }

  /** a + v + c: the low byte, and the flags with the true carries out of bits 3 and 7. */
  function Sum(a: byte, v: byte, c: bool): (byte, Flags) {
    var t := a + v + One(c);
    (t % 256, Flags(t % 256 >= 128, t % 256 == 0, a % 16 + v % 16 + One(c) >= 16, EvenParity(t % 256), t >= 256))
  }

  /** a - v - b: the low byte, the borrow in the carry flag, and in the half carry flag the absence
      of a borrow from bit 4. */
  function Difference(a: byte, v: byte, b: bool): (byte, Flags) {
    var t := a - v - One(b);
    (t % 256, Flags(t % 256 >= 128, t % 256 == 0, a % 16 >= v % 16 + One(b), EvenParity(t % 256), t < 0))
  }

  // ----- what the flags tell -----

  /** How many bits are set. */
  function Ones(x: nat): nat { if x == 0 then 0 else x % 2 + Ones(x / 2) }

  lemma {:induction false} CountsOnes(x: nat)
    ensures EvenParity(x) <==> Ones(x) % 2 == 0
  {
    if x > 0 {
      CountsOnes(x / 2);
    }
  }

  /** S, Z and P are those of byte r. */
  predicate Tells(r: byte, f: Flags) {
    f.sign == (r >= 0x80) && f.zero == (r == 0) && f.parity == (Ones(r) % 2 == 0)
  }

  /** After ADC the flags tell of the result, and the carry that the sum left the byte. */
  lemma SumTells(a: byte, v: byte, c: bool)
    ensures var (r, f) := Sum(a, v, c);
      Tells(r, f) && (f.carry <==> a + v + One(c) > 0xff) && r + 256 * One(f.carry) == a + v + One(c)
  {
    hide EvenParity;
    CountsOnes(Sum(a, v, c).0);
  }

  /** After a subtraction or a comparison Z tells that the operands are the same, and the carry that the
      first is less. */
  lemma DifferenceTells(a: byte, v: byte)
    ensures var (r, f) := Difference(a, v, false);
      Tells(r, f) && (f.zero <==> a == v) && (f.carry <==> a < v)
  {
    hide EvenParity;
    CountsOnes(Difference(a, v, false).0);
  }

  // ----- the tables -----

  const HALF_CARRY: seq<nat> := [0, 0, 1, 0, 1, 0, 1, 1]
  const SUB_HALF_CARRY: seq<nat> := [0, 1, 1, 1, 0, 0, 0, 1]

  /** (a & 0x88) >> 1 | (v & 0x88) >> 2 | (w & 0x88) >> 3, and then & 7. */
  function TableIndex(a: byte, v: byte, w: nat): (i: nat)
    ensures i < 8
  {
    (a / 128 * 64 + a / 8 % 2 * 4 + v / 128 * 32 + v / 8 % 2 * 2 + w / 128 % 2 * 16 + w / 8 % 2) % 8
  }

  /** Bit 3 of each operand and of the result are all the table looks at. */
  lemma TableIndexIsBits(a: byte, v: byte, w: nat)
    ensures TableIndex(a, v, w) == a / 8 % 2 * 4 + v / 8 % 2 * 2 + w / 8 % 2
  {
  }

  lemma Bit3(x: nat)
    ensures x / 8 % 2 == if x % 16 >= 8 then 1 else 0
  {
    var q, r := x / 16, x % 16;
    assert x == 16 * q + r;
    assert x / 8 == 2 * q + r / 8;
  }

  /** The table gives the true carry out of bit 3. */
  lemma HalfCarryByTable(a: byte, v: byte, c: bool)
    ensures HALF_CARRY[TableIndex(a, v, a + v + One(c))] == 1 <==> a % 16 + v % 16 + One(c) >= 16
  {
    var w := a + v + One(c);
    TableIndexIsBits(a, v, w);
    Bit3(a);
    Bit3(v);
    Bit3(w);
    LowDigits(a, v, One(c));
  }

  lemma LowDigits(a: nat, v: nat, c: nat)
    requires c <= 1
    ensures var low := a % 16 + v % 16 + c; (a + v + c) % 16 == if low >= 16 then low - 16 else low
  {
    var p, q := a / 16, v / 16;
    var low := a % 16 + v % 16 + c;
    assert a + v + c == 16 * (p + q) + low;
  }

  /** The other table gives the true borrow from bit 4. */
  lemma HalfBorrowByTable(a: byte, v: byte, b: bool)
    ensures SUB_HALF_CARRY[TableIndex(a, v, (a - v - One(b)) % 0x1_0000)] == 1 <==> a % 16 < v % 16 + One(b)
  {
    var w := (a - v - One(b)) % 0x1_0000;
    TableIndexIsBits(a, v, w);
    Bit3(a);
    Bit3(v);
    Bit3(w);
    LowDifference(a, v, One(b));
  }

  lemma LowDifference(a: byte, v: byte, b: nat)
    requires b <= 1
    ensures var low := a % 16 - v % 16 - b;
      (a - v - b) % 0x1_0000 % 16 == if low < 0 then low + 16 else low
  {
    var p, q := a / 16, v / 16;
    var low := a % 16 - v % 16 - b;
    assert a - v - b == 16 * (p - q) + low;
    assert (a - v - b) % 0x1_0000 == if a - v - b < 0 then a - v - b + 16 * 4096 else a - v - b;
    assert a - v - b + 16 * 4096 == 16 * (p - q + 4096) + low;
  }

  const EVEN_FIRST: seq<nat> := [1, 0, 0, 1, 0, 1, 1, 0, 0, 1, 1, 0, 1, 0, 0, 1]
  const ODD_FIRST: seq<nat> := [0, 1, 1, 0, 1, 0, 0, 1, 1, 0, 0, 1, 0, 1, 1, 0]

  /** parity_table, sixteen entries a row. */
  const PARITY_TABLE: seq<seq<nat>> := [
    EVEN_FIRST, ODD_FIRST, ODD_FIRST, EVEN_FIRST, ODD_FIRST, EVEN_FIRST, EVEN_FIRST, ODD_FIRST,
    ODD_FIRST, EVEN_FIRST, EVEN_FIRST, ODD_FIRST, EVEN_FIRST, ODD_FIRST, ODD_FIRST, EVEN_FIRST
  ]

  function ParityEntry(x: byte): nat { PARITY_TABLE[x / 16][x % 16] }

  lemma ParityByTable(x: byte)
    ensures ParityEntry(x) == 1 <==> EvenParity(x)
  {
    hide EvenParity;
    var h, l := x / 16, x % 16;
    ParityOfNibbles(h, l);
    NibbleParity(h);
    NibbleParity(l);
  }

  lemma NibbleParity(n: nat)
    requires n < 16
    ensures EvenParity(n) <==> EVEN_FIRST[n] == 1
    ensures ODD_FIRST[n] == 1 - EVEN_FIRST[n]
    ensures PARITY_TABLE[n] == if EVEN_FIRST[n] == 1 then EVEN_FIRST else ODD_FIRST
  {
    hide EvenParity;
    if n < 8 {
      SmallParity(n);
    } else {
      SmallParity(n / 2);
      HalfParity(n);
    }
  }

  lemma SmallParity(n: nat)
    requires n < 8
    ensures EvenParity(n) <==> n == 0 || n == 3 || n == 5 || n == 6
  {
    assert EvenParity(0) && !EvenParity(1) && !EvenParity(2) && EvenParity(3);
  }

  lemma HalfParity(n: nat)
    ensures n > 0 ==> (EvenParity(n) <==> EvenParity(n / 2) != (n % 2 == 1))
  {
  }

  lemma ParityOfNibbles(h: nat, l: nat)
    requires l < 16
    ensures EvenParity(16 * h + l) <==> (EvenParity(h) == EvenParity(l))
  {
    hide EvenParity;
    var b3, b2, b1, b0 := l / 8, l / 4 % 2, l / 2 % 2, l % 2;
    var l1, l2 := 2 * b3 + b2, 4 * b3 + 2 * b2 + b1;
    assert l == 2 * l2 + b0;
    JoinBit(h, 0, b3);
    JoinBit(2 * h + b3, b3, b2);
    JoinBit(4 * h + l1, l1, b1);
    JoinBit(8 * h + l2, l2, b0);
  }

  /** One more bit below two numbers whose parities are tied. */
  lemma JoinBit(x: nat, y: nat, bit: nat)
    requires bit <= 1
    ensures EvenParity(0)
    ensures EvenParity(2 * x + bit) == (EvenParity(x) != (bit == 1))
    ensures EvenParity(2 * y + bit) == (EvenParity(y) != (bit == 1))
  {
    assert (2 * x + bit) / 2 == x && (2 * y + bit) / 2 == y;
  }

  // ----- strings of bytes -----

  /** A little-endian string as a number in the given base. */
  function Value(s: seq<nat>, base: nat): nat {
    if s == [] then 0 else s[0] + base * Value(s[1..], base)
  }

  function Power(base: nat, n: nat): nat {
    if n == 0 then 1 else base * Power(base, n - 1)
  }

  /** ADC, byte after byte. */
  function AdcChain(x: seq<byte>, y: seq<byte>, c: bool): (r: (seq<byte>, bool))
    requires |x| == |y|
    ensures |r.0| == |x|
  {
    if x == [] then ([], c)
    else
      var s := Sum(x[0], y[0], c);
      var rest := AdcChain(x[1..], y[1..], s.1.carry);
      ([s.0] + rest.0, rest.1)
  }

  /** SBB, byte after byte. */
  function SbbChain(x: seq<byte>, y: seq<byte>, b: bool): (r: (seq<byte>, bool))
    requires |x| == |y|
    ensures |r.0| == |x|
  {
    if x == [] then ([], b)
    else
      var d := Difference(x[0], y[0], b);
      var rest := SbbChain(x[1..], y[1..], d.1.carry);
      ([d.0] + rest.0, rest.1)
  }

  /** What a carry out of n digits stands for. */
  function Overflow(c: bool, base: nat, n: nat): nat { if c then Power(base, n) else 0 }

  lemma {:induction false} ValueBelowPower(s: seq<byte>)
    ensures Value(s, 256) < Power(256, |s|)
  {
    if s != [] {
      ValueBelowPower(s[1..]);
    }
  }

  lemma SumAdds(a: byte, v: byte, c: bool)
    ensures var s := Sum(a, v, c); s.0 + Overflow(s.1.carry, 256, 1) == a + v + One(c)
  {
    assert Power(256, 0) == 1;
  }

  lemma DifferenceSubtracts(a: byte, v: byte, b: bool)
    ensures var d := Difference(a, v, b); d.0 - Overflow(d.1.carry, 256, 1) == a - v - One(b)
  {
    assert Power(256, 0) == 1;
  }

  /** A chain of ADC adds numbers of any length: the bytes are the sum modulo 256 to the length, the
      final carry is the overflow. */
  lemma {:induction false} AdcChainAdds(x: seq<byte>, y: seq<byte>, c: bool)
    requires |x| == |y|
    ensures var r := AdcChain(x, y, c);
      && Value(r.0, 256) + Overflow(r.1, 256, |x|) == Value(x, 256) + Value(y, 256) + One(c)
      && Value(r.0, 256) < Power(256, |x|)
  {
    hide Sum;
    var r := AdcChain(x, y, c);
    ValueBelowPower(r.0);
    if x != [] {
      var s := Sum(x[0], y[0], c);
      SumAdds(x[0], y[0], c);
      AdcChainAdds(x[1..], y[1..], s.1.carry);
      assert r.0[1..] == AdcChain(x[1..], y[1..], s.1.carry).0;
    }
  }

  /** A chain of SBB subtracts: the difference modulo 256 to the length, and the borrow. */
  lemma {:induction false} SbbChainSubtracts(x: seq<byte>, y: seq<byte>, b: bool)
    requires |x| == |y|
    ensures var r := SbbChain(x, y, b);
      && Value(x, 256) - Value(y, 256) - One(b) == Value(r.0, 256) - Overflow(r.1, 256, |x|)
      && Value(r.0, 256) < Power(256, |x|)
  {
    hide Difference;
    var r := SbbChain(x, y, b);
    ValueBelowPower(r.0);
    if x != [] {
      var d := Difference(x[0], y[0], b);
      DifferenceSubtracts(x[0], y[0], b);
      SbbChainSubtracts(x[1..], y[1..], d.1.carry);
      assert r.0[1..] == SbbChain(x[1..], y[1..], d.1.carry).0;
    }
  }

  // ----- packed decimal -----

  /** DAA: the correction it adds, the flags of that addition, and the carry it decided on. */
  function Daa(a: byte, f: Flags): (byte, Flags) {
    var low := f.half || a % 16 > 9;
    var high := f.carry || a / 16 > 9 || (a / 16 >= 9 && a % 16 > 9);
    var s := Sum(a, (if low then 0x06 else 0) + (if high then 0x60 else 0), false);
    (s.0, s.1.(carry := high))
  }

  predicate Bcd(b: byte) { b % 16 <= 9 && b / 16 <= 9 }

  function Decimal(b: byte): nat { b / 16 * 10 + b % 16 }

  lemma Nibbles(b: int, hi: int, lo: int)
    requires b == 16 * hi + lo && 0 <= lo < 16
    ensures b / 16 == hi && b % 16 == lo
  {
  }

  /** The sum of two digit pairs by its digit sums. */
  lemma DigitSums(x: byte, y: byte, c: bool) returns (h: nat, l: nat)
    requires Bcd(x) && Bcd(y)
    ensures h <= 18 && l <= 19 && 10 * h + l == Decimal(x) + Decimal(y) + One(c)
    ensures var s := Sum(x, y, c);
      var up := if l >= 16 then h + 1 else h;
      && s.1.half == (l >= 16) && s.1.carry == (up >= 16)
      && s.0 % 16 == (if l >= 16 then l - 16 else l) && s.0 / 16 == (if up >= 16 then up - 16 else up)
  {
    hide Sum;
    h, l := x / 16 + y / 16, x % 16 + y % 16 + One(c);
    SumParts(x, y, c);
    var up, lo := if l >= 16 then h + 1 else h, if l >= 16 then l - 16 else l;
    assert x + y + One(c) == 16 * up + lo;
    Nibbles(Sum(x, y, c).0, if up >= 16 then up - 16 else up, lo);
  }

  lemma SumParts(a: byte, v: byte, c: bool)
    ensures var (r, f) := Sum(a, v, c);
      && f.half == (a % 16 + v % 16 + One(c) >= 16) && f.carry == (a + v + One(c) >= 256)
      && r == a + v + One(c) - if f.carry then 256 else 0
  {
    hide EvenParity;
  }

  /** ADC and DAA on two packed digits each: the decimal sum, its hundred in the carry. */
  lemma DaaAdds(x: byte, y: byte, c: bool)
    requires Bcd(x) && Bcd(y)
    ensures var s := Sum(x, y, c);
      var r := Daa(s.0, s.1);
      Bcd(r.0) && Decimal(r.0) + 100 * One(r.1.carry) == Decimal(x) + Decimal(y) + One(c)
  {
    var s := Sum(x, y, c);
    var h, l := DigitSums(x, y, c);
    DaaOnDigits(s.0, s.1, h, l);
  }

  /** DAA of every byte with every flags: six is added for a low digit above 9 or a half carry, and sixty
      hexadecimal above 0x99 or for a carry, which is then up; the other flags are those of the result and
      of the correction's carry out of bit 3. */
  lemma DaaSetsFlags(a: byte, f: Flags)
    ensures var (r, g) := Daa(a, f);
      var low := if f.half || a % 16 >= 10 then 6 else 0;
      && g.carry == (f.carry || a > 0x99) && r == (a + low + if g.carry then 0x60 else 0) % 256
      && g.half == (a % 16 + low >= 16) && Tells(r, g)
  {
    hide Sum, EvenParity, Ones;
    HighByNibbles(a);
    var low, high := if f.half || a % 16 >= 10 then 6 else 0, if f.carry || a > 0x99 then 0x60 else 0;
    assert Daa(a, f) == (Sum(a, low + high, false).0, Sum(a, low + high, false).1.(carry := f.carry || a > 0x99));
    SumTells(a, low + high, false);
    SumHalf(a, low + high);
    assert (low + high) % 16 == low;
  }

  lemma HighByNibbles(a: byte)
    ensures a > 0x99 <==> a / 16 > 9 || (a / 16 >= 9 && a % 16 > 9)
  {
  }

  lemma SumHalf(a: byte, v: byte)
    ensures Sum(a, v, false).1.half == (a % 16 + v % 16 >= 16) && Sum(a, v, false).0 == (a + v) % 256
  {
    hide EvenParity;
  }

  /** After a packed addition Z tells that the decimal sum ends in two zeros. */
  lemma PackedSumIsZero(x: byte, y: byte, c: bool)
    requires Bcd(x) && Bcd(y)
    ensures var s := Sum(x, y, c);
      Daa(s.0, s.1).1.zero <==> (Decimal(x) + Decimal(y) + One(c)) % 100 == 0
  {
    hide EvenParity, Sum, Daa, Decimal;
    var s := Sum(x, y, c);
    var r := Daa(s.0, s.1);
    DaaAdds(x, y, c);
    DaaSetsFlags(s.0, s.1);
    ZeroDigits(r.0);
  }

  lemma ZeroDigits(b: byte)
    requires Bcd(b)
    ensures Decimal(b) < 100 && (Decimal(b) == 0 <==> b == 0)
  {
  }

  /** DAA brings the digit sums h and l back to digits. */
  lemma DaaOnDigits(a: byte, f: Flags, h: nat, l: nat)
    requires h <= 18 && l <= 19
    requires var up := if l >= 16 then h + 1 else h;
      && f.half == (l >= 16) && f.carry == (up >= 16)
      && a % 16 == (if l >= 16 then l - 16 else l) && a / 16 == (if up >= 16 then up - 16 else up)
    ensures var r := Daa(a, f); Bcd(r.0) && Decimal(r.0) + 100 * One(r.1.carry) == 10 * h + l
  {
    hide Sum;
    var tens, ones := if l > 9 then h + 1 else h, if l > 9 then l - 10 else l;
    var digit := if tens > 9 then tens - 10 else tens;
    var correction := (if l > 9 then 0x06 else 0) + (if tens > 9 then 0x60 else 0);
    assert Daa(a, f).0 == Sum(a, correction, false).0 && Daa(a, f).1.carry == (tens > 9);
    SumHalf(a, correction);
    Corrected(a, h, l);
    Nibbles(Daa(a, f).0, digit, ones);
  }

  lemma Corrected(a: byte, h: nat, l: nat)
    requires h <= 18 && l <= 19
    requires var up := if l >= 16 then h + 1 else h;
      a % 16 == (if l >= 16 then l - 16 else l) && a / 16 == (if up >= 16 then up - 16 else up)
    ensures var tens, ones := if l > 9 then h + 1 else h, if l > 9 then l - 10 else l;
      var correction := (if l > 9 then 0x06 else 0) + (if tens > 9 then 0x60 else 0);
      (a + correction) % 256 == 16 * (if tens > 9 then tens - 10 else tens) + ones
  {
    var hi, lo := a / 16, a % 16;
    assert a == 16 * hi + lo;
  }

  /** ADC; DAA, byte after byte. */
  function DecimalChain(x: seq<byte>, y: seq<byte>, c: bool): (r: (seq<byte>, bool))
    requires |x| == |y|
    ensures |r.0| == |x|
  {
    if x == [] then ([], c)
    else
      var s := Sum(x[0], y[0], c);
      var d := Daa(s.0, s.1);
      var rest := DecimalChain(x[1..], y[1..], d.1.carry);
      ([d.0] + rest.0, rest.1)
  }

  lemma DecimalStep(x: seq<byte>, y: seq<byte>, i: nat, c: bool)
    requires i < |x| == |y|
    ensures var s := Sum(x[i], y[i], c);
      var d := Daa(s.0, s.1);
      var rest := DecimalChain(x[i + 1..], y[i + 1..], d.1.carry);
      DecimalChain(x[i..], y[i..], c) == ([d.0] + rest.0, rest.1)
  {
    hide Sum, Daa;
    assert x[i..][1..] == x[i + 1..] && y[i..][1..] == y[i + 1..];
  }

  lemma NoDigitsLeft(x: seq<byte>, y: seq<byte>, c: bool)
    requires x == [] && y == []
    ensures DecimalChain(x, y, c) == ([], c)
  {
  }

  function Decimals(s: seq<byte>): (d: seq<nat>)
    ensures |d| == |s|
  {
    if s == [] then [] else [Decimal(s[0])] + Decimals(s[1..])
  }

  ghost predicate AllBcd(s: seq<byte>) {
    forall i :: 0 <= i < |s| ==> Bcd(s[i])
  }

  /** Packed decimal addition of any length: every byte of the result is again two digits, and the
      value is the decimal sum modulo 100 to the length. */
  lemma {:induction false} DecimalChainAdds(x: seq<byte>, y: seq<byte>, c: bool)
    requires |x| == |y| && AllBcd(x) && AllBcd(y)
    ensures var r := DecimalChain(x, y, c);
      && AllBcd(r.0)
      && Value(Decimals(r.0), 100) + Overflow(r.1, 100, |x|)
        == Value(Decimals(x), 100) + Value(Decimals(y), 100) + One(c)
  {
    hide Sum, Daa, Decimal, Bcd;
    if x == [] {
      assert Power(100, 0) == 1;
    } else {
      var s := Sum(x[0], y[0], c);
      var d := Daa(s.0, s.1);
      var r := DecimalChain(x, y, c);
      DaaAdds(x[0], y[0], c);
      DecimalChainAdds(x[1..], y[1..], d.1.carry);
      assert r.0[1..] == DecimalChain(x[1..], y[1..], d.1.carry).0;
      FirstDigits(x);
      FirstDigits(y);
      FirstDigits(r.0);
    }
  }

  lemma FirstDigits(s: seq<byte>)
    requires s != []
    ensures Value(Decimals(s), 100) == Decimal(s[0]) + 100 * Value(Decimals(s[1..]), 100)
  {
    assert Decimals(s)[1..] == Decimals(s[1..]);
  }

  // ----- the flag byte -----

  datatype Nibble = Nibble(b3: bool, b2: bool, b1: bool, b0: bool)

  /** A byte by its bits. */
  datatype Octet = Octet(hi: Nibble, lo: Nibble)

  function Weight(n: Nibble): (w: nat)
    ensures w < 16
  {
    8 * One(n.b3) + 4 * One(n.b2) + 2 * One(n.b1) + One(n.b0)
  }

  function ByteOf(o: Octet): byte { 16 * Weight(o.hi) + Weight(o.lo) }

  function NibbleOf(w: nat): Nibble
    requires w < 16
  {
    Nibble(w >= 8, w % 8 >= 4, w % 4 >= 2, w % 2 == 1)
  }

  function OctetOf(b: byte): Octet { Octet(NibbleOf(b / 16), NibbleOf(b % 16)) }

  lemma BitsOfNibble(w: nat)
    requires w < 16
    ensures Weight(NibbleOf(w)) == w
  {
  }

  lemma SameNibble(n: Nibble, m: Nibble)
    requires Weight(n) == Weight(m)
    ensures n == m
  {
  }

  lemma BitsOfByte(b: byte)
    ensures ByteOf(OctetOf(b)) == b
  {
    BitsOfNibble(b / 16);
    BitsOfNibble(b % 16);
  }

  lemma SameBits(o: Octet, p: Octet)
    requires ByteOf(o) == ByteOf(p)
    ensures o == p
  {
    SameNibble(o.hi, p.hi);
    SameNibble(o.lo, p.lo);
  }

  /** The flag byte: the unused bits are 0, 0 and 1. */
  function FlagByte(f: Flags): Octet {
    Octet(Nibble(f.sign, f.zero, false, f.half), Nibble(false, f.parity, true, f.carry))
  }

  /** The flag byte by weights: S 128, Z 64, H 16, P 4, 2 always, C 1. */
  lemma FlagByteWeights(f: Flags)
    ensures ByteOf(FlagByte(f))
         == 128 * One(f.sign) + 64 * One(f.zero) + 16 * One(f.half) + 4 * One(f.parity) + 2 + One(f.carry)
  {
  }

  function FlagsOf(o: Octet): Flags {
    Flags(o.hi.b3, o.hi.b2, o.hi.b0, o.lo.b2, o.lo.b0)
  }

  // ----- the stack -----

  const ADDRESSES: nat := 0x1_0000

  function Down(sp: nat): (r: nat)
    ensures r < ADDRESSES
  {
    (sp - 2) % ADDRESSES
  }

  function Up(sp: nat): (r: nat)
    ensures r < ADDRESSES
  {
    (sp + 2) % ADDRESSES
  }

  lemma UpDown(sp: nat)
    requires sp < ADDRESSES
    ensures Up(Down(sp)) == sp
  {
  }

  /** The word written below sp, through the stack window. */
  function Pushed(cells: Cells, m: Mapping, sp: nat, w: nat): Cells
    requires GoodMapping(m) && w < ADDRESSES
  {
    Written(Written(cells, m, Down(sp), w % 256, true), m, Down(sp) + 1, w / 256, true)
  }

  /** A pushed word goes high byte first: it lies below sp, its low byte at the lower address. */
  lemma PushedBytes(cells: Cells, boot: seq<byte>, m: Mapping, sp: nat, w: nat)
    requires GoodMapping(m) && w < ADDRESSES && 2 <= sp <= ADDRESSES && |boot| == 0
    ensures var after := Pushed(cells, m, sp, w);
      GetByte(after, boot, m, sp - 1, true) == w / 256 && GetByte(after, boot, m, sp - 2, true) == w % 256
  {
    hide Select;
    var once := Written(cells, m, sp - 2, w % 256, true);
    SelectIsNear(m, sp - 2);
    SelectIsNear(m, sp - 1);
    ReadAfterWrite(cells, boot, m, sp - 2, true, w % 256, m, sp - 2, true);
    ReadAfterWrite(once, boot, m, sp - 1, true, w / 256, m, sp - 2, true);
    ReadAfterWrite(once, boot, m, sp - 1, true, w / 256, m, sp - 1, true);
  }

  lemma SelectIsNear(m: Mapping, addr: nat)
    requires GoodMapping(m) && addr < ADDRESSES
    ensures Select(m, addr, true) % ADDRESSES == addr
  {
  }

  /** The word read at sp, through the stack window. */
  function Popped(cells: Cells, boot: seq<byte>, m: Mapping, sp: nat): (w: nat)
    requires GoodMapping(m)
    ensures w < ADDRESSES
  {
    Word(GetByte(cells, boot, m, sp, true), GetByte(cells, boot, m, sp + 1, true))
  }

  /** What is seen of value v written at paged address a. */
  function Seen(boot: seq<byte>, a: nat, v: byte): byte {
    if a < |boot| then boot[a] else v
  }

  /** A word popped where it was pushed, wherever sp wraps and the windows lie: what was pushed, but
      for bytes that the boot image hides. */
  lemma PopAfterPush(cells: Cells, boot: seq<byte>, m: Mapping, sp: nat, w: nat)
    requires GoodMapping(m) && w < ADDRESSES
    ensures var top := Down(sp);
      Popped(Pushed(cells, m, sp, w), boot, m, top)
      == Word(Seen(boot, Select(m, top, true), w % 256), Seen(boot, Select(m, top + 1, true), w / 256))
  {
    var top := Down(sp);
    var once := Written(cells, m, top, w % 256, true);
    NextAddressDiffers(top);
    ReadAfterWrite(cells, boot, m, top, true, w % 256, m, top, true);
    ReadAfterWrite(once, boot, m, top + 1, true, w / 256, m, top, true);
    ReadAfterWrite(once, boot, m, top + 1, true, w / 256, m, top + 1, true);
  }

  lemma NextAddressDiffers(a: nat)
    ensures a % ADDRESSES != (a + 1) % ADDRESSES
  {
  }

  class Cpu {
    var a: byte
    var f: Octet     // the stored flag byte
    var flags: Flags
    var sp: nat
    var pc: nat

    ghost predicate Valid()
      reads this
    {
      sp < ADDRESSES && pc < ADDRESSES
    }

    method Add(val: byte)
      modifies this`a, this`flags
      ensures (a, flags) == Sum(old(a), val, false)
    {
      hide EvenParity, TableIndex, ParityEntry;
      var work16 := a + val;
      CarryBit(work16);
      var index := TableIndex(a, val, work16);
      HalfCarryByTable(a, val, false);
      a := work16 % 256;
      ParityByTable(a);
      flags := Flags(a >= 0x80, a == 0, HALF_CARRY[index] == 1, ParityEntry(a) == 1, work16 / 256 % 2 == 1);
    }

    method Adc(val: byte)
      modifies this`a, this`flags
      ensures (a, flags) == Sum(old(a), val, old(flags.carry))
    {
      hide EvenParity, TableIndex, ParityEntry;
      var work16 := a + val + One(flags.carry);
      CarryBit(work16);
      var index := TableIndex(a, val, work16);
      HalfCarryByTable(a, val, flags.carry);
      a := work16 % 256;
      ParityByTable(a);
      flags := Flags(a >= 0x80, a == 0, HALF_CARRY[index] == 1, ParityEntry(a) == 1, work16 / 256 % 2 == 1);
    }

    method Sub(val: byte)
      modifies this`a, this`flags
      ensures (a, flags) == Difference(old(a), val, false)
    {
      hide EvenParity, TableIndex, ParityEntry;
      var work16 := (a - val) % 0x1_0000;
      var index := TableIndex(a, val, work16);
      HalfBorrowByTable(a, val, false);
      BorrowBit(a, val, false);
      a := work16 % 256;
      ParityByTable(a);
      flags := Flags(a >= 0x80, a == 0, SUB_HALF_CARRY[index] != 1, ParityEntry(a) == 1, work16 / 256 % 2 == 1);
    }

    method Sbb(val: byte)
      modifies this`a, this`flags
      ensures (a, flags) == Difference(old(a), val, old(flags.carry))
    {
      hide EvenParity, TableIndex, ParityEntry;
      var work16 := (a - val - One(flags.carry)) % 0x1_0000;
      var index := TableIndex(a, val, work16);
      HalfBorrowByTable(a, val, flags.carry);
      BorrowBit(a, val, flags.carry);
      a := work16 % 256;
      ParityByTable(a);
      flags := Flags(a >= 0x80, a == 0, SUB_HALF_CARRY[index] != 1, ParityEntry(a) == 1, work16 / 256 % 2 == 1);
    }

    /** The flags of SUB, and A as it was. */
    method Cmp(val: byte)
      modifies this`flags
      ensures flags == Difference(a, val, false).1
    {
      hide EvenParity, TableIndex, ParityEntry;
      var work16 := (a - val) % 0x1_0000;
      var index := TableIndex(a, val, work16);
      HalfBorrowByTable(a, val, false);
      BorrowBit(a, val, false);
      ParityByTable(work16 % 256);
      flags := Flags(work16 / 128 % 2 == 1, work16 % 256 == 0, SUB_HALF_CARRY[index] != 1,
                     ParityEntry(work16 % 256) == 1, work16 / 256 % 2 == 1);
    }

    method DecimalAdjust()
      modifies this`a, this`flags
      ensures (a, flags) == Daa(old(a), old(flags))
    {
      var carry, add := flags.carry, 0;
      if flags.half || a % 16 > 9 {
        add := 0x06;
      }
      if flags.carry || a / 16 > 9 || (a / 16 >= 9 && a % 16 > 9) {
        add := add + 0x60;
        carry := true;
      }
      Add(add);
      flags := flags.(carry := carry);
    }

    /** A program's loop over two strings of the same length: ADC, byte after byte. */
    method AddStrings(x: seq<byte>, y: seq<byte>) returns (z: seq<byte>)
      requires |x| == |y|
      modifies this`a, this`flags
      ensures (z, flags.carry) == AdcChain(x, y, old(flags.carry))
    {
      hide Sum;
      z := [];
      assert x[0..] == x && y[0..] == y;
      for i := 0 to |x|
        invariant var all, rest := AdcChain(x, y, old(flags.carry)), AdcChain(x[i..], y[i..], flags.carry);
          all.0 == z + rest.0 && all.1 == rest.1
      {
        assert x[i..][1..] == x[i + 1..] && y[i..][1..] == y[i + 1..];
        a := x[i];
        Adc(y[i]);
        z := z + [a];
      }
      assert x[|x|..] == [] && y[|x|..] == [] && z + [] == z;
    }

    /** The same in packed decimal: ADC and DAA. */
    method AddDecimals(x: seq<byte>, y: seq<byte>) returns (z: seq<byte>)
      requires |x| == |y|
      modifies this`a, this`flags
      ensures (z, flags.carry) == DecimalChain(x, y, old(flags.carry))
    {
      hide Sum, Daa, DecimalChain;
      z := [];
      assert x[0..] == x && y[0..] == y && [] + DecimalChain(x, y, flags.carry).0 == DecimalChain(x, y, flags.carry).0;
      for i := 0 to |x|
        invariant var all, rest := DecimalChain(x, y, old(flags.carry)), DecimalChain(x[i..], y[i..], flags.carry);
          all.0 == z + rest.0 && all.1 == rest.1
      {
        DecimalStep(x, y, i, flags.carry);
        a := x[i];
        Adc(y[i]);
        DecimalAdjust();
        z := z + [a];
      }
      NoDigitsLeft(x[|x|..], y[|x|..], flags.carry);
      assert z + [] == z;
    }

    method StoreFlags()
      modifies this`f
      ensures f == FlagByte(flags)
    {
      f := f.(hi := f.hi.(b3 := flags.sign));
      f := f.(hi := f.hi.(b2 := flags.zero));
      f := f.(hi := f.hi.(b0 := flags.half));
      f := f.(lo := f.lo.(b2 := flags.parity));
      f := f.(lo := f.lo.(b0 := flags.carry));
      f := f.(lo := f.lo.(b1 := true));
      f := f.(lo := f.lo.(b3 := false));
      f := f.(hi := f.hi.(b1 := false));
    }

    method RetrieveFlags()
      modifies this`flags
      ensures flags == FlagsOf(f)
    {
      flags := flags.(sign := f.hi.b3);
      flags := flags.(zero := f.hi.b2);
      flags := flags.(half := f.hi.b0);
      flags := flags.(parity := f.lo.b2);
      flags := flags.(carry := f.lo.b0);
    }

    method Push(memory: Memory, w: nat)
      requires Valid() && memory.Valid() && w < ADDRESSES
      modifies this`sp, memory.cells
      ensures Valid() && memory.Valid() && sp == Down(old(sp))
      ensures memory.View() == Pushed(old(memory.View()), memory.mapping, old(sp), w)
    {
      sp := Down(sp);
      memory.Write(sp, w % 256, true);
      memory.Write(sp + 1, w / 256, true);
    }

    method Pop(memory: Memory) returns (w: nat)
      requires Valid() && memory.Valid()
      modifies this`sp
      ensures Valid() && sp == Up(old(sp))
      ensures w == Popped(memory.View(), memory.bootbytes, memory.mapping, old(sp))
    {
      var lo := memory.Read(sp, true);
      var hi := memory.Read(sp + 1, true);
      w := Word(lo, hi);
      sp := Up(sp);
    }

    method PushPsw(memory: Memory)
      requires Valid() && memory.Valid()
      modifies this`sp, this`f, memory.cells
      ensures Valid() && memory.Valid() && f == FlagByte(flags) && sp == Down(old(sp))
      ensures memory.View() == Pushed(old(memory.View()), memory.mapping, old(sp), Word(ByteOf(f), a))
    {
      StoreFlags();
      Push(memory, Word(ByteOf(f), a));
    }

    method PopPsw(memory: Memory)
      requires Valid() && memory.Valid()
      modifies this`sp, this`f, this`a, this`flags
      ensures Valid() && sp == Up(old(sp)) && flags == FlagsOf(f)
      ensures Word(ByteOf(f), a) == Popped(memory.View(), memory.bootbytes, memory.mapping, old(sp))
    {
      hide Popped, FlagsOf, OctetOf, ByteOf;
      var af := Pop(memory);
      a := af / 256;
      f := OctetOf(af % 256);
      BitsOfByte(af % 256);
      RetrieveFlags();
    }

    /** PUSH PSW and POP PSW around anything that leaves sp and the stacked bytes alone. */
    method SaveAndRestore(memory: Memory, work: byte)
      requires Valid() && memory.Valid()
      requires var top := Down(sp);
        Select(memory.mapping, top, true) >= |memory.bootbytes|
          && Select(memory.mapping, top + 1, true) >= |memory.bootbytes|
      modifies this, memory.cells
      ensures Valid() && a == old(a) && flags == old(flags) && sp == old(sp)
    {
      hide Pushed, Popped, ByteOf, Sum, Select, Up, Down;
      UpDown(sp);
      PushPsw(memory);
      ghost var stored := f;
      PopAfterPush(old(memory.View()), memory.bootbytes, memory.mapping, old(sp), Word(ByteOf(f), a));
      Adc(work);
      PopPsw(memory);
      SameBits(f, stored);
    }

    method Hlt()
      requires Valid()
      modifies this`pc
      ensures Valid() && pc == (old(pc) - 1) % ADDRESSES
    {
      pc := (pc - 1) % ADDRESSES;
    }

    method Rst(memory: Memory, addr: nat)
      requires Valid() && memory.Valid() && addr < ADDRESSES
      modifies this`pc, this`sp, memory.cells
      ensures Valid() && memory.Valid() && pc == addr && sp == Down(old(sp))
      ensures memory.View() == Pushed(old(memory.View()), memory.mapping, old(sp), old(pc))
    {
      Push(memory, pc);
      pc := addr;
    }

    method Ret(memory: Memory)
      requires Valid() && memory.Valid()
      modifies this`pc, this`sp
      ensures Valid() && sp == Up(old(sp))
      ensures pc == Popped(memory.View(), memory.bootbytes, memory.mapping, old(sp))
    {
      pc := Pop(memory);
    }

    /** The acknowledgement of check_interrupt: it steps over a HLT and executes RST 7. */
    method Acknowledge(memory: Memory, lastOpcode: byte)
      requires Valid() && memory.Valid()
      modifies this`pc, this`sp, memory.cells
      ensures Valid() && memory.Valid() && pc == 0x38 && sp == Down(old(sp))
      ensures memory.View() == Pushed(old(memory.View()), memory.mapping, old(sp),
                                      if lastOpcode == 0x76 then (old(pc) + 1) % ADDRESSES else old(pc))
    {
      if lastOpcode == 0x76 {
        pc := (pc + 1) % ADDRESSES;
      }
      Rst(memory, 0x38);
    }

    /** A halted processor stays on its HLT; an interrupt and its return lead past it. */
    method HaltAndReturn(memory: Memory)
      requires Valid() && memory.Valid()
      requires var top := Down(sp);
        Select(memory.mapping, top, true) >= |memory.bootbytes|
          && Select(memory.mapping, top + 1, true) >= |memory.bootbytes|
      modifies this, memory.cells
      ensures Valid() && pc == old(pc) && sp == old(sp)
    {
      hide Pushed, Popped, Select, Up, Down;
      UpDown(sp);
      ghost var fetched := pc;
      Hlt();
      assert (pc + 1) % ADDRESSES == fetched;
      Acknowledge(memory, 0x76);
      PopAfterPush(old(memory.View()), memory.bootbytes, memory.mapping, old(sp), fetched);
      Ret(memory);
    }
  }

  lemma CarryBit(w: nat)
    requires w < 512
    ensures w / 256 % 2 == 1 <==> w >= 256
  {
  }

  lemma BorrowBit(a: byte, v: byte, b: bool)
    ensures var w := (a - v - One(b)) % 0x1_0000;
      w % 256 == (a - v - One(b)) % 256 && (w / 256 % 2 == 1 <==> a - v - One(b) < 0) && w / 128 % 2 == w % 256 / 128
  {
    var t := a - v - One(b);
    assert t % 0x1_0000 == if t < 0 then t + 0x1_0000 else t;
    assert t % 256 == if t >= 0 then t else if t >= -256 then t + 256 else t + 512;
  }
}
