/** Banked memory of the Vector-06C (src/memory.cpp): the paging windows, the
    rotated storage order that lets the raster fetch four planes as one word, and
    the in-place buffer behind them. */
module MemoryMap {
  import opened Bytes

  const TOTAL: nat := 0x5_0000 // 64K and a 256K electronic disk

  /** What the last control byte selected; modeMap is w8 & 0xE0. */
  datatype Mapping = Mapping(modeStack: bool, modeMap: byte, pageMap: nat, pageStack: nat)

  predicate BitSet(w8: byte, weight: nat)
    requires weight > 0
  {
    w8 / weight % 2 == 1
  }

  function ControlWord(w8: byte): (m: Mapping)
    ensures GoodMapping(m)
  {
    Mapping(BitSet(w8, 0x10), w8 / 32 * 32, (w8 % 4 + 1) * 0x1_0000, (w8 / 4 % 4 + 1) * 0x1_0000)
  }

  function BigramSelect(m: Mapping, addr: nat, stackrq: bool): nat
  {
    if !(m.modeMap != 0 || m.modeStack) then addr
    else if m.modeStack && stackrq then addr + m.pageStack
    else if BitSet(m.modeMap, 0x20) && 0xa000 <= addr <= 0xdfff then addr + m.pageMap
    else if BitSet(m.modeMap, 0x40) && 0x8000 <= addr <= 0x9fff then addr + m.pageMap
    else if BitSet(m.modeMap, 0x80) && 0xe000 <= addr <= 0xffff then addr + m.pageMap
    else addr
  }

  /** (a & 0x78000) | ((a << 2) & 0x7ffc) | ((a >> 13) & 3); the three fields do not overlap. */
  function ToBank(a: nat): nat {
    a / 0x8000 % 16 * 0x8000 + 4 * (a % 0x2000) + a / 0x2000 % 4
  }

  /** The way back within one 32K block. */
  function FromBank(p: nat): nat {
    p / 0x8000 % 16 * 0x8000 + p % 4 * 0x2000 + p % 0x8000 / 4
  }

  predicate GoodMapping(m: Mapping) {
    0x1_0000 <= m.pageMap <= 0x4_0000 && 0x1_0000 <= m.pageStack <= 0x4_0000
    && m.pageMap % 0x1_0000 == 0 && m.pageStack % 0x1_0000 == 0
  }

  // ----- the storage order is a permutation -----

  lemma ToBankFields(block: nat, plane: nat, low: nat)
    requires block < 16 && plane < 4 && low < 0x2000
    ensures ToBank(block * 0x8000 + plane * 0x2000 + low) == block * 0x8000 + 4 * low + plane
  {
    var a := block * 0x8000 + plane * 0x2000 + low;
    assert a / 0x8000 == block && a % 0x2000 == low && a / 0x2000 == 4 * block + plane;
  }

  lemma FromBankFields(block: nat, plane: nat, low: nat)
    requires block < 16 && plane < 4 && low < 0x2000
    ensures FromBank(block * 0x8000 + 4 * low + plane) == block * 0x8000 + plane * 0x2000 + low
  {
    var p := block * 0x8000 + 4 * low + plane;
    assert p / 0x8000 == block && p % 4 == plane && p % 0x8000 == 4 * low + plane;
  }

  lemma AddressFields(a: nat) returns (block: nat, plane: nat, low: nat)
    requires a < TOTAL
    ensures block == a / 0x8000 < 10 && plane < 4 && low < 0x2000 && a == block * 0x8000 + plane * 0x2000 + low
  {
    block, plane, low := a / 0x8000, a % 0x8000 / 0x2000, a % 0x2000;
    var r := a % 0x8000;
    assert r % 0x2000 == a % 0x2000;
  }

  lemma CellFields(p: nat) returns (block: nat, plane: nat, low: nat)
    requires p < TOTAL
    ensures block == p / 0x8000 < 10 && plane < 4 && low < 0x2000 && p == block * 0x8000 + 4 * low + plane
  {
    block, plane, low := p / 0x8000, p % 4, p % 0x8000 / 4;
    var r := p % 0x8000;
    assert r % 4 == p % 4;
  }

  /** ToBank is a permutation of the 0x50000 cells that stays within 32K blocks. */
  lemma ToBankPermutes(a: nat)
    requires a < TOTAL
    ensures ToBank(a) < TOTAL && ToBank(a) / 0x8000 == a / 0x8000 && FromBank(ToBank(a)) == a
    ensures FromBank(a) < TOTAL && FromBank(a) / 0x8000 == a / 0x8000 && ToBank(FromBank(a)) == a
  {
    hide ToBank, FromBank;
    var block, plane, low := AddressFields(a);
    ToBankFields(block, plane, low);
    FromBankFields(block, plane, low);
    block, plane, low := CellFields(a);
    ToBankFields(block, plane, low);
    FromBankFields(block, plane, low);
  }

  lemma SelectInRange(m: Mapping, addr: nat, stackrq: bool)
    requires GoodMapping(m) && addr < 0x1_0000
    ensures BigramSelect(m, addr, stackrq) < TOTAL && BigramSelect(m, addr, stackrq) % 0x1_0000 == addr
  {
  }

  // ----- the memory seen through the windows -----

  type Cells = c: seq<byte> | |c| == 0x5_0000 witness seq(0x5_0000, _ => 0)

  function Select(m: Mapping, addr: nat, stackrq: bool): (a: nat)
    requires GoodMapping(m)
    ensures a < TOTAL && a % 0x1_0000 == addr % 0x1_0000
  {
    SelectInRange(m, addr % 0x1_0000, stackrq);
    BigramSelect(m, addr % 0x1_0000, stackrq)
  }

  /** The byte at paged address a. */
  function Cell(cells: Cells, a: nat): byte
    requires a < TOTAL
  {
    ToBankPermutes(a);
    cells[ToBank(a)]
  }

  /** Memory::read and get_byte: a boot image hides the cells below its size. */
  function GetByte(cells: Cells, boot: seq<byte>, m: Mapping, addr: nat, stackrq: bool): byte
    requires GoodMapping(m)
  {
    var a := Select(m, addr, stackrq);
    if a < |boot| then boot[a] else Cell(cells, a)
  }

  /** Memory::write: always to the cells. */
  function Written(cells: Cells, m: Mapping, addr: nat, w8: byte, stackrq: bool): Cells
    requires GoodMapping(m)
  {
    ToBankPermutes(Select(m, addr, stackrq));
    cells[ToBank(Select(m, addr, stackrq)) := w8]
  }

  /** A byte written through one window is seen through another exactly when both select the same
      paged address outside the boot image; any other view is unchanged. The control word may have
      changed in between. */
  lemma ReadAfterWrite(cells: Cells, boot: seq<byte>, m: Mapping, addr: nat, stackrq: bool, w8: byte,
                       m': Mapping, addr': nat, stackrq': bool)
    requires GoodMapping(m) && GoodMapping(m')
    ensures GetByte(Written(cells, m, addr, w8, stackrq), boot, m', addr', stackrq')
         == if Select(m, addr, stackrq) == Select(m', addr', stackrq') && Select(m, addr, stackrq) >= |boot|
            then w8 else GetByte(cells, boot, m', addr', stackrq')
  {
    UpdatedCell(cells, Select(m, addr, stackrq), w8, Select(m', addr', stackrq'));
  }

  /** The windows by the bits of the control byte: at a stack access with bit 4 up the stack's page; else
      with bit 5 up 0xA000 to 0xDFFF, with bit 6 up 0x8000 to 0x9FFF and with bit 7 up 0xE000 to 0xFFFF in
      the page of bits 0 and 1; all else in main memory. */
  lemma WindowsByBits(b7: nat, b6: nat, b5: nat, b4: nat, stack: nat, page: nat, addr: nat, stackrq: bool)
    requires b7 < 2 && b6 < 2 && b5 < 2 && b4 < 2 && stack < 4 && page < 4 && addr < 0x1_0000
    ensures Select(ControlWord(128 * b7 + 64 * b6 + 32 * b5 + 16 * b4 + 4 * stack + page), addr, stackrq)
         == if b4 == 1 && stackrq then 0x1_0000 * (stack + 1) + addr
            else if (b5 == 1 && 0xa000 <= addr < 0xe000) || (b6 == 1 && 0x8000 <= addr < 0xa000)
                    || (b7 == 1 && 0xe000 <= addr)
            then 0x1_0000 * (page + 1) + addr
            else addr
  {
    var m := ControlWord(128 * b7 + 64 * b6 + 32 * b5 + 16 * b4 + 4 * stack + page);
    ControlByBits(b7, b6, b5, b4, stack, page);
    assert m.modeMap / 0x40 == 2 * b7 + b6 && m.modeMap / 0x20 == 4 * b7 + 2 * b6 + b5 && m.modeMap / 0x80 == b7;
  }

  lemma ControlByBits(b7: nat, b6: nat, b5: nat, b4: nat, stack: nat, page: nat)
    requires b7 < 2 && b6 < 2 && b5 < 2 && b4 < 2 && stack < 4 && page < 4
    ensures ControlWord(128 * b7 + 64 * b6 + 32 * b5 + 16 * b4 + 4 * stack + page)
         == Mapping(b4 == 1, 128 * b7 + 64 * b6 + 32 * b5, 0x1_0000 * (page + 1), 0x1_0000 * (stack + 1))
  {
    var high, low := 4 * b7 + 2 * b6 + b5, 16 * b4 + 4 * stack + page;
    assert (32 * high + low) / 32 == high;
    assert (32 * high + low) / 16 == 2 * high + b4;
    assert (32 * high + low) / 4 == 8 * high + 4 * b4 + stack;
  }

  // ----- loading and exporting -----

  const BANKED: nat := 0x8_0000 // addresses this far apart share a cell

  /** Addresses 0x80000 apart share a cell, and those from 0x50000 up to 0x7FFFF have none. */
  lemma ToBankWraps(a: nat)
    ensures ToBank(a) == ToBank(a % BANKED)
    ensures ToBank(a) < TOTAL <==> a % BANKED < TOTAL
  {
    var turn, b := a / BANKED, a % BANKED;
    DivUnique(a, 0x8000, 16 * turn + b / 0x8000, b % 0x8000);
    ModUnique(16 * turn + b / 0x8000, 16, turn, b / 0x8000);
    DivUnique(a, 0x2000, 64 * turn + b / 0x2000, b % 0x2000);
    ModUnique(a, 0x2000, 64 * turn + b / 0x2000, b % 0x2000);
    ModUnique(64 * turn + b / 0x2000, 4, 16 * turn + b / 0x2000 / 4, b / 0x2000 % 4);
    ModUnique(b / 0x2000, 4, b / 0x2000 / 4, b / 0x2000 % 4);
    ModUnique(b / 0x8000, 16, 0, b / 0x8000);
  }

  /** The memset of init_from_vector clears main memory, or what is stored from start on. */
  predicate IsCleared(start: nat, p: nat) {
    if start < 0x1_0000 then p < 0x1_0000 else p >= start
  }

  function Cleared(cells: Cells, start: nat): (r: Cells)
    ensures forall p :: 0 <= p < TOTAL ==> r[p] == if IsCleared(start, p) then 0 else cells[p]
  {
    seq(TOTAL, p requires 0 <= p < TOTAL => if IsCleared(start, p) then 0 else cells[p])
  }

  /** One byte loaded; an address without a cell is passed over. */
  function Stored(cells: Cells, a: nat, v: byte): Cells {
    if ToBank(a) < TOTAL then cells[ToBank(a) := v] else cells
  }

  /** The cells after n bytes are copied. */
  function Loaded(cells: Cells, from: bytes, start: nat, n: nat): Cells
    requires n <= |from|
  {
    if n == 0 then Cleared(cells, start)
    else Stored(Loaded(cells, from, start, n - 1), start + n - 1, from[n - 1])
  }

  /** The first index whose byte goes to paged address a. */
  function FirstIndex(start: nat, a: nat): (i: nat)
    requires start <= TOTAL && a < TOTAL
    ensures i < BANKED
  {
    if start <= a then a - start else a + BANKED - start
  }

  /** The last of the indices i, i + 0x80000, ... below n. */
  function LastOnTop(i: nat, n: nat): (j: nat)
    requires i < n
    ensures i <= j < n
  {
    i + (n - 1 - i) / BANKED * BANKED
  }

  /** The n-th byte is the last for its address, and the only one whose last one changes. */
  lemma LastOnTopNext(i: nat, n: nat, start: nat, a: nat)
    requires start <= TOTAL && a < TOTAL && i == FirstIndex(start, a)
    ensures (start + n) % BANKED == a ==> i <= n && LastOnTop(i, n + 1) == n
    ensures (start + n) % BANKED != a && i <= n ==> i < n && LastOnTop(i, n + 1) == LastOnTop(i, n)
  {
    var turn := if start <= a then 0 else 1;
    assert start + i == a + turn * BANKED;
    if i <= n {
      var q, r := (n - i) / BANKED, (n - i) % BANKED;
      assert start + n == (turn + q) * BANKED + (a + r);
      if r == 0 {
        ModUnique(start + n, BANKED, turn + q, a);
      } else {
        DivUnique(n - 1 - i, BANKED, q, r - 1);
        SameRemainder(start + n, start + i, n - i);
      }
    } else if (start + n) % BANKED == a {
      assert false;
    }
  }

  lemma SameRemainder(x: nat, y: nat, d: nat)
    requires x == y + d && d % BANKED != 0
    ensures x % BANKED != y % BANKED
  {
    if x % BANKED == y % BANKED {
      var q := x / BANKED - y / BANKED;
      assert d == q * BANKED;
      ModUnique(d, BANKED, q, 0);
    }
  }

  /** Every paged address after loading n bytes from any start: the last byte whose address, without
      the bits above 18, is a; else zero where the memset cleared the cell of a, which from 64K on
      goes by the storage order; else what it was. */
  lemma {:induction false} LoadedCell(cells: Cells, from: bytes, start: nat, n: nat, a: nat)
    requires n <= |from| && start <= TOTAL && a < TOTAL
    ensures var i := FirstIndex(start, a);
      Cell(Loaded(cells, from, start, n), a)
      == if i < n then from[LastOnTop(i, n)] else if IsCleared(start, ToBank(a)) then 0 else Cell(cells, a)
  {
    hide ToBank, LastOnTop, FirstIndex;
    if n == 0 {
      ToBankPermutes(a);
    } else {
      LoadedCell(cells, from, start, n - 1, a);
      StoredCell(Loaded(cells, from, start, n - 1), start + n - 1, from[n - 1], a);
      LastOnTopNext(FirstIndex(start, a), n - 1, start, a);
    }
  }

  lemma StoredCell(cells: Cells, b: nat, v: byte, a: nat)
    requires a < TOTAL
    ensures Cell(Stored(cells, b, v), a) == if b % BANKED == a then v else Cell(cells, a)
  {
    ToBankWraps(b);
    if b % BANKED < TOTAL {
      UpdatedCell(cells, b % BANKED, v, a);
    }
  }

  /** For a start in main memory the memset goes by address: main memory and nothing else. */
  lemma MainMemoryIsCleared(start: nat, a: nat)
    requires start < 0x1_0000 && a < TOTAL
    ensures IsCleared(start, ToBank(a)) <==> a < 0x1_0000
  {
    ToBankPermutes(a);
  }

  /** From 64K on the memset goes by address too only when, within its 32K block, start is the first,
      the second or the last address; elsewhere some loaded disk address below start is cleared or
      some address above it is not. */
  lemma DiskIsClearedByStorage(start: nat)
    requires 0x1_0000 <= start <= TOTAL
    ensures (forall a: nat :: a < TOTAL ==> (IsCleared(start, ToBank(a)) <==> a >= start))
       <==> start % 0x8000 == 0 || start % 0x8000 == 1 || start % 0x8000 == 0x7fff
  {
    var block, off := start / 0x8000, start % 0x8000;
    if off == 0 || off == 1 || off == 0x7fff {
      forall a: nat | a < TOTAL ensures IsCleared(start, ToBank(a)) <==> a >= start {
        ToBankPermutes(a);
        ToBankEnds(block, off, a);
      }
    } else if off <= 0x6000 {
      var low := Min(off, 0x2000) - 1;
      ToBankFields(block, 0, low);
      assert !(IsCleared(start, ToBank(block * 0x8000 + low)) <==> block * 0x8000 + low >= start);
    } else {
      ToBankFields(block, 3, off - 0x6000);
      assert !(IsCleared(start, ToBank(start)) <==> start >= start);
    }
  }

  /** Only the first and the last cell of a block keep their place against all others. */
  lemma ToBankEnds(block: nat, off: nat, a: nat)
    requires a < TOTAL && block <= 10 && (off == 0 || off == 1 || off == 0x7fff)
    ensures ToBank(a) >= block * 0x8000 + off <==> a >= block * 0x8000 + off
  {
    hide ToBank;
    var b, plane, low := AddressFields(a);
    ToBankFields(b, plane, low);
  }

  lemma UpdatedCell(cells: Cells, b: nat, v: byte, a: nat)
    requires a < TOTAL && b < TOTAL
    ensures ToBank(b) < TOTAL && Cell(cells[ToBank(b) := v], a) == if a == b then v else Cell(cells, a)
  {
    ToBankPermutes(a);
    ToBankPermutes(b);
    assert ToBank(a) == ToBank(b) ==> FromBank(ToBank(a)) == FromBank(ToBank(b));
  }

  class Memory {
    const cells: array<byte>
    var mapping: Mapping
    var bootbytes: seq<byte>

    ghost predicate Valid()
      reads this
    {
      cells.Length == TOTAL && GoodMapping(mapping)
    }

    ghost function View(): Cells
      reads this, cells
      requires cells.Length == TOTAL
    {
      cells[..]
    }

    constructor ()
      ensures Valid() && fresh(cells) && bootbytes == []
      ensures forall a :: 0 <= a < TOTAL ==> cells[a] == 0
    {
      cells := new byte[TOTAL](_ => 0);
      mapping := ControlWord(0); // with no mode set the pages do not matter
      bootbytes := [];
    }

    method ControlWrite(w8: byte)
      requires Valid()
      modifies this`mapping
      ensures Valid() && mapping == ControlWord(w8)
    {
      mapping := ControlWord(w8);
    }

    method Read(addr: nat, stackrq: bool) returns (value: byte)
      requires Valid()
      ensures value == GetByte(View(), bootbytes, mapping, addr, stackrq)
    {
      var bigaddr := Select(mapping, addr, stackrq);
      ToBankPermutes(bigaddr);
      if |bootbytes| > 0 && bigaddr < |bootbytes| {
        value := bootbytes[bigaddr];
      } else {
        value := cells[ToBank(bigaddr)];
      }
    }

    method Write(addr: nat, w8: byte, stackrq: bool)
      requires Valid()
      modifies cells
      ensures Valid() && View() == Written(old(View()), mapping, addr, w8, stackrq)
    {
      var bigaddr := Select(mapping, addr, stackrq);
      ToBankPermutes(bigaddr);
      cells[ToBank(bigaddr)] := w8;
    }

    method Clear(start: nat)
      requires Valid() && start <= TOTAL
      modifies cells
      ensures View() == Cleared(old(View()), start)
    {
      if start < 0x1_0000 {
        forall i | 0 <= i < 0x1_0000 {
          cells[i] := 0;
        }
      } else {
        forall i | start <= i < TOTAL {
          cells[i] := 0;
        }
      }
    }

    method InitFromVector(from: bytes, start: nat)
      requires Valid() && start <= TOTAL
      modifies cells
      ensures Valid() && View() == Loaded(old(View()), from, start, |from|)
    {
      Clear(start);
      for i := 0 to |from|
        invariant View() == Loaded(old(View()), from, start, i)
      {
        var phys := ToBank(start + i);
        if phys < TOTAL {
          cells[phys] := from[i];
        }
      }
    }

    /** The source does not check the place here: every address must have a cell. */
    method ExportBytes(addr: nat, size: nat) returns (dst: bytes)
      requires Valid() && forall i :: 0 <= i < size ==> HasCell(addr, i)
      ensures |dst| == size && forall i :: 0 <= i < size ==> dst[i] == CellAt(View(), addr, i)
    {
      dst := [];
      for i := 0 to size
        invariant |dst| == i && forall k :: 0 <= k < i ==> dst[k] == CellAt(View(), addr, k)
      {
        assert HasCell(addr, i);
        ToBankWraps(addr + i);
        dst := dst + [cells[ToBank(addr + i)]];
      }
    }
  }

  predicate HasCell(addr: nat, i: nat) { (addr + i) % BANKED < TOTAL }

  /** The byte i after address addr. */
  function CellAt(cells: Cells, addr: nat, i: nat): byte
    requires HasCell(addr, i)
  {
    Cell(cells, (addr + i) % BANKED)
  }

  lemma LoadedCellAt(cells: Cells, from: bytes, start: nat, i: nat)
    requires i < |from| && start + i < TOTAL
    ensures HasCell(start, i)
    ensures CellAt(Loaded(cells, from, start, |from|), start, i) == from[LastOnTop(i, |from|)]
  {
    hide Loaded, LastOnTop, Cell, IsCleared, ToBank;
    LoadedCell(cells, from, start, |from|, start + i);
    assert FirstIndex(start, start + i) == i && (start + i) % BANKED == start + i;
  }

  /** Exporting from the start gives back what was loaded exactly when each byte equals the last one
      that shares its cell; always, for loads of up to 512K. */
  method LoadThenExport(memory: Memory, from: bytes, start: nat, size: nat) returns (dst: bytes)
    requires memory.Valid() && start + size <= TOTAL && size <= |from|
    modifies memory.cells
    ensures |dst| == size && forall i :: 0 <= i < size ==> dst[i] == from[LastOnTop(i, |from|)]
    ensures dst == from[..size] <==> forall i :: 0 <= i < size ==> from[LastOnTop(i, |from|)] == from[i]
    ensures |from| <= BANKED ==> dst == from[..size]
  {
    hide CellAt, Loaded, LastOnTop, HasCell;
    memory.InitFromVector(from, start);
    forall i | 0 <= i < size ensures HasCell(start, i) {
      LoadedCellAt(old(memory.View()), from, start, i);
    }
    dst := memory.ExportBytes(start, size);
    forall i | 0 <= i < size ensures dst[i] == from[LastOnTop(i, |from|)] {
      LoadedCellAt(old(memory.View()), from, start, i);
    }
    SameBytes(from, dst);
  }

  lemma SameBytes(from: bytes, dst: bytes)
    requires |dst| <= |from| && forall i :: 0 <= i < |dst| ==> dst[i] == from[LastOnTop(i, |from|)]
    ensures dst == from[..|dst|] <==> forall i :: 0 <= i < |dst| ==> from[LastOnTop(i, |from|)] == from[i]
    ensures |from| <= BANKED ==> dst == from[..|dst|]
  {
    assert |from| <= BANKED ==> forall i :: 0 <= i < |dst| ==> LastOnTop(i, |from|) == i;
    if dst == from[..|dst|] {
      forall i | 0 <= i < |dst| ensures from[LastOnTop(i, |from|)] == from[i] {
        assert dst[i] == from[..|dst|][i];
      }
    }
  }
}
