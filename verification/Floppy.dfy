/** The floppy controller and its drive as functions of their state (src/fd1793.h: FDisk, FD1793). */
module Floppy {
  import opened Bytes
  import CpmDirectory

  const SECTOR: nat := 1024
  const SECTORS: nat := 5 // per track and side
  const HEADS: nat := 2
  const LINGER_AFTER: int := 2

  /** FDisk, as parse_v06c sets it up. */
  datatype Disk = Disk(
    image: bytes,
    data: byte,
    track: int,
    side: nat,
    sector: nat,
    position: int,
    readOffset: nat,
    readLength: nat,
    fromBuffer: bool, // readSource
    buffer: bytes)

  datatype Transfer = NoTransfer | ReadSector | ReadAddress | WriteSector

  /** The status bits in use. */
  datatype Status = Status(notReady: bool, seekError: bool, drq: bool, busy: bool)

  datatype Fdc = Fdc(
    disk: Disk,          // the selected one
    side: nat,
    intrq: bool,
    data: byte,
    status: Status,
    transfer: Transfer,  // _commandtr
    track: int,
    sector: nat,
    stepDir: int,
    lingerTime: int,
    lingerBefore: int)   // never initialized in the source: any value

  // ----- the drive -----

  function Position(track: int, side: nat, sector: nat): int {
    (track * (SECTORS * HEADS) + SECTORS * side + (if sector != 0 then sector - 1 else 0)) * SECTOR
  }

  function Seek(d: Disk, track: int, sector: nat, side: nat): Disk {
    if d.image != [] then d.(position := Position(track, side, sector), track := track, side := side) else d
  }

  /** readSector and writeSector. */
  function BeginSector(d: Disk, sector: nat): Disk {
    Seek(d.(readLength := SECTOR, readOffset := 0, fromBuffer := false, sector := sector), d.track, sector, d.side)
  }

  function BeginAddress(d: Disk): Disk {
    d.(readLength := 6, fromBuffer := true, readOffset := 0,
       buffer := [d.track % 256, d.side % 256, d.sector % 256, 3, 0, 0])
  }

  /** What is to be read next lies in the image, or in the address buffer. */
  predicate InRange(d: Disk) {
    d.readOffset < d.readLength ==>
      if d.fromBuffer then d.readOffset < |d.buffer| else 0 <= d.position + d.readOffset < |d.image|
  }

  /** FDisk::read: the drive, and whether the transfer had finished. */
  function ReadOne(d: Disk): (Disk, bool)
    requires InRange(d)
  {
    if d.readOffset < d.readLength then
      var data := if d.fromBuffer then d.buffer[d.readOffset] else d.image[d.position + d.readOffset];
      (d.(data := data, readOffset := d.readOffset + 1), false)
    else (d, true)
  }

  predicate WriteInRange(d: Disk) {
    d.readOffset < d.readLength ==> 0 <= d.position + d.readOffset < |d.image|
  }

  /** FDisk::write_data */
  function WriteOne(d: Disk, v: byte): (Disk, bool)
    requires WriteInRange(d)
  {
    if d.readOffset < d.readLength then
      (d.(image := d.image[d.position + d.readOffset := v], readOffset := d.readOffset + 1), false)
    else (d, true)
  }

  // ----- the controller -----

  predicate CanExec(s: Fdc) {
    match s.transfer
    case ReadSector => InRange(s.disk)
    case ReadAddress => InRange(s.disk)
    case WriteSector => WriteInRange(s.disk)
    case NoTransfer => true
  }

  /** Dropping BUSY, with an interrupt. */
  function Finish(s: Fdc): Fdc { s.(status := s.status.(busy := false), intrq := true) }

  function Exec(s: Fdc): Fdc
    requires CanExec(s)
  {
    match s.transfer
    case NoTransfer => s.(status := s.status.(busy := false))
    case WriteSector =>
      if s.status.drq then s
      else
        var (disk, finished) := WriteOne(s.disk, s.data);
        if finished then Finish(s.(disk := disk)) else s.(disk := disk, status := s.status.(drq := true))
    case _ =>
      if s.status.drq then s
      else
        var (disk, finished) := ReadOne(s.disk);
        if finished then Finish(s.(disk := disk))
          else s.(disk := disk, status := s.status.(drq := true), data := disk.data)
  }

  /** Every port read samples the drive first. */
  function Sampled(s: Fdc): Fdc { s.(status := s.status.(notReady := s.disk.image == [])) }

  /** A status poll, and what it returns. */
  function PollStatus(s: Fdc): (Fdc, Status)
    requires CanExec(s)
  {
    var s0 := Sampled(s);
    if !s.status.busy || s.lingerTime > LINGER_AFTER then (s0.(intrq := false), s0.status)
    else if s.lingerTime < 0 then (s0.(lingerTime := s.lingerTime + 1, intrq := false), s0.status.(busy := false))
    else if s.lingerTime < LINGER_AFTER then (s0.(lingerTime := s.lingerTime + 1, intrq := false), s0.status)
    else
      var s1 := Exec(s0.(lingerTime := s.lingerTime + 1));
      (s1.(intrq := false), s1.status)
  }

  /** A poll of the parameter port: INTRQ and DRQ. */
  function PollParameter(s: Fdc): (Fdc, bool, bool)
    requires CanExec(s)
  {
    var s0 := Sampled(s);
    var s1 := if s0.status.busy then Exec(s0) else s0;
    (s1, s1.intrq, s1.status.drq)
  }

  function ReadData(s: Fdc): (Fdc, byte)
    requires CanExec(s)
  {
    var s0 := Sampled(s);
    (Exec(s0.(status := s0.status.(drq := false))), s.data)
  }

  function WriteData(s: Fdc, v: byte): Fdc
    requires CanExec(s)
  {
    Exec(s.(data := v, status := s.status.(drq := false)))
  }

  /** command: read sector (0x80, 0x90) or write sector (0xA0, 0xB0). */
  function BeginTransfer(s: Fdc, transfer: Transfer): Fdc {
    var drq := s.status.drq || transfer.WriteSector?;
    s.(intrq := false, transfer := transfer, status := s.status.(busy := true, drq := drq),
       disk := BeginSector(Seek(s.disk, s.track, s.sector, s.side), s.sector), lingerTime := s.lingerBefore)
  }

  // ----- where sectors lie -----

  predicate GoodSector(track: nat, side: nat, sector: nat) { side < HEADS && 1 <= sector <= SECTORS }

  /** Distinct sectors do not overlap. */
  lemma SectorsAreDisjoint(t: nat, s: nat, n: nat, t': nat, s': nat, n': nat)
    requires GoodSector(t, s, n) && GoodSector(t', s', n') && (t, s, n) != (t', s', n')
    ensures Position(t, s, n) + SECTOR <= Position(t', s', n') || Position(t', s', n') + SECTOR <= Position(t, s, n)
  {
  }

  /** The controller finds a sector where the file system keeps it. */
  lemma SameSectorAsFilesystem(size: nat, t: nat, s: nat, n: nat)
    requires GoodSector(t, s, n)
    ensures var found := CpmDirectory.MapSector(size, CpmDirectory.Ths(t, s, n));
      found.Some? ==> found.value == Position(t, s, n)
  {
  }

  // ----- reading a sector -----

  /** What a program does at the ports during a transfer. */
  datatype Op = Status0 | Parameter4 | Data3 | Put3(value: byte)

  function Do(s: Fdc, op: Op): Fdc
    requires CanExec(s)
  {
    match op
    case Status0 => PollStatus(s).0
    case Parameter4 => PollParameter(s).0
    case Data3 => ReadData(s).0
    case Put3(v) => WriteData(s, v)
  }

  /** The sector that the registers address. */
  function Address(s: Fdc): int { Position(s.track, s.side, s.sector) }

  predicate Addressed(s: Fdc) {
    s.disk.image != [] && 0 <= Address(s) && Address(s) + SECTOR <= |s.disk.image|
  }

  /** What a read of the sector at p hands out: a byte left on DRQ from before, if any, and the sector. */
  function Due(image: bytes, p: nat, lead: bytes): (r: bytes)
    requires p + SECTOR <= |image|
    ensures |r| == |lead| + SECTOR
  {
    lead + image[p..p + SECTOR]
  }

  /** A read of the sector at p, n bytes of what is due delivered. */
  predicate Reading(s: Fdc, image: bytes, p: nat, lead: bytes, n: nat) {
    && p + SECTOR <= |image| && |lead| <= 1 && n <= |lead| + SECTOR
    && s.transfer.ReadSector? && s.disk.image == image && s.disk.position == p
    && s.disk.readLength == SECTOR && !s.disk.fromBuffer
    && (if s.status.drq then
          n < |lead| + SECTOR && s.disk.readOffset == n + 1 - |lead| && s.data == Due(image, p, lead)[n]
            && s.status.busy
        else if n == 0 then lead == [] && s.disk.readOffset == 0 && s.status.busy
        else n == |lead| + SECTOR && s.disk.readOffset == SECTOR && !s.status.busy)
  }

  /** The data register's byte, when DRQ is up as the command is given: the command does not take DRQ
      down. */
  function Lead(s: Fdc): bytes { if s.status.drq then [s.data] else [] }

  /** The command starts the read of the addressed sector, nothing delivered. */
  lemma ReadBegins(s: Fdc)
    requires Addressed(s)
    ensures var r := BeginTransfer(s, ReadSector);
      Reading(r, s.disk.image, Address(s), Lead(s), 0) && r.lingerTime == s.lingerBefore && r.status.drq == s.status.drq
  {
  }

  function ReadCommand(s: Fdc): (r: Fdc)
    requires Addressed(s)
    ensures Reading(r, s.disk.image, Address(s), Lead(s), 0)
  {
    ReadBegins(s);
    BeginTransfer(s, ReadSector)
  }

  /** Polls neither lose nor repeat a byte. */
  lemma PollKeepsReading(s: Fdc, image: bytes, p: nat, lead: bytes, n: nat, op: Op)
    requires Reading(s, image, p, lead, n) && (op.Status0? || op.Parameter4?)
    ensures CanExec(s) && Reading(Do(s, op), image, p, lead, n)
  {
  }

  /** A data read on DRQ delivers the next byte; after the last one BUSY is down. */
  lemma DataDelivers(s: Fdc, image: bytes, p: nat, lead: bytes, n: nat)
    requires Reading(s, image, p, lead, n) && s.status.drq
    ensures CanExec(s) && ReadData(s).1 == Due(image, p, lead)[n] && Reading(ReadData(s).0, image, p, lead, n + 1)
    ensures ReadData(s).0.status.drq == (n + 1 < |lead| + SECTOR) == ReadData(s).0.status.busy
  {
  }

  /** A program that reads data only on DRQ. */
  predicate Polite(s: Fdc, op: Op) {
    op.Status0? || op.Parameter4? || (op.Data3? && s.status.drq)
  }

  /** A run of port accesses: the end, and the bytes that data reads returned. */
  datatype Session = Session(end: Fdc, got: bytes)

  /** Port accesses in order, for as long as they are polite; the others are not made. */
  function Serve(s: Fdc, image: bytes, p: nat, lead: bytes, n: nat, ops: seq<Op>): (r: Session)
    requires Reading(s, image, p, lead, n)
    ensures Reading(r.end, image, p, lead, n + |r.got|)
    decreases |ops|
  {
    if ops == [] then Session(s, [])
    else if !Polite(s, ops[0]) then Serve(s, image, p, lead, n, ops[1..])
    else if ops[0].Data3? then
      DataDelivers(s, image, p, lead, n);
      var rest := Serve(ReadData(s).0, image, p, lead, n + 1, ops[1..]);
      Session(rest.end, [ReadData(s).1] + rest.got)
    else
      PollKeepsReading(s, image, p, lead, n, ops[0]);
      Serve(Do(s, ops[0]), image, p, lead, n, ops[1..])
  }

  lemma {:induction false} ServedInOrder(s: Fdc, image: bytes, p: nat, lead: bytes, n: nat, ops: seq<Op>)
    requires Reading(s, image, p, lead, n) && p + SECTOR <= |image|
    ensures var got := Serve(s, image, p, lead, n, ops).got;
      n + |got| <= |lead| + SECTOR && got == Due(image, p, lead)[n..n + |got|]
    decreases |ops|
  {
    hide Do, ReadData, Reading, Due;
    ReadingBounds(s, image, p, lead, n);
    if ops == [] {
    } else if !Polite(s, ops[0]) {
      ServedInOrder(s, image, p, lead, n, ops[1..]);
    } else if ops[0].Data3? {
      DataDelivers(s, image, p, lead, n);
      ServedInOrder(ReadData(s).0, image, p, lead, n + 1, ops[1..]);
      NextByte(Due(image, p, lead), n, Serve(ReadData(s).0, image, p, lead, n + 1, ops[1..]).got);
    } else {
      PollKeepsReading(s, image, p, lead, n, ops[0]);
      ServedInOrder(Do(s, ops[0]), image, p, lead, n, ops[1..]);
    }
  }

  lemma ReadingBounds(s: Fdc, image: bytes, p: nat, lead: bytes, n: nat)
    requires Reading(s, image, p, lead, n)
    ensures n <= |lead| + SECTOR
  {
  }

  lemma NextByte(due: bytes, n: nat, got: bytes)
    requires n + 1 + |got| <= |due| && got == due[n + 1..n + 1 + |got|]
    ensures [due[n]] + got == due[n..n + 1 + |got|]
  {
  }

  /** Under any interleaving of polls with data reads on DRQ, a read-sector command delivers the
      sector's bytes in order, none lost or repeated, and BUSY is down exactly when all are delivered.
      A byte that was on DRQ as the command was given comes before them. */
  lemma SectorIsRead(s: Fdc, ops: seq<Op>)
    requires Addressed(s)
    ensures var due := Due(s.disk.image, Address(s), Lead(s));
      var r := Serve(ReadCommand(s), s.disk.image, Address(s), Lead(s), 0, ops);
      && r.got <= due && r.end.disk.image == s.disk.image
      && (r.end.status.busy <==> |r.got| < |due|)
      && (r.got != [] ==> (r.end.status.drq <==> |r.got| < |due|))
  {
    hide Position, Serve, Due, Lead;
    var r := Serve(ReadCommand(s), s.disk.image, Address(s), Lead(s), 0, ops);
    ServedInOrder(ReadCommand(s), s.disk.image, Address(s), Lead(s), 0, ops);
    assert Reading(r.end, s.disk.image, Address(s), Lead(s), |r.got|);
  }

  /** Status polls in a row. */
  function Polls(s: Fdc, image: bytes, p: nat, k: nat): (r: Fdc)
    requires Reading(s, image, p, [], 0)
    ensures Reading(r, image, p, [], 0)
  {
    if k == 0 then s
    else
      PollKeepsReading(Polls(s, image, p, k - 1), image, p, [], 0, Status0);
      PollStatus(Polls(s, image, p, k - 1)).0
  }

  /** A program that only polls the status sees the first byte after exactly 3 - LINGER_BEFORE polls;
      never, when the uninitialized LINGER_BEFORE is above 2. */
  lemma {:induction false} FirstByteComes(s: Fdc, image: bytes, p: nat, k: nat)
    requires Reading(s, image, p, [], 0) && !s.status.drq && s.lingerTime == s.lingerBefore
    ensures var r := Polls(s, image, p, k);
      && r.status.drq == (s.lingerBefore <= LINGER_AFTER && k >= LINGER_AFTER + 1 - s.lingerBefore)
      && r.lingerTime == if s.lingerBefore > LINGER_AFTER then s.lingerBefore
                         else if k >= LINGER_AFTER + 1 - s.lingerBefore then LINGER_AFTER + 1 else s.lingerBefore + k
  {
    if k > 0 {
      FirstByteComes(s, image, p, k - 1);
      PollKeepsReading(Polls(s, image, p, k - 1), image, p, [], 0, Status0);
    }
  }

  /** What a status poll returns: DRQ and the errors as they are after it, NOT READY exactly without an
      image, and BUSY as it is after it, but down as long as the linger time was negative. INTRQ falls. */
  lemma StatusShown(s: Fdc)
    requires CanExec(s)
    ensures var (r, shown) := PollStatus(s);
      && shown.drq == r.status.drq && shown.seekError == r.status.seekError == s.status.seekError
      && shown.notReady == (s.disk.image == []) && shown.busy == (r.status.busy && s.lingerTime >= 0) && !r.intrq
  {
  }

  /** The status that poll k of a program returns that only polls: BUSY from poll -LINGER_BEFORE on, and DRQ
      from poll 2 - LINGER_BEFORE on, unless that is negative. */
  lemma PolledStatus(s: Fdc, image: bytes, p: nat, k: nat)
    requires Reading(s, image, p, [], 0) && !s.status.drq && s.lingerTime == s.lingerBefore
    ensures CanExec(Polls(s, image, p, k))
    ensures var shown := PollStatus(Polls(s, image, p, k)).1;
      && shown.busy == (s.lingerBefore + k >= 0) && !shown.notReady
      && shown.drq == (s.lingerBefore <= LINGER_AFTER && s.lingerBefore + k >= LINGER_AFTER)
  {
    hide Polls, PollStatus;
    var before := Polls(s, image, p, k);
    FirstByteComes(s, image, p, k);
    FirstByteComes(s, image, p, k + 1);
    PollKeepsReading(before, image, p, [], 0, Status0);
    StatusShown(before);
    NextPoll(s, image, p, k);
  }

  lemma NextPoll(s: Fdc, image: bytes, p: nat, k: nat)
    requires Reading(s, image, p, [], 0)
    ensures CanExec(Polls(s, image, p, k))
    ensures Polls(s, image, p, k + 1) == PollStatus(Polls(s, image, p, k)).0
    ensures Polls(s, image, p, k).status.busy && Polls(s, image, p, k + 1).status.busy
  {
    hide PollStatus;
  }

  // ----- writing a sector -----

  function Fitting(vs: bytes): (r: bytes)
    ensures |r| <= SECTOR
  {
    vs[..Min(|vs|, SECTOR)]
  }

  /** A write of the sector at p, the bytes vs written so far. */
  predicate Writing(s: Fdc, image: bytes, p: nat, vs: bytes) {
    && p + SECTOR <= |image|
    && s.transfer.WriteSector? && s.disk.image == Splice(image, p, Fitting(vs)) && s.disk.position == p
    && s.disk.readLength == SECTOR && s.disk.readOffset == |Fitting(vs)|
    && s.status.drq == (|vs| <= SECTOR) && s.status.busy == (|vs| <= SECTOR)
    && (vs != [] ==> s.data == vs[|vs| - 1])
  }

  lemma WriteBegins(s: Fdc)
    requires Addressed(s)
    ensures Writing(BeginTransfer(s, WriteSector), s.disk.image, Address(s), [])
  {
    assert Splice(s.disk.image, Address(s), []) == s.disk.image;
  }

  function WriteCommand(s: Fdc): (r: Fdc)
    requires Addressed(s)
    ensures Writing(r, s.disk.image, Address(s), [])
  {
    WriteBegins(s);
    BeginTransfer(s, WriteSector)
  }

  lemma PollKeepsWriting(s: Fdc, image: bytes, p: nat, vs: bytes, op: Op)
    requires Writing(s, image, p, vs) && (op.Status0? || op.Parameter4?)
    ensures CanExec(s) && Writing(Do(s, op), image, p, vs)
  {
  }

  /** One data write: the next byte of the sector, or nothing more. */
  lemma DataIsWritten(s: Fdc, image: bytes, p: nat, vs: bytes, v: byte)
    requires Writing(s, image, p, vs)
    ensures CanExec(s) && Writing(WriteData(s, v), image, p, vs + [v])
  {
    var fit := Fitting(vs);
    if |vs| < SECTOR {
      assert fit == vs && Fitting(vs + [v]) == vs + [v];
      assert Splice(image, p, vs)[p + |vs| := v] == Splice(image, p, vs + [v]);
    } else {
      assert Fitting(vs + [v]) == fit;
    }
  }

  /** Polls and data writes in order: the end, and what was written. */
  function Write(s: Fdc, image: bytes, p: nat, vs: bytes, ops: seq<Op>): (r: Session)
    requires Writing(s, image, p, vs)
    ensures Writing(r.end, image, p, r.got) && vs <= r.got
    decreases |ops|
  {
    if ops == [] then Session(s, vs)
    else if ops[0].Data3? then Write(s, image, p, vs, ops[1..])
    else if ops[0].Put3? then
      DataIsWritten(s, image, p, vs, ops[0].value);
      Write(WriteData(s, ops[0].value), image, p, vs + [ops[0].value], ops[1..])
    else
      PollKeepsWriting(s, image, p, vs, ops[0]);
      Write(Do(s, ops[0]), image, p, vs, ops[1..])
  }

  /** The values of the data writes. */
  function Puts(ops: seq<Op>): bytes {
    if ops == [] then [] else (if ops[0].Put3? then [ops[0].value] else []) + Puts(ops[1..])
  }

  lemma {:induction false} WrittenIsPut(s: Fdc, image: bytes, p: nat, vs: bytes, ops: seq<Op>)
    requires Writing(s, image, p, vs)
    ensures Write(s, image, p, vs, ops).got == vs + Puts(ops)
    decreases |ops|
  {
    hide Writing, Do, WriteData, Fitting, Splice, CanExec;
    if ops == [] {
      assert vs + [] == vs;
    } else {
      var op, rest := ops[0], ops[1..];
      match op
      case Data3 =>
        WrittenIsPut(s, image, p, vs, rest);
        assert [] + Puts(rest) == Puts(rest);
      case Put3(v) =>
        DataIsWritten(s, image, p, vs, v);
        WrittenIsPut(WriteData(s, v), image, p, vs + [v], rest);
        assert (vs + [v]) + Puts(rest) == vs + ([v] + Puts(rest));
      case _ =>
        PollKeepsWriting(s, image, p, vs, op);
        WrittenIsPut(Do(s, op), image, p, vs, rest);
        assert [] + Puts(rest) == Puts(rest);
    }
  }

  /** Under any interleaving of polls with data writes, a write-sector command puts the first 1024
      bytes into the addressed sector and changes nothing else, however many follow; BUSY falls only
      with the write after the last. */
  lemma SectorIsWritten(s: Fdc, ops: seq<Op>)
    requires Addressed(s)
    ensures var r := Write(WriteCommand(s), s.disk.image, Address(s), [], ops);
      && r.end.disk.image == Splice(s.disk.image, Address(s), Fitting(Puts(ops)))
      && r.end.status.busy == (|Puts(ops)| <= SECTOR)
  {
    hide Position, Write;
    WrittenIsPut(WriteCommand(s), s.disk.image, Address(s), [], ops);
    assert [] + Puts(ops) == Puts(ops);
  }

  /** No other sector is touched, and the written one holds what was written. */
  lemma OtherSectorsStay(image: bytes, vs: bytes, t: nat, s: nat, n: nat, t': nat, s': nat, n': nat)
    requires GoodSector(t, s, n) && GoodSector(t', s', n') && (t, s, n) != (t', s', n') && |vs| <= SECTOR
    requires Position(t, s, n) + SECTOR <= |image| && Position(t', s', n') + SECTOR <= |image|
    ensures var p, q := Position(t, s, n), Position(t', s', n');
      && Splice(image, p, vs)[q..q + SECTOR] == image[q..q + SECTOR]
      && Splice(image, p, vs)[p..p + |vs|] == vs
  {
    SectorsAreDisjoint(t, s, n, t', s', n');
  }

  /** After the 1024th data write DRQ and BUSY are still up. A sector read of the same place at once
      then hands out the byte written last, and only then the sector: a program that reads 1024 bytes
      back gets that byte and all but the last of the sector. */
  lemma VerifyReadIsShifted(s: Fdc, image: bytes, vs: bytes, ops: seq<Op>)
    requires Addressed(s) && Writing(s, image, Address(s), vs) && |vs| == SECTOR
    ensures s.status.drq && s.status.busy
    ensures Serve(ReadCommand(s), s.disk.image, Address(s), Lead(s), 0, ops).got <= [vs[SECTOR - 1]] + vs
  {
    hide Position, Serve;
    SectorIsRead(s, ops);
    assert Fitting(vs) == vs;
    assert s.disk.image[Address(s)..Address(s) + SECTOR] == vs;
  }

  /** One write more takes DRQ down, and the sector reads as it was written. */
  lemma VerifyReadAfterOneMore(s: Fdc, image: bytes, vs: bytes, v: byte, ops: seq<Op>)
    requires Addressed(s) && Writing(s, image, Address(s), vs) && |vs| == SECTOR
    ensures CanExec(s)
    ensures var w := WriteData(s, v);
      && Addressed(w) && Address(w) == Address(s) && w.disk.image == s.disk.image && Lead(w) == []
      && Serve(ReadCommand(w), w.disk.image, Address(w), [], 0, ops).got <= vs
  {
    hide Position, Serve;
    DataIsWritten(s, image, Address(s), vs, v);
    var w := WriteData(s, v);
    SectorIsRead(w, ops);
    assert Fitting(vs) == vs && Fitting(vs + [v]) == vs;
    assert w.disk.image[Address(s)..Address(s) + SECTOR] == vs;
    assert [] + vs == vs;
  }
}
