/** The floppy controller in place (src/fd1793.h, classes FDisk and FD1793): four drives behind one
    set of registers. Logging and the flush to a host file are left out. */
module FloppyController {
  import opened Bytes
  import opened F = Floppy

  class FDisk {
    var image: bytes
    var data: byte
    var track: int
    var side: nat
    var sector: nat
    var position: int
    var readOffset: nat
    var readLength: nat
    var readSource: bool
    var readBuffer: bytes

    ghost function View(): Disk
      reads this
    {
      Disk(image, data, track, side, sector, position, readOffset, readLength, readSource, readBuffer)
    }

    method SeekTo(track: int, sector: nat, side: nat)
      modifies this`position, this`track, this`side
      ensures View() == F.Seek(old(View()), track, sector, side)
    {
      if |image| > 0 {
        var offsetSector := if sector != 0 then sector - 1 else 0;
        position := (track * (SECTORS * HEADS) + SECTORS * side + offsetSector) * SECTOR;
        this.track := track;
        this.side := side;
      }
    }

    /** readSector, and writeSector. */
    method Begin(sector: nat)
      modifies this`readLength, this`readOffset, this`readSource, this`sector, this`position, this`track, this`side
      ensures View() == F.BeginSector(old(View()), sector)
    {
      readLength := SECTOR;
      readOffset := 0;
      readSource := false;
      this.sector := sector;
      SeekTo(track, sector, side);
    }

    method BeginAddress()
      modifies this`readLength, this`readOffset, this`readSource, this`readBuffer
      ensures View() == F.BeginAddress(old(View()))
    {
      readLength := 6;
      readSource := true;
      readOffset := 0;
      readBuffer := [track % 256, side % 256, sector % 256, 3, 0, 0];
    }

    method Read() returns (finished: bool)
      requires InRange(View())
      modifies this`data, this`readOffset
      ensures (View(), finished) == ReadOne(old(View()))
    {
      finished := true;
      if readOffset < readLength {
        finished := false;
        if readSource {
          data := readBuffer[readOffset];
        } else {
          data := image[position + readOffset];
        }
        readOffset := readOffset + 1;
      }
    }

    method Write(v: byte) returns (finished: bool)
      requires WriteInRange(View())
      modifies this`image, this`readOffset
      ensures (View(), finished) == WriteOne(old(View()), v)
    {
      finished := true;
      if readOffset < readLength {
        finished := false;
        image := image[position + readOffset := v];
        readOffset := readOffset + 1;
      }
    }
  }

  class FD1793 {
    const disks: seq<FDisk>
    var dsksel: nat
    var side: nat
    var intrq: bool
    var data: byte
    var status: Status
    var commandtr: Transfer
    var track: int
    var sector: nat
    var stepdir: int
    var lingertime: int
    var lingerBefore: int

    ghost predicate Valid()
      reads this
    {
      |disks| == 4 && dsksel < 4 && forall i, j :: 0 <= i < j < 4 ==> disks[i] != disks[j]
    }

    ghost function View(): Fdc
      requires Valid()
      reads this, disks
    {
      Fdc(disks[dsksel].View(), side, intrq, data, status, commandtr, track, sector, stepdir, lingertime, lingerBefore)
    }

    method Exec()
      requires Valid() && CanExec(View())
      modifies this`status, this`intrq, this`data, disks[dsksel]
      ensures Valid() && View() == F.Exec(old(View()))
    {
      var finished;
      if commandtr.ReadSector? || commandtr.ReadAddress? {
        if status.drq {
          return;
        }
        finished := disks[dsksel].Read();
        if finished {
          status := status.(busy := false);
          intrq := true;
        } else {
          status := status.(drq := true);
          data := disks[dsksel].data;
        }
      } else if commandtr.WriteSector? {
        if !status.drq {
          finished := disks[dsksel].Write(data);
          if finished {
            status := status.(busy := false);
            intrq := true;
          } else {
            status := status.(drq := true);
          }
        }
      } else {
        status := status.(busy := false);
      }
    }

    /** read(0) */
    method ReadStatus() returns (returnStatus: Status)
      requires Valid() && CanExec(View())
      modifies this`status, this`intrq, this`data, this`lingertime, disks[dsksel]
      ensures Valid() && (View(), returnStatus) == F.PollStatus(old(View()))
    {
      hide F.Exec;
      status := status.(notReady := |disks[dsksel].image| == 0);
      returnStatus := status;
      if status.busy {
        if lingertime < 0 {
          returnStatus := returnStatus.(busy := false);
          lingertime := lingertime + 1;
        } else if lingertime < LINGER_AFTER {
          lingertime := lingertime + 1;
        } else if lingertime == LINGER_AFTER {
          lingertime := lingertime + 1;
          Exec();
          returnStatus := status;
        }
      }
      intrq := false;
    }

    /** read(3) */
    method ReadDataRegister() returns (result: byte)
      requires Valid() && CanExec(View())
      modifies this`status, this`intrq, this`data, disks[dsksel]
      ensures Valid() && (View(), result) == F.ReadData(old(View()))
    {
      hide F.Exec;
      status := status.(notReady := |disks[dsksel].image| == 0);
      result := data;
      status := status.(drq := false);
      Exec();
    }

    /** read(4) */
    method ReadParameter() returns (intrqOut: bool, drqOut: bool)
      requires Valid() && CanExec(View())
      modifies this`status, this`intrq, this`data, disks[dsksel]
      ensures Valid() && (View(), intrqOut, drqOut) == F.PollParameter(old(View()))
    {
      hide F.Exec;
      status := status.(notReady := |disks[dsksel].image| == 0);
      if status.busy {
        Exec();
      }
      intrqOut, drqOut := intrq, status.drq;
    }

    /** write(3) */
    method WriteDataRegister(val: byte)
      requires Valid() && CanExec(View())
      modifies this`status, this`intrq, this`data, disks[dsksel]
      ensures Valid() && View() == F.WriteData(old(View()), val)
    {
      hide F.Exec;
      data := val;
      status := status.(drq := false);
      Exec();
    }

    /** write(4): drive and side. */
    method WriteParameter(val: byte)
      requires Valid()
      modifies this`dsksel, this`side
      ensures Valid() && dsksel == val % 4 && side == 1 - val / 4 % 2
    {
      dsksel := val % 4;
      side := 1 - val / 4 % 2;
    }

    /** command: read sector and write sector. */
    method Command(transfer: Transfer)
      requires Valid() && (transfer.ReadSector? || transfer.WriteSector?)
      modifies this`intrq, this`commandtr, this`status, this`lingertime, disks[dsksel]
      ensures Valid() && View() == F.BeginTransfer(old(View()), transfer)
    {
      intrq := false;
      commandtr := transfer;
      status := status.(busy := true);
      if transfer.WriteSector? {
        status := status.(drq := true);
      }
      disks[dsksel].SeekTo(track, sector, side);
      disks[dsksel].Begin(sector);
      lingertime := lingerBefore;
    }
  }

  /** A program that reads a sector as the port allows, polling until DRQ or the end of BUSY. A byte
      left on DRQ from before comes first. */
  method ReadWholeSector(fdc: FD1793) returns (got: bytes)
    requires fdc.Valid() && Addressed(fdc.View()) && (fdc.status.drq || fdc.lingerBefore <= LINGER_AFTER)
    modifies fdc, fdc.disks[fdc.dsksel]
    ensures fdc.Valid() && got == old(Due(fdc.View().disk.image, Address(fdc.View()), Lead(fdc.View())))
    ensures !fdc.status.busy && fdc.View().disk.image == old(fdc.View()).disk.image
  {
    hide Position, Address, Reading, Due, Lead, F.PollStatus, F.ReadData, F.BeginTransfer, CanExec;
    ghost var image, p, lead := fdc.View().disk.image, Address(fdc.View()), Lead(fdc.View());
    ghost var due := Due(image, p, lead);
    ReadBegins(fdc.View());
    fdc.Command(ReadSector);
    got := [];
    var done := false;
    while !done
      invariant fdc.Valid() && fdc.dsksel == old(fdc.dsksel) && Reading(fdc.View(), image, p, lead, |got|)
      invariant |got| <= |due| && got == due[..|got|] && (done ==> |got| == |due| && !fdc.status.busy)
      invariant !fdc.status.drq && got == [] ==> fdc.lingertime <= LINGER_AFTER
      decreases |due| - |got|, LINGER_AFTER + 1 - fdc.lingertime, !done
    {
      ReadingSays(fdc.View(), image, p, lead, |got|);
      if fdc.status.drq {
        DataDelivers(fdc.View(), image, p, lead, |got|);
        var v := fdc.ReadDataRegister();
        got := got + [v];
      } else if !fdc.status.busy {
        done := true;
      } else {
        PollKeepsReading(fdc.View(), image, p, lead, |got|, Status0);
        PollGoesOn(fdc.View(), image, p);
        var status := fdc.ReadStatus();
      }
    }
    ReadingSays(fdc.View(), image, p, lead, |got|);
    assert due[..|due|] == due;
  }

  lemma ReadingSays(s: Fdc, image: bytes, p: nat, lead: bytes, n: nat)
    requires Reading(s, image, p, lead, n)
    ensures CanExec(s) && s.disk.image == image && n <= |lead| + SECTOR
    ensures s.status.drq ==> s.status.busy && n < |lead| + SECTOR
    ensures !s.status.drq && s.status.busy ==> n == 0 && lead == []
    ensures !s.status.drq && !s.status.busy ==> n == |lead| + SECTOR
  {
  }

  lemma PollGoesOn(s: Fdc, image: bytes, p: nat)
    requires Reading(s, image, p, [], 0) && !s.status.drq && s.lingerTime <= LINGER_AFTER
    ensures CanExec(s)
    ensures var r := F.PollStatus(s).0;
      r.lingerTime == s.lingerTime + 1 && (!r.status.drq ==> r.lingerTime <= LINGER_AFTER)
  {
  }
}
