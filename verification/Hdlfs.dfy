/** The hdl: device of hdlfs/main.c over the HIOCTRANSFER command of hdd_fio.c. */
module Hdlfs {
  import opened Common
  import opened HdlfsTable
  import opened HdlfsFlat

  /**
   A disk and the APA partition that is open on it, sub-partitions included. Whether the drive will fail in its i-th
   transfer, and how many sectors it has stored by then, is up to the drive.
   */
  class Drive {
    var disk: seq<Byte>
    const parts: seq<Part>
    const fails: nat -> bool
    const reach: nat -> nat
    /** Transfers made so far. */
    var transfers: nat

    constructor (disk: seq<Byte>, parts: seq<Part>, fails: nat -> bool, reach: nat -> nat)
      ensures this.disk == disk && this.parts == parts && this.fails == fails && this.reach == reach && transfers == 0
    {
      this.disk, this.parts, this.fails, this.reach := disk, parts, fails, reach;
      transfers := 0;
    }

    /** Checks of ioctl2Transfer, before the transfer itself. */
    function Guard(sub: nat, sector: nat, size: nat): int
      requires sector < U32_RANGE && size < U32_RANGE
    {
      if |parts| <= sub then -ENODEV
      else if sub == 0 && sector < 0x2000 then -EINVAL
      else if sub != 0 && sector < 2 then -EINVAL
      else if parts[sub].length < U32(sector + size) then -ENXIO
      else 0
    }

    /** They pass exactly inside the partition, behind what is reserved there. */
    lemma GuardIff(sub: nat, sector: nat, size: nat)
      requires sector + size < U32_RANGE
      ensures Guard(sub, sector, size) == 0 <==>
        sub < |parts| && (if sub == 0 then 0x2000 else 2) <= sector && sector + size <= parts[sub].length
    {
    }

    /** ioctl2Transfer, writing. When the drive fails it has stored the first `stored` sectors. */
    method TransferWrite(sub: nat, sector: nat, size: nat, buffer: seq<Byte>) returns (rv: int, ghost stored: nat)
      requires |buffer| == 512 * size && sector + size < U32_RANGE
      requires sub < |parts| ==> 512 * (parts[sub].start + parts[sub].length) <= |disk|
      modifies this
      ensures transfers == old(transfers) + if Guard(sub, sector, size) == 0 then 1 else 0
      ensures Guard(sub, sector, size) == 0 ==>
        && rv == (if fails(old(transfers)) then -EIO else 0)
        && stored == (if fails(old(transfers)) then Min(reach(old(transfers)), size) else size)
        && 512 * (parts[sub].start + sector + size) <= |old(disk)|
        && disk == Patch(old(disk), 512 * (parts[sub].start + sector), buffer[..512 * stored])
      ensures Guard(sub, sector, size) != 0 ==> rv == Guard(sub, sector, size) && disk == old(disk)
    {
      rv, stored := Guard(sub, sector, size), 0;
      if rv == 0 {
        var reached: nat := size;
        if fails(transfers) {
          rv, reached := -EIO, Min(reach(transfers), size);
        }
        stored := reached;
        disk := Patch(disk, 512 * (parts[sub].start + sector), buffer[..512 * reached]);
        transfers := transfers + 1;
      }
    }

    /** ioctl2Transfer, reading. */
    method TransferRead(sub: nat, sector: nat, size: nat) returns (rv: int, data: seq<Byte>)
      requires sector + size < U32_RANGE
      requires sub < |parts| ==> 512 * (parts[sub].start + parts[sub].length) <= |disk|
      modifies `transfers
      ensures transfers == old(transfers) + if Guard(sub, sector, size) == 0 then 1 else 0
      ensures rv == if Guard(sub, sector, size) != 0 then Guard(sub, sector, size)
                    else if fails(old(transfers)) then -EIO else 0
      ensures rv == 0 ==> Guard(sub, sector, size) == 0
                          && 512 * (parts[sub].start + sector + size) <= |disk|
                          && data == disk[512 * (parts[sub].start + sector)..512 * (parts[sub].start + sector + size)]
      ensures rv != 0 ==> data == []
    {
      data := [];
      rv := Guard(sub, sector, size);
      if rv == 0 {
        if fails(transfers) {
          rv := -EIO;
        } else {
          data := disk[512 * (parts[sub].start + sector)..512 * (parts[sub].start + sector + size)];
        }
        transfers := transfers + 1;
      }
    }
  }

  /** CurrentPartNum is an `unsigned short`. */
  const LAST_PART_NUM := 0xFFFF

  /** struct HDLFS_FileDescriptor, mounted. */
  class Descriptor {
    const drive: Drive
    const partSpecs: seq<PartSpec>
    var numPartitions: nat
    var currentPartNum: nat
    var relativeSectorNumber: nat
    var offset: nat
    /** What the memory behind the table would give as the size of slice 65, 66 and so on. */
    var behind: nat -> nat

    ghost predicate Valid()
      reads this, drive`disk
    {
      && Table(partSpecs, drive.parts, |drive.disk|)
      && numPartitions == |drive.parts|
      && currentPartNum <= LAST_PART_NUM && offset < U32_RANGE
      && relativeSectorNumber <= (if currentPartNum < |drive.parts| then 4 * Count(partSpecs[currentPartNum]) else 0)
    }

    /**
     The place in the game, in HDD sectors, where the next transfer starts: slice ends count as the next slice's start.
     */
    function Place(): nat
      reads this, drive`disk
      requires Valid()
    {
      if currentPartNum < |drive.parts| then 4 * partSpecs[currentPartNum].partOffset + relativeSectorNumber
      else Length()
    }

    /** How often a transfer past the end of the game has pushed the slice number on. */
    ghost function Pushes(): nat
      reads this
    {
      if currentPartNum < |drive.parts| then 0 else currentPartNum - |drive.parts| + 1
    }

    /** The game as the driver's callers see it. */
    ghost function Game(): seq<Byte>
      reads this, drive`disk
      requires Valid()
    {
      Flat(drive.disk, partSpecs, drive.parts)
    }

    /** HDD sectors of the game. */
    function Length(): nat
      reads this, drive`disk
      requires Valid()
    {
      4 * Sectors(partSpecs, drive.parts)
    }

    /** hdlfs_mount, the partition being open and its game information read. */
    constructor Mount(drive: Drive, partSpecs: seq<PartSpec>, behind: nat -> nat)
      requires Table(partSpecs, drive.parts, |drive.disk|)
      ensures Valid() && this.drive == drive && this.partSpecs == partSpecs
      ensures Place() == offset == 0 && Pushes() == 0
    {
      this.drive := drive;
      this.partSpecs := partSpecs;
      this.numPartitions := |drive.parts|;
      this.behind := behind;
      this.offset, this.currentPartNum, this.relativeSectorNumber := 0, 0, 0;
    }

    /** hdlfs_lseek with SEEK_SET. `offset` counts CD sectors and may be negative. */
    method LseekSet(position: int) returns (result: int)
      requires Valid() && -0x8000_0000 <= position < 0x8000_0000
      modifies this
      ensures Valid() && numPartitions == old(numPartitions)
      ensures result == if 0 <= position < Sectors(partSpecs, drive.parts) then position else -EINVAL
      ensures if 0 <= position < Sectors(partSpecs, drive.parts) then Place() == offset == 4 * position && Pushes() == 0
              else unchanged(this)
    {
      hide SpecFits, Apart;
      SectorsBound(partSpecs, drive.parts, |drive.disk|);
      result := -EINVAL;
      var i := 0;
      var target := U32(position);
      while i < numPartitions
        invariant i <= numPartitions == |drive.parts|
        invariant Valid() && unchanged(this) && result == -EINVAL
        invariant i == 0 || partSpecs[i - 1].partOffset + Count(partSpecs[i - 1]) <= target
      {
        if partSpecs[i].partOffset <= target && target < partSpecs[i].partOffset + partSpecs[i].partSize / 2048 {
          CountsAddUp(partSpecs, drive.parts, |drive.disk|, i);
          offset := position * 4;
          relativeSectorNumber := offset - partSpecs[i].partOffset * 4;
          currentPartNum := i;
          result := offset / 4;
          return;
        }
        i := i + 1;
      }
    }

    /** The size of slice `i`; the code reads on behind the table. */
    function SizeAt(i: nat): nat
      reads this
    {
      if i < |partSpecs| then partSpecs[i].partSize else behind(i)
    }

    /** A slice number past the end moves on with every transfer, unless the memory there looks like a slice. */
    function PushedOn(i: nat): nat
      reads this
    {
      if SizeAt(i) >= 512 then i else if i == LAST_PART_NUM then 0 else i + 1
    }

    /**
     Loop head of hdlfs_io_internal: where the next transfer starts and how many sectors it moves. The slice number is
     16 bits wide: pushed past the end of the game often enough it is 0 again.
     */
    method NextTransfer(sectorsRemaining: nat) returns (sector: nat, count: nat, wrapped: bool)
      requires Valid() && 0 < sectorsRemaining
      modifies this
      ensures Valid() && numPartitions == old(numPartitions) && offset == old(offset)
      ensures wrapped <==> old(currentPartNum) == LAST_PART_NUM && currentPartNum == 0
      ensures behind == old(behind)
      ensures (old(currentPartNum) >= |drive.parts| ==> currentPartNum == old(PushedOn(currentPartNum)))
      ensures !wrapped ==> old(currentPartNum) <= currentPartNum <= old(currentPartNum) + 1
      ensures Place() == if wrapped then 0 else old(Place())
      ensures sector == Reserved(currentPartNum) + relativeSectorNumber && count <= sectorsRemaining
      ensures currentPartNum < |drive.parts| ==> relativeSectorNumber + count <= 4 * Count(partSpecs[currentPartNum])
      ensures count == 0 && !wrapped && currentPartNum < |drive.parts| ==> old(currentPartNum) < currentPartNum
    {
      hide Apart;
      wrapped := false;
      SliceSizes();
      var inPartition := SizeAt(currentPartNum) / 512 - relativeSectorNumber;
      if inPartition < 1 {
        wrapped := currentPartNum == LAST_PART_NUM;
        currentPartNum := if currentPartNum == LAST_PART_NUM then 0 else currentPartNum + 1;
        relativeSectorNumber := 0;
        inPartition := SizeAt(currentPartNum) / 512;
      }
      sector := (if currentPartNum == 0 then 0x2000 else 4) + relativeSectorNumber;
      count := if sectorsRemaining > inPartition then inPartition else sectorsRemaining;
    }

    lemma SliceSizes()
      requires Valid()
      ensures forall i :: 0 <= i < |drive.parts| ==> partSpecs[i].partSize == 2048 * Count(partSpecs[i])
    {
      hide Apart;
      forall i | 0 <= i < |drive.parts| ensures partSpecs[i].partSize == 2048 * Count(partSpecs[i]) {
        assert SpecFits(partSpecs[i], drive.parts[i], i, |drive.disk|);
      }
    }

    /** A transfer that stays in the slice passes the guards of ioctl2Transfer; one past the last slice does not. */
    lemma GuardPasses(count: nat)
      requires Valid() && count < 0x40_0000
      requires currentPartNum < |drive.parts| ==> relativeSectorNumber + count <= 4 * Count(partSpecs[currentPartNum])
      ensures Reserved(currentPartNum) + relativeSectorNumber + count < U32_RANGE
      ensures drive.Guard(currentPartNum, Reserved(currentPartNum) + relativeSectorNumber, count)
           == if currentPartNum < |drive.parts| then 0 else -ENODEV
      ensures currentPartNum < |drive.parts| ==>
                512 * (drive.parts[currentPartNum].start + drive.parts[currentPartNum].length) <= |drive.disk|
      ensures currentPartNum < |drive.parts| ==>
                512 * (drive.parts[currentPartNum].start + Reserved(currentPartNum) + relativeSectorNumber)
                == Address(partSpecs, currentPartNum, 512 * Place())
                && partSpecs[currentPartNum].partSize == 2048 * Count(partSpecs[currentPartNum])
    {
      if currentPartNum < |drive.parts| {
        assert SpecFits(partSpecs[currentPartNum], drive.parts[currentPartNum], currentPartNum, |drive.disk|);
      }
    }

    /**
     hdlfs_io_internal, writing: the flat game takes the data at the cursor, as far as the transfer got, and no other
     byte of it changes; a failing drive may have got further than the cursor. The cursor is where it was left, unless
     the slice number comes round to 0 just now.
     */
    method Write(data: seq<Byte>) returns (result: int, ghost wrapped: bool, ghost stored: nat)
      requires Valid() && |data| < 0x8000_0000
      modifies this, drive
      ensures Valid() && numPartitions == old(numPartitions) && Length() == old(Length())
      ensures |data| % 512 != 0 ==> result == -EINVAL && drive.disk == old(drive.disk) && unchanged(this) && !wrapped
      ensures var from := if wrapped then 0 else old(Place());
              && from <= Place() <= Length()
              && Stored(old(drive.disk), drive.disk, partSpecs, drive.parts, 512 * from, data, 512 * stored)
              && Place() - from <= stored && (result != -EIO ==> stored == Place() - from)
              && (|data| % 512 == 0 ==> result == |data| || result == -EIO || result == -ENODEV)
              && (result == |data| ==> 512 * (Place() - from) == |data|)
              && (result == -ENODEV ==> Place() == Length() < from + |data| / 512)
      ensures behind == old(behind) && (wrapped ==> old(currentPartNum) == LAST_PART_NUM)
      ensures Pushes() <= (if wrapped then 0 else old(Pushes())) + (if result == -ENODEV then 1 else 0)
      ensures old(currentPartNum) >= |drive.parts| && 0 < |data| && |data| % 512 == 0 ==>
        if old(PushedOn(currentPartNum)) == 0 then wrapped
        else !wrapped && result == -ENODEV && currentPartNum == old(PushedOn(currentPartNum))
      ensures offset == U32(old(offset) + Place() - (if wrapped then 0 else old(Place())))
      ensures old(drive.transfers) <= drive.transfers
      ensures result == -EIO <==> SomeIn(drive.fails, old(drive.transfers), drive.transfers)
    {
      hide Table, Stored, Flat, SomeIn;
      wrapped, stored := false, 0;
      SomeInNone(drive.fails, drive.transfers);
      FlatLength(drive.disk, partSpecs, drive.parts);
      PlaceInGame();
      NothingStored(drive.disk, partSpecs, drive.parts, 512 * Place(), data);
      if |data| % 512 != 0 {
        return -EINVAL, false, 0;
      }
      result, wrapped, stored := WriteSectors(data, |data| / 512);
      result := if result < 0 then result else |data|;
    }

    /** The loop of hdlfs_io_internal, writing `total` sectors. */
    method WriteSectors(data: seq<Byte>, total: nat) returns (result: int, ghost wrapped: bool, ghost stored: nat)
      requires Valid() && |data| == 512 * total && total < 0x40_0000
      modifies this, drive
      ensures Valid() && numPartitions == old(numPartitions) && Length() == old(Length())
      ensures var from := if wrapped then 0 else old(Place());
              && from <= Place() <= Length()
              && Stored(old(drive.disk), drive.disk, partSpecs, drive.parts, 512 * from, data, 512 * stored)
              && Place() - from <= stored && (result != -EIO ==> stored == Place() - from)
              && (result == 0 ==> Place() == from + total)
              && (result == -ENODEV ==> Place() == Length() < from + total)
      ensures result == 0 || result == -EIO || result == -ENODEV
      ensures behind == old(behind) && (wrapped ==> old(currentPartNum) == LAST_PART_NUM)
      ensures Pushes() <= (if wrapped then 0 else old(Pushes())) + (if result == -ENODEV then 1 else 0)
      ensures old(currentPartNum) >= |drive.parts| && 0 < |data| && |data| % 512 == 0 ==>
        if old(PushedOn(currentPartNum)) == 0 then wrapped
        else !wrapped && result == -ENODEV && currentPartNum == old(PushedOn(currentPartNum))
      ensures offset == U32(old(offset) + Place() - (if wrapped then 0 else old(Place())))
      ensures old(drive.transfers) <= drive.transfers
      ensures result == -EIO <==> SomeIn(drive.fails, old(drive.transfers), drive.transfers)
    {
      hide Stored, Table, SomeIn;
      SomeInNone(drive.fails, drive.transfers);
      FlatLength(drive.disk, partSpecs, drive.parts);
      PlaceInGame();
      PartsAreFew();
      ghost var disk0, from := drive.disk, Place();
      var sectorsRemaining, done := total, 0;
      result, wrapped, stored := 0, false, 0;
      NothingStored(disk0, partSpecs, drive.parts, 512 * from, data);
      while sectorsRemaining > 0
        invariant Valid() && numPartitions == old(numPartitions) && Length() == old(Length()) && result == 0
        invariant 0 <= sectorsRemaining && done + sectorsRemaining == total && Place() == from + done <= Length()
        invariant from == (if wrapped then 0 else old(Place())) && (wrapped ==> old(currentPartNum) == LAST_PART_NUM)
        invariant behind == old(behind) && (wrapped ==> old(PushedOn(currentPartNum)) == 0)
        invariant (currentPartNum < |drive.parts| && (wrapped || old(currentPartNum) < |drive.parts|))
                  || (currentPartNum == old(currentPartNum) && done == 0 && !wrapped)
        invariant done == 0 ==> drive.disk == disk0
        invariant Stored(disk0, drive.disk, partSpecs, drive.parts, 512 * from, data, 512 * done) && stored == done
        invariant offset == U32(old(offset) + Place() - from)
        invariant old(drive.transfers) <= drive.transfers
        invariant !SomeIn(drive.fails, old(drive.transfers), drive.transfers)
        decreases sectorsRemaining,
                  if currentPartNum < |drive.parts| then |drive.parts| - currentPartNum else |drive.parts| + 1
      {
        var count;
        ghost var w;
        ghost var tried := drive.transfers;
        result, count, w, stored := WriteNext(data, done, sectorsRemaining, disk0, from);
        SomeInSplits(drive.fails, old(drive.transfers), tried, drive.transfers);
        if w {
          from, wrapped := 0, true;
        }
        if result < 0 {
          break;
        }
        sectorsRemaining := sectorsRemaining - count;
        done := done + count;
      }
    }

    /** One round of that loop: a transfer within one partition, and the descriptor moved past it. */
    method WriteNext(data: seq<Byte>, done: nat, sectorsRemaining: nat, ghost disk0: seq<Byte>, ghost from: nat)
      returns (result: int, count: nat, ghost wrapped: bool, ghost stored: nat)
      requires Valid() && 0 < sectorsRemaining < 0x40_0000
      requires |data| == 512 * (done + sectorsRemaining) && Place() == from + done
      requires currentPartNum < |drive.parts| || done == 0
      requires Stored(disk0, drive.disk, partSpecs, drive.parts, 512 * from, data, 512 * done)
      requires done == 0 ==> drive.disk == disk0
      modifies this, drive
      ensures Valid() && numPartitions == old(numPartitions) && Length() == old(Length())
      ensures result == 0 || result == -EIO || result == -ENODEV
      ensures behind == old(behind) && (wrapped ==> old(currentPartNum) == LAST_PART_NUM && done == 0)
      ensures old(currentPartNum) >= |drive.parts| ==>
        if old(PushedOn(currentPartNum)) == 0 then wrapped
        else !wrapped && result == -ENODEV && currentPartNum == old(PushedOn(currentPartNum))
      ensures count <= sectorsRemaining && (result != 0 ==> count == 0)
      ensures Place() == (if wrapped then 0 else from) + done + count <= Length()
      ensures Stored(disk0, drive.disk, partSpecs, drive.parts, 512 * (if wrapped then 0 else from), data, 512 * stored)
      ensures done + count <= stored && (result != -EIO ==> stored == done + count)
      ensures result == 0 && done + count == 0 ==> drive.disk == disk0
      ensures result == 0 ==> currentPartNum < |drive.parts|
      ensures result == -EIO ==> currentPartNum < |drive.parts|
      ensures result == 0 && count == 0 && !wrapped ==> old(currentPartNum) < currentPartNum
      ensures result == -ENODEV ==> Place() == Length() && Pushes() <= (if wrapped then 0 else old(Pushes())) + 1
      ensures offset == U32(old(offset) + count)
      ensures old(drive.transfers) <= drive.transfers
      ensures result == -EIO <==> SomeIn(drive.fails, old(drive.transfers), drive.transfers)
    {
      hide Stored, Table, SpecFits, InSlice, SomeIn;
      PartsAreFew();
      FlatLength(drive.disk, partSpecs, drive.parts);
      var sector;
      sector, count, wrapped := NextTransfer(sectorsRemaining);
      if wrapped {
        NothingStored(disk0, partSpecs, drive.parts, 0, data);
      }
      result, count, stored := WriteOne(data, done, sector, count, disk0, if wrapped then 0 else from);
    }

    /** The transfer of that round. */
    method WriteOne(data: seq<Byte>, done: nat, sector: nat, asked: nat, ghost disk0: seq<Byte>, ghost from: nat)
      returns (result: int, count: nat, ghost stored: nat)
      requires Valid() && Place() == from + done && asked < 0x40_0000 && 512 * (done + asked) <= |data|
      requires sector == Reserved(currentPartNum) + relativeSectorNumber
      requires currentPartNum < |drive.parts| ==> relativeSectorNumber + asked <= 4 * Count(partSpecs[currentPartNum])
      requires Stored(disk0, drive.disk, partSpecs, drive.parts, 512 * from, data, 512 * done)
      requires done == 0 ==> drive.disk == disk0
      modifies this, drive
      ensures Valid() && numPartitions == old(numPartitions)
      ensures Length() == old(Length()) && currentPartNum == old(currentPartNum)
      ensures behind == old(behind)
      ensures Place() == from + done + count <= Length() && offset == U32(old(offset) + count)
      ensures Stored(disk0, drive.disk, partSpecs, drive.parts, 512 * from, data, 512 * stored)
      ensures done + count <= stored && (result != -EIO ==> stored == done + count)
      ensures result == 0 && done + count == 0 ==> drive.disk == disk0
      ensures if currentPartNum >= |drive.parts| then result == -ENODEV else result == 0 || result == -EIO
      ensures count == if result == 0 then asked else 0
      ensures old(drive.transfers) <= drive.transfers
      ensures result == -EIO <==> SomeIn(drive.fails, old(drive.transfers), drive.transfers)
    {
      hide Stored, Table, SpecFits, InSlice, SomeIn;
      SomeInNone(drive.fails, drive.transfers);
      GuardPasses(asked);
      count := asked;
      ghost var disk1 := drive.disk;
      result, stored := drive.TransferWrite(currentPartNum, sector, count, data[512 * done..512 * (done + count)]);
      if currentPartNum < |drive.parts| {
        assert data[512 * done..512 * (done + count)][..512 * stored] == data[512 * done..512 * (done + stored)];
        StoreNext(disk0, disk1, partSpecs, drive.parts, currentPartNum, 512 * from, data, 512 * done, 512 * stored);
        stored := done + stored;
      } else {
        stored := done;
      }
      if result == 0 {
        offset := U32(offset + count);
        relativeSectorNumber := relativeSectorNumber + count;
      } else {
        count := 0;
      }
      PlaceInGame();
    }

    /** hdlfs_io_internal, reading: what comes back is the flat game from the cursor on, as far as the transfer got. */
    method Read(size: nat) returns (result: int, data: seq<Byte>, wrapped: bool)
      requires Valid() && size < 0x8000_0000
      modifies this, drive`transfers
      ensures Valid() && numPartitions == old(numPartitions) && |Game()| == 512 * Length()
      ensures size % 512 != 0 ==> result == -EINVAL && data == [] && unchanged(this) && !wrapped
      ensures var from := if wrapped then 0 else old(Place());
              && from <= Place() <= Length() && Place() <= from + size / 512
              && data == Game()[512 * from..512 * Place()]
              && (size % 512 == 0 ==> result == size || result == -EIO || result == -ENODEV)
              && (result == size ==> |data| == size)
              && (result == -ENODEV ==> Place() == Length() < from + size / 512)
              && (result == -EIO ==> Place() < from + size / 512)
      ensures behind == old(behind) && (wrapped ==> old(currentPartNum) == LAST_PART_NUM)
      ensures Pushes() <= (if wrapped then 0 else old(Pushes())) + (if result == -ENODEV then 1 else 0)
      ensures offset == U32(old(offset) + Place() - (if wrapped then 0 else old(Place())))
      ensures old(drive.transfers) <= drive.transfers
      ensures result == -EIO <==> SomeIn(drive.fails, old(drive.transfers), drive.transfers)
    {
      hide Table, Flat, SomeIn;
      SomeInNone(drive.fails, drive.transfers);
      wrapped := false;
      FlatLength(drive.disk, partSpecs, drive.parts);
      PlaceInGame();
      if size % 512 != 0 {
        return -EINVAL, [], false;
      }
      result, data, wrapped := ReadSectors(size / 512);
      result := if result < 0 then result else size;
    }

    /** The loop of hdlfs_io_internal, reading `total` sectors. */
    method ReadSectors(total: nat) returns (result: int, data: seq<Byte>, wrapped: bool)
      requires Valid() && total < 0x40_0000
      modifies this, drive`transfers
      ensures Valid() && numPartitions == old(numPartitions) && |Game()| == 512 * Length()
      ensures var from := if wrapped then 0 else old(Place());
              && from <= Place() <= Length() && Place() <= from + total
              && data == Game()[512 * from..512 * Place()]
              && (result == 0 ==> Place() == from + total)
              && (result == -ENODEV ==> Place() == Length() < from + total)
              && (result == -EIO ==> Place() < from + total)
      ensures result == 0 || result == -EIO || result == -ENODEV
      ensures behind == old(behind) && (wrapped ==> old(currentPartNum) == LAST_PART_NUM)
      ensures Pushes() <= (if wrapped then 0 else old(Pushes())) + (if result == -ENODEV then 1 else 0)
      ensures offset == U32(old(offset) + Place() - (if wrapped then 0 else old(Place())))
      ensures old(drive.transfers) <= drive.transfers
      ensures result == -EIO <==> SomeIn(drive.fails, old(drive.transfers), drive.transfers)
    {
      hide Table, Flat, SpecFits, Count, SomeIn;
      SomeInNone(drive.fails, drive.transfers);
      FlatLength(drive.disk, partSpecs, drive.parts);
      PlaceInGame();
      PartsAreFew();
      ghost var from, game := Place(), Game();
      var sectorsRemaining := total;
      result, data, wrapped := 0, [], false;
      while sectorsRemaining > 0
        invariant Valid() && numPartitions == old(numPartitions) && result == 0
        invariant 0 <= sectorsRemaining && Place() == from + (total - sectorsRemaining) <= Length()
        invariant from == (if wrapped then 0 else old(Place())) && (wrapped ==> old(currentPartNum) == LAST_PART_NUM)
        invariant behind == old(behind)
        invariant currentPartNum < |drive.parts|
                  || (currentPartNum == old(currentPartNum) && sectorsRemaining == total && !wrapped)
        invariant Game() == game && data == game[512 * from..512 * Place()]
        invariant offset == U32(old(offset) + Place() - from)
        invariant old(drive.transfers) <= drive.transfers
        invariant !SomeIn(drive.fails, old(drive.transfers), drive.transfers)
        decreases sectorsRemaining,
                  if currentPartNum < |drive.parts| then |drive.parts| - currentPartNum else |drive.parts| + 1
      {
        var count, piece, w;
        ghost var before, tried := Place(), drive.transfers;
        result, count, piece, w := ReadNext(sectorsRemaining);
        SomeInSplits(drive.fails, old(drive.transfers), tried, drive.transfers);
        if w {
          assert data == [];
          from, before := 0, 0;
          wrapped := true;
        }
        if result < 0 {
          break;
        }
        PiecesJoin(game, 512 * from, 512 * before, 512 * Place());
        sectorsRemaining := sectorsRemaining - count;
        data := data + piece;
      }
    }

    /** One round of that loop: a transfer within one partition, and the descriptor moved past it. */
    method ReadNext(sectorsRemaining: nat) returns (result: int, count: nat, piece: seq<Byte>, wrapped: bool)
      requires Valid() && 0 < sectorsRemaining < 0x40_0000 && |Game()| == 512 * Length()
      modifies this, drive`transfers
      ensures Valid() && numPartitions == old(numPartitions) && Game() == old(Game())
      ensures result == 0 || result == -EIO || result == -ENODEV
      ensures behind == old(behind) && (wrapped ==> old(currentPartNum) == LAST_PART_NUM)
      ensures count <= sectorsRemaining && (result != 0 ==> count == 0)
      ensures Place() == (if wrapped then 0 else old(Place())) + count <= Length() == old(Length())
      ensures piece == Game()[512 * (if wrapped then 0 else old(Place()))..512 * Place()]
      ensures result == 0 || result == -EIO ==> currentPartNum < |drive.parts|
      ensures result == 0 && count == 0 && !wrapped ==> old(currentPartNum) < currentPartNum
      ensures result == -ENODEV ==> Place() == Length() && Pushes() <= (if wrapped then 0 else old(Pushes())) + 1
      ensures offset == U32(old(offset) + count)
      ensures old(drive.transfers) <= drive.transfers
      ensures result == -EIO <==> SomeIn(drive.fails, old(drive.transfers), drive.transfers)
    {
      hide Table, Flat, SpecFits, SomeIn;
      PartsAreFew();
      PlaceInGame();
      var sector;
      sector, count, wrapped := NextTransfer(sectorsRemaining);
      result, count, piece := ReadOne(sector, count);
    }

    /** The transfer of that round. */
    method ReadOne(sector: nat, asked: nat) returns (result: int, count: nat, piece: seq<Byte>)
      requires Valid() && asked < 0x40_0000 && |Game()| == 512 * Length()
      requires sector == Reserved(currentPartNum) + relativeSectorNumber
      requires currentPartNum < |drive.parts| ==> relativeSectorNumber + asked <= 4 * Count(partSpecs[currentPartNum])
      modifies this, drive`transfers
      ensures Valid() && numPartitions == old(numPartitions)
      ensures Game() == old(Game()) && currentPartNum == old(currentPartNum)
      ensures behind == old(behind)
      ensures Place() == old(Place()) + count <= Length() == old(Length()) && offset == U32(old(offset) + count)
      ensures piece == Game()[512 * old(Place())..512 * Place()]
      ensures if currentPartNum >= |drive.parts| then result == -ENODEV else result == 0 || result == -EIO
      ensures count == if result == 0 then asked else 0
      ensures old(drive.transfers) <= drive.transfers
      ensures result == -EIO <==> SomeIn(drive.fails, old(drive.transfers), drive.transfers)
    {
      hide Table, Flat, SpecFits, SomeIn;
      SomeInNone(drive.fails, drive.transfers);
      GuardPasses(asked);
      PlaceInGame();
      count := asked;
      result, piece := drive.TransferRead(currentPartNum, sector, count);
      if result == 0 {
        ReadIsFlat(drive.disk, partSpecs, drive.parts, currentPartNum, 512 * Place(), 512 * count);
        offset := U32(offset + count);
        relativeSectorNumber := relativeSectorNumber + count;
      } else {
        count := 0;
      }
      PlaceInGame();
    }

    static lemma PiecesJoin(s: seq<Byte>, a: nat, b: nat, c: nat)
      requires a <= b <= c <= |s|
      ensures s[a..b] + s[b..c] == s[a..c]
    {
    }

    lemma PlaceInGame()
      requires Valid()
      ensures Place() <= Length() < U32_RANGE
    {
      SectorsBound(partSpecs, drive.parts, |drive.disk|);
      if currentPartNum < |drive.parts| {
        CountsAddUp(partSpecs, drive.parts, |drive.disk|, currentPartNum);
      }
    }

    lemma PartsAreFew()
      requires Valid()
      ensures 0 < |drive.parts| <= MAX_PARTS == |partSpecs| < LAST_PART_NUM
      ensures forall i :: |drive.parts| <= i < |partSpecs| ==> partSpecs[i].partSize == 0
    {
    }
  }

  /**
   A sector written again and again past the end is refused until the slice number comes round; the next attempt stores
   it at the start of the game, unless the drive fails just then.
   */
  method ComeRound(d: Descriptor, data: seq<Byte>) returns (refusals: nat, result: int)
    requires d.Valid() && d.currentPartNum == |d.drive.parts| && |data| == 512 && 0 < d.Length()
    requires forall i: nat :: d.behind(i) == 0
    modifies d, d.drive
    ensures d.Valid() && refusals == LAST_PART_NUM - |d.drive.parts|
    ensures result == if SomeIn(d.drive.fails, old(d.drive.transfers), d.drive.transfers) then -EIO else 512
    ensures result == 512 ==> Stored(old(d.drive.disk), d.drive.disk, d.partSpecs, d.drive.parts, 0, data, 512)
  {
    hide Flat, Stored, Table, SomeIn;
    SomeInNone(d.drive.fails, d.drive.transfers);
    d.PartsAreFew();
    ghost var disk0 := d.drive.disk;
    NothingStored(disk0, d.partSpecs, d.drive.parts, 0, data);
    refusals := 0;
    ghost var wrapped, stored;
    while d.currentPartNum < LAST_PART_NUM
      invariant d.Valid() && d.behind == old(d.behind) && d.Length() == old(d.Length())
      invariant d.currentPartNum == |d.drive.parts| + refusals <= LAST_PART_NUM
      invariant Stored(disk0, d.drive.disk, d.partSpecs, d.drive.parts, 0, data, 0)
      invariant old(d.drive.transfers) <= d.drive.transfers
      invariant !SomeIn(d.drive.fails, old(d.drive.transfers), d.drive.transfers)
      decreases LAST_PART_NUM - d.currentPartNum
    {
      ghost var disk1, tried := d.drive.disk, d.drive.transfers;
      result, wrapped, stored := d.Write(data);
      SomeInSplits(d.drive.fails, old(d.drive.transfers), tried, d.drive.transfers);
      StoredNone(disk0, disk1, d.drive.disk, d.partSpecs, d.drive.parts, 512 * d.Length(), data, 0);
      refusals := refusals + 1;
    }
    ghost var disk1, tried := d.drive.disk, d.drive.transfers;
    result, wrapped, stored := d.Write(data);
    SomeInSplits(d.drive.fails, old(d.drive.transfers), tried, d.drive.transfers);
    StoredBehindNone(disk0, disk1, d.drive.disk, d.partSpecs, d.drive.parts, data, 512 * stored);
  }

  /**
   `disk` differs from `disk0`, seen as the flat game, by the first `done` bytes of `data` stored from byte `at` on.
   */
  ghost predicate Stored(disk0: seq<Byte>, disk: seq<Byte>, specs: seq<PartSpec>, parts: seq<Part>,
                         at: nat, data: seq<Byte>, done: nat)
  {
    && Table(specs, parts, |disk0|) && Table(specs, parts, |disk|)
    && done <= |data| && at + done <= |Flat(disk0, specs, parts)|
    && Flat(disk, specs, parts) == Patch(Flat(disk0, specs, parts), at, data[..done])
    && |disk| == |disk0|
    && forall b :: 0 <= b < |disk| && !InSomeSlice(specs, parts, b) ==> disk[b] == disk0[b]
  }

  /** Byte `b` of the disk belongs to the game; the others are headers, attribute areas and other partitions. */
  ghost predicate InSomeSlice(specs: seq<PartSpec>, parts: seq<Part>, b: nat)
    requires |parts| <= |specs|
  {
    exists k :: 0 <= k < |parts| && InSlice(specs[k], b)
  }

  predicate InSlice(spec: PartSpec, b: nat) {
    512 * spec.dataStart <= b < 512 * spec.dataStart + spec.partSize
  }

  lemma NothingStored(disk: seq<Byte>, specs: seq<PartSpec>, parts: seq<Part>, at: nat, data: seq<Byte>)
    requires Table(specs, parts, |disk|) && at <= |Flat(disk, specs, parts)|
    ensures Stored(disk, disk, specs, parts, at, data, 0)
  {
    assert data[..0] == [];
  }

  /** Storing nothing after something, and something after nothing. */
  lemma StoredNone(disk0: seq<Byte>, disk1: seq<Byte>, disk2: seq<Byte>, specs: seq<PartSpec>, parts: seq<Part>,
                   at: nat, data: seq<Byte>, n: nat)
    requires Stored(disk0, disk1, specs, parts, 0, data, n) && Stored(disk1, disk2, specs, parts, at, data, 0)
    ensures Stored(disk0, disk2, specs, parts, 0, data, n)
  {
    hide Flat, Table;
    assert data[..0] == [];
  }

  lemma StoredBehindNone(disk0: seq<Byte>, disk1: seq<Byte>, disk2: seq<Byte>, specs: seq<PartSpec>, parts: seq<Part>,
                         data: seq<Byte>, n: nat)
    requires Stored(disk0, disk1, specs, parts, 0, data, 0) && Stored(disk1, disk2, specs, parts, 0, data, n)
    ensures Stored(disk0, disk2, specs, parts, 0, data, n)
  {
    hide Flat, Table;
    assert data[..0] == [];
  }

  /** One more transfer, inside slice `k`, extends what has been stored. */
  lemma StoreNext(disk0: seq<Byte>, disk: seq<Byte>, specs: seq<PartSpec>, parts: seq<Part>, k: nat,
                  at: nat, data: seq<Byte>, done: nat, count: nat)
    requires done + count <= |data| && Stored(disk0, disk, specs, parts, at, data, done)
    requires k < |parts| && Table(specs, parts, |disk|)
    requires 2048 * specs[k].partOffset <= at + done
    requires at + done + count <= 2048 * specs[k].partOffset + specs[k].partSize
    ensures 0 <= Address(specs, k, at + done) && Address(specs, k, at + done) + count <= |disk|
    ensures Stored(disk0, Patch(disk, Address(specs, k, at + done), data[done..done + count]), specs, parts,
                   at, data, done + count)
  {
    hide Flat;
    var piece := data[done..done + count];
    var disk' := Patch(disk, Address(specs, k, at + done), piece);
    WriteIsFlat(disk, specs, parts, k, at + done, piece);
    PatchPatch(Flat(disk0, specs, parts), at, data[..done], piece);
    assert data[..done + count] == data[..done] + piece;
    forall b | 0 <= b < |disk| && !InSomeSlice(specs, parts, b) ensures disk'[b] == disk[b] {
      assert !InSlice(specs[k], b);
    }
  }

  lemma {:induction false} CountsAddUp(specs: seq<PartSpec>, parts: seq<Part>, diskLength: nat, i: nat)
    requires Table(specs, parts, diskLength) && i < |parts|
    ensures specs[i].partOffset + Count(specs[i]) <= Sectors(specs, parts)
    decreases |parts| - i
  {
    if i < |parts| - 1 {
      CountsAddUp(specs, parts, diskLength, i + 1);
    }
  }

  lemma SectorsBound(specs: seq<PartSpec>, parts: seq<Part>, diskLength: nat)
    requires Table(specs, parts, diskLength)
    ensures Sectors(specs, parts) < 0x0C00_0000
  {
    OffsetBound(specs, parts, diskLength, |parts| - 1);
    assert SpecFits(specs[|parts| - 1], parts[|parts| - 1], |parts| - 1, diskLength);
  }

  lemma {:induction false} OffsetBound(specs: seq<PartSpec>, parts: seq<Part>, diskLength: nat, i: nat)
    requires Table(specs, parts, diskLength) && i < |parts|
    ensures specs[i].partOffset <= 0x200000 * i
  {
    if i > 0 {
      OffsetBound(specs, parts, diskLength, i - 1);
      assert SpecFits(specs[i - 1], parts[i - 1], i - 1, diskLength);
    }
  }

  lemma FormattedSpec(parts: seq<Part>, numSectors: nat, i: nat, diskLength: nat)
    requires HdlfsTable.Slot(parts) && i < |parts| && SliceOk(parts, numSectors, i) && OnDisk(parts[i], i, diskLength)
    ensures SpecFits(Spec(parts, numSectors, i), parts[i], i, diskLength)
    ensures Before(Capacities(parts), numSectors, i) + Count(Spec(parts, numSectors, i))
         == Before(Capacities(parts), numSectors, i + 1)
  {
    var caps := Capacities(parts);
    assert caps[i] == Capacity(parts[i], i);
    assert Count(Spec(parts, numSectors, i)) == Slice(caps, numSectors, i);
  }

  /** What Format writes for partitions that lie apart on the disk is a table Mount can take. */
  lemma FormattedTable(parts: seq<Part>, numSectors: nat, table: seq<PartSpec>, diskLength: nat)
    requires HdlfsTable.Slot(parts) && SlicesOk(parts, numSectors)
    requires Before(Capacities(parts), numSectors, |parts|) == numSectors
    requires Filled(table, parts, numSectors, |parts|)
    requires forall i :: 0 <= i < |parts| ==> OnDisk(parts[i], i, diskLength)
    requires forall i, j :: 0 <= i < |parts| && 0 <= j < |parts| && i != j ==> Apart(parts[i], parts[j])
    ensures Table(table, parts, diskLength) && Sectors(table, parts) == numSectors
  {
    hide SpecFits, OnDisk, Slice, Count, SliceOk;
    forall i | 0 <= i < |parts|
      ensures SpecFits(table[i], parts[i], i, diskLength)
      ensures table[i].partOffset + Count(table[i]) == Before(Capacities(parts), numSectors, i + 1)
    {
      assert SliceOk(parts, numSectors, i) && OnDisk(parts[i], i, diskLength);
      FormattedSpec(parts, numSectors, i, diskLength);
    }
  }

  /** A partition no smaller than its reserved area that ends on the disk and within 32-bit sector numbers. */
  predicate OnDisk(part: Part, i: nat, diskLength: nat) {
    && Reserved(i) <= part.length && 512 * (part.start + part.length) <= diskLength
    && part.start + part.length <= U32_RANGE
  }

  // ---------------------------------------------------------------- a cursor over one flat array

  /** A linear device and a position in it, in 512-byte sectors. */
  datatype Linear = Linear(bytes: seq<Byte>, position: nat)

  datatype Request = SeekTo(target: int) | Store(data: seq<Byte>) | Fetch(size: nat)

  /** `moved` is how many sectors were transferred. */
  datatype Reply = Reply(result: int, moved: nat, data: seq<Byte>)

  /**
   What a flat array could answer, and what it is then: only a failing drive leaves it a choice. A store that failed may
   have got further than the cursor.
   */
  ghost predicate Legal(c: Linear, q: Request, r: Reply, d: Linear) {
    match q
    case SeekTo(target) =>
      && r.moved == 0 && r.data == []
      && (if 0 <= target && 2048 * target < |c.bytes| then r.result == target && d == Linear(c.bytes, 4 * target)
          else r.result == -EINVAL && d == c)
    case Store(data) =>
      && r.data == [] && LegalTransfer(c, |data|, r) && d.position == c.position + r.moved
      && exists n :: StoredUpTo(c, data, r, d, n)
    case Fetch(size) =>
      && LegalTransfer(c, size, r) && r.data == c.bytes[512 * c.position..512 * (c.position + r.moved)]
      && d == Linear(c.bytes, c.position + r.moved)
  }

  predicate StoredUpTo(c: Linear, data: seq<Byte>, r: Reply, d: Linear, n: nat) {
    && r.moved <= n && 512 * n <= |data| && 512 * (c.position + n) <= |c.bytes| && (r.result != -EIO ==> n == r.moved)
    && d.bytes == Patch(c.bytes, 512 * c.position, data[..512 * n])
  }

  ghost predicate LegalTransfer(c: Linear, size: nat, r: Reply) {
    && 512 * (c.position + r.moved) <= |c.bytes|
    && if size % 512 != 0 then r.result == -EINVAL && r.moved == 0
       else 512 * r.moved <= size
            && (r.result == -EIO
                || r.result == if 512 * c.position + size <= |c.bytes| then size else -ENODEV)
            && (r.result == size ==> 512 * r.moved == size)
            && (r.result == -ENODEV ==> 512 * (c.position + r.moved) == |c.bytes|)
  }

  /** `replies` are those of a flat array that starts as `c` and ends as `d`. */
  ghost predicate Explained(c: Linear, requests: seq<Request>, replies: seq<Reply>, d: Linear)
    requires |requests| == |replies|
    decreases |requests|
  {
    if |requests| == 0 then c == d
    else
      var k := |requests| - 1;
      exists m :: Explained(c, requests[..k], replies[..k], m) && Legal(m, requests[k], replies[k], d)
  }

  lemma ExplainedNothing(c: Linear)
    ensures Explained(c, [], [], c)
  {
  }

  lemma ExplainedSnoc(c: Linear, requests: seq<Request>, replies: seq<Reply>, m: Linear, q: Request, r: Reply,
                      d: Linear)
    requires |requests| == |replies| && Explained(c, requests, replies, m) && Legal(m, q, r, d)
    ensures Explained(c, requests + [q], replies + [r], d)
  {
    assert (requests + [q])[..|requests|] == requests && (replies + [r])[..|replies|] == replies;
  }

  /** One of the replies tells of a failing drive. */
  predicate TellOfFailure(replies: seq<Reply>) {
    exists i :: 0 <= i < |replies| && replies[i].result == -EIO
  }

  lemma FailureTold(replies: seq<Reply>, reply: Reply)
    ensures TellOfFailure(replies + [reply]) <==> TellOfFailure(replies) || reply.result == -EIO
    ensures !TellOfFailure([])
  {
    var all := replies + [reply];
    assert all[|replies|] == reply;
    if i :| 0 <= i < |replies| && replies[i].result == -EIO {
      assert all[i].result == -EIO;
    }
  }

  /** Replies that tell of the end of the game. */
  function Refusals(replies: seq<Reply>): nat {
    if |replies| == 0 then 0
    else Refusals(replies[..|replies| - 1]) + (if replies[|replies| - 1].result == -ENODEV then 1 else 0)
  }

  /**
   Any run of seeks and transfers on a mounted game answers as one flat array does, up to the 65,536 transfers past the
   end that bring the slice number round.
   */
  method Serve(d: Descriptor, requests: seq<Request>) returns (replies: seq<Reply>)
    requires d.Valid()
    requires forall i :: 0 <= i < |requests| ==> Sane(requests[i])
    modifies d, d.drive
    ensures d.Valid() && |replies| == |requests|
    ensures old(d.Pushes()) + Refusals(replies) <= LAST_PART_NUM - |d.drive.parts| ==>
      Explained(old(Linear(d.Game(), d.Place())), requests, replies, Linear(d.Game(), d.Place()))
    ensures SomeIn(d.drive.fails, old(d.drive.transfers), d.drive.transfers) <==> TellOfFailure(replies)
  {
    hide Explained, Legal, SomeIn, TellOfFailure;
    FailureTold([], Reply(0, 0, []));
    SomeInNone(d.drive.fails, d.drive.transfers);
    replies := [];
    ghost var start := Linear(d.Game(), d.Place());
    ghost var came := false;
    ExplainedNothing(start);
    var i := 0;
    while i < |requests|
      invariant i <= |requests| && |replies| == i && d.Valid()
      invariant came ==> old(d.Pushes()) + Refusals(replies) > LAST_PART_NUM - |d.drive.parts|
      invariant !came ==> Explained(start, requests[..i], replies, Linear(d.Game(), d.Place()))
                          && d.Pushes() <= old(d.Pushes()) + Refusals(replies)
      invariant old(d.drive.transfers) <= d.drive.transfers
      invariant SomeIn(d.drive.fails, old(d.drive.transfers), d.drive.transfers) <==> TellOfFailure(replies)
    {
      var reply;
      ghost var wrapped, before, tried := false, Linear(d.Game(), d.Place()), d.drive.transfers;
      reply, wrapped := ServeOne(d, requests[i]);
      SomeInSplits(d.drive.fails, old(d.drive.transfers), tried, d.drive.transfers);
      came := came || wrapped;
      assert requests[..i + 1] == requests[..i] + [requests[i]];
      if !came {
        ExplainedSnoc(start, requests[..i], replies, before, requests[i], reply, Linear(d.Game(), d.Place()));
      }
      assert (replies + [reply])[..i] == replies;
      FailureTold(replies, reply);
      replies := replies + [reply];
      i := i + 1;
    }
    assert requests[..i] == requests;
  }

  /** Arguments an `int` can hold. */
  predicate Sane(q: Request) {
    match q
    case SeekTo(target) => -0x8000_0000 <= target < 0x8000_0000
    case Store(data) => |data| < 0x8000_0000
    case Fetch(size) => size < 0x8000_0000
  }

  /** One request: the flat array's answer, its cursor back at 0 if the slice number has come round. */
  method ServeOne(d: Descriptor, q: Request) returns (r: Reply, ghost wrapped: bool)
    requires d.Valid() && Sane(q)
    modifies d, d.drive
    ensures d.Valid()
    ensures var c := Linear(old(d.Game()), if wrapped then 0 else old(d.Place()));
            Legal(c, q, r, Linear(d.Game(), d.Place()))
    ensures wrapped ==> old(d.Pushes()) == LAST_PART_NUM - |d.drive.parts| + 1
    ensures !wrapped ==> d.Pushes() <= old(d.Pushes()) + (if r.result == -ENODEV then 1 else 0)
    ensures old(d.drive.transfers) <= d.drive.transfers
    ensures r.result == -EIO <==> SomeIn(d.drive.fails, old(d.drive.transfers), d.drive.transfers)
  {
    hide SomeIn;
    SomeInNone(d.drive.fails, d.drive.transfers);
    match q
    case SeekTo(target) =>
      wrapped := false;
      r := ServeSeek(d, target);
    case Store(data) => r, wrapped := ServeStore(d, data);
    case Fetch(size) => r, wrapped := ServeFetch(d, size);
  }

  method ServeSeek(d: Descriptor, target: int) returns (r: Reply)
    requires d.Valid() && Sane(SeekTo(target))
    modifies d
    ensures d.Valid() && d.Pushes() <= old(d.Pushes())
    ensures var c := old(Linear(d.Game(), d.Place()));
            Legal(c, SeekTo(target), r, Linear(d.Game(), d.Place()))
  {
    hide Flat, Table;
    FlatLength(d.drive.disk, d.partSpecs, d.drive.parts);
    var result := d.LseekSet(target);
    r := Reply(result, 0, []);
  }

  method ServeStore(d: Descriptor, data: seq<Byte>) returns (r: Reply, ghost wrapped: bool)
    requires d.Valid() && Sane(Store(data))
    modifies d, d.drive
    ensures d.Valid()
    ensures var c := Linear(old(d.Game()), if wrapped then 0 else old(d.Place()));
            Legal(c, Store(data), r, Linear(d.Game(), d.Place()))
    ensures wrapped ==> old(d.Pushes()) == LAST_PART_NUM - |d.drive.parts| + 1
    ensures !wrapped ==> d.Pushes() <= old(d.Pushes()) + (if r.result == -ENODEV then 1 else 0)
    ensures old(d.drive.transfers) <= d.drive.transfers
    ensures r.result == -EIO <==> SomeIn(d.drive.fails, old(d.drive.transfers), d.drive.transfers)
  {
    hide Flat, Table, Patch, SomeIn;
    FlatLength(d.drive.disk, d.partSpecs, d.drive.parts);
    d.PartsAreFew();
    ghost var from, game := d.Place(), d.Game();
    var before, result := d.offset, 0;
    ghost var stored;
    result, wrapped, stored := d.Write(data);
    d.PlaceInGame();
    r := Reply(result, U32(d.offset - before), []);
    ghost var c := Linear(game, if wrapped then 0 else from);
    assert StoredUpTo(c, data, r, Linear(d.Game(), d.Place()), stored);
  }

  /** Reading from the flat game as far as `to` is what a flat array could answer. */
  lemma FetchIsLegal(game: seq<Byte>, from: nat, to: nat, size: nat, r: Reply)
    requires from <= to <= from + size / 512 && 512 * to <= |game|
    requires r.moved == to - from && r.data == game[512 * from..512 * to]
    requires size % 512 != 0 ==> r.result == -EINVAL && to == from
    requires size % 512 == 0 ==> r.result == size || r.result == -EIO || r.result == -ENODEV
    requires r.result == size ==> |r.data| == size
    requires r.result == -ENODEV ==> 512 * to == |game| && to < from + size / 512
    requires r.result == -EIO ==> to < from + size / 512
    ensures Legal(Linear(game, from), Fetch(size), r, Linear(game, to))
  {
  }

  /** How far the byte offset, a 32-bit word, has moved. */
  lemma MovedBy(before: nat, after: nat, from: nat, to: nat)
    requires before < U32_RANGE && from <= to < U32_RANGE && after == U32(before + to - from)
    ensures U32(after - before) == to - from
  {
  }

  method ServeFetch(d: Descriptor, size: nat) returns (r: Reply, ghost wrapped: bool)
    requires d.Valid() && Sane(Fetch(size))
    modifies d, d.drive`transfers
    ensures d.Valid()
    ensures var c := Linear(old(d.Game()), if wrapped then 0 else old(d.Place()));
            Legal(c, Fetch(size), r, Linear(d.Game(), d.Place()))
    ensures wrapped ==> old(d.Pushes()) == LAST_PART_NUM - |d.drive.parts| + 1
    ensures !wrapped ==> d.Pushes() <= old(d.Pushes()) + (if r.result == -ENODEV then 1 else 0)
    ensures old(d.drive.transfers) <= d.drive.transfers
    ensures r.result == -EIO <==> SomeIn(d.drive.fails, old(d.drive.transfers), d.drive.transfers)
  {
    hide Flat, Table, Legal, U32, SomeIn;
    FlatLength(d.drive.disk, d.partSpecs, d.drive.parts);
    d.PartsAreFew();
    d.PlaceInGame();
    ghost var place := d.Place();
    var before, result, data := d.offset, 0, [];
    result, data, wrapped := d.Read(size);
    d.PlaceInGame();
    ghost var from := if wrapped then 0 else place;
    MovedBy(before, d.offset, from, d.Place());
    r := Reply(result, U32(d.offset - before), data);
    FetchIsLegal(d.Game(), from, d.Place(), size, r);
  }
}
