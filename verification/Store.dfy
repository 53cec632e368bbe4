/** The flat key-value store, patched in place in a directory buffer over a block device. */
module Store {
  import opened Bytes
  import opened Directory
  import Utf8

  /** What becomes of a sector write: done and reported so, not done, or done though reported as failed. */
  datatype Fate = Lands | Lost | Unreported

  /**
   * A block device. `fates` says what becomes of the coming sector writes; when it is used up all land.
   * A write past the end is reported as failed and changes nothing.
   */
  class BlockDevice {
    var sectors: Disk
    var fates: seq<Fate>
    ghost var history: seq<Disk>  // the image after each write command so far

    constructor (image: Disk, fates: seq<Fate>)
      ensures sectors == image && this.fates == fates && history == []
    {
      sectors, this.fates, history := image, fates, [];
    }

    method ReadSector(lba: nat) returns (s: Sector)
      ensures s == SectorAt(sectors, lba)
    {
      s := SectorAt(sectors, lba);
    }

    method WriteSector(lba: nat, s: Sector) returns (ok: bool)
      modifies this
      ensures ok == (lba < |old(sectors)| && (old(fates) == [] || old(fates)[0].Lands?))
      ensures sectors ==
        if lba < |old(sectors)| && (old(fates) == [] || !old(fates)[0].Lost?) then old(sectors)[lba := s]
        else old(sectors)
      ensures fates == if old(fates) == [] then [] else old(fates)[1..]
      ensures history == old(history) + [sectors]
    {
      ok := lba < |sectors| && (fates == [] || fates[0].Lands?);
      if lba < |sectors| && (fates == [] || !fates[0].Lost?) {
        sectors := sectors[lba := s];
      }
      fates := if fates == [] then [] else fates[1..];
      history := history + [sectors];
    }
  }

  /** Of the next n sector writes each is done and reported so. */
  predicate AllLand(fates: seq<Fate>, n: nat) {
    forall k :: 0 <= k < n && k < |fates| ==> fates[k].Lands?
  }

  function Later(fates: seq<Fate>, n: nat): (r: seq<Fate>) {
    fates[Min(n, |fates|)..]
  }

  lemma OneMoreLands(fates: seq<Fate>, n: nat)
    ensures Later(fates, n + 1) == if Later(fates, n) == [] then [] else Later(fates, n)[1..]
    ensures AllLand(fates, n + 1) <==> AllLand(fates, n) && (Later(fates, n) == [] || Later(fates, n)[0].Lands?)
  {
  }

  /** Every image the device went through since it had `was` of them is a midway image. */
  ghost predicate AllMidway(d: Disk, history: seq<Disk>, was: nat, target: Dir, next: nat)
    requires |d| >= DATA_START
  {
    forall k :: was <= k < |history| ==> Midway(d, history[k], target, next)
  }

  class KvStore {
    const blk: BlockDevice

    constructor Open(blk: BlockDevice)
      requires |blk.sectors| >= DATA_START
      modifies blk
      ensures this.blk == blk
      ensures old(blk.fates) == [] ==> blk.fates == [] && OpenStep(old(blk.sectors), blk.sectors)
      ensures OpenMidway(old(blk.sectors), blk.sectors) && old(blk.history) <= blk.history
      ensures forall k {:trigger blk.history[k]} :: old(|blk.history|) <= k < |blk.history| ==>
          OpenMidway(old(blk.sectors), blk.history[k])
    {
      var sb := blk.ReadSector(0);
      var magic := U32At(sb, 0);
      if magic != MAGIC {
        var sb2 := LE32(MAGIC) + LE32(1) + LE32(0) + Zeros(500);
        assert sb2 == EMPTY_STORE;
        var _ := blk.WriteSector(0, sb2);
        var i := 0;
        while i < 4
          invariant 0 <= i <= 4
          invariant OpenMidway(old(blk.sectors), blk.sectors) && old(blk.history) <= blk.history
          invariant forall k {:trigger blk.history[k]} :: old(|blk.history|) <= k < |blk.history| ==>
              OpenMidway(old(blk.sectors), blk.history[k])
          invariant old(blk.fates) == [] ==>
              && blk.fates == [] && blk.sectors[0] == EMPTY_STORE
              && forall lba :: 1 <= lba < 1 + i ==> blk.sectors[lba] == Zeros(SECTOR)
        {
          var _ := blk.WriteSector(1 + i, Zeros(SECTOR));
          i := i + 1;
        }
      }
      this.blk := blk;
    }

    method ReadDir() returns (dir: array<byte>)
      requires |blk.sectors| >= DATA_START
      ensures fresh(dir) && dir[..] == DirBytes(blk.sectors)
    {
      dir := new byte[SLOTS * SLOT_SIZE](_ => 0);
      var i := 0;
      while i < 4
        invariant 0 <= i <= 4
        invariant dir[..i * SECTOR] == DirBytes(blk.sectors)[..i * SECTOR]
      {
        var s := blk.ReadSector(1 + i);
        DirSlice(blk.sectors, i);
        PutBytes(dir, i * SECTOR, s);
        i := i + 1;
        assert DirBytes(blk.sectors)[..i * SECTOR] == DirBytes(blk.sectors)[..(i - 1) * SECTOR] + s;
      }
    }

    /** The bytes of the directory go to sectors 1 to 4; results are ignored. */
    method WriteDir(dir: array<byte>)
      requires |blk.sectors| >= DATA_START && dir.Length == SLOTS * SLOT_SIZE
      modifies blk
      ensures |blk.sectors| == |old(blk.sectors)| && blk.sectors[0] == old(blk.sectors[0])
      ensures blk.sectors[DATA_START..] == old(blk.sectors[DATA_START..])
      ensures MixedSectors(old(blk.sectors), blk.sectors, dir[..])
      ensures old(blk.history) <= blk.history
      ensures forall k {:trigger blk.history[k]} :: old(|blk.history|) <= k < |blk.history| ==>
          && MixedSectors(old(blk.sectors), blk.history[k], dir[..])
          && blk.history[k][0] == old(blk.sectors[0]) && blk.history[k][DATA_START..] == old(blk.sectors[DATA_START..])
      ensures old(blk.fates) == [] ==> blk.fates == [] && DirBytes(blk.sectors) == dir[..]
    {
      var i := 0;
      while i < 4
        invariant 0 <= i <= 4
        invariant |blk.sectors| == |old(blk.sectors)| && blk.sectors[0] == old(blk.sectors[0])
        invariant blk.sectors[DATA_START..] == old(blk.sectors[DATA_START..])
        invariant MixedSectors(old(blk.sectors), blk.sectors, dir[..])
        invariant old(blk.history) <= blk.history
        invariant forall k {:trigger blk.history[k]} :: old(|blk.history|) <= k < |blk.history| ==>
            && MixedSectors(old(blk.sectors), blk.history[k], dir[..])
            && blk.history[k][0] == old(blk.sectors[0])
                && blk.history[k][DATA_START..] == old(blk.sectors[DATA_START..])
        invariant old(blk.fates) == [] ==>
            blk.fates == [] && forall j :: 0 <= j < i ==> blk.sectors[1 + j] == dir[j * SECTOR..(j + 1) * SECTOR]
      {
        var part := dir[i * SECTOR..(i + 1) * SECTOR];
        assert dir[..][i * SECTOR..(i + 1) * SECTOR] == part;
        var _ := blk.WriteSector(1 + i, part);
        i := i + 1;
      }
      if old(blk.fates) == [] {
        var b := dir[..];
        assert b == b[0 * SECTOR..1 * SECTOR] + b[1 * SECTOR..2 * SECTOR] + b[2 * SECTOR..3 * SECTOR]
            + b[3 * SECTOR..4 * SECTOR];
      }
    }

    method UpdateSuperblock(dir: array<byte>)
      requires |blk.sectors| >= DATA_START && dir.Length == SLOTS * SLOT_SIZE
      modifies blk
      ensures |blk.sectors| == |old(blk.sectors)| && blk.sectors[1..] == old(blk.sectors[1..])
      ensures blk.sectors[0] == old(blk.sectors[0])
          || blk.sectors[0] == Superblock(old(blk.sectors[0]), SlotsOf(dir[..]))
      ensures blk.history == old(blk.history) + [blk.sectors]
      ensures old(blk.fates) == [] ==>
          blk.fates == [] && blk.sectors[0] == Superblock(old(blk.sectors[0]), SlotsOf(dir[..]))
    {
      var count, i := 0, 0;
      while i < SLOTS
        invariant 0 <= i <= SLOTS
        invariant count == Count(SlotsOf(dir[..]), i)
      {
        var e := EntryAt(dir[..], i);
        if e.flags == VALID && e.name[0] != 0 {
          count := count + 1;
        }
        i := i + 1;
      }
      var sb := blk.ReadSector(0);
      var _ := blk.WriteSector(0, Splice(sb, 8, LE32(count)));
    }

    /** Write back the directory, then the superblock: from here on only those five sectors change. */
    method Commit(ghost d: Disk, dir: array<byte>, ghost target: Dir, ghost next: nat)
      requires |d| >= DATA_START && |blk.sectors| >= DATA_START && dir.Length == SLOTS * SLOT_SIZE
      requires KeepsBelow(d, blk.sectors, next) && SlotsOf(dir[..]) == target
      modifies blk
      ensures |blk.sectors| == |old(blk.sectors)| && blk.sectors[DATA_START..] == old(blk.sectors[DATA_START..])
      ensures Midway(d, blk.sectors, target, next)
      ensures old(blk.history) <= blk.history && AllMidway(d, blk.history, old(|blk.history|), target, next)
      ensures old(blk.fates) == [] ==>
          blk.fates == [] && DirOf(blk.sectors) == target && blk.sectors[0] == Superblock(d[0], target)
    {
      ghost var d1, was, b := blk.sectors, |blk.history|, dir[..];
      WriteDir(dir);
      ghost var d2 := blk.sectors;
      MixedIsMidway(d, d1, d2, b, target, next);
      UpdateSuperblock(dir);
      ghost var d3 := blk.sectors;
      CountIsMidway(d, d2, d3, target, next);
      forall k | was <= k < |blk.history| ensures Midway(d, blk.history[k], target, next) {
        if k < |blk.history| - 1 {
          MixedIsMidway(d, d1, blk.history[k], b, target, next);
        }
      }
      assert d3[DATA_START..] == d3[1..][4..];
      assert DirBytes(d3) == DirBytes(d2) by {
        assert forall i :: 1 <= i < |d2| ==> d3[i] == d3[1..][i - 1];
      }
    }

    /** Mark every live entry called `name` as deleted; was there any? */
    method RetireAll(dir: array<byte>, name: seq<byte>) returns (found: bool)
      requires dir.Length == SLOTS * SLOT_SIZE
      modifies dir
      ensures SlotsOf(dir[..]) == Retire(SlotsOf(old(dir[..])), name)
      ensures found == Find(SlotsOf(old(dir[..])), name, SLOTS).Some?
    {
      found := false;
      ghost var was := SlotsOf(dir[..]);
      assert was == RetireUpTo(was, name, 0);
      var i := 0;
      while i < SLOTS
        invariant 0 <= i <= SLOTS && SlotsOf(dir[..]) == RetireUpTo(was, name, i)
        invariant found == Find(was, name, i).Some?
      {
        RetireNext(was, name, i);
        var hit := RetireEntry(dir, i, name);
        found := found || hit;
        i := i + 1;
      }
    }

    /** First entry that is deleted or has an empty name. */
    method FindSlot(dir: array<byte>) returns (slot: Option<nat>)
      requires dir.Length == SLOTS * SLOT_SIZE
      ensures slot == FreeSlot(SlotsOf(dir[..]), 0)
    {
      ghost var slots := SlotsOf(dir[..]);
      var i := 0;
      while i < SLOTS
        invariant 0 <= i <= SLOTS
        invariant FreeSlot(slots, i) == FreeSlot(slots, 0)
      {
        var e := EntryAt(dir[..], i);
        if e.flags == DELETED || e.name[0] == 0 {
          return Some(i);
        }
        i := i + 1;
      }
      slot := None;
    }

    method FindNextFreeSector(dir: array<byte>) returns (max: u32)
      requires dir.Length == SLOTS * SLOT_SIZE
      ensures max == NextFree(SlotsOf(dir[..]), SLOTS)
    {
      max := 0;
      ghost var slots := SlotsOf(dir[..]);
      var i := 0;
      while i < SLOTS
        invariant 0 <= i <= SLOTS
        invariant max == NextFree(slots, i)
      {
        var e := EntryAt(dir[..], i);
        NextFreeStep(slots, i, e, max);
        if e.flags == VALID {
          var end := EndOf(e);
          if end > max {
            max := end;
          }
        }
        i := i + 1;
      }
    }

    method Read(name: seq<byte>) returns (r: Option<seq<byte>>)
      requires |blk.sectors| >= DATA_START
      ensures r == Lookup(blk.sectors, name)
    {
      var dir := ReadDir();
      var best := FindLast(dir, name);
      if best == None {
        return None;
      }
      var (offset, size) := best.value;
      var data := ReadExtent(offset, size);
      r := Some(data);
    }

    /** Offset and size of the last entry with the name. */
    static method FindLast(dir: array<byte>, name: seq<byte>) returns (best: Option<(u32, u32)>)
      requires dir.Length == SLOTS * SLOT_SIZE
      ensures var slots := SlotsOf(dir[..]);
        match Find(slots, name, SLOTS)
        case None => best == None
        case Some(j) => best == Some((slots[j].offset, slots[j].size))
    {
      ghost var slots := SlotsOf(dir[..]);
      best := None;
      var i := 0;
      while i < SLOTS
        invariant 0 <= i <= SLOTS
        invariant match Find(slots, name, i)
          case None => best == None
          case Some(j) => best == Some((slots[j].offset, slots[j].size))
      {
        var e := EntryAt(dir[..], i);
        if e.flags == VALID {
          if NameOf(e) == name {
            best := Some((e.offset, e.size));
          }
        }
        i := i + 1;
      }
    }

    method ReadExtent(offset: u32, size: u32) returns (data: seq<byte>)
      requires |blk.sectors| >= DATA_START
      ensures data == Extent(blk.sectors, offset, size)
    {
      var sectors := (size as int + SECTOR - 1) / SECTOR;
      var buf: seq<byte> := [];
      var i := 0;
      while i < sectors
        invariant 0 <= i <= sectors
        invariant |buf| == i * SECTOR
        invariant forall k :: 0 <= k < |buf| ==>
            buf[k] == SectorAt(blk.sectors, DATA_START + offset + k / SECTOR)[k % SECTOR]
      {
        var s := blk.ReadSector(DATA_START + offset + i);
        buf := buf + s;
        i := i + 1;
      }
      data := buf[..size];
      assert data == Extent(blk.sectors, offset, size);
    }

    method List() returns (names: seq<seq<byte>>)
      requires |blk.sectors| >= DATA_START
      ensures names == Names(DirOf(blk.sectors), SLOTS)
    {
      var dir := ReadDir();
      names := [];
      var i := 0;
      while i < SLOTS
        invariant 0 <= i <= SLOTS
        invariant names == Names(DirOf(blk.sectors), i)
      {
        var e := EntryAt(dir[..], i);
        if e.flags == VALID && e.name[0] != 0 {
          names := names + [NameOf(e)];
        }
        i := i + 1;
      }
    }

    /** Write the chunks of data one sector at a time, giving up at the first failure. */
    method PutData(next: u32, data: seq<byte>) returns (ok: bool)
      requires |blk.sectors| >= DATA_START
      modifies blk
      ensures |blk.sectors| == |old(blk.sectors)| && blk.sectors[..DATA_START] == old(blk.sectors[..DATA_START])
      ensures forall lba :: DATA_START <= lba < DATA_START + next && lba < |blk.sectors| ==>
          blk.sectors[lba] == old(blk.sectors[lba])
      ensures old(blk.history) <= blk.history
      ensures forall k {:trigger blk.history[k]} :: old(|blk.history|) <= k < |blk.history| ==>
          KeepsBelow(old(blk.sectors), blk.history[k], next)
      ensures ok ==> DATA_START + next + Sectors(|data|) <= |blk.sectors| || Sectors(|data|) == 0
      ensures ok ==> DataPut(old(blk.sectors), blk.sectors, next, data, Sectors(|data|))
      ensures ok == ((DATA_START + next + Sectors(|data|) <= |blk.sectors| || Sectors(|data|) == 0)
                     && AllLand(old(blk.fates), Sectors(|data|)))
      ensures old(blk.fates) == [] ==>
          && blk.fates == []
          && ok == (DATA_START + next + Sectors(|data|) <= |blk.sectors| || Sectors(|data|) == 0)
          && DataPut(old(blk.sectors), blk.sectors, next, data, Sectors(|data|))
    {
      var sectors := (|data| + SECTOR - 1) / SECTOR;
      var buf := data + Zeros(sectors * SECTOR - |data|);
      assert forall i :: 0 <= i < sectors ==> buf[i * SECTOR..(i + 1) * SECTOR] == Chunk(data, i);
      ghost var d, i := blk.sectors, 0;
      ok, i := PutChunks(next, sectors, buf, data);
      if !ok && old(blk.fates) == [] {
        NoRoomBehind(d, blk.sectors, next, data, i, sectors);
      }
    }

    method PutChunks(next: u32, n: nat, buf: seq<byte>, ghost data: seq<byte>) returns (ok: bool, ghost k: nat)
      requires |blk.sectors| >= DATA_START && |buf| == n * SECTOR
      requires forall i :: 0 <= i < n ==> buf[i * SECTOR..(i + 1) * SECTOR] == Chunk(data, i)
      modifies blk
      ensures KeepsBelow(old(blk.sectors), blk.sectors, next) && old(blk.history) <= blk.history
      ensures forall k {:trigger blk.history[k]} :: old(|blk.history|) <= k < |blk.history| ==>
          KeepsBelow(old(blk.sectors), blk.history[k], next)
      ensures ok ==> k == n && Putting(old(blk.sectors), blk.sectors, next, data, n) && AllLand(old(blk.fates), n)
      ensures !ok ==> k < n && !(DATA_START + next + k < |blk.sectors| && AllLand(old(blk.fates), k + 1))
      ensures old(blk.fates) == [] ==> blk.fates == [] && DataPut(old(blk.sectors), blk.sectors, next, data, k)
    {
      ghost var d, fates := blk.sectors, blk.fates;
      var i := 0;
      k := 0;
      while i < n
        invariant 0 <= i == k <= n && Putting(d, blk.sectors, next, data, i)
        invariant old(blk.history) <= blk.history
        invariant forall k {:trigger blk.history[k]} :: old(|blk.history|) <= k < |blk.history| ==>
            KeepsBelow(d, blk.history[k], next)
        invariant blk.fates == Later(fates, i) && AllLand(fates, i)
      {
        var landed := PutSector(next, i, buf[i * SECTOR..(i + 1) * SECTOR], d, data, fates);
        if !landed {
          return false, i;
        }
        i, k := i + 1, k + 1;
      }
      ok := true;
    }

    /** Write chunk i of the data. */
    method PutSector(next: u32, i: nat, part: Sector, ghost d: Disk, ghost data: seq<byte>, ghost fates: seq<Fate>)
      returns (landed: bool)
      requires |d| >= DATA_START && Putting(d, blk.sectors, next, data, i) && part == Chunk(data, i)
      requires blk.fates == Later(fates, i) && AllLand(fates, i)
      modifies blk
      ensures blk.history == old(blk.history) + [blk.sectors] && KeepsBelow(d, blk.sectors, next)
      ensures landed == (DATA_START + next + i < |d| && AllLand(fates, i + 1))
      ensures blk.fates == Later(fates, i + 1) && (landed ==> Putting(d, blk.sectors, next, data, i + 1))
      ensures !landed && fates == [] ==> blk.sectors == old(blk.sectors)
    {
      ghost var d1 := blk.sectors;
      var at := DATA_START + next + i;
      OneMoreLands(fates, i);
      PutKeepsBelow(d, d1, next, data, i);
      if at < |d| {
        OneMorePut(d, d1, next, data, i, d1[at := part]);
      }
      landed := blk.WriteSector(at, part);
    }

    /** The start of a write: the directory without `name`, a slot for it and the first free sector. */
    method Prepare(name: seq<byte>) returns (dir: array<byte>, slot: Option<nat>, next: u32)
      requires |blk.sectors| >= DATA_START
      ensures fresh(dir) && dir.Length == SLOTS * SLOT_SIZE
      ensures SlotsOf(dir[..]) == Retire(DirOf(blk.sectors), name)
      ensures slot == Room(blk.sectors, name) && next == Target(blk.sectors, name)
    {
      dir := ReadDir();
      var _ := RetireAll(dir, name);
      slot := FindSlot(dir);
      next := FindNextFreeSector(dir);
    }

    /** The end of a write: fill in the entry and write everything back. */
    method Finish(ghost d: Disk, dir: array<byte>, slot: nat, name: seq<byte>, next: u32, data: seq<byte>)
      requires |d| >= DATA_START && |blk.sectors| >= DATA_START && dir.Length == SLOTS * SLOT_SIZE
      requires SlotsOf(dir[..]) == Retire(DirOf(d), name) && Room(d, name) == Some(slot) && next == Target(d, name)
      requires KeepsBelow(d, blk.sectors, next) && DataPut(d, blk.sectors, next, data, Sectors(|data|))
      modifies dir, blk
      ensures Midway(d, blk.sectors, Written(d, name, data), next)
      ensures old(blk.history) <= blk.history
      ensures AllMidway(d, blk.history, old(|blk.history|), Written(d, name, data), next)
      ensures DataPut(d, blk.sectors, next, data, Sectors(|data|))
      ensures old(blk.fates) == [] ==>
          && blk.fates == [] && DirOf(blk.sectors) == Written(d, name, data)
          && blk.sectors[0] == Superblock(d[0], Written(d, name, data))
    {
      ghost var d1 := blk.sectors;
      InstallEntry(dir, slot, name, next, |data|);
      Commit(d, dir, Written(d, name, data), next);
      DataStays(d, d1, blk.sectors, next, data);
    }

    method Write(name: seq<byte>, data: seq<byte>) returns (ok: bool)
      requires |blk.sectors| >= DATA_START && Utf8.Valid(name)
      modifies blk
      ensures old(blk.fates) == [] ==> blk.fates == [] && WriteStep(old(blk.sectors), name, data, ok, blk.sectors)
      ensures old(blk.history) <= blk.history
      ensures ok == (Room(old(blk.sectors), name).Some? && Fits(old(blk.sectors), name, data)
                     && AllLand(old(blk.fates), Sectors(|data|)))
      ensures ok ==> DataPut(old(blk.sectors), blk.sectors, Target(old(blk.sectors), name), data, Sectors(|data|))
      ensures Room(old(blk.sectors), name).None? ==>
          !ok && blk.sectors == old(blk.sectors) && blk.history == old(blk.history)
      ensures Midway(old(blk.sectors), blk.sectors, Aim(old(blk.sectors), name, data), Target(old(blk.sectors), name))
      ensures AllMidway(old(blk.sectors), blk.history, old(|blk.history|), Aim(old(blk.sectors), name, data),
          Target(old(blk.sectors), name))
    {
      ghost var d, was := blk.sectors, |blk.history|;
      var dir, slot, next := Prepare(name);
      if slot == None {
        return false;
      }
      ghost var target := Aim(d, name, data);
      var put := PutData(next, data);
      KeptIsMidway(d, blk.sectors, blk.history, was, target, next);
      if !put {
        return false;
      }
      Finish(d, dir, slot.value, name, next, data);
      ok := true;
    }

    method Delete(name: seq<byte>) returns (found: bool)
      requires |blk.sectors| >= DATA_START && Utf8.Valid(name)
      modifies blk
      ensures old(blk.fates) == [] ==> blk.fates == [] && DeleteStep(old(blk.sectors), name, found, blk.sectors)
      ensures found == Find(DirOf(old(blk.sectors)), name, SLOTS).Some?
      ensures old(blk.history) <= blk.history
      ensures Midway(old(blk.sectors), blk.sectors, Retire(DirOf(old(blk.sectors)), name), |blk.sectors|)
      ensures AllMidway(old(blk.sectors), blk.history, old(|blk.history|), Retire(DirOf(old(blk.sectors)), name),
          |blk.sectors|)
    {
      ghost var d, was := blk.sectors, |blk.history|;
      var dir := ReadDir();
      found := RetireAll(dir, name);
      if found {
        Commit(d, dir, Retire(DirOf(d), name), |d|);
      }
    }
  }

  function EntryAt(b: seq<byte>, i: nat): (e: Slot)
    requires |b| == SLOTS * SLOT_SIZE && i < SLOTS
    ensures e == SlotsOf(b)[i]
  {
    SlotAt(b, i)
  }

  /** Mark entry i as deleted when it is live and called `name`. */
  method RetireEntry(dir: array<byte>, i: nat, name: seq<byte>) returns (hit: bool)
    requires dir.Length == SLOTS * SLOT_SIZE && i < SLOTS
    modifies dir
    ensures hit == Live(SlotsOf(old(dir[..]))[i], name)
    ensures SlotsOf(dir[..]) == if hit then SlotsOf(old(dir[..]))[i := SlotsOf(old(dir[..]))[i].(flags := DELETED)]
        else SlotsOf(old(dir[..]))
  {
    var e := EntryAt(dir[..], i);
    hit := e.flags == VALID && NameOf(e) == name;
    if hit {
      FlagsPatched(dir[..], i, DELETED);
      PutU32(dir, i * SLOT_SIZE + 28, DELETED);
    }
  }

  /** The five field stores of an entry amount to one 32-byte store. */
  lemma FieldsJoined(b: seq<byte>, at: nat, name: seq<byte>, x: seq<byte>, y: seq<byte>, z: seq<byte>)
    requires at + SLOT_SIZE <= |b| && |name| <= 19 && |x| == |y| == |z| == 4
    ensures Splice(Splice(Splice(Splice(Splice(b, at, Zeros(20)), at, name), at + 20, x), at + 24, y), at + 28, z)
         == Splice(b, at, name + Zeros(20 - |name|) + x + y + z)
  {
  }

  /** Fill in entry i: name field, offset, size, flags, in that order. */
  method InstallEntry(dir: array<byte>, i: nat, name: seq<byte>, offset: u32, size: nat)
    requires dir.Length == SLOTS * SLOT_SIZE && i < SLOTS
    modifies dir
    ensures SlotsOf(dir[..]) == SlotsOf(old(dir[..]))[i := NewSlot(name, offset, size)]
  {
    ghost var was := dir[..];
    var at, n := i * SLOT_SIZE, Min(|name|, 19);
    PutBytes(dir, at, Zeros(20));
    PutBytes(dir, at, name[..n]);
    PutU32(dir, at + 20, offset);
    PutU32(dir, at + 24, Wrap32(size));
    PutU32(dir, at + 28, VALID);
    ghost var e := NameField(name) + LE32(offset) + LE32(Wrap32(size)) + LE32(VALID);
    FieldsJoined(was, at, name[..n], LE32(offset), LE32(Wrap32(size)), LE32(VALID));
    EntryPatched(was, i, e);
    EntryDecodes(name, offset, Wrap32(size));
  }

  lemma EntryDecodes(name: seq<byte>, offset: u32, size: u32)
    ensures SlotAt(NameField(name) + LE32(offset) + LE32(size) + LE32(VALID), 0)
        == Slot(NameField(name), offset, size, VALID)
  {
    var e := NameField(name) + LE32(offset) + LE32(size) + LE32(VALID);
    assert e[0..20] == NameField(name);
    assert e[20..24] == LE32(offset) && e[24..28] == LE32(size) && e[28..32] == LE32(VALID);
    U32Slice(e, 20);
    U32Slice(e, 24);
    U32Slice(e, 28);
    LE32RoundTrip(offset);
    LE32RoundTrip(size);
    LE32RoundTrip(VALID);
  }

  /** The first i chunks of data are on the device, and nothing else of it has changed. */
  ghost predicate Putting(d: Disk, d': Disk, next: nat, data: seq<byte>, i: nat)
    requires |d| >= DATA_START
  {
    && DataPut(d, d', next, data, i) && d'[..DATA_START] == d[..DATA_START]
    && (i > 0 ==> DATA_START + next + i <= |d|)
  }

  lemma NoRoomBehind(d: Disk, d': Disk, next: nat, data: seq<byte>, i: nat, n: nat)
    requires DataPut(d, d', next, data, i) && DATA_START + next + i >= |d| && i <= n
    ensures DataPut(d, d', next, data, n)
  {
  }

  lemma OneMorePut(d: Disk, d1: Disk, next: nat, data: seq<byte>, i: nat, d2: Disk)
    requires |d| >= DATA_START && Putting(d, d1, next, data, i) && DATA_START + next + i < |d|
    requires d2 == d1[DATA_START + next + i := Chunk(data, i)]
    ensures Putting(d, d2, next, data, i + 1) && KeepsBelow(d, d2, next)
  {
  }

  lemma PutKeepsBelow(d: Disk, d1: Disk, next: nat, data: seq<byte>, i: nat)
    requires |d| >= DATA_START && Putting(d, d1, next, data, i)
    ensures |d1| == |d| && KeepsBelow(d, d1, next)
  {
  }

  /** Header sectors and the data below `next` are as before. */
  ghost predicate KeepsBelow(d: Disk, d': Disk, next: nat)
    requires |d| >= DATA_START
  {
    && |d'| == |d| && d'[..DATA_START] == d[..DATA_START]
    && forall lba :: DATA_START <= lba < DATA_START + next && lba < |d| ==> d'[lba] == d[lba]
  }

  lemma DataStays(d: Disk, d1: Disk, d2: Disk, next: nat, data: seq<byte>)
    requires |d| >= DATA_START && |d2| == |d| && DataPut(d, d1, next, data, Sectors(|data|))
    requires d2[DATA_START..] == d1[DATA_START..]
    ensures DataPut(d, d2, next, data, Sectors(|data|))
  {
    assert forall lba :: DATA_START <= lba < |d| ==> d2[lba] == d2[DATA_START..][lba - DATA_START] == d1[lba];
  }

  lemma KeptIsMidway(d: Disk, d': Disk, history: seq<Disk>, was: nat, target: Dir, next: nat)
    requires |d| >= DATA_START && KeepsBelow(d, d', next)
    requires forall k {:trigger history[k]} :: was <= k < |history| ==> KeepsBelow(d, history[k], next)
    ensures Midway(d, d', target, next) && AllMidway(d, history, was, target, next)
  {
    forall h | h == d' || h in history[Min(was, |history|)..] ensures Midway(d, h, target, next) {
      assert KeepsBelow(d, h, next);
      assert forall i :: 0 <= i < DATA_START ==> h[i] == h[..DATA_START][i] == d[..DATA_START][i];
    }
    forall k | was <= k < |history| ensures Midway(d, history[k], target, next) {
      assert history[k] in history[was..];
    }
  }

  lemma MixedIsMidway(d: Disk, d1: Disk, d2: Disk, b: seq<byte>, target: Dir, next: nat)
    requires |d| >= DATA_START && KeepsBelow(d, d1, next)
    requires |b| == SLOTS * SLOT_SIZE && SlotsOf(b) == target && MixedSectors(d1, d2, b)
    requires d2[0] == d1[0] && d2[DATA_START..] == d1[DATA_START..]
    ensures Midway(d, d2, target, next)
  {
    assert forall i :: 0 <= i < DATA_START ==> d1[i] == d1[..DATA_START][i] == d[..DATA_START][i];
    MixedSlots(d1, d2, b);
    forall lba | DATA_START <= lba < DATA_START + next && lba < |d| ensures d2[lba] == d[lba] {
      assert d2[lba] == d2[DATA_START..][lba - DATA_START];
    }
  }

  lemma CountIsMidway(d: Disk, d2: Disk, d3: Disk, target: Dir, next: nat)
    requires |d| >= DATA_START && Midway(d, d2, target, next) && Shaped(target)
    requires |d3| == |d2| && d3[1..] == d2[1..]
    requires d3[0] == d2[0] || d3[0] == Superblock(d2[0], target)
    ensures Midway(d, d3, target, next)
  {
    assert forall i :: 1 <= i < |d2| ==> d3[i] == d3[1..][i - 1];
    assert DirBytes(d3) == DirBytes(d2);
  }
}
