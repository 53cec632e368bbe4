/** The on-disk directory of the flat key-value store, and what one store operation does to a disk. */
module Directory {
  import opened Bytes
  import Utf8

  const SECTOR := 512
  const MAGIC: u32 := 0x4B49_4E55
  const SLOTS := 64
  const SLOT_SIZE := 32
  const DATA_START := 5
  const VALID: u32 := 0
  const DELETED: u32 := 1

  /** 4 GiB: any extent of such a disk is counted in 32 bits without wrapping. */
  const MAX_SECTORS := 0x80_0000

  type Sector = s: seq<byte> | |s| == SECTOR witness Zeros(512)
  type Disk = seq<Sector>

  /** One 32-byte directory entry. */
  datatype Slot = Slot(name: seq<byte>, offset: u32, size: u32, flags: u32)

  type Dir = s: seq<Slot> | |s| == SLOTS witness seq(64, _ => Slot(Zeros(20), 0, 0, 0))

  predicate Shaped(dir: Dir) {
    forall i :: 0 <= i < SLOTS ==> |dir[i].name| == 20
  }

  function SlotAt(b: seq<byte>, i: nat): (s: Slot)
    requires i * SLOT_SIZE + SLOT_SIZE <= |b|
    ensures |s.name| == 20
  {
    var at := i * SLOT_SIZE;
    Slot(b[at..at + 20], U32At(b, at + 20), U32At(b, at + 24), U32At(b, at + 28))
  }

  function SlotsOf(b: seq<byte>): (s: Dir)
    requires |b| == SLOTS * SLOT_SIZE
    ensures Shaped(s)
  {
    seq(SLOTS, i requires 0 <= i < SLOTS => SlotAt(b, i))
  }

  function DirBytes(d: Disk): (b: seq<byte>)
    requires |d| >= DATA_START
    ensures |b| == SLOTS * SLOT_SIZE
  {
    var b: seq<byte> := d[1];
    b + d[2] + d[3] + d[4]
  }

  function DirOf(d: Disk): (s: Dir)
    requires |d| >= DATA_START
    ensures Shaped(s)
  {
    SlotsOf(DirBytes(d))
  }

  /** Index of the first zero byte, or the length when there is none. */
  function NulAt(s: seq<byte>): (n: nat)
    ensures n <= |s|
    ensures 0 !in s[..n]
    ensures n < |s| ==> s[n] == 0
  {
    if s == [] || s[0] == 0 then 0
    else
      var n := NulAt(s[1..]);
      assert s[..n + 1] == [s[0]] + s[1..][..n];
      n + 1
  }

  /** The name an entry carries: the bytes before the first zero, empty when they are not UTF-8. */
  function NameOf(s: Slot): (n: seq<byte>) {
    var raw := s.name[..NulAt(s.name)];
    if Utf8.Valid(raw) then raw else []
  }

  predicate Live(s: Slot, name: seq<byte>) {
    s.flags == VALID && NameOf(s) == name
  }

  /** A valid entry with a first name byte: what `list` prints and the superblock counts. */
  predicate Named(s: Slot)
    requires |s.name| == 20
  {
    s.flags == VALID && s.name[0] != 0
  }

  /** Number of sectors that hold `size` bytes. */
  function Sectors(size: nat): (n: nat)
    ensures size <= 512 * n && (n > 0 ==> 512 * (n - 1) < size)
  {
    (size + SECTOR - 1) / SECTOR
  }

  /** First sector after an entry's data, in the wrapping 32-bit arithmetic of the store. */
  function EndOf(s: Slot): (e: u32) {
    Wrap32(s.offset + Wrap32(s.size + SECTOR - 1) / SECTOR)
  }

  /** Live entries called `name` among the first n marked as deleted. */
  function RetireUpTo(dir: Dir, name: seq<byte>, n: nat): (r: Dir)
    ensures Shaped(dir) ==> Shaped(r)
  {
    seq(SLOTS, i requires 0 <= i < SLOTS => if i < n && Live(dir[i], name) then dir[i].(flags := DELETED) else dir[i])
  }

  lemma RetireNext(dir: Dir, name: seq<byte>, i: nat)
    requires i < SLOTS
    ensures RetireUpTo(dir, name, i)[i] == dir[i]
    ensures RetireUpTo(dir, name, i + 1) ==
            if Live(dir[i], name) then RetireUpTo(dir, name, i)[i := dir[i].(flags := DELETED)]
                else RetireUpTo(dir, name, i)
  {
  }

  /** Every live entry called `name` marked as deleted. */
  function Retire(dir: Dir, name: seq<byte>): (r: Dir)
    ensures Shaped(dir) ==> Shaped(r)
  {
    RetireUpTo(dir, name, SLOTS)
  }

  predicate Free(s: Slot)
    requires |s.name| == 20
  {
    s.flags == DELETED || s.name[0] == 0
  }

  /** First free entry at or after i. */
  function FreeSlot(dir: Dir, i: nat): (r: Option<nat>)
    requires Shaped(dir) && i <= SLOTS
    ensures r.Some? ==> i <= r.value < SLOTS && Free(dir[r.value]) && forall j :: i <= j < r.value ==> !Free(dir[j])
    ensures r.None? ==> forall j :: i <= j < SLOTS ==> !Free(dir[j])
    decreases SLOTS - i
  {
    if i == SLOTS then None else if Free(dir[i]) then Some(i) else FreeSlot(dir, i + 1)
  }

  /** End of the last extent among the first n entries flagged valid. */
  function NextFree(dir: Dir, n: nat): (m: u32)
    requires n <= SLOTS
    ensures forall j :: 0 <= j < n && dir[j].flags == VALID ==> EndOf(dir[j]) <= m
    ensures m == 0 || exists j :: 0 <= j < n && dir[j].flags == VALID && EndOf(dir[j]) == m
  {
    if n == 0 then 0
    else
      var m := NextFree(dir, n - 1);
      if dir[n - 1].flags == VALID && EndOf(dir[n - 1]) > m then EndOf(dir[n - 1]) else m
  }

  lemma NextFreeStep(dir: Dir, n: nat, e: Slot, m: u32)
    requires n < SLOTS && e == dir[n] && m == NextFree(dir, n)
    ensures NextFree(dir, n + 1) == if e.flags == VALID && EndOf(e) > m then EndOf(e) else m
  {
  }

  /** Number of named entries among the first n. */
  function Count(dir: Dir, n: nat): (c: nat)
    requires Shaped(dir) && n <= SLOTS
    ensures c <= n
  {
    if n == 0 then 0 else Count(dir, n - 1) + if Named(dir[n - 1]) then 1 else 0
  }

  /** Names of the named entries among the first n, in slot order. */
  function Names(dir: Dir, n: nat): (r: seq<seq<byte>>)
    requires Shaped(dir) && n <= SLOTS
  {
    if n == 0 then [] else Names(dir, n - 1) + if Named(dir[n - 1]) then [NameOf(dir[n - 1])] else []
  }

  /** The name field the store writes: at most 19 bytes, zero padded. */
  function NameField(name: seq<byte>): (f: seq<byte>)
    ensures |f| == 20
  {
    var n := Min(|name|, 19);
    name[..n] + Zeros(20 - n)
  }

  /** Last live entry called `name` among the first n. */
  function Find(dir: Dir, name: seq<byte>, n: nat): (r: Option<nat>)
    requires n <= SLOTS
    ensures r.Some? ==> r.value < n && Live(dir[r.value], name)
    ensures r.None? ==> forall j :: 0 <= j < n ==> !Live(dir[j], name)
    ensures r.Some? ==> forall j :: r.value < j < n ==> !Live(dir[j], name)
  {
    if n == 0 then None
    else if Live(dir[n - 1], name) then Some(n - 1)
    else Find(dir, name, n - 1)
  }

  /** What a sector reads as; a read past the device leaves the zeroed buffer alone. */
  function SectorAt(d: Disk, lba: nat): (s: Sector) {
    if lba < |d| then d[lba] else Zeros(SECTOR)
  }

  /** `size` bytes stored from data sector `offset` on. */
  function Extent(d: Disk, offset: nat, size: nat): (r: seq<byte>)
    ensures |r| == size
  {
    seq(size, k requires 0 <= k < size => SectorAt(d, DATA_START + offset + k / SECTOR)[k % SECTOR])
  }

  function Lookup(d: Disk, name: seq<byte>): (r: Option<seq<byte>>)
    requires |d| >= DATA_START
  {
    var dir := DirOf(d);
    match Find(dir, name, SLOTS)
    case None => None
    case Some(i) => Some(Extent(d, dir[i].offset, dir[i].size))
  }

  /** The j-th sector of data padded with zeros. */
  function Chunk(data: seq<byte>, j: nat): (s: Sector) {
    seq(SECTOR, k requires 0 <= k < SECTOR => if j * SECTOR + k < |data| then data[j * SECTOR + k] else 0)
  }

  /** Sectors [next, next+n) of the data area hold the first n chunks of data, the others are as before. */
  ghost predicate DataPut(d: Disk, d': Disk, next: nat, data: seq<byte>, n: nat) {
    && |d'| == |d|
    && (forall j {:trigger Chunk(data, j)} :: 0 <= j < n && DATA_START + next + j < |d| ==>
          d'[DATA_START + next + j] == Chunk(data, j))
    && (forall lba :: DATA_START <= lba < |d| && !(DATA_START + next <= lba < DATA_START + next + n) ==>
        d'[lba] == d[lba])
  }

  /** Where a write of `name` puts its data. */
  function Target(d: Disk, name: seq<byte>): (next: u32)
    requires |d| >= DATA_START
  {
    NextFree(Retire(DirOf(d), name), SLOTS)
  }

  function Room(d: Disk, name: seq<byte>): (r: Option<nat>)
    requires |d| >= DATA_START
    ensures r.Some? ==> r.value < SLOTS
  {
    FreeSlot(Retire(DirOf(d), name), 0)
  }

  predicate Fits(d: Disk, name: seq<byte>, data: seq<byte>)
    requires |d| >= DATA_START
  {
    Sectors(|data|) == 0 || DATA_START + Target(d, name) + Sectors(|data|) <= |d|
  }

  function NewSlot(name: seq<byte>, offset: u32, size: nat): (s: Slot)
    ensures |s.name| == 20
  {
    Slot(NameField(name), offset, Wrap32(size), VALID)
  }

  /** The directory a completed write of `name` leaves. */
  function Written(d: Disk, name: seq<byte>, data: seq<byte>): (r: Dir)
    requires |d| >= DATA_START && Room(d, name).Some?
    ensures Shaped(r)
  {
    Retire(DirOf(d), name)[Room(d, name).value := NewSlot(name, Target(d, name), |data|)]
  }

  /** The directory a write is on its way to: it never gets there when there is no slot or no space. */
  function Aim(d: Disk, name: seq<byte>, data: seq<byte>): (r: Dir)
    requires |d| >= DATA_START
    ensures Shaped(r)
  {
    if Room(d, name).Some? && Fits(d, name, data) then Written(d, name, data) else DirOf(d)
  }

  /** The superblock with its count word set for `dir`. */
  function Superblock(sb: Sector, dir: Dir): (r: Sector)
    requires Shaped(dir)
  {
    Splice(sb, 8, LE32(Count(dir, SLOTS)))
  }

  /** A write on a device whose in-range sector writes all land. */
  ghost predicate WriteStep(d: Disk, name: seq<byte>, data: seq<byte>, ok: bool, d': Disk)
    requires |d| >= DATA_START
  {
    if Room(d, name).None? then !ok && d' == d
    else if !Fits(d, name, data) then
      && !ok && DataPut(d, d', Target(d, name), data, Sectors(|data|))
      && d'[..DATA_START] == d[..DATA_START]
    else
      && ok && DataPut(d, d', Target(d, name), data, Sectors(|data|))
      && DirOf(d') == Written(d, name, data)
      && d'[0] == Superblock(d[0], Written(d, name, data))
  }

  /** A delete on such a device. */
  ghost predicate DeleteStep(d: Disk, name: seq<byte>, ok: bool, d': Disk)
    requires |d| >= DATA_START
  {
    if Find(DirOf(d), name, SLOTS).None? then !ok && d' == d
    else
      && ok && |d'| == |d| && d'[DATA_START..] == d[DATA_START..]
      && DirOf(d') == Retire(DirOf(d), name)
      && d'[0] == Superblock(d[0], Retire(DirOf(d), name))
  }

  /** The superblock of an empty store. */
  const EMPTY_STORE: Sector := LE32(MAGIC) + LE32(1) + Zeros(504)

  /** UNIK, version 1, no entries. */
  lemma EmptyStoreText()
    ensures EMPTY_STORE == Ascii("UNIK") + [1, 0, 0, 0] + [0, 0, 0, 0] + Zeros(500)
  {
    MagicText();
    assert LE32(1) == [1, 0, 0, 0] && Zeros(504) == [0, 0, 0, 0] + Zeros(500);
  }

  lemma MagicText()
    ensures LE32(MAGIC) == Ascii("UNIK")
  {
  }

  /** Opening formats a disk without the magic word and leaves any other alone. */
  ghost predicate OpenStep(d: Disk, d': Disk)
    requires |d| >= DATA_START
  {
    if U32At(d[0], 0) == MAGIC then d' == d
    else
      && |d'| == |d| && d'[DATA_START..] == d[DATA_START..]
      && d'[0] == EMPTY_STORE
      && forall lba :: 1 <= lba < DATA_START ==> d'[lba] == Zeros(SECTOR)
  }

  /** A disk image that opening can leave or pass through when any of its writes fail. */
  ghost predicate OpenMidway(d: Disk, d': Disk)
    requires |d| >= DATA_START
  {
    if U32At(d[0], 0) == MAGIC then d' == d
    else
      && |d'| == |d| && d'[DATA_START..] == d[DATA_START..] && (d'[0] == d[0] || d'[0] == EMPTY_STORE)
      && forall lba :: 1 <= lba < DATA_START ==> d'[lba] == d[lba] || d'[lba] == Zeros(SECTOR)
  }

  /**
   * A disk image that can be seen between two sector writes of one operation whose final directory is
   * `target`: every entry is the old or the new one, and data below sector `next` is as before.
   */
  ghost predicate Midway(d: Disk, d': Disk, target: Dir, next: nat)
    requires |d| >= DATA_START
  {
    && |d'| == |d|
    && d'[0][..8] == d[0][..8]
    && (forall i :: 0 <= i < SLOTS ==> DirOf(d')[i] == DirOf(d)[i] || DirOf(d')[i] == target[i])
    && (forall lba :: DATA_START <= lba < DATA_START + next && lba < |d| ==> d'[lba] == d[lba])
  }

  /** The same for directory sectors: each is the old one or its share of the bytes b. */
  ghost predicate MixedSectors(d: Disk, d': Disk, b: seq<byte>)
    requires |d| >= DATA_START && |b| == SLOTS * SLOT_SIZE
  {
    && |d'| == |d|
    && forall i :: 0 <= i < 4 ==> d'[1 + i] == d[1 + i] || d'[1 + i] == b[i * SECTOR..(i + 1) * SECTOR]
  }

  /** Entry i lies in directory sector i / 16. */
  lemma SlotInSector(b: seq<byte>, i: nat)
    requires |b| == SLOTS * SLOT_SIZE && i < SLOTS
    ensures SlotAt(b, i) == SlotAt(b[i / 16 * SECTOR..(i / 16 + 1) * SECTOR], i % 16)
  {
    var s, at, to := b[i / 16 * SECTOR..(i / 16 + 1) * SECTOR], i % 16 * SLOT_SIZE, i * SLOT_SIZE;
    assert s[at..at + 20] == b[to..to + 20];
  }

  lemma DirSlice(d: Disk, i: nat)
    requires |d| >= DATA_START && i < 4
    ensures DirBytes(d)[i * SECTOR..(i + 1) * SECTOR] == d[1 + i]
  {
  }

  /**
   * Entry i of the directory is the 32 bytes from byte 32 * (i % 16) of sector 1 + i / 16 on: 20 bytes of name, then
   * offset, size and flags as little-endian words.
   */
  lemma EntryOnDisk(d: Disk, i: nat, e: seq<byte>)
    requires |d| >= 5 && i < 64 && e == d[1 + i / 16][i % 16 * 32..i % 16 * 32 + 32]
    ensures var s := DirOf(d)[i];
      e == s.name + LE32(s.offset) + LE32(s.size) + LE32(s.flags)
  {
    var k, at := i / 16, i % 16 * 32;
    SlotInSector(DirBytes(d), i);
    DirSlice(d, k);
    EntrySpelled(d[1 + k], i % 16, e);
  }

  lemma EntrySpelled(b: seq<byte>, i: nat, e: seq<byte>)
    requires i * 32 + 32 <= |b| && e == b[i * 32..i * 32 + 32]
    ensures var s := SlotAt(b, i); e == s.name + LE32(s.offset) + LE32(s.size) + LE32(s.flags)
  {
    var at := i * 32;
    LE32Reads(b, at + 20);
    LE32Reads(b, at + 24);
    LE32Reads(b, at + 28);
    assert e == b[at..at + 20] + b[at + 20..at + 24] + b[at + 24..at + 28] + b[at + 28..at + 32];
  }

  lemma MixedSlots(d: Disk, d': Disk, b: seq<byte>)
    requires |d| >= DATA_START && |b| == SLOTS * SLOT_SIZE && MixedSectors(d, d', b)
    ensures forall i :: 0 <= i < SLOTS ==> DirOf(d')[i] == DirOf(d)[i] || DirOf(d')[i] == SlotsOf(b)[i]
  {
    forall i | 0 <= i < SLOTS ensures DirOf(d')[i] == DirOf(d)[i] || DirOf(d')[i] == SlotsOf(b)[i] {
      MixedSlot(d, d', b, i, i / 16);
    }
  }

  lemma MixedSlot(d: Disk, d': Disk, b: seq<byte>, i: nat, k: nat)
    requires |d| >= DATA_START && |b| == SLOTS * SLOT_SIZE && MixedSectors(d, d', b) && i < SLOTS && k == i / 16
    ensures DirOf(d')[i] == DirOf(d)[i] || DirOf(d')[i] == SlotsOf(b)[i]
  {
    SlotInSector(DirBytes(d), i);
    SlotInSector(DirBytes(d'), i);
    SlotInSector(b, i);
    DirSlice(d, k);
    DirSlice(d', k);
  }

  /** Rewriting the flags of entry i changes nothing else. */
  lemma FlagsPatched(b: seq<byte>, i: nat, v: u32)
    requires |b| == SLOTS * SLOT_SIZE && i < SLOTS
    ensures SlotsOf(Splice(b, i * SLOT_SIZE + 28, LE32(v))) == SlotsOf(b)[i := SlotAt(b, i).(flags := v)]
  {
    var at, e := i * SLOT_SIZE, b[i * SLOT_SIZE..i * SLOT_SIZE + 28] + LE32(v);
    EntryPatched(b, i, e);
    FieldsKept(b, i, v);
    assert Splice(b, at + 28, LE32(v)) == Splice(b, at, e);
  }

  lemma FieldsKept(b: seq<byte>, i: nat, v: u32)
    requires |b| == SLOTS * SLOT_SIZE && i < SLOTS
    ensures SlotAt(b[i * SLOT_SIZE..i * SLOT_SIZE + 28] + LE32(v), 0) == SlotAt(b, i).(flags := v)
  {
    var at, w := i * SLOT_SIZE, LE32(v);
    var e := b[at..at + 28] + w;
    assert e[0..20] == b[at..at + 20];
    assert e[28..32] == w;
    U32Slice(e, 28);
    LE32RoundTrip(v);
  }

  /** Rewriting all 32 bytes of entry i changes nothing else. */
  lemma EntryPatched(b: seq<byte>, i: nat, e: seq<byte>)
    requires |b| == SLOTS * SLOT_SIZE && i < SLOTS && |e| == SLOT_SIZE
    ensures SlotsOf(Splice(b, i * SLOT_SIZE, e)) == SlotsOf(b)[i := SlotAt(e, 0)]
  {
    var r := Splice(b, i * SLOT_SIZE, e);
    forall j | 0 <= j < SLOTS ensures SlotsOf(r)[j] == SlotsOf(b)[i := SlotAt(e, 0)][j] {
      if j == i {
        assert r[i * SLOT_SIZE..i * SLOT_SIZE + 20] == e[0..20];
      } else {
        SpliceFrame(b, i * SLOT_SIZE, e, j * SLOT_SIZE, j * SLOT_SIZE + 20);
      }
    }
  }
}
