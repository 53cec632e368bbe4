/** The store refines a map from names to byte strings, and what of that map an interrupted operation keeps. */
module StoreRefinement {
  import opened Bytes
  import opened Directory
  import Utf8

  type Name = seq<byte>
  type Store = map<Name, seq<byte>>

  /** The names on which the store is a map. */
  predicate Legal(n: Name) {
    1 <= |n| <= 19 && 0 !in n && Utf8.Valid(n)
  }

  predicate Disjoint(a: Slot, b: Slot) {
    || a.size == 0 || b.size == 0
    || a.offset + Sectors(a.size) <= b.offset || b.offset + Sectors(b.size) <= a.offset
  }

  /** A directory entry as the store leaves it on a disk of `n` sectors. */
  predicate GoodSlot(s: Slot, n: nat) {
    && |s.name| == 20 && s.flags in {VALID, DELETED}
    && (s.flags == VALID ==> DATA_START + s.offset + Sectors(s.size) <= n)
    && (Named(s) ==> Legal(NameOf(s)))
  }

  /** What survives any interruption: extents lie on the disk, and different names have disjoint extents. */
  predicate Tidy(d: Disk) {
    && DATA_START <= |d| <= MAX_SECTORS
    && U32At(d[0], 0) == MAGIC
    && TidyDir(DirOf(d), |d|)
  }

  predicate TidyDir(dir: Dir, n: nat) {
    && (forall i :: 0 <= i < SLOTS ==> GoodSlot(dir[i], n))
    && (forall i, j | 0 <= i < SLOTS && 0 <= j < SLOTS && Named(dir[i]) && Named(dir[j]) ::
          NameOf(dir[i]) != NameOf(dir[j]) ==> Disjoint(dir[i], dir[j]))
  }

  /** No two named entries share a name outside `except`. */
  predicate UniqueBut(dir: Dir, except: set<Name>)
    requires Shaped(dir)
  {
    forall i, j :: 0 <= i < j < SLOTS && Named(dir[i]) && Named(dir[j]) && NameOf(dir[i]) == NameOf(dir[j]) ==>
        NameOf(dir[i]) in except
  }

  /** The invariant between operations that were not interrupted. */
  predicate Inv(d: Disk) {
    && Tidy(d)
    && UniqueBut(DirOf(d), {})
    && U32At(d[0], 8) == Count(DirOf(d), SLOTS)
  }

  function NameSet(dir: Dir): (s: set<Name>)
    requires Shaped(dir)
  {
    set i | 0 <= i < SLOTS && Named(dir[i]) :: NameOf(dir[i])
  }

  /** The map a disk stands for. */
  function View(d: Disk): (m: Store)
    requires |d| >= DATA_START
  {
    map n | n in NameSet(DirOf(d)) && Lookup(d, n).Some? :: Lookup(d, n).value
  }

  // ---- single entries ----

  lemma LegalNamed(s: Slot)
    requires |s.name| == 20 && s.flags == VALID && NameOf(s) != []
    ensures Named(s)
  {
  }

  lemma NulUnique(f: seq<byte>, k: nat)
    requires k < |f| && 0 !in f[..k] && f[k] == 0
    ensures NulAt(f) == k
  {
    assert forall j :: 0 <= j < k ==> f[j] in f[..k];
    assert forall j :: 0 <= j < NulAt(f) ==> f[j] in f[..NulAt(f)];
  }

  /** The name field of a name reads back as that name. */
  lemma NameReadsBack(name: Name, offset: u32, size: nat)
    requires |name| <= 19 && 0 !in name && Utf8.Valid(name)
    ensures NameOf(NewSlot(name, offset, size)) == name
  {
    var f := NameField(name);
    assert f[..|name|] == name;
    NulUnique(f, |name|);
  }

  /** A longer one is found under its first nineteen bytes, if they are text. */
  lemma LongNameStored(name: Name, offset: u32, size: nat)
    requires |name| > 19 && 0 !in name[..19]
    ensures NameOf(NewSlot(name, offset, size)) == if Utf8.Valid(name[..19]) then name[..19] else []
  {
    var f := NameField(name);
    assert f[..19] == name[..19];
    NulUnique(f, 19);
  }

  lemma NoWrap(s: Slot)
    requires DATA_START + s.offset + Sectors(s.size) <= MAX_SECTORS
    ensures EndOf(s) == s.offset + Sectors(s.size)
  {
  }

  lemma FindsNamed(d: Disk, n: Name)
    requires Tidy(d) && Legal(n)
    ensures n in NameSet(DirOf(d)) <==> Find(DirOf(d), n, SLOTS).Some?
    ensures n in View(d) <==> Lookup(d, n).Some?
    ensures n in View(d) ==> View(d)[n] == Lookup(d, n).value
  {
    var dir := DirOf(d);
    match Find(dir, n, SLOTS)
    case Some(i) =>
      LegalNamed(dir[i]);
    case None =>
      forall i | 0 <= i < SLOTS && Named(dir[i]) ensures NameOf(dir[i]) != n {
        assert !Live(dir[i], n);
      }
  }

  lemma ViewNames(d: Disk)
    requires Tidy(d)
    ensures View(d).Keys == NameSet(DirOf(d))
    ensures forall n :: n in View(d) ==> Legal(n)
  {
    forall n | n in NameSet(DirOf(d)) ensures Legal(n) && n in View(d) {
      FindsNamed(d, n);
    }
  }

  // ---- where the data of an entry lies ----

  lemma SameExtent(d: Disk, d': Disk, offset: nat, size: nat)
    requires forall lba :: DATA_START + offset <= lba < DATA_START + offset + Sectors(size) ==>
        SectorAt(d', lba) == SectorAt(d, lba)
    ensures Extent(d', offset, size) == Extent(d, offset, size)
  {
    forall k | 0 <= k < size ensures Extent(d', offset, size)[k] == Extent(d, offset, size)[k] {
      assert DATA_START + offset + k / SECTOR < DATA_START + offset + Sectors(size);
    }
  }

  /** Entries that stay valid while `name` is written end at or before the sector the write starts at. */
  lemma BelowTarget(d: Disk, name: Name, i: nat)
    requires Tidy(d) && i < SLOTS && DirOf(d)[i].flags == VALID && NameOf(DirOf(d)[i]) != name
    ensures DirOf(d)[i].offset + Sectors(DirOf(d)[i].size) <= Target(d, name)
  {
    NoWrap(DirOf(d)[i]);
    assert Retire(DirOf(d), name)[i] == DirOf(d)[i];
  }

  lemma TargetOnDisk(d: Disk, name: Name)
    requires Tidy(d)
    ensures DATA_START + Target(d, name) <= |d|
  {
    var dir := Retire(DirOf(d), name);
    if Target(d, name) != 0 {
      var j :| 0 <= j < SLOTS && dir[j].flags == VALID && EndOf(dir[j]) == Target(d, name);
      NoWrap(DirOf(d)[j]);
    }
  }

  /** Data of an entry that stays valid is untouched when only sectors from the target on change. */
  lemma ExtentBelow(d: Disk, d': Disk, name: Name, i: nat)
    requires Tidy(d) && i < SLOTS && DirOf(d)[i].flags == VALID && NameOf(DirOf(d)[i]) != name && |d'| == |d|
    requires forall lba :: DATA_START <= lba < DATA_START + Target(d, name) && lba < |d| ==> d'[lba] == d[lba]
    ensures Extent(d', DirOf(d)[i].offset, DirOf(d)[i].size) == Extent(d, DirOf(d)[i].offset, DirOf(d)[i].size)
  {
    BelowTarget(d, name, i);
    SameExtent(d, d', DirOf(d)[i].offset, DirOf(d)[i].size);
  }

  // ---- an interrupted operation ----

  lemma {:induction false} SameFind(dir: Dir, dir': Dir, n: Name, k: nat)
    requires k <= SLOTS
    requires forall i :: 0 <= i < SLOTS ==> (Live(dir'[i], n) <==> Live(dir[i], n))
    ensures Find(dir', n, k) == Find(dir, n, k)
  {
    if k > 0 {
      SameFind(dir, dir', n, k - 1);
    }
  }

  /** The directory a write of `name` aims at differs from the old one in entries of that name and in one free slot. */
  lemma AimOthers(d: Disk, name: Name, data: seq<byte>, n: Name, j: nat)
    requires Tidy(d) && Legal(name) && Legal(n) && n != name && j < SLOTS
    ensures Aim(d, name, data)[j] == DirOf(d)[j] || !Live(Aim(d, name, data)[j], n)
    ensures Live(DirOf(d)[j], n) ==> Aim(d, name, data)[j] == DirOf(d)[j]
  {
    var dir := DirOf(d);
    if Room(d, name).Some? && Fits(d, name, data) {
      var retired := Retire(dir, name);
      assert Live(dir[j], n) ==> retired[j] == dir[j];
      if j == Room(d, name).value {
        NameReadsBack(name, Target(d, name), |data|);
        assert Free(retired[j]);
        if Live(dir[j], n) {
          LegalNamed(dir[j]);
        }
      }
    }
  }

  /** Entries of another name are the same in every midway directory of a write. */
  lemma WriteMidwayEntry(d: Disk, d': Disk, name: Name, data: seq<byte>, n: Name, i: nat)
    requires Tidy(d) && Legal(name) && Legal(n) && n != name && i < SLOTS
    requires Midway(d, d', Aim(d, name, data), Target(d, name))
    ensures Live(DirOf(d')[i], n) <==> Live(DirOf(d)[i], n)
    ensures Live(DirOf(d)[i], n) ==> DirOf(d')[i] == DirOf(d)[i]
  {
    AimOthers(d, name, data, n, i);
  }

  /**
   * Whatever prefix, or subset, of the sector writes of `write(name, data)` reached the disk, every other
   * name still reads back its exact old bytes.
   */
  lemma WriteKeepsOthers(d: Disk, d': Disk, name: Name, data: seq<byte>, n: Name)
    requires Tidy(d) && Legal(name) && Legal(n) && n != name
    requires Midway(d, d', Aim(d, name, data), Target(d, name))
    ensures Lookup(d', n) == Lookup(d, n)
  {
    forall i | 0 <= i < SLOTS ensures Live(DirOf(d')[i], n) <==> Live(DirOf(d)[i], n) {
      WriteMidwayEntry(d, d', name, data, n, i);
    }
    SameFind(DirOf(d), DirOf(d'), n, SLOTS);
    if Find(DirOf(d), n, SLOTS).Some? {
      var i := Find(DirOf(d), n, SLOTS).value;
      WriteMidwayEntry(d, d', name, data, n, i);
      ExtentBelow(d, d', name, i);
    }
  }

  lemma DeleteKeepsOthers(d: Disk, d': Disk, name: Name, n: Name)
    requires Tidy(d) && Legal(name) && Legal(n) && n != name
    requires Midway(d, d', Retire(DirOf(d), name), |d|)
    ensures Lookup(d', n) == Lookup(d, n)
  {
    var dir, target := DirOf(d), Retire(DirOf(d), name);
    SameFind(dir, DirOf(d'), n, SLOTS);
    match Find(dir, n, SLOTS)
    case None =>
    case Some(i) =>
      SameExtent(d, d', dir[i].offset, dir[i].size);
  }

  /** The entry a write installs is good and disjoint from every entry that stays. */
  lemma NewEntry(d: Disk, name: Name, data: seq<byte>)
    requires Tidy(d) && Legal(name) && Fits(d, name, data)
    ensures var s := NewSlot(name, Target(d, name), |data|);
      && s.size == |data| && GoodSlot(s, |d|) && Named(s) && NameOf(s) == name
      && forall i :: 0 <= i < SLOTS && Named(DirOf(d)[i]) && NameOf(DirOf(d)[i]) != name ==>
           Disjoint(s, DirOf(d)[i]) && Disjoint(DirOf(d)[i], s)
  {
    TargetOnDisk(d, name);
    NameReadsBack(name, Target(d, name), |data|);
    SizeInRange(|data|, Target(d, name), |d|);
    forall i | 0 <= i < SLOTS && Named(DirOf(d)[i]) && NameOf(DirOf(d)[i]) != name
      ensures DirOf(d)[i].offset + Sectors(DirOf(d)[i].size) <= Target(d, name)
    {
      BelowTarget(d, name, i);
    }
  }

  lemma SizeInRange(size: nat, next: nat, n: nat)
    requires n <= MAX_SECTORS && (Sectors(size) == 0 || DATA_START + next + Sectors(size) <= n)
    ensures Wrap32(size) == size
  {
  }

  /** Keeping, deleting or replacing entries by one good new entry keeps a directory tidy. */
  lemma TidyMixed(dir: Dir, dir': Dir, n: nat, s: Slot, ex: set<Name>)
    requires TidyDir(dir, n) && Shaped(dir) && Shaped(dir') && GoodSlot(s, n) && Named(s) && UniqueBut(dir, ex)
    requires forall i :: 0 <= i < SLOTS && Named(dir[i]) && NameOf(dir[i]) != NameOf(s) ==>
      Disjoint(s, dir[i]) && Disjoint(dir[i], s)
    requires forall i :: 0 <= i < SLOTS ==> dir'[i] == dir[i] || dir'[i] == dir[i].(flags := DELETED) || dir'[i] == s
    ensures TidyDir(dir', n) && UniqueBut(dir', ex + {NameOf(s)})
  {
  }

  lemma MidwayMagic(d: Disk, d': Disk, target: Dir, next: nat)
    requires |d| >= DATA_START && Midway(d, d', target, next)
    ensures U32At(d'[0], 0) == U32At(d[0], 0)
  {
    forall k | 0 <= k < 4 ensures d'[0][k] == d[0][k] {
      assert d'[0][..8][k] == d[0][..8][k];
    }
  }

  lemma WriteMidwaySlots(d: Disk, d': Disk, name: Name, data: seq<byte>)
    requires |d| >= DATA_START && Fits(d, name, data) && Midway(d, d', Aim(d, name, data), Target(d, name))
    ensures forall i :: 0 <= i < SLOTS ==>
        || DirOf(d')[i] == DirOf(d)[i] || DirOf(d')[i] == DirOf(d)[i].(flags := DELETED)
        || DirOf(d')[i] == NewSlot(name, Target(d, name), |data|)
  {
    var target, s := Aim(d, name, data), NewSlot(name, Target(d, name), |data|);
    assert forall i :: 0 <= i < SLOTS ==>
        target[i] == DirOf(d)[i] || target[i] == DirOf(d)[i].(flags := DELETED) || target[i] == s;
  }

  /** The weak invariant, and uniqueness of all names but the one written, hold at every sector-write boundary. */
  lemma WriteKeepsTidy(d: Disk, d': Disk, name: Name, data: seq<byte>, ex: set<Name>)
    requires Tidy(d) && UniqueBut(DirOf(d), ex) && Legal(name)
    requires Midway(d, d', Aim(d, name, data), Target(d, name))
    ensures Tidy(d') && UniqueBut(DirOf(d'), ex + {name})
  {
    MidwayMagic(d, d', Aim(d, name, data), Target(d, name));
    if Fits(d, name, data) {
      NewEntry(d, name, data);
      WriteMidwaySlots(d, d', name, data);
      TidyMixed(DirOf(d), DirOf(d'), |d|, NewSlot(name, Target(d, name), |data|), ex);
    } else {
      assert DirOf(d') == DirOf(d);
    }
  }

  lemma DeleteKeepsTidy(d: Disk, d': Disk, name: Name, ex: set<Name>)
    requires Tidy(d) && UniqueBut(DirOf(d), ex) && Legal(name)
    requires Midway(d, d', Retire(DirOf(d), name), |d|)
    ensures Tidy(d') && UniqueBut(DirOf(d'), ex)
  {
    MidwayMagic(d, d', Retire(DirOf(d), name), |d|);
    var dir, dir' := DirOf(d), DirOf(d');
    assert forall i :: 0 <= i < SLOTS ==> dir'[i] == dir[i] || dir'[i] == dir[i].(flags := DELETED);
  }

  // ---- completed operations ----

  lemma CompletedIsMidway(d: Disk, name: Name, data: seq<byte>, d': Disk)
    requires Tidy(d) && WriteStep(d, name, data, true, d')
    ensures Midway(d, d', Aim(d, name, data), Target(d, name))
  {
  }

  lemma FailedIsMidway(d: Disk, name: Name, data: seq<byte>, d': Disk)
    requires Tidy(d) && WriteStep(d, name, data, false, d')
    ensures Midway(d, d', Aim(d, name, data), Target(d, name))
    ensures DirOf(d') == DirOf(d) && d'[0] == d[0]
  {
    if Room(d, name).Some? {
      assert forall i :: 0 <= i < DATA_START ==> d'[i] == d'[..DATA_START][i] == d[..DATA_START][i];
    }
  }

  lemma ExtentHolds(d: Disk, d': Disk, next: nat, data: seq<byte>)
    requires DataPut(d, d', next, data, Sectors(|data|))
    requires Sectors(|data|) == 0 || DATA_START + next + Sectors(|data|) <= |d|
    ensures Extent(d', next, |data|) == data
  {
    forall k | 0 <= k < |data| ensures Extent(d', next, |data|)[k] == data[k] {
      var j := k / SECTOR;
      assert d'[DATA_START + next + j] == Chunk(data, j);
    }
  }

  /** In a completed directory only the slot written can carry the name written. */
  lemma OnlyNewSlot(d: Disk, name: Name, data: seq<byte>, i: nat)
    requires |d| >= DATA_START && Room(d, name).Some? && i < SLOTS && i != Room(d, name).value
    ensures !Live(Written(d, name, data)[i], name)
  {
  }

  lemma {:induction false} FindOnly(dir: Dir, name: Name, slot: nat, n: nat)
    requires slot < n <= SLOTS && Live(dir[slot], name)
    requires forall i :: 0 <= i < SLOTS && i != slot ==> !Live(dir[i], name)
    ensures Find(dir, name, n) == Some(slot)
  {
    if n > slot + 1 {
      FindOnly(dir, name, slot, n - 1);
    }
  }

  /**
   * A write that reports success can be read back exactly when its name has at most 19 bytes and no zero
   * byte: longer names are cut in the entry, and a zero byte ends the stored name.
   */
  lemma WrittenReadsBackIff(d: Disk, name: Name, data: seq<byte>, d': Disk)
    requires DATA_START <= |d| <= MAX_SECTORS && Utf8.Valid(name) && WriteStep(d, name, data, true, d')
    ensures Lookup(d', name) == Some(data) <==> |name| <= 19 && 0 !in name
  {
    var slot, dir' := Room(d, name).value, Written(d, name, data);
    forall i | 0 <= i < SLOTS && i != slot ensures !Live(dir'[i], name) {
      OnlyNewSlot(d, name, data, i);
    }
    if |name| <= 19 && 0 !in name {
      NameReadsBack(name, Target(d, name), |data|);
      FindOnly(dir', name, slot, SLOTS);
      SizeInRange(|data|, Target(d, name), |d|);
      ExtentHolds(d, d', Target(d, name), data);
    } else {
      assert NameOf(dir'[slot]) != name by {
        CutName(name, Target(d, name), |data|);
      }
    }
  }

  lemma CutName(name: Name, offset: u32, size: nat)
    requires |name| > 19 || 0 in name
    ensures NameOf(NewSlot(name, offset, size)) != name
  {
    var f := NameField(name);
    assert f[19] == 0;
    assert forall j :: 0 <= j < NulAt(f) ==> f[j] in f[..NulAt(f)];
  }

  lemma ViewUpdated(d: Disk, d': Disk, name: Name, r: Option<seq<byte>>)
    requires Tidy(d) && Tidy(d') && Legal(name) && Lookup(d', name) == r
    requires forall n :: Legal(n) && n != name ==> Lookup(d', n) == Lookup(d, n)
    ensures View(d') == if r.Some? then View(d)[name := r.value] else View(d) - {name}
  {
    ViewNames(d);
    ViewNames(d');
    FindsNamed(d', name);
    forall n | Legal(n) && n != name
      ensures n in View(d') <==> n in View(d)
      ensures n in View(d) ==> View(d')[n] == View(d)[n]
    {
      FindsNamed(d, n);
      FindsNamed(d', n);
    }
    MapUpdated(View(d), View(d'), name, r);
  }

  /** Maps with legal names only that agree on all but one of them. */
  lemma MapUpdated(m: Store, m': Store, name: Name, r: Option<seq<byte>>)
    requires (forall n :: n in m ==> Legal(n)) && (forall n :: n in m' ==> Legal(n)) && Legal(name)
    requires forall n :: Legal(n) && n != name ==> (n in m' <==> n in m) && (n in m ==> m'[n] == m[n])
    requires r == if name in m' then Some(m'[name]) else None
    ensures m' == if r.Some? then m[name := r.value] else m - {name}
  {
    var x := if r.Some? then m[name := r.value] else m - {name};
    assert m'.Keys == x.Keys;
  }

  lemma CountStored(sb: Sector, dir: Dir)
    requires Shaped(dir)
    ensures U32At(Superblock(sb, dir), 8) == Count(dir, SLOTS)
    ensures U32At(Superblock(sb, dir), 0) == U32At(sb, 0)
  {
    U32Stored(sb, 8, Count(dir, SLOTS));
  }

  /** A completed write: the name is unique again, its value is the data, and every other name keeps its own. */
  lemma WriteCompletes(d: Disk, name: Name, data: seq<byte>, d': Disk, ex: set<Name>)
    requires Tidy(d) && UniqueBut(DirOf(d), ex) && Legal(name) && WriteStep(d, name, data, true, d')
    ensures Tidy(d') && UniqueBut(DirOf(d'), ex - {name}) && U32At(d'[0], 8) == Count(DirOf(d'), SLOTS)
    ensures View(d') == View(d)[name := data]
    ensures Lookup(d', name) == Some(data)
    ensures forall n :: Legal(n) && n != name ==> Lookup(d', n) == Lookup(d, n)
  {
    CompletedIsMidway(d, name, data, d');
    WriteKeepsTidy(d, d', name, data, ex);
    forall i | 0 <= i < SLOTS && i != Room(d, name).value ensures !Live(DirOf(d')[i], name) {
      OnlyNewSlot(d, name, data, i);
    }
    UniqueAgain(DirOf(d'), name, Room(d, name).value, ex);
    CountStored(d[0], Written(d, name, data));
    WrittenReadsBackIff(d, name, data, d');
    forall n | Legal(n) && n != name ensures Lookup(d', n) == Lookup(d, n) {
      WriteKeepsOthers(d, d', name, data, n);
    }
    ViewUpdated(d, d', name, Some(data));
  }

  /** A name that at most one slot carries is unique. */
  lemma UniqueAgain(dir: Dir, name: Name, slot: nat, ex: set<Name>)
    requires Shaped(dir) && (UniqueBut(dir, ex + {name}) || UniqueBut(dir, ex))
    requires forall i :: 0 <= i < SLOTS && i != slot ==> !Live(dir[i], name)
    ensures UniqueBut(dir, ex - {name})
  {
    forall i, j | 0 <= i < j < SLOTS && Named(dir[i]) && Named(dir[j]) && NameOf(dir[i]) == NameOf(dir[j])
      ensures NameOf(dir[i]) in ex - {name}
    {
      assert !Live(dir[i], name) || !Live(dir[j], name);
    }
  }

  lemma DeletedIsMidway(d: Disk, name: Name, d': Disk)
    requires Tidy(d) && DeleteStep(d, name, true, d')
    ensures Midway(d, d', Retire(DirOf(d), name), |d|)
  {
    CountStored(d[0], Retire(DirOf(d), name));
    assert forall lba :: DATA_START <= lba < |d| ==> d'[lba] == d'[DATA_START..][lba - DATA_START] == d[lba];
  }

  lemma DeleteCompletes(d: Disk, name: Name, ok: bool, d': Disk, ex: set<Name>)
    requires Tidy(d) && UniqueBut(DirOf(d), ex) && Legal(name) && DeleteStep(d, name, ok, d')
    ensures Tidy(d') && UniqueBut(DirOf(d'), ex - {name})
    ensures U32At(d'[0], 8) == if ok then Count(DirOf(d'), SLOTS) else U32At(d[0], 8)
    ensures ok == (name in View(d)) && View(d') == View(d) - {name} && Lookup(d', name) == None
    ensures forall n :: Legal(n) && n != name ==> Lookup(d', n) == Lookup(d, n)
  {
    FindsNamed(d, name);
    if ok {
      DeletedIsMidway(d, name, d');
      DeleteKeepsTidy(d, d', name, ex);
      CountStored(d[0], DirOf(d'));
      OthersKept(d, d', name);
    }
    NoneCalled(d, name, ok, d');
    UniqueAgain(DirOf(d'), name, 0, ex);
    ViewUpdated(d, d', name, None);
  }

  lemma NoneCalled(d: Disk, name: Name, ok: bool, d': Disk)
    requires |d| >= DATA_START && DeleteStep(d, name, ok, d')
    ensures |d'| == |d| && forall i :: 0 <= i < SLOTS ==> !Live(DirOf(d')[i], name)
    ensures Lookup(d', name) == None
  {
  }

  lemma OthersKept(d: Disk, d': Disk, name: Name)
    requires Tidy(d) && Legal(name) && Midway(d, d', Retire(DirOf(d), name), |d|)
    ensures forall n :: Legal(n) && n != name ==> Lookup(d', n) == Lookup(d, n)
  {
    forall n | Legal(n) && n != name ensures Lookup(d', n) == Lookup(d, n) {
      DeleteKeepsOthers(d, d', name, n);
    }
  }
}
