/** Runs of the store: uninterrupted ones refine a map, interrupted ones keep every name not caught half-way. */
module StoreRuns {
  import opened Bytes
  import opened Directory
  import opened StoreRefinement
  import KeyValue = Store
  import Utf8

  datatype Op = Put(name: Name, data: seq<byte>) | Del(name: Name) | Get(name: Name) | Keys | Reopen

  /** What an operation gives back. */
  datatype Reply = Flag(ok: bool) | Value(value: Option<seq<byte>>) | Listing(names: seq<Name>)

  predicate LegalOp(op: Op) {
    op.Keys? || op.Reopen? || Legal(op.name)
  }

  /** One completed operation on a device whose in-range sector writes land. */
  ghost predicate Step(d: Disk, op: Op, r: Reply, d': Disk)
    requires |d| >= DATA_START
  {
    match op
    case Put(n, v) => r.Flag? && WriteStep(d, n, v, r.ok, d')
    case Del(n) => r.Flag? && DeleteStep(d, n, r.ok, d')
    case Get(n) => d' == d && r == Value(Lookup(d, n))
    case Keys => d' == d && r == Listing(Names(DirOf(d), SLOTS))
    case Reopen => r == Flag(true) && OpenStep(d, d')
  }

  /**
   * The same on the map. A write of a new name to 64 names is refused and changes nothing; one that does
   * not fit the device is refused too and may spoil the value of its own name.
   */
  ghost predicate MapStep(m: Store, op: Op, r: Reply, m': Store) {
    match op
    case Put(n, v) =>
      r.Flag? &&
      (if n !in m && |m| == SLOTS then !r.ok && m' == m
       else if r.ok then m' == m[n := v]
       else m'.Keys == m.Keys && m' - {n} == m - {n})
    case Del(n) => r == Flag(n in m) && m' == m - {n}
    case Get(n) => m' == m && r == Value(if n in m then Some(m[n]) else None)
    case Keys => m' == m && r.Listing? && NoRepeats(r.names) && SetOf(r.names) == m.Keys
    case Reopen => r == Flag(true) && m' == m
  }

  // ---- the map has as many names as the directory has named entries ----

  function SetOf(s: seq<Name>): (r: set<Name>) {
    set n | n in s
  }

  /** Adding a name to a list that does not hold it adds one to the number of names. */
  lemma SetGrows(s: seq<Name>, n: Name)
    requires n !in s
    ensures |SetOf(s + [n])| == |SetOf(s)| + 1
  {
    assert SetOf(s + [n]) == SetOf(s) + {n};
  }

  predicate NoRepeats(s: seq<Name>) {
    forall i, j :: 0 <= i < j < |s| ==> s[i] != s[j]
  }

  lemma {:induction false} NamesOfEntries(dir: Dir, k: nat, n: Name)
    requires Shaped(dir) && k <= SLOTS
    ensures n in Names(dir, k) <==> exists i :: 0 <= i < k && Named(dir[i]) && NameOf(dir[i]) == n
  {
    if k > 0 {
      NamesOfEntries(dir, k - 1, n);
      assert n in Names(dir, k) <==> n in Names(dir, k - 1) || (Named(dir[k - 1]) && NameOf(dir[k - 1]) == n);
    }
  }

  lemma {:induction false} NamesCounted(dir: Dir, k: nat)
    requires Shaped(dir) && k <= SLOTS && UniqueBut(dir, {})
    ensures NoRepeats(Names(dir, k))
    ensures |Names(dir, k)| == |SetOf(Names(dir, k))| == Count(dir, k)
  {
    if k == 0 {
      assert SetOf(Names(dir, k)) == {};
    } else {
      NamesCounted(dir, k - 1);
      var s, n := Names(dir, k - 1), NameOf(dir[k - 1]);
      if Named(dir[k - 1]) {
        NamesOfEntries(dir, k - 1, n);
        SetGrows(s, n);
        assert Names(dir, k) == s + [n];
      } else {
        assert Names(dir, k) == s;
      }
    }
  }

  /** `list` gives every key of the map once, and the superblock holds their number. */
  lemma ListIsKeySet(d: Disk)
    requires Inv(d)
    ensures NoRepeats(Names(DirOf(d), SLOTS))
    ensures SetOf(Names(DirOf(d), SLOTS)) == View(d).Keys
    ensures |View(d)| == |Names(DirOf(d), SLOTS)| == U32At(d[0], 8)
  {
    ViewNames(d);
    NamesCounted(DirOf(d), SLOTS);
    forall n ensures n in SetOf(Names(DirOf(d), SLOTS)) <==> n in View(d).Keys {
      NamesOfEntries(DirOf(d), SLOTS, n);
    }
    assert SetOf(Names(DirOf(d), SLOTS)) == View(d).Keys;
    assert |View(d)| == |View(d).Keys|;
  }

  lemma {:induction false} CountFull(dir: Dir, k: nat)
    requires Shaped(dir) && k <= SLOTS
    ensures Count(dir, k) == k <==> forall i :: 0 <= i < k ==> Named(dir[i])
  {
    if k > 0 {
      CountFull(dir, k - 1);
    }
  }

  lemma AllTakenIff(d: Disk)
    requires Inv(d)
    ensures |View(d)| == SLOTS <==> forall i :: 0 <= i < SLOTS ==> Named(DirOf(d)[i])
  {
    ListIsKeySet(d);
    NamesCounted(DirOf(d), SLOTS);
    CountFull(DirOf(d), SLOTS);
  }

  lemma NoSlotIff(dir: Dir, name: Name, n: nat)
    requires Shaped(dir) && TidyDir(dir, n) && Legal(name)
    ensures FreeSlot(Retire(dir, name), 0).None? <==>
        forall i :: 0 <= i < SLOTS ==> Named(dir[i]) && !Live(dir[i], name)
  {
    var retired := Retire(dir, name);
    assert forall i :: 0 <= i < SLOTS ==> (Free(retired[i]) <==> !(Named(dir[i]) && !Live(dir[i], name)));
  }

  /** A write finds no slot exactly when its name is new and all 64 entries are taken. */
  lemma FullIff(d: Disk, name: Name)
    requires Inv(d) && Legal(name)
    ensures Room(d, name).None? <==> name !in View(d) && |View(d)| == SLOTS
  {
    AllTakenIff(d);
    FindsNamed(d, name);
    NoSlotIff(DirOf(d), name, |d|);
  }

  // ---- uninterrupted runs ----

  /** When directory and superblock stay and other names keep their values, the map changes at most at `name`. */
  lemma OnlyValueMayChange(d: Disk, d': Disk, name: Name)
    requires Inv(d) && |d'| == |d| && DirOf(d') == DirOf(d) && d'[0] == d[0]
    requires forall n :: Legal(n) && n != name ==> Lookup(d', n) == Lookup(d, n)
    ensures Inv(d') && View(d').Keys == View(d).Keys && View(d') - {name} == View(d) - {name}
  {
    ViewNames(d);
    ViewNames(d');
    forall n | n in View(d) && n != name ensures View(d')[n] == View(d)[n] {
      FindsNamed(d, n);
      FindsNamed(d', n);
    }
    SameBut(View(d), View(d'), name);
  }

  lemma SameBut(m: StoreRefinement.Store, m': StoreRefinement.Store, name: Name)
    requires m'.Keys == m.Keys && forall n :: n in m && n != name ==> m'[n] == m[n]
    ensures m' - {name} == m - {name}
  {
    assert (m' - {name}).Keys == (m - {name}).Keys;
  }

  lemma FailedWrite(d: Disk, name: Name, data: seq<byte>, d': Disk)
    requires Inv(d) && Legal(name) && WriteStep(d, name, data, false, d')
    ensures Inv(d') && View(d').Keys == View(d).Keys && View(d') - {name} == View(d) - {name}
    ensures Room(d, name).Some? ==> !Fits(d, name, data)
  {
    FailedIsMidway(d, name, data, d');
    OthersKeptByWrite(d, d', name, data);
    OnlyValueMayChange(d, d', name);
  }

  lemma OthersKeptByWrite(d: Disk, d': Disk, name: Name, data: seq<byte>)
    requires Tidy(d) && Legal(name) && Midway(d, d', Aim(d, name, data), Target(d, name))
    ensures forall n :: Legal(n) && n != name ==> Lookup(d', n) == Lookup(d, n)
  {
    forall n | Legal(n) && n != name ensures Lookup(d', n) == Lookup(d, n) {
      WriteKeepsOthers(d, d', name, data, n);
    }
  }

  /** One operation keeps the invariant, and does to the map and tells of it what `MapStep` says. */
  lemma StepRefines(d: Disk, op: Op, r: Reply, d': Disk)
    requires Inv(d) && LegalOp(op) && Step(d, op, r, d')
    ensures Inv(d') && MapStep(View(d), op, r, View(d'))
    ensures op.Put? && !r.ok && Room(d, op.name).Some? ==> !Fits(d, op.name, op.data)
  {
    match op
    case Put(n, v) => PutRefines(d, n, v, r.ok, d');
    case Del(n) => DeleteCompletes(d, n, r.ok, d', {});
    case Get(n) => FindsNamed(d, n);
    case Keys => ListIsKeySet(d);
    case Reopen =>
  }

  lemma PutRefines(d: Disk, n: Name, v: seq<byte>, ok: bool, d': Disk)
    requires Inv(d) && Legal(n) && WriteStep(d, n, v, ok, d')
    ensures Inv(d') && MapStep(View(d), Put(n, v), Flag(ok), View(d'))
    ensures !ok && Room(d, n).Some? ==> !Fits(d, n, v)
  {
    FullIff(d, n);
    if ok {
      WriteCompletes(d, n, v, d', {});
    } else {
      FailedWrite(d, n, v, d');
    }
  }

  /** A run: what happened, the device image it left, and what came after. */
  datatype Trace = End | Then(event: Event, after: Disk, rest: Trace)

  /** A completed operation, or one cut off at some sector-write boundary. */
  datatype Event = Done(op: Op, r: Reply) | Cut(op: Op)

  /** An uninterrupted run from d. */
  ghost predicate Run(d: Disk, t: Trace)
    decreases t
  {
    |d| >= DATA_START && match t
    case End => true
    case Then(e, d', rest) => e.Done? && LegalOp(e.op) && Step(d, e.op, e.r, d') && Run(d', rest)
  }

  /** Every state of the run meets the invariant and every step is the map step. */
  ghost predicate Refines(d: Disk, t: Trace)
    requires |d| >= DATA_START
    decreases t
  {
    Inv(d) && match t
    case End => true
    case Then(e, d', rest) =>
      |d'| >= DATA_START && e.Done? && MapStep(View(d), e.op, e.r, View(d')) && Refines(d', rest)
  }

  /** Every run of open, read, write, list and delete refines a map, step by step, from any state with the invariant. */
  lemma {:induction false} RunRefinesMap(d: Disk, t: Trace)
    requires Run(d, t) && Inv(d)
    ensures Refines(d, t)
    decreases t
  {
    match t
    case End =>
    case Then(e, d', rest) =>
      StepRefines(d, e.op, e.r, d');
      RunRefinesMap(d', rest);
  }

  /** Opening a disk that was never formatted gives the empty map. */
  lemma FormatIsEmpty(d: Disk, d': Disk)
    requires DATA_START <= |d| <= MAX_SECTORS && U32At(d[0], 0) != MAGIC && OpenStep(d, d')
    ensures Inv(d') && View(d') == map[]
  {
    var dir := DirOf(d');
    var sb: seq<byte> := d'[0];
    assert sb[0..4] == LE32(MAGIC);
    U32Slice(sb, 0);
    LE32RoundTrip(MAGIC);
    ZeroDirectory(d');
    CountNone(dir, SLOTS);
    assert NameSet(dir) == {};
  }

  lemma ZeroDirectory(d: Disk)
    requires |d| >= DATA_START && forall lba :: 1 <= lba < DATA_START ==> d[lba] == Zeros(SECTOR)
    ensures forall i :: 0 <= i < SLOTS ==> DirOf(d)[i] == Slot(Zeros(20), 0, 0, VALID)
  {
    assert DirBytes(d) == Zeros(2048);
    forall i | 0 <= i < SLOTS ensures DirOf(d)[i] == Slot(Zeros(20), 0, 0, VALID) {
      assert DirOf(d)[i].name == Zeros(20);
    }
  }

  lemma {:induction false} CountNone(dir: Dir, k: nat)
    requires Shaped(dir) && k <= SLOTS && forall i :: 0 <= i < SLOTS ==> !Named(dir[i])
    ensures Count(dir, k) == 0
  {
    if k > 0 {
      CountNone(dir, k - 1);
    }
  }

  // ---- an interrupted format ----

  /** A disk whose next opening gives an empty store: it is formatted again, or its directory names nothing. */
  predicate OpensEmpty(d: Disk)
    requires |d| >= DATA_START
  {
    U32At(d[0], 0) != MAGIC || (TidyDir(DirOf(d), |d|) && forall i :: 0 <= i < SLOTS ==> !Named(DirOf(d)[i]))
  }

  lemma EmptySuperblock(sb: seq<byte>)
    requires sb == EMPTY_STORE
    ensures U32At(sb, 0) == MAGIC && U32At(sb, 8) == 0
  {
    assert sb[0..4] == LE32(MAGIC);
    U32Slice(sb, 0);
    LE32RoundTrip(MAGIC);
  }

  /**
   * After a format of which any sector writes were lost, the next completed opening gives the empty store with the
   * whole invariant exactly when the superblock was lost too, or nothing is named by the directory left behind.
   */
  lemma InterruptedFormatIff(d: Disk, d1: Disk, d2: Disk)
    requires DATA_START <= |d| <= MAX_SECTORS && U32At(d[0], 0) != MAGIC && OpenMidway(d, d1)
    requires |d1| == |d| && OpenStep(d1, d2)
    ensures Inv(d2) && View(d2) == map[] <==> OpensEmpty(d1)
  {
    if U32At(d1[0], 0) != MAGIC {
      FormatIsEmpty(d1, d2);
    } else {
      EmptySuperblock(d1[0]);
      NamesNothing(DirOf(d1));
      if OpensEmpty(d1) {
        CountNone(DirOf(d1), SLOTS);
      }
      if Inv(d2) {
        ViewNames(d2);
      }
    }
  }

  lemma NamesNothing(dir: Dir)
    requires Shaped(dir)
    ensures NameSet(dir) == {} <==> forall i :: 0 <= i < SLOTS ==> !Named(dir[i])
  {
    assert forall i :: 0 <= i < SLOTS && Named(dir[i]) ==> NameOf(dir[i]) in NameSet(dir);
  }

  /** If only the superblock was written, every name of whatever directory was there before is listed. */
  lemma OldDirectoryRevived(d: Disk)
    requires |d| >= DATA_START && U32At(d[0], 0) != MAGIC
    ensures var d1 := d[0 := EMPTY_STORE];
      OpenMidway(d, d1) && OpenStep(d1, d1) && Names(DirOf(d1), SLOTS) == Names(DirOf(d), SLOTS)
  {
    EmptySuperblock(EMPTY_STORE);
    assert DirBytes(d[0 := EMPTY_STORE]) == DirBytes(d);
  }

  /** Runs on a store that was opened empty, however the format before was interrupted. */
  lemma BeliefFromFormat(d: Disk, d1: Disk, d2: Disk, t: Trace)
    requires DATA_START <= |d| <= MAX_SECTORS && U32At(d[0], 0) != MAGIC && OpenMidway(d, d1) && |d1| == |d|
    requires OpensEmpty(d1) && OpenStep(d1, d2) && History(d2, t)
    ensures Agrees(Final(d2, t), LearnAll(Belief(map[], {}), t)) && AllHonest(Belief(map[], {}), t)
  {
    InterruptedFormatIff(d, d1, d2);
    forall n | Legal(n) ensures Lookup(d2, n) == None {
      FindsNamed(d2, n);
    }
    InterruptedRunKeepsBelief(d2, t, Belief(map[], {}));
  }

  // ---- runs with interruptions ----

  ghost predicate Happens(d: Disk, e: Event, d': Disk)
    requires |d| >= DATA_START
  {
    match e
    case Done(op, r) => Step(d, op, r, d')
    case Cut(Put(n, v)) => Midway(d, d', Aim(d, n, v), Target(d, n))
    case Cut(Del(n)) => Midway(d, d', Retire(DirOf(d), n), |d|)
    case Cut(Reopen) => OpenMidway(d, d')
    case Cut(_) => d' == d
  }

  ghost predicate LegalEvent(d: Disk, e: Event, d': Disk) {
    LegalOp(e.op) && |d| >= DATA_START && Happens(d, e, d')
  }

  /** What a client may still rely on: the value of every name that is not in `lost`. */
  datatype Belief = Belief(m: Store, lost: set<Name>)

  function Learn(b: Belief, e: Event): (r: Belief) {
    match e
    case Done(Put(n, v), r) => if r == Flag(true) then Belief(b.m[n := v], b.lost - {n}) else Belief(b.m, b.lost + {n})
    case Done(Del(n), _) => Belief(b.m - {n}, b.lost - {n})
    case Cut(Put(n, _)) => Belief(b.m, b.lost + {n})
    case Cut(Del(n)) => Belief(b.m, b.lost + {n})
    case _ => b
  }

  function Recall(b: Belief, n: Name): (r: Option<seq<byte>>) {
    if n in b.m then Some(b.m[n]) else None
  }

  ghost predicate Agrees(d: Disk, b: Belief) {
    && Tidy(d) && UniqueBut(DirOf(d), b.lost)
    && forall n :: Legal(n) && n !in b.lost ==> Lookup(d, n) == Recall(b, n)
  }

  /** What a read or a list tells is what one may rely on. */
  ghost predicate Honest(b: Belief, e: Event) {
    match e
    case Done(Get(n), r) => n in b.lost || r == Value(Recall(b, n))
    case Done(Keys, r) => r.Listing? && forall n :: Legal(n) && n !in b.lost ==> (n in r.names <==> n in b.m)
    case _ => true
  }

  lemma EventKeepsBelief(d: Disk, e: Event, d': Disk, b: Belief)
    requires Agrees(d, b) && LegalEvent(d, e, d')
    ensures Agrees(d', Learn(b, e)) && Honest(b, e)
  {
    if e.op.Put? || e.op.Del? {
      ChangeKeepsBelief(d, e, d', b);
    } else if e.Done? && e.op.Keys? {
      ListHonest(d, b);
    }
  }

  lemma ChangeKeepsBelief(d: Disk, e: Event, d': Disk, b: Belief)
    requires Agrees(d, b) && (e.op.Put? || e.op.Del?) && LegalEvent(d, e, d')
    ensures Agrees(d', Learn(b, e))
  {
    EventEffect(d, e, d', b.lost);
    assert Learn(b, e).lost == Learn(Belief(map[], b.lost), e).lost;
    forall n | Legal(n) && n !in Learn(b, e).lost ensures Lookup(d', n) == Recall(Learn(b, e), n) {
      Learnt(b, e, n);
    }
  }

  /** What is learnt of one name. */
  lemma Learnt(b: Belief, e: Event, n: Name)
    requires (e.op.Put? || e.op.Del?) && (e.Done? ==> e.r.Flag?) && n !in Learn(b, e).lost
    ensures Learn(b, e).lost == Learn(Belief(map[], b.lost), e).lost
    ensures n != e.op.name ==> n !in b.lost && Recall(Learn(b, e), n) == Recall(b, n)
    ensures n == e.op.name ==> e.Done? && (e.op.Put? ==> e.r.ok)
    ensures n == e.op.name ==> Recall(Learn(b, e), n) == if e.op.Put? then Some(e.op.data) else None
  {
  }

  lemma ListHonest(d: Disk, b: Belief)
    requires Agrees(d, b)
    ensures forall n :: Legal(n) && n !in b.lost ==> (n in Names(DirOf(d), SLOTS) <==> n in b.m)
  {
    forall n | Legal(n) && n !in b.lost ensures n in Names(DirOf(d), SLOTS) <==> n in b.m {
      NamesOfEntries(DirOf(d), SLOTS, n);
      FindsNamed(d, n);
    }
  }

  /** What an event does to the disk: its own name is looked up afresh, all others read as before. */
  lemma EventEffect(d: Disk, e: Event, d': Disk, ex: set<Name>)
    requires Tidy(d) && UniqueBut(DirOf(d), ex) && (e.op.Put? || e.op.Del?) && Legal(e.op.name) && Happens(d, e, d')
    ensures Tidy(d') && UniqueBut(DirOf(d'), Learn(Belief(map[], ex), e).lost)
    ensures e.Done? && e.op.Put? && e.r.ok ==> Lookup(d', e.op.name) == Some(e.op.data)
    ensures e.Done? && e.op.Del? ==> Lookup(d', e.op.name) == None
    ensures forall n :: Legal(n) && n != e.op.name ==> Lookup(d', n) == Lookup(d, n)
  {
    match e
    case Done(Put(n, v), r) =>
      if r.ok {
        WriteCompletes(d, n, v, d', ex);
      } else {
        FailedIsMidway(d, n, v, d');
        CutWrite(d, n, v, d', ex);
      }
    case Cut(Put(n, v)) =>
      CutWrite(d, n, v, d', ex);
    case Done(Del(n), r) =>
      DeleteCompletes(d, n, r.ok, d', ex);
    case Cut(Del(n)) =>
      DeleteKeepsTidy(d, d', n, ex);
      OthersKept(d, d', n);
  }

  lemma CutWrite(d: Disk, name: Name, data: seq<byte>, d': Disk, ex: set<Name>)
    requires Tidy(d) && UniqueBut(DirOf(d), ex) && Legal(name) && Midway(d, d', Aim(d, name, data), Target(d, name))
    ensures Tidy(d') && UniqueBut(DirOf(d'), ex + {name})
    ensures forall n :: Legal(n) && n != name ==> Lookup(d', n) == Lookup(d, n)
  {
    WriteKeepsTidy(d, d', name, data, ex);
    OthersKeptByWrite(d, d', name, data);
  }

  ghost predicate History(d: Disk, t: Trace)
    decreases t
  {
    match t
    case End => true
    case Then(e, d', rest) => LegalEvent(d, e, d') && History(d', rest)
  }

  function LearnAll(b: Belief, t: Trace): (r: Belief)
    decreases t
  {
    match t
    case End => b
    case Then(e, _, rest) => LearnAll(Learn(b, e), rest)
  }

  /** Whatever was read or listed on the way was what one could rely on. */
  ghost predicate AllHonest(b: Belief, t: Trace)
    decreases t
  {
    match t
    case End => true
    case Then(e, _, rest) => Honest(b, e) && AllHonest(Learn(b, e), rest)
  }

  function Final(d: Disk, t: Trace): (r: Disk)
    decreases t
  {
    match t
    case End => d
    case Then(_, d', rest) => Final(d', rest)
  }

  /**
   * Over any run, with operations cut off at any sector-write boundary any number of times, each name whose
   * last operation was not cut off or refused reads back exactly what that operation left, then and on the way.
   */
  lemma {:induction false} InterruptedRunKeepsBelief(d: Disk, t: Trace, b: Belief)
    requires Agrees(d, b) && History(d, t)
    ensures Agrees(Final(d, t), LearnAll(b, t)) && AllHonest(b, t)
    decreases t
  {
    match t
    case End =>
    case Then(e, d', rest) =>
      EventKeepsBelief(d, e, d', b);
      InterruptedRunKeepsBelief(d', rest, Learn(b, e));
  }

  /** After an interrupted write the next completed write of that name restores the whole invariant. */
  lemma RewriteRecovers(d0: Disk, d1: Disk, d2: Disk, name: Name, data: seq<byte>, again: seq<byte>)
    requires Inv(d0) && Legal(name) && Midway(d0, d1, Aim(d0, name, data), Target(d0, name))
    requires |d1| >= DATA_START && WriteStep(d1, name, again, true, d2)
    ensures Inv(d2) && View(d2) == View(d0)[name := again]
  {
    CutWrite(d0, name, data, d1, {});
    WriteCompletes(d1, name, again, d2, {name});
    ViewUpdated(d0, d2, name, Some(again));
  }

  // ---- the operations of the store are these events ----

  /**
   * Whatever becomes of its sector writes an operation leaves and passes through images that the event of cutting it
   * off can leave; if all of them land it is the completed event with its reply.
   */
  method Perform(store: KeyValue.KvStore, op: Op) returns (r: Reply)
    requires |store.blk.sectors| >= DATA_START && LegalOp(op)
    modifies store.blk
    ensures LegalEvent(old(store.blk.sectors), Cut(op), store.blk.sectors)
    ensures old(store.blk.history) <= store.blk.history
    ensures forall k {:trigger store.blk.history[k]} :: old(|store.blk.history|) <= k < |store.blk.history| ==>
      LegalEvent(old(store.blk.sectors), Cut(op), store.blk.history[k])
    ensures old(store.blk.fates) == [] ==>
      store.blk.fates == [] && LegalEvent(old(store.blk.sectors), Done(op, r), store.blk.sectors)
  {
    if op.Put? {
      var ok := store.Write(op.name, op.data);
      r := Flag(ok);
    } else if op.Del? {
      var ok := store.Delete(op.name);
      r := Flag(ok);
    } else if op.Get? {
      var v := store.Read(op.name);
      r := Value(v);
    } else if op.Keys? {
      var ns := store.List();
      r := Listing(ns);
    } else {
      var again := new KeyValue.KvStore.Open(store.blk);
      r := Flag(true);
    }
  }

  // ---- a refused write ----

  function OverrunSector(d: Disk, next: nat, data: seq<byte>, lba: nat): (s: Sector)
    requires lba < |d|
  {
    if lba < DATA_START + next then d[lba] else Chunk(data, lba - DATA_START - next)
  }

  /** A device image after a write that ran out of space. */
  function Overrun(d: Disk, next: nat, data: seq<byte>): (r: Disk)
    ensures |r| == |d|
  {
    seq(|d|, lba requires 0 <= lba < |d| => OverrunSector(d, next, data, lba))
  }

  /** The old entry of `name` lies wholly below the sector a write of it would start at. */
  predicate OldValueSafe(d: Disk, name: Name)
    requires |d| >= DATA_START
  {
    match Find(DirOf(d), name, SLOTS)
    case None => true
    case Some(i) => var s := DirOf(d)[i]; s.size == 0 || s.offset + Sectors(s.size) <= Target(d, name)
  }

  /**
   * A write refused for lack of space leaves the map as it was, whatever the data, exactly when the entry it
   * was to replace is absent, empty, or ends below the sectors the write had started to reuse.
   */
  lemma RefusedWriteHarmlessIff(d: Disk, name: Name)
    requires Inv(d) && Legal(name) && Room(d, name).Some?
    ensures OldValueSafe(d, name) <==>
            forall data, d' :: !Fits(d, name, data) && WriteStep(d, name, data, false, d') ==> View(d') == View(d)
  {
    if OldValueSafe(d, name) {
      forall data, d' | !Fits(d, name, data) && WriteStep(d, name, data, false, d') ensures View(d') == View(d) {
        SafeValueKept(d, name, data, d');
      }
    } else {
      var data, d' := SpoilingWrite(d, name);
      assert View(d') != View(d);
    }
  }

  lemma SafeValueKept(d: Disk, name: Name, data: seq<byte>, d': Disk)
    requires Inv(d) && Legal(name) && Room(d, name).Some? && OldValueSafe(d, name)
    requires WriteStep(d, name, data, false, d')
    ensures View(d') == View(d)
  {
    FailedWrite(d, name, data, d');
    SafeLookup(d, name, data, d');
    FindsNamed(d, name);
    FindsNamed(d', name);
    SameButFor(View(d), View(d'), name);
  }

  lemma SameButFor(m: StoreRefinement.Store, m': StoreRefinement.Store, n: Name)
    requires m.Keys == m'.Keys && m - {n} == m' - {n} && (n in m ==> m[n] == m'[n])
    ensures m == m'
  {
    forall k | k in m ensures m[k] == m'[k] {
      assert k != n ==> (m - {n})[k] == (m' - {n})[k];
    }
  }

  lemma SafeLookup(d: Disk, name: Name, data: seq<byte>, d': Disk)
    requires Inv(d) && OldValueSafe(d, name) && Room(d, name).Some? && WriteStep(d, name, data, false, d')
    ensures Lookup(d', name) == Lookup(d, name)
  {
    FailedIsMidway(d, name, data, d');
    SameDirectory(d, d', name);
    if Find(DirOf(d), name, SLOTS).Some? {
      var s := DirOf(d)[Find(DirOf(d), name, SLOTS).value];
      SafeExtent(d, d', Target(d, name), s);
    }
  }

  lemma SameDirectory(d: Disk, d': Disk, name: Name)
    requires |d| >= DATA_START && |d'| >= DATA_START && DirOf(d') == DirOf(d)
    ensures Lookup(d', name) == match Find(DirOf(d), name, SLOTS)
      case None => None
      case Some(i) => Some(Extent(d', DirOf(d)[i].offset, DirOf(d)[i].size))
  {
  }

  /** An entry below the sectors a write started to reuse. */
  lemma SafeExtent(d: Disk, d': Disk, next: nat, s: Slot)
    requires |d| >= DATA_START && |d'| == |d| && (s.size == 0 || s.offset + Sectors(s.size) <= next)
    requires forall lba :: DATA_START <= lba < DATA_START + next && lba < |d| ==> d'[lba] == d[lba]
    ensures Extent(d', s.offset, s.size) == Extent(d, s.offset, s.size)
  {
    SameExtent(d, d', s.offset, s.size);
  }

  lemma OverrunPutsData(d: Disk, next: nat, data: seq<byte>, n: nat)
    requires |d| >= DATA_START && DATA_START + next + n >= |d|
    ensures DataPut(d, Overrun(d, next, data), next, data, n)
    ensures Overrun(d, next, data)[..DATA_START] == d[..DATA_START]
  {
    var d' := Overrun(d, next, data);
    forall j {:trigger Chunk(data, j)} | 0 <= j < n && DATA_START + next + j < |d|
      ensures d'[DATA_START + next + j] == Chunk(data, j)
    {
      assert OverrunSector(d, next, data, DATA_START + next + j) == Chunk(data, j);
    }
  }

  lemma OverrunIsRefused(d: Disk, name: Name, data: seq<byte>)
    requires Inv(d) && Room(d, name).Some? && Sectors(|data|) == |d| + 1
    ensures !Fits(d, name, data) && WriteStep(d, name, data, false, Overrun(d, Target(d, name), data))
  {
    OverrunPutsData(d, Target(d, name), data, |d| + 1);
  }

  function Other(b: byte, n: nat): (s: seq<byte>)
    ensures |s| == n && forall k :: 0 <= k < n ==> s[k] != b
  {
    seq(n, _ => if b == 0 then 1 else 0)
  }

  /** Data that does not fit and differs from the old value where it overlaps it. */
  lemma SpoilingWrite(d: Disk, name: Name) returns (data: seq<byte>, d': Disk)
    requires Inv(d) && Legal(name) && Room(d, name).Some? && !OldValueSafe(d, name)
    ensures !Fits(d, name, data) && WriteStep(d, name, data, false, d')
    ensures View(d') != View(d)
  {
    var i := Find(DirOf(d), name, SLOTS).value;
    var s, next := DirOf(d)[i], Target(d, name);
    var at := if s.offset < next then next else s.offset;
    data := Other(SectorAt(d, DATA_START + at)[0], (|d| + 1) * SECTOR);
    d' := Overrun(d, next, data);
    OverrunIsRefused(d, name, data);
    FailedIsMidway(d, name, data, d');
    FailedWrite(d, name, data, d');
    FindsNamed(d, name);
    FindsNamed(d', name);
    assert GoodSlot(DirOf(d)[i], |d|);
    DifferAt(d, d', next, data, s, at);
  }

  lemma DifferAt(d: Disk, d': Disk, next: nat, data: seq<byte>, s: Slot, at: nat)
    requires d' == Overrun(d, next, data) && next <= at && s.offset <= at < s.offset + Sectors(s.size)
    requires DATA_START + at < |d|
    requires (at - next) * SECTOR < |data| && forall k :: 0 <= k < |data| ==> data[k] != d[DATA_START + at][0]
    ensures Extent(d', s.offset, s.size) != Extent(d, s.offset, s.size)
  {
    var k := (at - s.offset) * SECTOR;
    assert k / SECTOR == at - s.offset && k % SECTOR == 0;
    assert Extent(d', s.offset, s.size)[k] == Chunk(data, at - next)[0];
  }

  /** A disk on which a refused write spoils the value it was to replace: the only entry is the last one. */
  lemma RefusedWriteCanSpoil(d: Disk, name: Name)
    requires Inv(d) && Legal(name) && name in View(d) && View(d)[name] != [] && View(d).Keys == {name}
    requires forall i :: 0 <= i < SLOTS && DirOf(d)[i].flags == VALID ==>
      Named(DirOf(d)[i]) || DirOf(d)[i].size == 0 == DirOf(d)[i].offset
    ensures Target(d, name) == 0 && !OldValueSafe(d, name)
  {
    FindsNamed(d, name);
    var dir := Retire(DirOf(d), name);
    forall i | 0 <= i < SLOTS && dir[i].flags == VALID ensures dir[i].size == 0 == dir[i].offset {
      if Named(DirOf(d)[i]) {
        OnlyName(d, name, i);
      }
    }
    AllEmpty(dir);
  }

  lemma OnlyName(d: Disk, name: Name, i: nat)
    requires Inv(d) && View(d).Keys == {name} && i < SLOTS && Named(DirOf(d)[i])
    ensures NameOf(DirOf(d)[i]) == name && Retire(DirOf(d), name)[i].flags == DELETED
  {
    ViewNames(d);
    assert NameOf(DirOf(d)[i]) in NameSet(DirOf(d));
  }

  lemma AllEmpty(dir: Dir)
    requires forall i :: 0 <= i < SLOTS && dir[i].flags == VALID ==> dir[i].size == 0 == dir[i].offset
    ensures NextFree(dir, SLOTS) == 0
  {
  }

  const LETTER: Name := [97]

  /** Writing one byte under one name into a fresh store of two data sectors. */
  lemma OneNameStored(d0: Disk, d1: Disk, d2: Disk, ok: bool)
    requires d0 == seq(7, _ => Zeros(SECTOR)) && OpenStep(d0, d1) && WriteStep(d1, LETTER, [1], ok, d2)
    ensures Inv(d2) && View(d2) == map[LETTER := [1]]
    ensures Target(d2, LETTER) == 0 && Room(d2, LETTER).Some? && !OldValueSafe(d2, LETTER)
  {
    FreshStore(d0, d1);
    FirstWrite(d1, d2, ok);
    OneSlotUsed(d1, d2);
    OnlyLetter(d2);
  }

  lemma OnlyLetter(d: Disk)
    requires Inv(d) && Legal(LETTER) && View(d) == map[LETTER := [1]]
    requires forall i :: 0 <= i < SLOTS && DirOf(d)[i].flags == VALID ==>
      Named(DirOf(d)[i]) || DirOf(d)[i].size == 0 == DirOf(d)[i].offset
    ensures Target(d, LETTER) == 0 && !OldValueSafe(d, LETTER)
  {
    RefusedWriteCanSpoil(d, LETTER);
  }

  lemma FirstWrite(d1: Disk, d2: Disk, ok: bool)
    requires Legal(LETTER) && Inv(d1) && View(d1) == map[] && |d1| == 7 && Target(d1, LETTER) == 0
    requires WriteStep(d1, LETTER, [1], ok, d2)
    ensures Inv(d2) && View(d2) == map[LETTER := [1]] && Room(d2, LETTER).Some?
    ensures Room(d1, LETTER).Some? && DirOf(d2) == Written(d1, LETTER, [1])
  {
    PutRefines(d1, LETTER, [1], ok, d2);
    FullIff(d1, LETTER);
    FullIff(d2, LETTER);
  }

  lemma OneSlotUsed(d1: Disk, d2: Disk)
    requires |d1| >= DATA_START && |d2| >= DATA_START && Room(d1, LETTER).Some? && DirOf(d2) == Written(d1, LETTER, [1])
    requires Utf8.Valid(LETTER) && forall i :: 0 <= i < SLOTS ==> DirOf(d1)[i] == Slot(Zeros(20), 0, 0, VALID)
    ensures forall i :: 0 <= i < SLOTS && DirOf(d2)[i].flags == VALID ==>
      Named(DirOf(d2)[i]) || DirOf(d2)[i].size == 0 == DirOf(d2)[i].offset
  {
    NameReadsBack(LETTER, Target(d1, LETTER), 1);
  }

  lemma FreshStore(d0: Disk, d1: Disk)
    requires d0 == seq(7, _ => Zeros(SECTOR)) && OpenStep(d0, d1)
    ensures Legal(LETTER) && Inv(d1) && View(d1) == map[] && |d1| == 7 && Target(d1, LETTER) == 0
    ensures forall i :: 0 <= i < SLOTS ==> DirOf(d1)[i] == Slot(Zeros(20), 0, 0, VALID)
  {
    assert U32At(d0[0], 0) != MAGIC;
    FormatIsEmpty(d0, d1);
    ZeroDirectory(d1);
    assert Utf8.CharLen(LETTER) == 1 && Utf8.Valid(LETTER[1..]);
    AllEmpty(Retire(DirOf(d1), LETTER));
  }

  /** A store that comes about by opening and one write, and that a refused write can spoil. */
  method SpoilableStore() returns (store: KeyValue.KvStore)
    ensures fresh(store) && store.blk.fates == [] && |store.blk.sectors| >= DATA_START
    ensures Inv(store.blk.sectors) && View(store.blk.sectors) == map[LETTER := [1]]
    ensures exists data, d' ::
      WriteStep(store.blk.sectors, LETTER, data, false, d') && View(d') != View(store.blk.sectors)
  {
    var blk := new KeyValue.BlockDevice(seq(7, _ => Zeros(SECTOR)), []);
    ghost var d0 := blk.sectors;
    store := new KeyValue.KvStore.Open(blk);
    ghost var d1 := blk.sectors;
    assert Utf8.CharLen(LETTER) == 1 && Utf8.Valid(LETTER[1..]);
    var ok := store.Write(LETTER, [1]);
    OneNameStored(d0, d1, blk.sectors, ok);
    ghost var data, d' := SpoilingWrite(blk.sectors, LETTER);
  }
}
