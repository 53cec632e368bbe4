/**
 * The receive queue of the network and vsock drivers as interleaved steps of driver and device over shared
 * memory. `try_recv` is cut into its memory accesses, so the device may act between any two of them.
 */
module RxRing {
  import opened Bytes
  import opened Virtqueue

  /** An element of the used ring; ids and lengths stay below 2^32, available entries and indices below 2^16. */
  datatype Used = Used(id: nat, len: nat)

  /** The memory both sides see. */
  datatype Shared = Shared(avail: seq<nat>, availIdx: nat, used: seq<Used>, usedIdx: nat, bufs: seq<seq<byte>>)

  /** Where the driver is inside one call of `try_recv`. */
  datatype Pc =
    | Idle
    | Claimed(id: nat, len: nat)            // used entry read, last_used advanced
    | Copied(id: nat, pkt: seq<byte>)       // packet copied out of the buffer
    | Returned(id: nat, pkt: seq<byte>)     // buffer id stored in the available ring, index not yet

  datatype Driver = Driver(lastUsed: nat, nextAvail: nat, pc: Pc)

  /** What the device has taken and not given back, and used entries it has stored but not published. */
  datatype Device = Device(taken: nat, held: multiset<nat>, staged: seq<Used>)

  /** Unbounded counters and packets, in the order of the used ring. */
  datatype History = History(consumed: nat, offered: nat, delivered: seq<seq<byte>>, received: seq<seq<byte>>)

  datatype Rx = Rx(mem: Shared, drv: Driver, dev: Device, log: History)

  /** Steps of the driver, and of a device that keeps to section 2.6 of VIRTIO 1.1. */
  datatype Step =
    | Poll | CopyOut | GiveBack | PublishAvail
    | Take | Fill(id: nat, data: seq<byte>) | Stage(id: nat, len: nat) | PublishUsed

  function Hand(pc: Pc): (m: multiset<nat>) {
    if pc.Idle? then multiset{} else multiset{pc.id}
  }

  function Ids(us: seq<Used>): (r: seq<nat>)
    ensures |r| == |us| && forall k :: 0 <= k < |us| ==> r[k] == us[k].id
  {
    seq(|us|, k requires 0 <= k < |us| => us[k].id)
  }

  predicate Shape(c: Config, s: Rx) {
    && c.Valid()
    && |s.mem.avail| == |s.mem.used| == c.qs && |s.mem.bufs| == c.n
    && (forall i :: 0 <= i < c.n ==> |s.mem.bufs[i]| == c.size)
    && s.dev.taken <= s.log.offered && s.log.consumed <= |s.log.delivered|
  }

  /** Ids in the available ring that the device has not taken. */
  function PendingAvail(c: Config, s: Rx): (r: seq<nat>)
    requires Shape(c, s)
  {
    Window(s.mem.avail, s.dev.taken, s.log.offered)
  }

  /** Used entries that the driver has not consumed. */
  function PendingUsed(c: Config, s: Rx): (r: seq<Used>)
    requires Shape(c, s)
  {
    Window(s.mem.used, s.log.consumed, |s.log.delivered|)
  }

  /** The buffer ids of every place a buffer can be, once for each place. */
  function Places(avail: seq<nat>, dev: Device, used: seq<Used>, pc: Pc): (m: multiset<nat>) {
    multiset(avail) + dev.held + multiset(Ids(dev.staged)) + multiset(Ids(used)) + Hand(pc)
  }

  function Owners(c: Config, s: Rx): (m: multiset<nat>)
    requires Shape(c, s)
  {
    Places(PendingAvail(c, s), s.dev, PendingUsed(c, s), s.drv.pc)
  }

  /** Counters agree with the history, modulo 2^16 where the driver keeps 16 bits. */
  predicate Counters(c: Config, s: Rx) {
    && s.mem.availIdx == s.drv.nextAvail == s.log.offered % TWO16
    && s.mem.usedIdx == |s.log.delivered| % TWO16
    && s.drv.lastUsed == s.log.consumed % TWO16
    && s.log.offered == s.log.consumed + c.n - (if s.drv.pc.Idle? then 0 else 1)
  }

  /** Used entries lo.. hold what was delivered with them. */
  ghost predicate UsedHold(c: Config, used: seq<Used>, bufs: seq<seq<byte>>, lo: nat, delivered: seq<seq<byte>>)
    requires |used| == c.qs && |bufs| == c.n && c.qs > 0
  {
    forall k :: lo <= k < |delivered| ==> Holds(bufs, used[RingSlot(k, c.qs)], delivered[k])
  }

  predicate Holds(bufs: seq<seq<byte>>, u: Used, pkt: seq<byte>) {
    u.id < |bufs| && u.len <= |bufs[u.id]| && pkt == bufs[u.id][..u.len]
  }

  /** Unpublished entries are in the slots after the published ones. */
  ghost predicate StagedHold(c: Config, used: seq<Used>, at: nat, staged: seq<Used>)
    requires |used| == c.qs && c.qs > 0
  {
    forall k {:trigger staged[k]} :: 0 <= k < |staged| ==>
        staged[k].len <= c.size && used[RingSlot(at + k, c.qs)] == staged[k]
  }

  /** The packet the driver is working on is the last one it consumed. */
  predicate HandHolds(c: Config, s: Rx)
    requires Shape(c, s)
  {
    s.drv.pc.Idle? || (
      && s.log.consumed > 0
      && var pkt := s.log.delivered[s.log.consumed - 1];
      match s.drv.pc
      case Idle => true
      case Claimed(id, len) => Holds(s.mem.bufs, Used(id, len), pkt)
      case Copied(id, p) => p == pkt
      case Returned(id, p) => p == pkt && s.mem.avail[RingSlot(s.log.offered, c.qs)] == id)
  }

  /** What was received is what was delivered, up to the packet in hand. */
  predicate InOrder(s: Rx) {
    s.log.received <= s.log.delivered && |s.log.received| == s.log.consumed - (if s.drv.pc.Idle? then 0 else 1)
  }

  ghost predicate Inv(c: Config, s: Rx) {
    && Shape(c, s) && Counters(c, s) && InOrder(s)
    && Owners(c, s) == multiset(Range(c.n))
    && UsedHold(c, s.mem.used, s.mem.bufs, s.log.consumed, s.log.delivered)
    && StagedHold(c, s.mem.used, |s.log.delivered|, s.dev.staged)
    && HandHolds(c, s)
  }

  predicate Enabled(c: Config, s: Rx, step: Step) {
    match step
    case Poll => s.drv.pc.Idle?
    case CopyOut => s.drv.pc.Claimed?
    case GiveBack => s.drv.pc.Copied?
    case PublishAvail => s.drv.pc.Returned?
    case Take => s.mem.availIdx != s.dev.taken % TWO16
    case Fill(id, data) => id in s.dev.held && |data| == c.size
    case Stage(id, len) => id in s.dev.held && len <= c.size
    case PublishUsed => true
  }

  /** The entry of a ring that a 16-bit counter selects; what lies outside a ring is not modelled. */
  function At<T>(ring: seq<T>, counter: nat, other: T): (x: T) {
    if |ring| == 0 then other else ring[RingSlot(counter, |ring|)]
  }

  function Put<T>(ring: seq<T>, counter: nat, x: T): (r: seq<T>)
    ensures |r| == |ring|
  {
    if |ring| == 0 then ring else ring[RingSlot(counter, |ring|) := x]
  }

  function Packet(bufs: seq<seq<byte>>, u: Used): (r: seq<byte>) {
    if u.id < |bufs| && u.len <= |bufs[u.id]| then bufs[u.id][..u.len] else []
  }

  function Packets(bufs: seq<seq<byte>>, us: seq<Used>): (r: seq<seq<byte>>)
    ensures |r| == |us|
  {
    seq(|us|, k requires 0 <= k < |us| => Packet(bufs, us[k]))
  }

  // ---- the driver: the four parts of `try_recv` ----

  function DoPoll(s: Rx): (r: Rx) {
    if s.mem.usedIdx == s.drv.lastUsed then s
    else
      var u := At(s.mem.used, s.drv.lastUsed, Used(0, 0));
      s.(drv := Driver((s.drv.lastUsed + 1) % TWO16, s.drv.nextAvail, Claimed(u.id, u.len)),
         log := s.log.(consumed := s.log.consumed + 1))
  }

  function DoCopyOut(s: Rx): (r: Rx)
    requires s.drv.pc.Claimed?
  {
    s.(drv := s.drv.(pc := Copied(s.drv.pc.id, Packet(s.mem.bufs, Used(s.drv.pc.id, s.drv.pc.len)))))
  }

  function DoGiveBack(s: Rx): (r: Rx)
    requires s.drv.pc.Copied?
  {
    s.(mem := s.mem.(avail := Put(s.mem.avail, s.drv.nextAvail, s.drv.pc.id)),
       drv := s.drv.(pc := Returned(s.drv.pc.id, s.drv.pc.pkt)))
  }

  function DoPublishAvail(s: Rx): (r: Rx)
    requires s.drv.pc.Returned?
  {
    var next := (s.drv.nextAvail + 1) % TWO16;
    s.(mem := s.mem.(availIdx := next), drv := s.drv.(nextAvail := next, pc := Idle),
       log := s.log.(offered := s.log.offered + 1, received := s.log.received + [s.drv.pc.pkt]))
  }

  // ---- the device ----

  function DoTake(s: Rx): (r: Rx) {
    var id := At(s.mem.avail, s.dev.taken, 0);
    s.(dev := Device(s.dev.taken + 1, s.dev.held + multiset{id}, s.dev.staged))
  }

  function DoFill(s: Rx, id: nat, data: seq<byte>): (r: Rx) {
    if id < |s.mem.bufs| then s.(mem := s.mem.(bufs := s.mem.bufs[id := data])) else s
  }

  function DoStage(s: Rx, id: nat, len: nat): (r: Rx) {
    var u := Used(id, len);
    s.(mem := s.mem.(used := Put(s.mem.used, |s.log.delivered| + |s.dev.staged|, u)),
       dev := Device(s.dev.taken, s.dev.held - multiset{id}, s.dev.staged + [u]))
  }

  function DoPublishUsed(s: Rx): (r: Rx) {
    s.(mem := s.mem.(usedIdx := (|s.log.delivered| + |s.dev.staged|) % TWO16),
       dev := Device(s.dev.taken, s.dev.held, []),
       log := s.log.(delivered := s.log.delivered + Packets(s.mem.bufs, s.dev.staged)))
  }

  function Apply(c: Config, s: Rx, step: Step): (r: Rx)
    requires Enabled(c, s, step)
  {
    match step
    case Poll => DoPoll(s)
    case CopyOut => DoCopyOut(s)
    case GiveBack => DoGiveBack(s)
    case PublishAvail => DoPublishAvail(s)
    case Take => DoTake(s)
    case Fill(id, data) => DoFill(s, id, data)
    case Stage(id, len) => DoStage(s, id, len)
    case PublishUsed => DoPublishUsed(s)
  }

  // ---- one buffer, one owner ----

  /** A buffer the device holds is in no other place. */
  lemma HeldIsAlone(avail: seq<nat>, dev: Device, used: seq<Used>, pc: Pc, n: nat, id: nat)
    requires Places(avail, dev, used, pc) == multiset(Range(n)) && id in dev.held
    ensures id < n && id !in avail && id !in Hand(pc)
    ensures forall k :: 0 <= k < |used| ==> used[k].id != id
    ensures forall k :: 0 <= k < |dev.staged| ==> dev.staged[k].id != id
  {
    RangeOnce(n, id);
    var a, st, u := multiset(avail), multiset(Ids(dev.staged)), multiset(Ids(used));
    assert Places(avail, dev, used, pc)[id] == a[id] + dev.held[id] + st[id] + u[id] + Hand(pc)[id];
    forall k | 0 <= k < |used| ensures used[k].id != id {
      assert Ids(used)[k] in u;
    }
    forall k | 0 <= k < |dev.staged| ensures dev.staged[k].id != id {
      assert Ids(dev.staged)[k] in st;
    }
  }

  /** Every id anywhere names a buffer. */
  lemma AllAreBuffers(avail: seq<nat>, dev: Device, used: seq<Used>, pc: Pc, n: nat)
    requires Places(avail, dev, used, pc) == multiset(Range(n))
    ensures forall k :: 0 <= k < |dev.staged| ==> dev.staged[k].id < n
    ensures forall k :: 0 <= k < |avail| ==> avail[k] < n
    ensures !pc.Idle? ==> pc.id < n
  {
    var all := Places(avail, dev, used, pc);
    forall id | id in all ensures id < n {
      RangeOnce(n, id);
    }
    forall k | 0 <= k < |dev.staged| ensures dev.staged[k].id < n {
      assert Ids(dev.staged)[k] in multiset(Ids(dev.staged));
      assert Ids(dev.staged)[k] in all;
    }
    forall k | 0 <= k < |avail| ensures avail[k] < n {
      assert avail[k] in multiset(avail);
      assert avail[k] in all;
    }
    if !pc.Idle? {
      assert pc.id in Hand(pc);
      assert pc.id in all;
    }
  }

  /** No ring is ever asked to hold more than its entries. */
  lemma PlacesBounded(avail: seq<nat>, dev: Device, used: seq<Used>, pc: Pc, n: nat)
    requires Places(avail, dev, used, pc) == multiset(Range(n))
    ensures |avail| + |dev.held| + |dev.staged| + |used| + |Hand(pc)| == n
  {
    assert |multiset(Range(n))| == n;
    assert |multiset(Ids(dev.staged))| == |dev.staged| && |multiset(Ids(used))| == |used|;
  }

  lemma StageMoves(avail: seq<nat>, dev: Device, used: seq<Used>, pc: Pc, u: Used)
    requires u.id in dev.held
    ensures Places(avail, Device(dev.taken, dev.held - multiset{u.id}, dev.staged + [u]), used, pc)
        == Places(avail, dev, used, pc)
  {
    IdsAppend(dev.staged, [u]);
    assert multiset(Ids(dev.staged) + [u.id]) == multiset(Ids(dev.staged)) + multiset{u.id};
  }

  lemma IdsAppend(a: seq<Used>, b: seq<Used>)
    ensures Ids(a + b) == Ids(a) + Ids(b)
  {
  }

  // ---- what one step does to each part of the invariant ----

  /** A slot about to be written is none of the live ones. */
  lemma SlotsApart(lo: nat, at: nat, qs: nat)
    requires lo <= at < lo + qs
    ensures forall k :: lo <= k < at ==> RingSlot(k, qs) != RingSlot(at, qs)
  {
    forall k | lo <= k < at ensures RingSlot(k, qs) != RingSlot(at, qs) {
      DistinctSlots(k, at, qs);
    }
  }

  lemma WindowKept<T>(ring: seq<T>, lo: nat, hi: nat, at: nat, x: T)
    requires |ring| > 0 && lo <= hi <= at < lo + |ring|
    ensures Window(ring[RingSlot(at, |ring|) := x], lo, hi) == Window(ring, lo, hi)
  {
    SlotsApart(lo, at, |ring|);
  }

  lemma UsedPops(avail: seq<nat>, dev: Device, used: seq<Used>, lo: nat, hi: nat)
    requires |used| > 0 && lo < hi
    ensures var u := used[RingSlot(lo, |used|)];
      Places(avail, dev, Window(used, lo + 1, hi), Claimed(u.id, u.len))
          == Places(avail, dev, Window(used, lo, hi), Idle)
  {
    WindowPop(used, lo, hi);
    IdsAppend([used[RingSlot(lo, |used|)]], Window(used, lo + 1, hi));
  }

  lemma AvailPushes(avail: seq<nat>, lo: nat, hi: nat, dev: Device, used: seq<Used>, id: nat, pkt: seq<byte>)
    requires |avail| > 0 && lo <= hi && avail[RingSlot(hi, |avail|)] == id
    ensures Places(Window(avail, lo, hi + 1), dev, used, Idle)
        == Places(Window(avail, lo, hi), dev, used, Returned(id, pkt))
  {
    assert Window(avail, lo, hi + 1) == Window(avail, lo, hi) + [id];
  }

  lemma AvailPops(avail: seq<nat>, lo: nat, hi: nat, dev: Device, used: seq<Used>, pc: Pc)
    requires |avail| > 0 && lo < hi
    ensures Places(Window(avail, lo + 1, hi),
        Device(lo + 1, dev.held + multiset{avail[RingSlot(lo, |avail|)]}, dev.staged), used, pc)
         == Places(Window(avail, lo, hi), dev, used, pc)
  {
    WindowPop(avail, lo, hi);
  }

  lemma Regroup(a: multiset<nat>, u: multiset<nat>, st: multiset<nat>, h: multiset<nat>)
    ensures a + multiset{} + (u + st) + h == a + st + u + h
  {
  }

  lemma WindowGrows<T>(ring: seq<T>, lo: nat, hi: nat, xs: seq<T>)
    requires |ring| > 0 && lo <= hi
    requires forall k {:trigger xs[k]} :: 0 <= k < |xs| ==> ring[RingSlot(hi + k, |ring|)] == xs[k]
    ensures Window(ring, lo, hi + |xs|) == Window(ring, lo, hi) + xs
  {
    forall j | 0 <= j < |xs| ensures Window(ring, lo, hi + |xs|)[hi - lo + j] == xs[j] {
      assert lo + (hi - lo + j) == hi + j;
    }
  }

  lemma UsedGrows(avail: seq<nat>, dev: Device, used: seq<Used>, lo: nat, hi: nat, pc: Pc)
    requires |used| > 0 && lo <= hi
    requires forall k {:trigger dev.staged[k]} :: 0 <= k < |dev.staged| ==>
        used[RingSlot(hi + k, |used|)] == dev.staged[k]
    ensures Places(avail, Device(dev.taken, dev.held, []), Window(used, lo, hi + |dev.staged|), pc)
        == Places(avail, dev, Window(used, lo, hi), pc)
  {
    WindowGrows(used, lo, hi, dev.staged);
    StagedToUsed(avail, dev, Window(used, lo, hi), pc);
  }

  lemma StagedToUsed(avail: seq<nat>, dev: Device, w: seq<Used>, pc: Pc)
    ensures Places(avail, Device(dev.taken, dev.held, []), w + dev.staged, pc) == Places(avail, dev, w, pc)
  {
    IdsAppend(w, dev.staged);
    assert multiset(Ids(w) + Ids(dev.staged)) == multiset(Ids(w)) + multiset(Ids(dev.staged));
    assert Ids([]) == [];
    Regroup(multiset(avail) + dev.held, multiset(Ids(w)), multiset(Ids(dev.staged)), Hand(pc));
  }

  lemma StagedPuts(c: Config, used: seq<Used>, bufs: seq<seq<byte>>, lo: nat, delivered: seq<seq<byte>>,
      staged: seq<Used>, u: Used)
    requires c.Valid() && |used| == c.qs && |bufs| == c.n && u.len <= c.size && lo <= |delivered|
    requires UsedHold(c, used, bufs, lo, delivered) && StagedHold(c, used, |delivered|, staged)
    requires |delivered| + |staged| < lo + c.qs
    ensures var r := Put(used, |delivered| + |staged|, u);
      UsedHold(c, r, bufs, lo, delivered) && StagedHold(c, r, |delivered|, staged + [u])
  {
    SlotsApart(lo, |delivered| + |staged|, c.qs);
  }

  lemma FillHolds(c: Config, used: seq<Used>, bufs: seq<seq<byte>>, lo: nat, delivered: seq<seq<byte>>, id: nat,
      data: seq<byte>)
    requires c.Valid() && |used| == c.qs && |bufs| == c.n && id < c.n && lo <= |delivered|
    requires UsedHold(c, used, bufs, lo, delivered)
    requires forall k :: 0 <= k < |delivered| - lo ==> Window(used, lo, |delivered|)[k].id != id
    ensures UsedHold(c, used, bufs[id := data], lo, delivered)
  {
    forall k | lo <= k < |delivered| ensures Holds(bufs[id := data], used[RingSlot(k, c.qs)], delivered[k]) {
      assert Window(used, lo, |delivered|)[k - lo].id != id;
    }
  }

  lemma PublishHolds(c: Config, used: seq<Used>, bufs: seq<seq<byte>>, lo: nat, delivered: seq<seq<byte>>,
      staged: seq<Used>)
    requires c.Valid() && |used| == c.qs && |bufs| == c.n
    requires UsedHold(c, used, bufs, lo, delivered) && StagedHold(c, used, |delivered|, staged)
    requires forall k :: 0 <= k < |staged| ==> staged[k].id < c.n && |bufs[staged[k].id]| == c.size
    ensures UsedHold(c, used, bufs, lo, delivered + Packets(bufs, staged))
  {
    var u, all := |delivered|, delivered + Packets(bufs, staged);
    forall k | lo <= k < |all| ensures Holds(bufs, used[RingSlot(k, c.qs)], all[k]) {
      if k >= u {
        assert used[RingSlot(u + (k - u), c.qs)] == staged[k - u];
      }
    }
  }

  // ---- every step keeps the invariant ----

  /** The rings never hold more entries than there are buffers. */
  lemma Bounded(c: Config, s: Rx)
    requires Inv(c, s)
    ensures s.log.offered - s.dev.taken + |s.dev.held| + |s.dev.staged| + |s.log.delivered| - s.log.consumed
         == c.n - (if s.drv.pc.Idle? then 0 else 1)
  {
    PlacesBounded(PendingAvail(c, s), s.dev, PendingUsed(c, s), s.drv.pc, c.n);
  }

  lemma PollKeepsInv(c: Config, s: Rx)
    requires Inv(c, s) && Enabled(c, s, Poll)
    ensures Inv(c, DoPoll(s))
  {
    var k := s.log.consumed;
    if s.mem.usedIdx != s.drv.lastUsed {
      WrappedSlot(k, c.qs);
      Advance(k, 1);
      UsedPops(PendingAvail(c, s), s.dev, s.mem.used, k, |s.log.delivered|);
      assert PendingAvail(c, DoPoll(s)) == PendingAvail(c, s);
      assert Owners(c, DoPoll(s)) == Owners(c, s);
      assert Holds(s.mem.bufs, s.mem.used[RingSlot(k, c.qs)], s.log.delivered[k]);
    }
  }

  lemma CopyOutKeepsInv(c: Config, s: Rx)
    requires Inv(c, s) && Enabled(c, s, CopyOut)
    ensures Inv(c, DoCopyOut(s))
  {
  }

  lemma GiveBackKeepsInv(c: Config, s: Rx)
    requires Inv(c, s) && Enabled(c, s, GiveBack)
    ensures Inv(c, DoGiveBack(s))
  {
    Bounded(c, s);
    WrappedSlot(s.log.offered, c.qs);
    WindowKept(s.mem.avail, s.dev.taken, s.log.offered, s.log.offered, s.drv.pc.id);
  }

  lemma PublishAvailKeepsInv(c: Config, s: Rx)
    requires Inv(c, s) && Enabled(c, s, PublishAvail)
    ensures Inv(c, DoPublishAvail(s))
  {
    Advance(s.log.offered, 1);
    AvailPushes(s.mem.avail, s.dev.taken, s.log.offered, s.dev, PendingUsed(c, s), s.drv.pc.id, s.drv.pc.pkt);
    assert s.log.received + [s.drv.pc.pkt] == s.log.delivered[..s.log.consumed];
  }

  lemma TakeKeepsOwners(c: Config, s: Rx)
    requires Shape(c, s) && s.dev.taken < s.log.offered
    ensures Shape(c, DoTake(s)) && Owners(c, DoTake(s)) == Owners(c, s)
  {
    AvailPops(s.mem.avail, s.dev.taken, s.log.offered, s.dev, PendingUsed(c, s), s.drv.pc);
    assert PendingAvail(c, DoTake(s)) == Window(s.mem.avail, s.dev.taken + 1, s.log.offered);
    assert PendingUsed(c, DoTake(s)) == PendingUsed(c, s);
  }

  lemma TakeKeepsInv(c: Config, s: Rx)
    requires Inv(c, s) && Enabled(c, s, Take)
    ensures Inv(c, DoTake(s))
  {
    TakeKeepsOwners(c, s);
  }

  lemma FillKeepsInv(c: Config, s: Rx, id: nat, data: seq<byte>)
    requires Inv(c, s) && Enabled(c, s, Fill(id, data))
    ensures Inv(c, DoFill(s, id, data))
  {
    HeldIsAlone(PendingAvail(c, s), s.dev, PendingUsed(c, s), s.drv.pc, c.n, id);
    FillHolds(c, s.mem.used, s.mem.bufs, s.log.consumed, s.log.delivered, id, data);
    assert Owners(c, DoFill(s, id, data)) == Owners(c, s);
  }

  lemma StageKeepsInv(c: Config, s: Rx, id: nat, len: nat)
    requires Inv(c, s) && Enabled(c, s, Stage(id, len))
    ensures Inv(c, DoStage(s, id, len))
  {
    Bounded(c, s);
    assert |s.dev.held| > 0;
    var at := |s.log.delivered| + |s.dev.staged|;
    StagedPuts(c, s.mem.used, s.mem.bufs, s.log.consumed, s.log.delivered, s.dev.staged, Used(id, len));
    WindowKept(s.mem.used, s.log.consumed, |s.log.delivered|, at, Used(id, len));
    StageMoves(PendingAvail(c, s), s.dev, PendingUsed(c, s), s.drv.pc, Used(id, len));
    assert PendingUsed(c, DoStage(s, id, len)) == PendingUsed(c, s);
    assert PendingAvail(c, DoStage(s, id, len)) == PendingAvail(c, s);
    assert Owners(c, DoStage(s, id, len)) == Owners(c, s);
  }

  lemma PublishKeepsOwners(c: Config, s: Rx)
    requires Shape(c, s) && StagedHold(c, s.mem.used, |s.log.delivered|, s.dev.staged)
    ensures Shape(c, DoPublishUsed(s)) && Owners(c, DoPublishUsed(s)) == Owners(c, s)
  {
    UsedGrows(PendingAvail(c, s), s.dev, s.mem.used, s.log.consumed, |s.log.delivered|, s.drv.pc);
    assert PendingUsed(c, DoPublishUsed(s)) == Window(s.mem.used, s.log.consumed, |s.log.delivered| + |s.dev.staged|);
    assert PendingAvail(c, DoPublishUsed(s)) == PendingAvail(c, s);
  }

  lemma PublishUsedKeepsInv(c: Config, s: Rx)
    requires Inv(c, s)
    ensures Inv(c, DoPublishUsed(s))
  {
    AllAreBuffers(PendingAvail(c, s), s.dev, PendingUsed(c, s), s.drv.pc, c.n);
    PublishHolds(c, s.mem.used, s.mem.bufs, s.log.consumed, s.log.delivered, s.dev.staged);
    PublishKeepsOwners(c, s);
  }

  lemma StepKeepsInv(c: Config, s: Rx, step: Step)
    requires Inv(c, s) && Enabled(c, s, step)
    ensures Inv(c, Apply(c, s, step))
  {
    match step
    case Poll => PollKeepsInv(c, s);
    case CopyOut => CopyOutKeepsInv(c, s);
    case GiveBack => GiveBackKeepsInv(c, s);
    case PublishAvail => PublishAvailKeepsInv(c, s);
    case Take => TakeKeepsInv(c, s);
    case Fill(id, data) => FillKeepsInv(c, s, id, data);
    case Stage(id, len) => StageKeepsInv(c, s, id, len);
    case PublishUsed => PublishUsedKeepsInv(c, s);
  }

  // ---- runs ----

  /** The ring `init` sets up: entries 0 to n - 1 offer the n buffers. */
  function FirstAvail(c: Config, was: seq<nat>): (r: seq<nat>)
    requires |was| == c.qs
    ensures |r| == c.qs
  {
    seq(c.qs, i requires 0 <= i < c.qs => if i < c.n then i else was[i])
  }

  /** State after `init`. */
  function Init(c: Config, avail: seq<nat>, used: seq<Used>, bufs: seq<seq<byte>>): (s: Rx)
    requires |avail| == c.qs
  {
    Rx(Shared(FirstAvail(c, avail), c.n, used, 0, bufs), Driver(0, c.n, Idle), Device(0, multiset{}, []),
        History(0, c.n, [], []))
  }

  lemma InitInv(c: Config, avail: seq<nat>, used: seq<Used>, bufs: seq<seq<byte>>)
    requires c.Valid() && |avail| == |used| == c.qs && |bufs| == c.n && forall i :: 0 <= i < c.n ==> |bufs[i]| == c.size
    ensures Inv(c, Init(c, avail, used, bufs))
  {
    var s := Init(c, avail, used, bufs);
    SlotBelow(c.qs);
    assert PendingAvail(c, s) == Range(c.n);
    assert PendingUsed(c, s) == [] && Ids([]) == [];
  }

  lemma SlotBelow(qs: nat)
    requires qs > 0
    ensures forall k :: 0 <= k < qs ==> RingSlot(k, qs) == k
  {
  }

  /** Every step of the run is enabled where it happens. */
  predicate Runs(c: Config, s: Rx, steps: seq<Step>)
    decreases |steps|
  {
    steps == [] || (Enabled(c, s, steps[0]) && Runs(c, Apply(c, s, steps[0]), steps[1..]))
  }

  function After(c: Config, s: Rx, steps: seq<Step>): (r: Rx)
    requires Runs(c, s, steps)
    decreases |steps|
  {
    if steps == [] then s else After(c, Apply(c, s, steps[0]), steps[1..])
  }

  lemma {:induction false} RunKeepsInv(c: Config, s: Rx, steps: seq<Step>)
    requires Inv(c, s) && Runs(c, s, steps)
    ensures Inv(c, After(c, s, steps))
    decreases |steps|
  {
    if steps != [] {
      StepKeepsInv(c, s, steps[0]);
      RunKeepsInv(c, Apply(c, s, steps[0]), steps[1..]);
    }
  }

  /**
   * In every reachable state of every interleaving each buffer id is in exactly one place: offered and not
   * taken, with the device, staged, used and not consumed, or in the driver's hand.
   */
  lemma BufferConservation(c: Config, avail: seq<nat>, used: seq<Used>, bufs: seq<seq<byte>>, steps: seq<Step>, id: nat)
    requires c.Valid() && |avail| == |used| == c.qs && |bufs| == c.n && forall i :: 0 <= i < c.n ==> |bufs[i]| == c.size
    requires Runs(c, Init(c, avail, used, bufs), steps) && id < c.n
    ensures var s := After(c, Init(c, avail, used, bufs), steps);
      && Shape(c, s)
      && multiset(PendingAvail(c, s))[id] + s.dev.held[id] + multiset(Ids(s.dev.staged))[id]
         + multiset(Ids(PendingUsed(c, s)))[id] + Hand(s.drv.pc)[id] == 1
  {
    InitInv(c, avail, used, bufs);
    RunKeepsInv(c, Init(c, avail, used, bufs), steps);
    var s := After(c, Init(c, avail, used, bufs), steps);
    RangeOnce(c.n, id);
    assert Owners(c, s)[id] == 1;
  }

  predicate FirstInFirstOut(c: Config, s: Rx) {
    && s.log.received <= s.log.delivered
    && (s.drv.pc.Idle? ==>
          && |s.log.received| == s.log.consumed
          && s.drv.nextAvail == (s.drv.lastUsed + c.n) % TWO16
          && (s.mem.usedIdx == s.drv.lastUsed <==> s.log.received == s.log.delivered))
  }

  /**
   * In every reachable state the packets received are a prefix of those delivered, bytes and order; between
   * calls all consumed packets were received, the two 16-bit counters differ by the number of buffers, and
   * an empty poll means that nothing delivered is outstanding.
   */
  lemma ReceivedInOrder(c: Config, avail: seq<nat>, used: seq<Used>, bufs: seq<seq<byte>>, steps: seq<Step>)
    requires c.Valid() && |avail| == |used| == c.qs && |bufs| == c.n && forall i :: 0 <= i < c.n ==> |bufs[i]| == c.size
    requires Runs(c, Init(c, avail, used, bufs), steps)
    ensures FirstInFirstOut(c, After(c, Init(c, avail, used, bufs), steps))
  {
    InitInv(c, avail, used, bufs);
    RunInOrder(c, Init(c, avail, used, bufs), steps);
  }

  lemma RunInOrder(c: Config, s: Rx, steps: seq<Step>)
    requires Inv(c, s) && Runs(c, s, steps)
    ensures FirstInFirstOut(c, After(c, s, steps))
  {
    RunKeepsInv(c, s, steps);
    InvInOrder(c, After(c, s, steps));
  }

  lemma InvInOrder(c: Config, s: Rx)
    requires Inv(c, s)
    ensures FirstInFirstOut(c, s)
  {
    Bounded(c, s);
    Advance(s.log.consumed, c.n);
    if s.drv.pc.Idle? && s.mem.usedIdx == s.drv.lastUsed {
      SameCount(s.log.consumed, |s.log.delivered|);
    }
  }

  // ---- reachable states ----

  lemma {:induction false} RunGrows(c: Config, s: Rx, steps: seq<Step>, step: Step)
    requires Runs(c, s, steps) && Enabled(c, After(c, s, steps), step)
    ensures Runs(c, s, steps + [step]) && After(c, s, steps + [step]) == Apply(c, After(c, s, steps), step)
    decreases |steps|
  {
    if steps == [] {
      assert [] + [step] == [step] && [step][1..] == [];
      assert Runs(c, Apply(c, s, step), []);
    } else {
      assert (steps + [step])[1..] == steps[1..] + [step];
      RunGrows(c, Apply(c, s, steps[0]), steps[1..], step);
    }
  }

  predicate Starts(c: Config, avail: seq<nat>, used: seq<Used>, bufs: seq<seq<byte>>) {
    c.Valid() && |avail| == |used| == c.qs && |bufs| == c.n && forall i :: 0 <= i < c.n ==> |bufs[i]| == c.size
  }

  /** Some interleaving leads from initialisation to s. */
  ghost predicate Reachable(c: Config, s: Rx) {
    exists avail, used, bufs, steps ::
      Starts(c, avail, used, bufs) && Runs(c, Init(c, avail, used, bufs), steps)
          && After(c, Init(c, avail, used, bufs), steps) == s
  }

  lemma InitReachable(c: Config, avail: seq<nat>, used: seq<Used>, bufs: seq<seq<byte>>)
    requires Starts(c, avail, used, bufs)
    ensures Reachable(c, Init(c, avail, used, bufs))
  {
    assert Runs(c, Init(c, avail, used, bufs), [])
        && After(c, Init(c, avail, used, bufs), []) == Init(c, avail, used, bufs);
  }

  lemma StepReachable(c: Config, s: Rx, step: Step)
    requires Reachable(c, s) && Enabled(c, s, step)
    ensures Reachable(c, Apply(c, s, step))
  {
    var avail, used, bufs, steps :|
      Starts(c, avail, used, bufs) && Runs(c, Init(c, avail, used, bufs), steps)
          && After(c, Init(c, avail, used, bufs), steps) == s;
    RunGrows(c, Init(c, avail, used, bufs), steps, step);
  }

  /** The buffer in hand exists, and the bytes of it that count. */
  predicate HandFits(c: Config, s: Rx) {
    match s.drv.pc
    case Idle => true
    case Claimed(id, len) => id < c.n && len <= c.size
    case Copied(id, _) => id < c.n
    case Returned(id, _) => id < c.n
  }

  /** What every reachable state gives the driver: its counters, buffers that exist, packets in order. */
  lemma ReachableSound(c: Config, s: Rx)
    requires Reachable(c, s)
    ensures Shape(c, s) && HandFits(c, s) && s.log.received <= s.log.delivered
    ensures s.mem.usedIdx == |s.log.delivered| % TWO16
    ensures forall id :: id in s.dev.held ==> id < c.n
  {
    var avail, used, bufs, steps :|
      Starts(c, avail, used, bufs) && Runs(c, Init(c, avail, used, bufs), steps)
          && After(c, Init(c, avail, used, bufs), steps) == s;
    InitInv(c, avail, used, bufs);
    RunKeepsInv(c, Init(c, avail, used, bufs), steps);
    OwnersExist(c, s);
  }

  lemma ReachableInOrder(c: Config, s: Rx)
    requires Reachable(c, s)
    ensures FirstInFirstOut(c, s)
  {
    var avail, used, bufs, steps :|
      Starts(c, avail, used, bufs) && Runs(c, Init(c, avail, used, bufs), steps)
          && After(c, Init(c, avail, used, bufs), steps) == s;
    ReceivedInOrder(c, avail, used, bufs, steps);
  }

  lemma {:induction false} RangeHolds(n: nat, id: nat)
    ensures id in multiset(Range(n)) ==> id < n
  {
    RangeOnce(n, id);
  }

  lemma OwnersExist(c: Config, s: Rx)
    requires Inv(c, s)
    ensures HandFits(c, s) && forall id :: id in s.dev.held ==> id < c.n
  {
    forall id | id in s.dev.held || id in Hand(s.drv.pc) ensures id < c.n {
      assert id in Owners(c, s);
      RangeHolds(c.n, id);
    }
    if !s.drv.pc.Idle? {
      assert s.drv.pc.id in Hand(s.drv.pc);
    }
  }
}
