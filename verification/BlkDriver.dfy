/**
 * The block driver over the bytes of its queue memory and of the three buffers the chain of its last call points at,
 * with the device working in the same memory. Every call is a run of the step machine of BlkRequest.
 */
module BlkDriver {
  import opened Bytes
  import opened Virtqueue
  import opened Directory
  import opened BlkRequest
  import opened RingMemory

  const F_NEXT := 1
  const F_WRITE := 2
  const T_IN := 0
  const T_OUT := 1
  const POLL_LIMIT := 10_000_000

  // ---- the chain ----

  function Asked(reqType: u32, lba: nat, data: Sector): (req: Req) {
    if reqType == T_IN then In(lba) else Out(lba, data)
  }

  function TypeOf(req: Req): (t: u32) {
    if req.In? then T_IN else T_OUT
  }

  function HeaderBytes(req: Req): (b: seq<byte>)
    requires req.lba < TWO64
    ensures |b| == 16
  {
    LE32(TypeOf(req)) + (LE32(0) + LE64(req.lba))
  }

  function DataFlags(req: Req): (f: u16) {
    if req.In? then F_NEXT + F_WRITE else F_NEXT
  }

  /** The descriptors a request is offered with: the device writes the buffer of a read, and every status. */
  function ChainBytes(req: Req, p: Place): (b: seq<byte>)
    requires p.Valid()
    ensures |b| == 48
  {
    DescBytes(RawDesc(p.hdr, 16, F_NEXT, 1))
    + (DescBytes(RawDesc(p.buf, SECTOR, DataFlags(req), 2)) + DescBytes(RawDesc(p.sts, 1, F_WRITE, 0)))
  }

  /**
   * What the device makes of the chain at `head`: header, data and status where the driver said, with flags that
   * let it write exactly what the request wants written. Anything else is no request.
   */
  function Followed(mem: seq<byte>, qs: nat, head: nat, p: Place, hdr: seq<byte>, buf: Sector): (r: Option<Req>)
    requires 16 * qs <= |mem| && |hdr| == 16
  {
    if head >= qs then None
    else
      var d := DescAt(mem, head);
      if d.(next := 0) != RawDesc(p.hdr, 16, F_NEXT, 0) || d.next >= qs then None
      else
        var e := DescAt(mem, d.next);
        if e.addr != p.buf || e.len != SECTOR || e.next >= qs
            || DescAt(mem, e.next).(next := 0) != RawDesc(p.sts, 1, F_WRITE, 0) then None
        else if U32At(hdr, 0) == T_IN && e.flags == F_NEXT + F_WRITE then Some(In(U64At(hdr, 8)))
        else if U32At(hdr, 0) == T_OUT && e.flags == F_NEXT then Some(Out(U64At(hdr, 8), buf))
        else None
  }

  lemma HeaderReads(hdr: seq<byte>, req: Req)
    requires req.lba < TWO64 && hdr == HeaderBytes(req)
    ensures U32At(hdr, 0) == TypeOf(req) && U32At(hdr, 4) == 0 && U64At(hdr, 8) == req.lba
  {
    var a, b, c := LE32(TypeOf(req)), LE32(0), LE64(req.lba);
    assert At(hdr, 0, a + (b + c));
    AtSplits(hdr, 0, a, b + c);
    AtSplits(hdr, 4, b, c);
    U32Reads(hdr, 0, TypeOf(req));
    U32Reads(hdr, 4, 0);
    U64Reads(hdr, 8, req.lba);
  }

  lemma ChainReads(mem: seq<byte>, p: Place, req: Req)
    requires p.Valid() && At(mem, 0, ChainBytes(req, p))
    ensures |mem| >= 48 && DescAt(mem, 0) == RawDesc(p.hdr, 16, F_NEXT, 1)
    ensures DescAt(mem, 1) == RawDesc(p.buf, SECTOR, DataFlags(req), 2)
    ensures DescAt(mem, 2) == RawDesc(p.sts, 1, F_WRITE, 0)
  {
    var d := RawDesc(p.hdr, 16, F_NEXT, 1);
    var e := RawDesc(p.buf, SECTOR, DataFlags(req), 2);
    var f := RawDesc(p.sts, 1, F_WRITE, 0);
    AtSplits(mem, 0, DescBytes(d), DescBytes(e) + DescBytes(f));
    AtSplits(mem, 16, DescBytes(e), DescBytes(f));
    DescReads(mem, 0, d);
    DescReads(mem, 1, e);
    DescReads(mem, 2, f);
  }

  /** The device finds in the chain the very request it was filled with, with the data the buffer now holds. */
  lemma ChainFollowed(mem: seq<byte>, qs: nat, p: Place, req: Req, hdr: seq<byte>, buf: Sector)
    requires 3 <= qs && 16 * qs <= |mem| && p.Valid() && req.lba < TWO64
    requires At(mem, 0, ChainBytes(req, p)) && hdr == HeaderBytes(req)
    ensures Followed(mem, qs, 0, p, hdr, buf) == Some(if req.In? then req else Out(req.lba, buf))
  {
    ChainReads(mem, p, req);
    HeaderReads(hdr, req);
  }

  /**
   * A request as section 5.2.6 of VIRTIO 1.1 lays it out: a header with type 0 to read or 1 to write and the sector,
   * the data, for the device to write just in a read, and the status, each described in turn.
   */
  predicate Requested(hdr: seq<byte>, mem: seq<byte>, p: Place, reqType: u32, lba: nat) {
    && |hdr| == 16 && U32At(hdr, 0) == reqType && U32At(hdr, 4) == 0 && U64At(hdr, 8) == lba && |mem| >= 48
    && DescAt(mem, 0) == RawDesc(p.hdr, 16, 1, 1)
    && DescAt(mem, 1) == RawDesc(p.buf, 512, if reqType == 0 then 3 else 1, 2)
    && DescAt(mem, 2) == RawDesc(p.sts, 1, 2, 0)
  }

  lemma ChainRequests(hdr: seq<byte>, mem: seq<byte>, p: Place, reqType: u32, lba: nat, data: Sector)
    requires lba < TWO64 && (reqType == 0 || reqType == 1) && p.Valid() && hdr == HeaderBytes(Asked(reqType, lba, data))
    requires At(mem, 0, ChainBytes(Asked(reqType, lba, data), p))
    ensures Requested(hdr, mem, p, reqType, lba)
  {
    var req := Asked(reqType, lba, data);
    HeaderReads(hdr, req);
    ChainReads(mem, p, req);
  }

  // ---- stores into queue memory ----

  /** What the driver and the device keep in queue memory, descriptors aside. */
  predicate Rings(mem: seq<byte>, qs: nat, avail: seq<nat>, availIdx: nat, usedIdx: nat)
    requires |mem| == QueueMemSize(qs)
  {
    AvailOf(mem, qs) == avail && AvailIdxOf(mem, qs) == availIdx
        && UsedIdxOf(mem, qs) == usedIdx
  }

  lemma ChainStored(mem: seq<byte>, qs: nat, b: seq<byte>, avail: seq<nat>, ai: nat, ui: nat)
    requires 3 <= qs && |mem| == QueueMemSize(qs) && |b| == 48 && Rings(mem, qs, avail, ai, ui)
    ensures 48 <= |mem| && At(Splice(mem, 0, b), 0, b) && Rings(Splice(mem, 0, b), qs, avail, ai, ui)
  {
    LayoutIsSound(qs);
    AvailKept(mem, qs, 0, b);
    UsedKept(mem, qs, 0, b);
  }

  lemma HeadsStay(qs: nat, i: nat)
    requires i < qs
    ensures NoHeads(qs)[i := 0] == NoHeads(qs)
  {
  }

  lemma HeadStored(mem: seq<byte>, qs: nat, i: nat, b: seq<byte>, ai: nat, ui: nat)
    requires 3 <= qs && i < qs && |mem| == QueueMemSize(qs) && |b| == 48 && At(mem, 0, b)
    requires Rings(mem, qs, NoHeads(qs), ai, ui)
    ensures AvailOffset(qs) + 6 + 2 * i <= |mem|
    ensures var m := Splice(mem, AvailOffset(qs) + 4 + 2 * i, LE16(0));
      At(m, 0, b) && Rings(m, qs, NoHeads(qs), ai, ui)
  {
    AvailEntryStored(mem, qs, i, 0);
    HeadsStay(qs, i);
  }

  lemma IndexStored(mem: seq<byte>, qs: nat, v: u16, b: seq<byte>, avail: seq<nat>, ai: nat, ui: nat)
    requires 3 <= qs && |mem| == QueueMemSize(qs) && |b| == 48 && At(mem, 0, b) && Rings(mem, qs, avail, ai, ui)
    ensures AvailOffset(qs) + 4 <= |mem|
    ensures var m := Splice(mem, AvailOffset(qs) + 2, LE16(v)); At(m, 0, b) && Rings(m, qs, avail, v, ui)
  {
    AvailIdxStored(mem, qs, v);
  }

  lemma UsedIndexStored(mem: seq<byte>, qs: nat, v: u16, avail: seq<nat>, ai: nat, ui: nat)
    requires 3 <= qs && |mem| == QueueMemSize(qs) && Rings(mem, qs, avail, ai, ui)
    ensures 48 <= UsedOffset(qs) + 2 && UsedOffset(qs) + 4 <= |mem|
    ensures var m := Splice(mem, UsedOffset(qs) + 2, LE16(v)); Rings(m, qs, avail, ai, v)
    ensures forall b :: |b| == 48 && At(mem, 0, b) ==> At(Splice(mem, UsedOffset(qs) + 2, LE16(v)), 0, b)
  {
    LayoutIsSound(qs);
    UsedIdxStored(mem, qs, v);
    assert Splice(mem, UsedOffset(qs) + 2, LE16(v))[0..48] == mem[0..48];
  }

  method StoreHead(mem: array<byte>, qs: nat, i: nat, ghost b: seq<byte>, ghost ai: nat, ghost ui: nat)
    requires 3 <= qs && i < qs && mem.Length == QueueMemSize(qs)
    requires |b| == 48 && At(mem[..], 0, b) && Rings(mem[..], qs, NoHeads(qs), ai, ui)
    modifies mem
    ensures At(mem[..], 0, b) && Rings(mem[..], qs, NoHeads(qs), ai, ui)
  {
    HeadStored(mem[..], qs, i, b, ai, ui);
    PutU16(mem, AvailOffset(qs) + 4 + i * 2, 0);
  }

  method StoreIndex(mem: array<byte>, qs: nat, v: u16, ghost b: seq<byte>, ghost avail: seq<nat>, ghost ai: nat,
      ghost ui: nat)
    requires 3 <= qs && mem.Length == QueueMemSize(qs)
    requires |b| == 48 && At(mem[..], 0, b) && Rings(mem[..], qs, avail, ai, ui)
    modifies mem
    ensures At(mem[..], 0, b) && Rings(mem[..], qs, avail, v, ui)
  {
    ghost var m := mem[..];
    IndexStored(m, qs, v, b, avail, ai, ui);
    PutU16(mem, AvailOffset(qs) + 2, v);
    assert mem[..] == Splice(m, AvailOffset(qs) + 2, LE16(v));
  }

  method StoreUsedIndex(mem: array<byte>, qs: nat, v: u16, ghost avail: seq<nat>, ghost ai: nat, ghost ui: nat)
    requires 3 <= qs && mem.Length == QueueMemSize(qs) && Rings(mem[..], qs, avail, ai, ui)
    modifies mem
    ensures Rings(mem[..], qs, avail, ai, v)
    ensures forall b :: |b| == 48 && At(old(mem[..]), 0, b) ==> At(mem[..], 0, b)
  {
    UsedIndexStored(mem[..], qs, v, avail, ai, ui);
    PutU16(mem, UsedOffset(qs) + 2, v);
  }

  lemma HeaderPut(s: seq<byte>, a: seq<byte>, b: seq<byte>, c: seq<byte>)
    requires |s| == 16 && |a| == |b| == 4 && |c| == 8
    ensures Splice(Splice(Splice(s, 0, a), 4, b), 8, c) == a + (b + c)
  {
  }

  lemma ChainPut(s: seq<byte>, a: seq<byte>, b: seq<byte>, c: seq<byte>)
    requires |s| >= 48 && |a| == |b| == |c| == 16
    ensures Splice(Splice(Splice(s, 0, a), 16, b), 32, c) == Splice(s, 0, a + (b + c))
  {
  }

  /** The chain at any head offered. */
  lemma HeadFollowed(mem: seq<byte>, qs: nat, ai: nat, ui: nat, taken: nat, p: Place, req: Req, hdr: seq<byte>,
      buf: Sector)
    requires 3 <= qs && |mem| == QueueMemSize(qs) && Rings(mem, qs, NoHeads(qs), ai, ui) && p.Valid()
    requires req.lba < TWO64
    requires At(mem, 0, ChainBytes(req, p)) && hdr == HeaderBytes(req)
    ensures 16 * qs <= |mem| && AvailOf(mem, qs)[RingSlot(taken, qs)] == 0
    ensures Followed(mem, qs, 0, p, hdr, buf) == Some(if req.In? then req else Out(req.lba, buf))
  {
    LayoutIsSound(qs);
    ChainFollowed(mem, qs, p, req, hdr, buf);
  }

  /** What the device may do when it is its turn. */
  datatype Move = Fetch | Finish(fails: bool)

  predicate ByDevice(steps: seq<Step>) {
    forall i :: 0 <= i < |steps| ==> steps[i].Take? || steps[i].Serve?
  }

  /** The parts of the state that only the driver changes. */
  predicate SameCall(a: Blk, b: Blk) {
    && a.nextAvail == b.nextAvail && a.lastUsed == b.lastUsed && a.chain.req == b.chain.req && a.waiting == b.waiting
    && a.polls == b.polls && a.log == b.log && a.timeouts == b.timeouts && a.started == b.started
        && a.consumed == b.consumed
  }

  lemma DeviceOnly(s: Blk, step: Step)
    requires Shape(s) && Enabled(s, step) && ByDevice([step])
    ensures SameCall(s, Apply(s, step))
  {
    assert [step][0] == step;
  }

  /** What the steps of the driver leave as it is. */
  lemma StartNext(d0: Disk, s: Blk, req: Req, data: Sector, p: Place) returns (next: Blk)
    requires Shape(s) && !s.waiting && (req.Out? ==> req.data == data) && Reached(d0, s)
    requires s.avail == NoHeads(|s.avail|)
    ensures next == DoStart(s, req, data, POLL_LIMIT, p) && Shape(next) && Reached(d0, next)
    ensures next.avail == s.avail
    ensures next.nextAvail == next.availIdx == (s.nextAvail + 1) % TWO16 && next.chain == Chain(req, data, 0)
    ensures next.usedIdx == s.usedIdx && next.lastUsed == s.lastUsed && next.disk == s.disk && next.taken == s.taken
    ensures next.serving == s.serving && next.served == s.served && next.followed == s.followed
    ensures next.started == s.started + 1 && |next.places| == next.started && next.places[s.started] == p
    ensures s.serving.Some? ==> next.places[s.followed] == s.places[s.followed]
  {
    StepReached(d0, s, Start(req, data, POLL_LIMIT, p));
    HeadsStay(|s.avail|, RingSlot(s.nextAvail, |s.avail|));
    next := DoStart(s, req, data, POLL_LIMIT, p);
  }

  lemma PollNext(d0: Disk, s: Blk) returns (next: Blk)
    requires Shape(s) && s.waiting && Reached(d0, s)
    ensures next == DoPoll(s) && Shape(next) && Reached(d0, next)
    ensures next.avail == s.avail && next.availIdx == s.availIdx && next.nextAvail == s.nextAvail
    ensures next.chain == s.chain && next.usedIdx == s.usedIdx && next.disk == s.disk && next.taken == s.taken
    ensures next.serving == s.serving && next.served == s.served && next.followed == s.followed
    ensures next.started == s.started && next.places == s.places
    ensures next.lastUsed == if s.usedIdx != s.lastUsed then (s.lastUsed + 1) % TWO16 else s.lastUsed
  {
    StepReached(d0, s, Poll);
    next := DoPoll(s);
  }

  /** And those of the device. */
  lemma TakeNext(d0: Disk, s: Blk) returns (next: Blk)
    requires Shape(s) && Enabled(s, Take) && Reached(d0, s)
    ensures next == DoTake(s) && Shape(next) && Reached(d0, next)
    ensures next.avail == s.avail && next.availIdx == s.availIdx && next.nextAvail == s.nextAvail
    ensures next.chain == s.chain && next.usedIdx == s.usedIdx && next.lastUsed == s.lastUsed && next.disk == s.disk
    ensures next.served == s.served && next.started == s.started && next.places == s.places
    ensures next.taken == s.taken + 1 && next.followed == s.started - 1
    ensures next.serving == if s.avail[RingSlot(s.taken, |s.avail|)] == 0 then Some(Spelled(s.chain)) else None
  {
    StepReached(d0, s, Take);
    next := DoTake(s);
  }

  lemma ServeNext(d0: Disk, s: Blk, fails: bool) returns (next: Blk)
    requires Shape(s) && Enabled(s, Serve(fails)) && Reached(d0, s)
    ensures next == DoServe(s, fails) && Shape(next) && Reached(d0, next)
    ensures next.avail == s.avail && next.availIdx == s.availIdx && next.nextAvail == s.nextAvail
    ensures next.lastUsed == s.lastUsed && next.taken == s.taken && next.started == s.started
    ensures next.places == s.places && next.chain.req == s.chain.req
    ensures next.serving == None && next.served == s.served + 1
  {
    StepReached(d0, s, Serve(fails));
    next := DoServe(s, fails);
  }

  /** A run of the device and one more move. */
  lemma MoveMade(from: Blk, steps: seq<Step>, s: Blk, more: seq<Step>, t: Blk) returns (longer: seq<Step>)
    requires Runs(from, steps) && s == After(from, steps) && ByDevice(steps) && SameCall(from, s)
    requires |more| <= 1 && ByDevice(more) && (more == [] ==> t == s)
    requires more != [] ==> Shape(s) && Enabled(s, more[0]) && t == Apply(s, more[0])
    ensures ByDevice(longer) && Runs(from, longer) && t == After(from, longer) && SameCall(from, t)
  {
    longer := steps + more;
    if more != [] {
      RunGrows(from, steps, more[0]);
      assert more == [more[0]];
      DeviceOnly(s, more[0]);
    } else {
      assert longer == steps;
    }
  }

  class VirtioBlkDev {
    const queueSize: nat
    const qMem: array<byte>
    // header, data buffer and status byte of the last call, and where they are
    var place: Place
    const hdr: array<byte>
    const buf: array<byte>
    const sts: array<byte>
    var nextAvail: u16
    var lastUsed: u16
    // the device
    var disk: Disk
    var taken: nat
    var serving: Option<Req>
    var there: Place
    var served: nat
    // the run so far, and the disk it began with
    ghost var run: Blk
    ghost const first: Disk

    ghost predicate Shaped() {
      && 3 <= queueSize <= 0x8000 && RingSlot(TWO16, queueSize) == 0
      && qMem.Length == QueueMemSize(queueSize) && hdr.Length == 16 && buf.Length == SECTOR && sts.Length == 1
      && qMem != hdr && qMem != buf && qMem != sts && hdr != buf && hdr != sts && buf != sts
    }

    /** The fields and bytes are those of the state s. */
    ghost predicate TiedTo(s: Blk)
      requires Shaped()
      reads this, qMem, buf, sts
    {
      && Rings(qMem[..], queueSize, s.avail, s.availIdx, s.usedIdx)
      && s.avail == NoHeads(queueSize)
      && s.nextAvail == s.availIdx == nextAvail && s.lastUsed == lastUsed
      && s.chain.data == buf[..] && s.chain.sts == sts[0]
      && s.disk == disk && s.taken == taken && s.serving == serving && s.served == served
      && Shape(s) && (s.started > 0 ==> place == s.places[s.started - 1])
      && (serving.Some? ==> there == s.places[s.followed])
    }

    /** Descriptors and header spell the request. */
    ghost predicate FilledWith(req: Req)
      requires Shaped()
      reads this, qMem, hdr
    {
      req.lba < TWO64 && place.Valid() && At(qMem[..], 0, ChainBytes(req, place)) && hdr[..] == HeaderBytes(req)
    }

    ghost predicate Tied()
      requires Shaped()
      reads this, qMem, buf, sts
    {
      TiedTo(run)
    }

    ghost predicate Filled()
      requires Shaped()
      reads this, qMem, hdr
    {
      FilledWith(run.chain.req)
    }

    /** Memory and fields are those of the state the run has come to. */
    ghost predicate Valid()
      reads this, qMem, hdr, buf, sts
    {
      && Shaped() && Tied()
      && (if run.started == 0 then run.availIdx == run.taken == 0 else Filled())
      && (serving.Some? ==> taken > 0) && Reached(first, run)
    }

    /** Memory and fields already are those of the next state. */
    ghost method Adopt(next: Blk)
      requires Shaped() && TiedTo(next) && next.started > 0 && FilledWith(next.chain.req)
      requires (serving.Some? ==> taken > 0) && Reached(first, next)
      modifies this`run
      ensures Valid() && run == next
    {
      run := next;
    }

    /** A driver on zeroed queue memory, before any request. */
    constructor Init(qs: nat, d: Disk)
      requires 3 <= qs <= 0x8000 && RingSlot(TWO16, qs) == 0
      ensures Valid() && queueSize == qs && disk == first == d
      ensures run == BlkRequest.Init(NoHeads(qs), Chain(In(0), Zeros(SECTOR), 0), d)
    {
      queueSize, place, there, disk, first := qs, Place(0, 0, 0), Place(0, 0, 0), d, d;
      nextAvail, lastUsed, taken, serving, served := 0, 0, 0, None, 0;
      run := BlkRequest.Init(NoHeads(qs), Chain(In(0), Zeros(SECTOR), 0), d);
      qMem := new byte[QueueMemSize(qs)](_ => 0);
      hdr, buf, sts := new byte[16](_ => 0), new byte[SECTOR](_ => 0), new byte[1](_ => 0);
      new;
      LayoutIsSound(qs);
      assert buf[..] == Zeros(SECTOR);
      assert AvailOf(qMem[..], qs) == NoHeads(qs);
      InitReached(NoHeads(qs), Chain(In(0), Zeros(SECTOR), 0), d);
    }

    method FillHeader(req: Req)
      requires hdr.Length == 16 && req.lba < TWO64
      modifies hdr
      ensures hdr[..] == HeaderBytes(req)
    {
      ghost var was := hdr[..];
      PutU32(hdr, 0, TypeOf(req));
      PutU32(hdr, 4, 0);
      PutBytes(hdr, 8, LE64(req.lba));
      HeaderPut(was, LE32(TypeOf(req)), LE32(0), LE64(req.lba));
    }

    /** Write the three descriptors. */
    method WriteChain(req: Req, p: Place)
      requires qMem.Length == QueueMemSize(queueSize) && 3 <= queueSize && p.Valid()
      modifies qMem
      ensures 48 <= |old(qMem[..])| && qMem[..] == Splice(old(qMem[..]), 0, ChainBytes(req, p))
    {
      LayoutIsSound(queueSize);
      ghost var was := qMem[..];
      var d, e := DescBytes(RawDesc(p.hdr, 16, F_NEXT, 1)), DescBytes(RawDesc(p.buf, SECTOR, DataFlags(req), 2));
      var f := DescBytes(RawDesc(p.sts, 1, F_WRITE, 0));
      PutBytes(qMem, 0, d);
      PutBytes(qMem, 16, e);
      PutBytes(qMem, 32, f);
      ChainPut(was, d, e, f);
    }

    /** Fill in header, status and the three descriptors. */
    method FillChain(req: Req, data: Sector, p: Place)
      requires Shaped() && Tied() && req.lba < TWO64 && p.Valid()
      modifies qMem, hdr, buf, sts
      ensures Rings(qMem[..], queueSize, run.avail, run.availIdx, run.usedIdx)
      ensures At(qMem[..], 0, ChainBytes(req, p)) && hdr[..] == HeaderBytes(req) && buf[..] == data && sts[0] == 0
    {
      FillHeader(req);
      sts[0] := 0;
      PutBytes(buf, 0, data);
      ChainStored(qMem[..], queueSize, ChainBytes(req, p), run.avail, run.availIdx, run.usedIdx);
      WriteChain(req, p);
    }

    /** Offer the chain: head 0 in the next ring slot, then the index. */
    method OfferChain(ghost chain: seq<byte>)
      requires Shaped() && |chain| == 48 && At(qMem[..], 0, chain)
      requires Rings(qMem[..], queueSize, run.avail, run.availIdx, run.usedIdx)
      requires run.avail == NoHeads(queueSize)
      modifies this`nextAvail, qMem
      ensures nextAvail == (old(nextAvail) + 1) % TWO16 && At(qMem[..], 0, chain)
      ensures Rings(qMem[..], queueSize, run.avail, nextAvail, run.usedIdx)
    {
      SlotIsRemainder(nextAvail, queueSize);
      var slot := nextAvail % queueSize;
      StoreHead(qMem, queueSize, slot, chain, run.availIdx, run.usedIdx);
      nextAvail := (nextAvail + 1) % TWO16;
      StoreIndex(qMem, queueSize, nextAvail, chain, run.avail, run.availIdx, run.usedIdx);
    }

    /** Fill in and offer the chain; memory and fields are then those of the state after the start. */
    method FillAndOffer(req: Req, data: Sector, p: Place)
      requires Valid() && req.lba < TWO64 && p.Valid()
      modifies this`nextAvail, qMem, hdr, buf, sts
      ensures nextAvail == (old(nextAvail) + 1) % TWO16 && buf[..] == data && sts[0] == 0
      ensures Rings(qMem[..], queueSize, run.avail, nextAvail, run.usedIdx)
      ensures At(qMem[..], 0, ChainBytes(req, p)) && hdr[..] == HeaderBytes(req)
    {
      FillChain(req, data, p);
      OfferChain(ChainBytes(req, p));
    }

    method Begin(req: Req, data: Sector, p: Place)
      requires Valid() && !run.waiting && req.lba < TWO64 && p.Valid() && (req.Out? ==> req.data == data)
      modifies this`nextAvail, this`place, this`run, qMem, hdr, buf, sts
      ensures Valid() && run == DoStart(old(run), req, data, POLL_LIMIT, p)
    {
      ghost var next := StartNext(first, run, req, data, p);
      FillAndOffer(req, data, p);
      place := p;
      Adopt(next);
    }

    /** One look at the used index; a completion is taken note of, and the last look in vain gives up. */
    method Look() returns (done: bool, ok: bool)
      requires Valid() && run.waiting
      modifies this`lastUsed, this`run
      ensures Valid() && run == DoPoll(old(run))
      ensures done == (old(run).usedIdx != old(run).lastUsed) && ok == (done && run.chain.sts == 0)
    {
      ghost var next := PollNext(first, run);
      done, ok := UsedIdxOf(qMem[..], queueSize) != lastUsed, false;
      if done {
        lastUsed := (lastUsed + 1) % TWO16;
        ok := sts[0] == 0;
      }
      run := next;
    }

    /** What the device finds at the head offered next. */
    method Follow() returns (r: Option<Req>)
      requires Valid() && run.started > 0
      ensures r == Some(Spelled(run.chain)) && run.avail[RingSlot(taken, |run.avail|)] == 0
    {
      HeadFollowed(qMem[..], queueSize, run.availIdx, run.usedIdx, taken, place, run.chain.req, hdr[..], buf[..]);
      var head := AvailOf(qMem[..], queueSize)[RingSlot(taken, queueSize)];
      r := Followed(qMem[..], queueSize, head, place, hdr[..], buf[..]);
    }

    /** The device follows the chain at the head offered next. */
    method DeviceTake()
      requires Valid() && Enabled(run, Take)
      modifies this`taken, this`serving, this`there, this`run
      ensures Valid() && run == DoTake(old(run))
    {
      ghost var next := TakeNext(first, run);
      serving := Follow();
      there := place;
      taken := taken + 1;
      Adopt(next);
    }

    /** The stores of the device: data, status, used index. What it writes elsewhere is not the driver's any more. */
    method WriteBack(data: Sector, status: byte, v: u16)
      requires Shaped() && Rings(qMem[..], queueSize, run.avail, run.availIdx, run.usedIdx)
      modifies qMem, buf, sts
      ensures buf[..] == if there.buf == place.buf then data else old(buf[..])
      ensures sts[0] == if there.sts == place.sts then status else old(sts[0])
      ensures Rings(qMem[..], queueSize, run.avail, run.availIdx, v) && (old(Filled()) ==> Filled())
    {
      if there.buf == place.buf {
        PutBytes(buf, 0, data);
      }
      if there.sts == place.sts {
        sts[0] := status;
      }
      MoveUsed(v);
    }

    method MoveUsed(v: u16)
      requires Shaped() && Rings(qMem[..], queueSize, run.avail, run.availIdx, run.usedIdx)
      modifies qMem
      ensures Rings(qMem[..], queueSize, run.avail, run.availIdx, v) && (old(Filled()) ==> Filled())
    {
      StoreUsedIndex(qMem, queueSize, v, run.avail, run.availIdx, run.usedIdx);
      if old(Filled()) {
        assert |ChainBytes(run.chain.req, place)| == 48;
      }
    }

    /** The device does the request, or fails, and moves the used index. */
    method DeviceServe(fails: bool)
      requires Valid() && Enabled(run, Serve(fails))
      modifies this`disk, this`serving, this`served, this`run, qMem, buf, sts
      ensures Valid() && run == DoServe(old(run), fails)
    {
      ghost var next := ServeNext(first, run, fails);
      var d := ServeStores(fails, next);
      disk, serving, served := d, None, served + 1;
      Adopt(next);
    }

    /** Do the request; memory is then that of the state after it. */
    method ServeStores(fails: bool, ghost next: Blk) returns (d: Disk)
      requires Shaped() && Tied() && serving.Some? && taken > 0 && next == DoServe(run, fails)
      modifies qMem, buf, sts
      ensures d == next.disk && next.chain.data == buf[..] && next.chain.sts == sts[0]
      ensures Rings(qMem[..], queueSize, next.avail, next.availIdx, next.usedIdx) && (old(Filled()) ==> Filled())
    {
      var (d', data, status) := Served(disk, serving.value, buf[..], fails);
      WriteBack(data, status, (served + 1) % TWO16);
      d := d';
    }

    /** The device makes a move if it can. */
    method DeviceMove(move: Move) returns (ghost steps: seq<Step>)
      requires Valid()
      modifies this`disk, this`taken, this`serving, this`there, this`served, this`run, qMem, buf, sts
      ensures Valid() && (steps == [] || |steps| == 1) && ByDevice(steps)
      ensures steps == [] ==> run == old(run)
      ensures steps != [] ==>
        Shape(old(run)) && Enabled(old(run), steps[0]) && run == Apply(old(run), steps[0])
    {
      steps := [];
      if move.Fetch? && serving.None? && AvailIdxOf(qMem[..], queueSize) != taken % TWO16 {
        DeviceTake();
        steps := [Take];
      } else if move.Finish? && serving.Some? {
        DeviceServe(move.fails);
        steps := [Serve(move.fails)];
      }
    }

    /** The device does what it can of a list of moves. */
    method DeviceMoves(moves: seq<Move>) returns (ghost steps: seq<Step>)
      requires Valid()
      modifies this`disk, this`taken, this`serving, this`there, this`served, this`run, qMem, buf, sts
      ensures Valid() && ByDevice(steps) && Runs(old(run), steps) && run == After(old(run), steps)
      ensures SameCall(old(run), run)
    {
      steps := [];
      var k := 0;
      while k < |moves|
        invariant Valid() && ByDevice(steps) && Runs(old(run), steps) && run == After(old(run), steps)
        invariant SameCall(old(run), run)
      {
        ghost var s := run;
        ghost var more := DeviceMove(moves[k]);
        steps := MoveMade(old(run), steps, s, more, run);
        k := k + 1;
      }
    }

    /**
     * One request, of type 0 to read and 1 to write, with its memory at p: fill in and offer the chain, then look until
     * the used index moves or the looks run out. The device moves as it likes before each look.
     */
    method DoIo(reqType: u32, lba: nat, data: Sector, p: Place, device: nat -> seq<Move>)
      returns (ok: bool, ghost steps: seq<Step>)
      requires Valid() && !run.waiting && (reqType == 0 || reqType == 1) && lba < TWO64 && p.Valid()
      modifies this, qMem, hdr, buf, sts
      ensures Valid() && !run.waiting
      ensures Runs(old(run), steps) && run == After(old(run), steps)
      ensures run.log == old(run).log + [Entry(Asked(reqType, lba, data), ok, buf[..])]
      ensures run.timeouts == 0 ==> nextAvail == lastUsed && serving == None && Serial(first, run.log, disk)
      ensures Requested(hdr[..], qMem[..], p, reqType, lba)
      ensures run.timeouts == 0 && !ok ==> disk == old(disk)
      ensures run.timeouts == 0 && ok ==> lba < |old(disk)|
      ensures run.timeouts == 0 && ok && reqType == 0 ==> buf[..] == old(disk)[lba] && disk == old(disk)
      ensures run.timeouts == 0 && ok && reqType == 1 ==> disk == old(disk)[lba := data]
    {
      ok, steps := Transact(Asked(reqType, lba, data), data, p, device);
      ChainRequests(hdr[..], qMem[..], p, reqType, lba, data);
    }

    /** Read a sector into the caller's buffer. */
    method ReadSectors(lba: nat, into: Sector, p: Place, device: nat -> seq<Move>) returns (ok: bool)
      requires Valid() && !run.waiting && lba < TWO64 && p.Valid()
      modifies this, qMem, hdr, buf, sts
      ensures Valid() && !run.waiting
      ensures run.timeouts == 0 ==> disk == old(disk) && (ok ==> lba < |disk| && buf[..] == disk[lba])
    {
      ghost var steps;
      ok, steps := DoIo(T_IN, lba, into, p, device);
    }

    method WriteSectors(lba: nat, data: Sector, p: Place, device: nat -> seq<Move>) returns (ok: bool)
      requires Valid() && !run.waiting && lba < TWO64 && p.Valid()
      modifies this, qMem, hdr, buf, sts
      ensures Valid() && !run.waiting
      ensures run.timeouts == 0 ==>
          (ok ==> lba < |old(disk)|) && disk == if ok then old(disk)[lba := data] else old(disk)
    {
      ghost var steps;
      ok, steps := DoIo(T_OUT, lba, data, p, device);
    }

    /** The chain for the request, and the wait for its completion. */
    method Transact(req: Req, data: Sector, p: Place, device: nat -> seq<Move>)
      returns (ok: bool, ghost steps: seq<Step>)
      requires Valid() && !run.waiting && req.lba < TWO64 && p.Valid() && (req.Out? ==> req.data == data)
      modifies this, qMem, hdr, buf, sts
      ensures Valid() && !run.waiting && place == p && run.chain.req == req && run.started > 0
      ensures Runs(old(run), steps) && run == After(old(run), steps)
      ensures run.log == old(run).log + [Entry(req, ok, buf[..])]
      ensures run.timeouts == 0 ==> nextAvail == lastUsed && serving == None && Serial(first, run.log, disk)
      ensures run.timeouts == 0 ==> Answered(old(disk), Entry(req, ok, buf[..]), disk)
    {
      OneStep(run, Start(req, data, POLL_LIMIT, p));
      Begin(req, data, p);
      ok, steps := Await([Start(req, data, POLL_LIMIT, p)], old(run), device);
      if run.timeouts == 0 {
        CallAnswered(first, old(run), steps, Entry(req, ok, buf[..]));
      }
    }

    /** Look at the used index until it moves or the looks run out. */
    method Await(ghost begun: seq<Step>, ghost from: Blk, device: nat -> seq<Move>)
      returns (ok: bool, ghost steps: seq<Step>)
      requires Valid() && run.waiting && run.polls == POLL_LIMIT && Runs(from, begun) && run == After(from, begun)
      modifies this`disk, this`taken, this`serving, this`there, this`served, this`lastUsed, this`run, qMem, buf, sts
      ensures Valid() && Runs(from, steps) && run == After(from, steps) && run.started == old(run).started
      ensures run.chain.req == old(run).chain.req && Ended(old(run).log, run.chain.req, ok)
    {
      steps, ok := begun, false;
      var k, done := 0, false;
      while k < POLL_LIMIT && !done
        invariant 0 <= k <= POLL_LIMIT && Valid() && run.chain.req == old(run).chain.req
        invariant Runs(from, steps) && run == After(from, steps) && run.started == old(run).started
        invariant if done || k == POLL_LIMIT then Ended(old(run).log, run.chain.req, ok)
            else Polling(old(run).log, run.chain.req, POLL_LIMIT - k)
      {
        ghost var s1;
        done, ok, s1 := Turn(device(k), steps, from);
        steps := s1;
        k := k + 1;
      }
    }

    /** In a call with some looks left. */
    ghost predicate Polling(log: seq<Entry>, req: Req, looks: nat)
      reads this
    {
      run.waiting && run.polls == looks && run.log == log && run.chain.req == req
    }

    /** The call is over and in the log. */
    ghost predicate Ended(log: seq<Entry>, req: Req, ok: bool)
      requires Shaped()
      reads this, buf
    {
      !run.waiting && run.log == log + [Entry(req, ok, buf[..])]
    }

    /** The device moves, then the driver looks. */
    method Turn(moves: seq<Move>, ghost steps: seq<Step>, ghost from: Blk)
      returns (done: bool, ok: bool, ghost longer: seq<Step>)
      requires Valid() && run.waiting && run.polls > 0 && Runs(from, steps) && run == After(from, steps)
      modifies this`disk, this`taken, this`serving, this`there, this`served, this`lastUsed, this`run, qMem, buf, sts
      ensures Valid() && Runs(from, longer) && run == After(from, longer)
      ensures run.chain.req == old(run).chain.req && run.started == old(run).started
      ensures if done || old(run.polls) == 1 then Ended(old(run.log), old(run.chain.req), ok)
              else Polling(old(run.log), old(run.chain.req), old(run.polls) - 1)
    {
      ghost var moved := DeviceMoves(moves);
      RunsJoin(from, steps, moved);
      RunGrows(from, steps + moved, Poll);
      done, ok := Look();
      longer := steps + moved + [Poll];
    }
  }
}
