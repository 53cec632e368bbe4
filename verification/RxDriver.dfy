/**
 * The receive side of the network and vsock drivers on the bytes of its two memory areas, with the device working
 * in the same memory between any two accesses. Every call is a run of the receive machine.
 */
module RxDriver {
  import opened Bytes
  import opened Virtqueue
  import opened RingMemory
  import opened RxRing

  /** The steps a device may take. */
  predicate ByDevice(step: Step) {
    step.Take? || step.Fill? || step.Stage? || step.PublishUsed?
  }

  /** What the device does not touch: the driver's variables and what it has consumed, offered and handed up. */
  predicate SameDriver(a: Rx, b: Rx) {
    a.drv == b.drv && a.log.consumed == b.log.consumed && a.log.offered == b.log.offered
        && a.log.received == b.log.received
  }

  function Heads(qs: nat, i: nat): (r: seq<nat>)
    ensures |r| == qs
  {
    seq(qs, k => if k < i then k else 0)
  }

  lemma OneMoreHead(qs: nat, i: nat)
    requires i < qs
    ensures Heads(qs, i)[i := i] == Heads(qs, i + 1)
  {
  }

  lemma AllHeads(c: Config)
    requires c.n <= c.qs
    ensures Heads(c.qs, c.n) == FirstAvail(c, NoHeads(c.qs))
  {
  }

  /** The first n descriptors are those of the buffers one after the other, each for the device to write (flag 2). */
  predicate DescribedTo(ds: seq<RawDesc>, size: nat, n: nat) {
    n <= |ds| && forall i :: 0 <= i < n ==> ds[i] == RawDesc(i * size, size, 2, 0)
  }

  lemma OneMoreDescribed(ds: seq<RawDesc>, size: nat, i: nat)
    requires DescribedTo(ds, size, i) && i < |ds|
    ensures DescribedTo(ds[i := RawDesc(i * size, size, 2, 0)], size, i + 1)
  {
  }

  class RxQueue {
    const c: Config
    const mem: array<byte>
    const bufs: array<byte>
    var nextAvail: u16
    var lastUsed: u16
    /** Where the driver is inside a call. */
    var pc: Pc
    // the device, and what has happened
    var dev: Device
    var log: History

    predicate Shaped() {
      c.Valid() && mem.Length == QueueMemSize(c.qs) && bufs.Length == c.n * c.size && mem != bufs
    }

    function Memory(): (m: Shared)
      requires Shaped()
      reads mem, bufs
    {
      RxMemory(mem[..], bufs[..], c)
    }

    function State(): (s: Rx)
      requires Shaped()
      reads this, mem, bufs
    {
      Rx(Memory(), Driver(lastUsed, nextAvail, pc), dev, log)
    }

    /** Descriptor i of the first n is that of buffer i. */
    predicate Described()
      requires Shaped()
      reads mem
    {
      DescribedTo(DescOf(mem[..], c.qs), c.size, c.n)
    }

    ghost predicate Valid()
      reads this, mem, bufs
    {
      Shaped() && Described() && Reachable(c, State())
    }

    /** Describe the n buffers and put all of them on offer. */
    constructor Init(c: Config)
      requires c.Valid() && c.n * c.size < TWO32
      ensures Valid() && this.c == c && pc.Idle? && log == History(0, c.n, [], []) && fresh(mem) && fresh(bufs)
    {
      this.c := c;
      nextAvail, lastUsed, pc := c.n, 0, Idle;
      dev, log := Device(0, multiset{}, []), History(0, c.n, [], []);
      mem := new byte[QueueMemSize(c.qs)](_ => 0);
      bufs := new byte[c.n * c.size](_ => 0);
      new;
      Offer(c, mem);
      ghost var m := Memory();
      ZeroRing(c.qs);
      InitReachable(c, NoHeads(c.qs), m.used, m.bufs);
      assert m.avail == FirstAvail(c, NoHeads(c.qs));
    }

    /** The ring with heads 0 to i - 1 in its first i slots. */
    static method Offer(c: Config, mem: array<byte>)
      requires c.Valid() && c.n * c.size < TWO32 && mem.Length == QueueMemSize(c.qs) && mem[..] == Zeros(mem.Length)
      modifies mem
      ensures AvailOf(mem[..], c.qs) == FirstAvail(c, NoHeads(c.qs)) && AvailIdxOf(mem[..], c.qs) == c.n
      ensures UsedIdxOf(mem[..], c.qs) == 0
      ensures DescribedTo(DescOf(mem[..], c.qs), c.size, c.n)
    {
      ZeroRing(c.qs);
      var i := 0;
      while i < c.n
        invariant 0 <= i <= c.n && AvailOf(mem[..], c.qs) == Heads(c.qs, i) && UsedIdxOf(mem[..], c.qs) == 0
        invariant DescribedTo(DescOf(mem[..], c.qs), c.size, i)
      {
        OneMoreDescribed(DescOf(mem[..], c.qs), c.size, i);
        OneMoreHead(c.qs, i);
        OfferOne(c, mem, i);
        i := i + 1;
      }
      AllHeads(c);
      StoreAvailIdx(mem, c.qs, c.n);
    }

    static method OfferOne(c: Config, mem: array<byte>, i: nat)
      requires c.Valid() && c.n * c.size < TWO32 && mem.Length == QueueMemSize(c.qs) && i < c.n
      modifies mem
      ensures AvailOf(mem[..], c.qs) == AvailOf(old(mem[..]), c.qs)[i := i]
      ensures UsedIdxOf(mem[..], c.qs) == UsedIdxOf(old(mem[..]), c.qs)
      ensures DescOf(mem[..], c.qs) == DescOf(old(mem[..]), c.qs)[i := RawDesc(i * c.size, c.size, 2, 0)]
    {
      BufInside(i, c.n, c.size);
      DescWrite(mem, c.qs, i, i * c.size, c.size, 2);
      StoreAvail(mem, c.qs, i, i);
    }

    // ---- the parts of a call ----

    /** Look at the used index; the next used entry, if it has moved. */
    method Poll() returns (e: Option<Used>)
      requires Shaped() && pc.Idle?
      modifies this`lastUsed, this`pc, this`log
      ensures State() == DoPoll(old(State()))
      ensures e.None? <==> old(Memory()).usedIdx == old(lastUsed)
      ensures if e.None? then pc.Idle? else pc == Claimed(e.value.id, e.value.len)
    {
      if UsedIdxOf(mem[..], c.qs) == lastUsed {
        return None;
      }
      SlotIsRemainder(lastUsed, c.qs);
      var u := UsedOf(mem[..], c.qs)[lastUsed % c.qs];
      lastUsed := (lastUsed + 1) % TWO16;
      pc, log := Claimed(u.id, u.len), log.(consumed := log.consumed + 1);
      e := Some(u);
    }

    /** The buffer an entry names. */
    method CopyOut(id: nat, len: nat) returns (buf: seq<byte>)
      requires Shaped() && pc == Claimed(id, len) && id < c.n && len <= c.size
      modifies this`pc
      ensures State() == DoCopyOut(old(State())) && |buf| == c.size && pc == Copied(id, buf[..len])
    {
      BufInside(id, c.n, c.size);
      buf := bufs[id * c.size..id * c.size + c.size];
      assert buf == BufsOf(bufs[..], c.n, c.size)[id];
      pc := Copied(id, buf[..len]);
    }

    method StoreHead(id: u16)
      requires Shaped() && pc.Copied? && pc.id == id
      modifies this`pc, mem
      ensures DescOf(mem[..], c.qs) == DescOf(old(mem[..]), c.qs) && State() == DoGiveBack(old(State()))
      ensures pc == Returned(id, old(pc).pkt)
    {
      SlotIsRemainder(nextAvail, c.qs);
      StoreAvail(mem, c.qs, nextAvail % c.qs, id);
      pc := Returned(id, pc.pkt);
    }

    method PublishHead()
      requires Shaped() && pc.Returned?
      modifies this`nextAvail, this`pc, this`log, mem
      ensures DescOf(mem[..], c.qs) == DescOf(old(mem[..]), c.qs) && State() == DoPublishAvail(old(State())) && pc.Idle?
    {
      nextAvail := (nextAvail + 1) % TWO16;
      StoreAvailIdx(mem, c.qs, nextAvail);
      log := log.(offered := log.offered + 1, received := log.received + [pc.pkt]);
      pc := Idle;
    }

    // ---- the device ----

    method TakeHead()
      requires Shaped() && Enabled(c, State(), Take)
      modifies this`dev
      ensures DescOf(mem[..], c.qs) == DescOf(old(mem[..]), c.qs) && State() == DoTake(old(State()))
    {
      var id := AvailOf(mem[..], c.qs)[RingSlot(dev.taken, c.qs)];
      dev := Device(dev.taken + 1, dev.held + multiset{id}, dev.staged);
    }

    method FillBuffer(id: nat, data: seq<byte>)
      requires Shaped() && id < c.n && |data| == c.size
      modifies bufs
      ensures DescOf(mem[..], c.qs) == DescOf(old(mem[..]), c.qs) && State() == DoFill(old(State()), id, data)
    {
      StoreBuf(bufs, c.n, c.size, id, data);
      assert data + BufsOf(old(bufs[..]), c.n, c.size)[id][|data|..] == data;
    }

    method StageEntry(id: nat, len: nat)
      requires Shaped() && id < c.n && len <= c.size
      modifies this`dev, mem
      ensures DescOf(mem[..], c.qs) == DescOf(old(mem[..]), c.qs) && State() == DoStage(old(State()), id, len)
    {
      StoreUsed(mem, c.qs, RingSlot(|log.delivered| + |dev.staged|, c.qs), id, len);
      dev := Device(dev.taken, dev.held - multiset{id}, dev.staged + [Used(id, len)]);
    }

    method PublishEntries()
      requires Shaped()
      modifies this`dev, this`log, mem
      ensures DescOf(mem[..], c.qs) == DescOf(old(mem[..]), c.qs) && State() == DoPublishUsed(old(State()))
    {
      StoreUsedIdx(mem, c.qs, (|log.delivered| + |dev.staged|) % TWO16);
      log := log.(delivered := log.delivered + Packets(BufsOf(bufs[..], c.n, c.size), dev.staged));
      dev := Device(dev.taken, dev.held, []);
    }

    method DeviceStep(step: Step)
      requires Shaped() && ByDevice(step) && Enabled(c, State(), step) && forall id :: id in dev.held ==> id < c.n
      modifies this`dev, this`log, mem, bufs
      ensures DescOf(mem[..], c.qs) == DescOf(old(mem[..]), c.qs) && State() == Apply(c, old(State()), step)
    {
      match step
      case Take => TakeHead();
      case Fill(id, data) => FillBuffer(id, data);
      case Stage(id, len) => StageEntry(id, len);
      case PublishUsed => PublishEntries();
    }

    /** The device does what it can of a list of steps. */
    method DeviceSteps(steps: seq<Step>)
      requires Valid()
      modifies this`dev, this`log, mem, bufs
      ensures Valid() && SameDriver(old(State()), State())
    {
      var k := 0;
      while k < |steps|
        invariant Valid() && SameDriver(old(State()), State())
      {
        ReachableSound(c, State());
        if ByDevice(steps[k]) && Enabled(c, State(), steps[k]) {
          StepReachable(c, State(), steps[k]);
          DeviceStep(steps[k]);
        }
        k := k + 1;
      }
    }

    // ---- one call ----

    /**
     * The next used buffer and how many bytes of it count, if the used index has moved; the buffer goes back to the
     * device, which acts as it likes before each part of the call.
     */
    method Recv(device: nat -> seq<Step>) returns (r: Option<(seq<byte>, nat)>)
      requires Valid() && pc.Idle?
      modifies this, mem, bufs
      ensures Valid() && pc.Idle?
      ensures r.None? ==> log.received == old(log.received) == log.delivered
      ensures r.Some? ==>
          && r.value.1 <= |r.value.0| == c.size && log.received == old(log.received) + [r.value.0[..r.value.1]]
          && old(log.received) + [r.value.0[..r.value.1]] <= log.delivered
    {
      DeviceSteps(device(0));
      var e := Claim();
      if e.None? {
        return None;
      }
      DeviceSteps(device(1));
      var buf := TakeOut(e.value.id, e.value.len);
      DeviceSteps(device(2));
      Return(e.value.id);
      DeviceSteps(device(3));
      Publish();
      ReachableSound(c, State());
      r := Some((buf, e.value.len));
    }

    method Claim() returns (e: Option<Used>)
      requires Valid() && pc.Idle?
      modifies this`lastUsed, this`pc, this`log
      ensures Valid() && log.received == old(log.received)
      ensures if e.None? then pc.Idle? && log.received == log.delivered else pc == Claimed(e.value.id, e.value.len)
    {
      ReachableInOrder(c, State());
      StepReachable(c, State(), RxRing.Poll);
      e := Poll();
    }

    method TakeOut(id: nat, len: nat) returns (buf: seq<byte>)
      requires Valid() && pc == Claimed(id, len)
      modifies this`pc
      ensures Valid() && len <= |buf| == c.size && pc == Copied(id, buf[..len])
    {
      ReachableSound(c, State());
      StepReachable(c, State(), RxRing.CopyOut);
      buf := CopyOut(id, len);
    }

    method Return(id: nat)
      requires Valid() && pc.Copied? && pc.id == id
      modifies this`pc, mem
      ensures Valid() && pc == Returned(id, old(pc).pkt)
    {
      ReachableSound(c, State());
      StepReachable(c, State(), RxRing.GiveBack);
      StoreHead(id);
    }

    method Publish()
      requires Valid() && pc.Returned?
      modifies this`nextAvail, this`pc, this`log, mem
      ensures Valid() && pc.Idle? && log.received == old(log.received) + [old(pc).pkt]
    {
      StepReachable(c, State(), RxRing.PublishAvail);
      PublishHead();
    }
  }
}
