/**
 * The transmit side of the network and vsock drivers on the bytes of its two memory areas, with the device working
 * in the same memory between any two accesses. Every call is a run of the transmit machine while the device keeps up.
 */
module TxDriver {
  import opened Bytes
  import opened Virtqueue
  import opened RingMemory
  import opened TxRing

  /** Whether a device can take a step. */
  predicate DeviceMay(s: Tx, step: Step) {
    match step
    case Take => s.mem.availIdx != |s.dev.heads| % TWO16
    case ReadFrame(k) => k < |s.dev.heads| && k !in s.dev.done
    case Finish(k) => k < |s.dev.heads|
    case _ => false
  }

  /** From a to b the device has taken, read and finished frames, and nothing else has happened. */
  predicate Fewer(a: Tx, b: Tx) {
    b == a.(dev := b.dev, seen := b.seen) && a.dev.done <= b.dev.done
  }

  lemma LagStays(a: Tx, b: Tx, n: nat)
    requires Fewer(a, b) && LagBelow(a, n)
    ensures LagBelow(b, n)
  {
    forall k: nat {:trigger Owned(b, k)} | Owned(b, k) ensures |b.sent| - k < n {
      assert Owned(a, k);
    }
  }

  class TxQueue {
    const c: Config
    const mem: array<byte>
    const bufs: array<byte>
    var nextAvail: u16
    /** Where the driver is inside a call, and the packets sent. */
    var pc: Pc
    var sent: seq<seq<byte>>
    // the device
    var dev: Device
    var seen: seq<Read>

    predicate Shaped() {
      ValidTx(c) && c.n * c.size < TWO32 && mem.Length == QueueMemSize(c.qs) && bufs.Length == c.n * c.size
          && mem != bufs
    }

    function Memory(): (m: Shared)
      requires Shaped()
      reads mem, bufs
    {
      TxMemory(mem[..], bufs[..], c)
    }

    function State(): (s: Tx)
      requires Shaped()
      reads this, mem, bufs
    {
      Tx(Memory(), nextAvail, pc, dev, sent, seen)
    }

    /** In step: the device was never a full round behind when a send began. */
    ghost predicate InStep()
      requires Shaped()
      reads this, mem, bufs
    {
      Reachable(c, State())
    }

    ghost predicate Valid()
      reads this, mem, bufs
    {
      Shaped() && pc.Idle? && |dev.heads| <= |sent|
    }

    constructor Init(c: Config)
      requires ValidTx(c) && c.n * c.size < TWO32 && c.size > 0
      ensures Valid() && InStep() && this.c == c && sent == [] && seen == [] && fresh(mem) && fresh(bufs)
    {
      this.c := c;
      nextAvail, pc, sent, dev, seen := 0, Idle, [], Device([], {}), [];
      mem := new byte[QueueMemSize(c.qs)](_ => 0);
      bufs := new byte[c.n * c.size](_ => 0);
      new;
      ZeroRing(c.qs);
      assert mem[..] == Zeros(mem.Length);
      InitReachable(c, Memory());
    }

    // ---- the parts of a call ----

    method FillBuffer(pkt: seq<byte>)
      requires Shaped() && pc.Idle? && |pkt| <= c.size && |dev.heads| <= |sent|
      modifies this`pc, bufs
      ensures State() == DoFill(c, old(State()), pkt)
    {
      SlotIsRemainder(nextAvail, c.qs);
      var slot := nextAvail % c.qs;
      SlotIsRemainder(slot, c.n);
      StoreBuf(bufs, c.n, c.size, slot % c.n, pkt);
      pc := Filled(pkt);
    }

    method Describe()
      requires Shaped() && pc.Filled? && |pc.pkt| <= c.size && |dev.heads| <= |sent| && c.size > 0
      modifies this`pc, mem
      ensures State() == DoDescribe(c, old(State()))
    {
      SlotIsRemainder(nextAvail, c.qs);
      var slot := nextAvail % c.qs;
      SlotIsRemainder(slot, c.n);
      StoreDesc(slot, slot % c.n, |pc.pkt|);
      pc := Described(pc.pkt);
    }

    /** Describe the first len bytes of buffer buf in descriptor i. */
    method StoreDesc(i: nat, buf: nat, len: nat)
      requires Shaped() && i < c.qs && buf < c.n && len <= c.size && c.size > 0
      modifies mem
      ensures Memory() == old(Memory()).(desc := old(Memory()).desc[i := Desc(buf, len)])
    {
      BufInside(buf, c.n, c.size);
      ghost var was := DescOf(mem[..], c.qs);
      DescWrite(mem, c.qs, i, buf * c.size, len, 0);
      HoldersUpdated(was, c.size, i, buf, len);
    }

    method Offer()
      requires Shaped() && pc.Described? && |dev.heads| <= |sent|
      modifies this`pc, mem
      ensures State() == DoOffer(c, old(State()))
    {
      SlotIsRemainder(nextAvail, c.qs);
      var slot := nextAvail % c.qs;
      StoreAvail(mem, c.qs, slot, slot);
      pc := Offered(pc.pkt);
    }

    method Publish()
      requires Shaped() && pc.Offered?
      modifies this`nextAvail, this`pc, this`sent, mem
      ensures State() == DoPublish(old(State()))
    {
      nextAvail := (nextAvail + 1) % TWO16;
      StoreAvailIdx(mem, c.qs, nextAvail);
      sent := sent + [pc.pkt];
      pc := Idle;
    }

    // ---- the device ----

    /** The device takes a head, reads what is behind one, or is finished with a frame; it writes nothing here. */
    method DeviceStep(step: Step)
      requires Shaped() && |dev.heads| <= |sent| && DeviceMay(State(), step)
      modifies this`dev, this`seen
      ensures Enabled(c, old(State()), step) && State() == Apply(c, old(State()), step)
    {
      match step
      case Take => dev := dev.(heads := dev.heads + [AvailOf(mem[..], c.qs)[RingSlot(|dev.heads|, c.qs)]]);
      case ReadFrame(k) => seen := seen + [Read(k, Behind(State(), dev.heads[k]))];
      case Finish(k) => dev := dev.(done := dev.done + {k});
    }

    method DeviceSteps(steps: seq<Step>)
      requires Shaped() && |dev.heads| <= |sent|
      modifies this`dev, this`seen
      ensures |dev.heads| <= |sent| && (old(InStep()) ==> InStep()) && Fewer(old(State()), State())
    {
      var k := 0;
      while k < |steps|
        invariant |dev.heads| <= |sent| && (old(InStep()) ==> InStep()) && Fewer(old(State()), State())
      {
        if DeviceMay(State(), steps[k]) && (steps[k].Take? ==> |dev.heads| < |sent|) {
          ghost var s := State();
          DeviceStep(steps[k]);
          if Reachable(c, s) {
            StepReachable(c, s, steps[k]);
          }
        }
        k := k + 1;
      }
    }

    // ---- one call ----

    /**
     * Send one packet from the buffer the 16-bit counter selects. Memory is as if the device had not acted, and while
     * the device is in step and not a full round behind, the call is a run of the transmit machine.
     */
    method Send(pkt: seq<byte>, device: nat -> seq<Step>)
      requires Valid() && |pkt| <= c.size && c.size > 0
      modifies this, mem, bufs
      ensures Valid() && sent == old(sent) + [pkt]
      ensures Memory() == Call(c, old(State()), pkt).mem && nextAvail == (old(nextAvail) + 1) % TWO16
      ensures old(InStep()) && LagBelow(old(State()), c.n) ==> InStep()
    {
      ghost var s0 := State();
      FillPart(pkt, device(0));
      ghost var s1 := State();
      DescribePart(device(1));
      ghost var s2 := State();
      OfferPart(device(2));
      ghost var s3 := State();
      PublishPart(device(3));
      SameMemory(c, s0, pkt, s1, s2, s3, State());
    }

    /** One part of a call after some steps of the device. */
    method FillPart(pkt: seq<byte>, steps: seq<Step>)
      requires Valid() && |pkt| <= c.size
      modifies this`dev, this`seen, this`pc, bufs
      ensures Shaped() && |dev.heads| <= |sent| && pc == Filled(pkt)
      ensures Like(State(), DoFill(c, old(State()), pkt))
      ensures old(InStep()) && LagBelow(old(State()), c.n) ==> InStep()
    {
      ghost var s := State();
      DeviceSteps(steps);
      ghost var t := State();
      if LagBelow(s, c.n) && Reachable(c, t) {
        LagStays(s, t, c.n);
        StepReachable(c, t, Fill(pkt));
      }
      FillBuffer(pkt);
    }

    method DescribePart(steps: seq<Step>)
      requires Shaped() && |dev.heads| <= |sent| && pc.Filled? && |pc.pkt| <= c.size && c.size > 0
      modifies this`dev, this`seen, this`pc, mem
      ensures Shaped() && |dev.heads| <= |sent| && pc == Described(old(pc).pkt)
      ensures Like(State(), DoDescribe(c, old(State()))) && (old(InStep()) ==> InStep())
    {
      DeviceSteps(steps);
      if InStep() {
        StepReachable(c, State(), TxRing.Describe);
      }
      Describe();
    }

    method OfferPart(steps: seq<Step>)
      requires Shaped() && |dev.heads| <= |sent| && pc.Described?
      modifies this`dev, this`seen, this`pc, mem
      ensures Shaped() && |dev.heads| <= |sent| && pc == Offered(old(pc).pkt)
      ensures Like(State(), DoOffer(c, old(State()))) && (old(InStep()) ==> InStep())
    {
      DeviceSteps(steps);
      if InStep() {
        StepReachable(c, State(), TxRing.Offer);
      }
      Offer();
    }

    method PublishPart(steps: seq<Step>)
      requires Shaped() && |dev.heads| <= |sent| && pc.Offered?
      modifies this`dev, this`seen, this`pc, this`nextAvail, this`sent, mem
      ensures Shaped() && |dev.heads| <= |sent| && pc.Idle? && sent == old(sent) + [old(pc).pkt]
      ensures Like(State(), DoPublish(old(State()))) && (old(InStep()) ==> InStep())
    {
      DeviceSteps(steps);
      if InStep() {
        StepReachable(c, State(), TxRing.Publish);
      }
      Publish();
    }
  }

  /** Equal but for what the device did. */
  predicate Like(a: Tx, b: Tx) {
    a.mem == b.mem && a.nextAvail == b.nextAvail && a.pc == b.pc && a.sent == b.sent
  }

  lemma SameMemory(c: Config, s0: Tx, pkt: seq<byte>, s1: Tx, s2: Tx, s3: Tx, s4: Tx)
    requires Shape(c, s0) && |pkt| <= c.size && Like(s1, DoFill(c, s0, pkt))
    requires Shape(c, s1) && Like(s2, DoDescribe(c, s1)) && Shape(c, s2) && Like(s3, DoOffer(c, s2))
    requires Like(s4, DoPublish(s3))
    ensures s4.mem == Call(c, s0, pkt).mem && s4.sent == s0.sent + [pkt] && s4.nextAvail == (s0.nextAvail + 1) % TWO16
  {
  }
}
