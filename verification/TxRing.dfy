/**
 * The transmit queue of the network and vsock drivers. The driver never looks at the used ring: whether a
 * buffer is free is a matter of how far the device lags behind.
 */
module TxRing {
  import opened Bytes
  import opened Virtqueue

  /** A descriptor: which buffer, and how many bytes of it. */
  datatype Desc = Desc(buf: nat, len: nat)

  datatype Shared = Shared(desc: seq<Desc>, avail: seq<nat>, availIdx: nat, bufs: seq<seq<byte>>)

  /** Where the driver is inside one call of `send_packet`. */
  datatype Pc = Idle | Filled(pkt: seq<byte>) | Described(pkt: seq<byte>) | Offered(pkt: seq<byte>)

  /** The chain heads the device has taken, in order, and the frames it is finished with. */
  datatype Device = Device(heads: seq<nat>, done: set<nat>)

  /** What the device read, and for which frame. */
  datatype Read = Read(frame: nat, bytes: seq<byte>)

  datatype Tx = Tx(mem: Shared, nextAvail: nat, pc: Pc, dev: Device, sent: seq<seq<byte>>, seen: seq<Read>)

  datatype Step = Fill(pkt: seq<byte>) | Describe | Offer | Publish | Take | ReadFrame(k: nat) | Finish(k: nat)

  /** n buffers of c.size bytes behind a ring whose size is a multiple of n. */
  predicate ValidTx(c: Config) {
    c.Valid() && RingSlot(c.qs, c.n) == 0
  }

  predicate Shape(c: Config, s: Tx) {
    && ValidTx(c) && |s.mem.desc| == |s.mem.avail| == c.qs && |s.mem.bufs| == c.n
    && (forall i :: 0 <= i < c.n ==> |s.mem.bufs[i]| == c.size)
    && |s.dev.heads| <= |s.sent|
  }

  /** Frames handed to the device that it is not finished with. */
  predicate Owned(s: Tx, k: nat) {
    k < |s.sent| && k !in s.dev.done
  }

  /** The device is at most n - 1 frames behind. */
  ghost predicate LagBelow(s: Tx, n: nat) {
    forall k: nat {:trigger Owned(s, k)} :: Owned(s, k) ==> |s.sent| - k < n
  }

  /** The memory the device will go through for frame k is that of frame k. */
  predicate Intact(c: Config, s: Tx, k: nat)
    requires Shape(c, s) && k < |s.sent|
  {
    && s.mem.desc[RingSlot(k, c.qs)] == Desc(RingSlot(k, c.n), |s.sent[k]|)
    && (if k < |s.dev.heads| then s.dev.heads[k] else s.mem.avail[RingSlot(k, c.qs)]) == RingSlot(k, c.qs)
    && |s.sent[k]| <= c.size && s.mem.bufs[RingSlot(k, c.n)][..|s.sent[k]|] == s.sent[k]
  }

  /** The frame being sent is in its own buffer, descriptor and ring entry as far as the driver has got. */
  predicate Prepared(c: Config, s: Tx)
    requires Shape(c, s)
  {
    var k := |s.sent|;
    s.pc.Idle? || (
      && |s.pc.pkt| <= c.size && s.mem.bufs[RingSlot(k, c.n)][..|s.pc.pkt|] == s.pc.pkt
      && (s.pc.Filled? || s.mem.desc[RingSlot(k, c.qs)] == Desc(RingSlot(k, c.n), |s.pc.pkt|))
      && (s.pc.Offered? ==> s.mem.avail[RingSlot(k, c.qs)] == RingSlot(k, c.qs)))
  }

  ghost predicate Inv(c: Config, s: Tx) {
    && Shape(c, s)
    && s.mem.availIdx == s.nextAvail == |s.sent| % TWO16
    && (forall k: nat {:trigger Owned(s, k)} :: Owned(s, k) ==> |s.sent| - k <= c.n && Intact(c, s, k))
    && (!s.pc.Idle? ==> LagBelow(s, c.n))
    && Prepared(c, s)
    && (forall k :: k in s.dev.done ==> k < |s.dev.heads|)
    && forall r {:trigger r in s.seen} :: r in s.seen ==> r.frame < |s.dev.heads| && r.bytes == s.sent[r.frame]
  }

  /** A send may start only when the lag is bounded; the device acts at any time on what it owns. */
  ghost predicate Enabled(c: Config, s: Tx, step: Step) {
    match step
    case Fill(pkt) => s.pc.Idle? && |pkt| <= c.size && LagBelow(s, c.n)
    case Describe => s.pc.Filled?
    case Offer => s.pc.Described?
    case Publish => s.pc.Offered?
    case Take => s.mem.availIdx != |s.dev.heads| % TWO16
    case ReadFrame(k) => k < |s.dev.heads| && k !in s.dev.done
    case Finish(k) => k < |s.dev.heads|
  }

  /** Buffer of the next frame, by the 16-bit counter as the driver keeps it. */
  function NextBuf(c: Config, s: Tx): (i: nat)
    requires 0 < c.n && 0 < c.qs
    ensures i < c.n
  {
    RingSlot(RingSlot(s.nextAvail, c.qs), c.n)
  }

  function DoFill(c: Config, s: Tx, pkt: seq<byte>): (r: Tx)
    requires Shape(c, s) && |pkt| <= c.size
  {
    var i := NextBuf(c, s);
    s.(mem := s.mem.(bufs := s.mem.bufs[i := pkt + s.mem.bufs[i][|pkt|..]]), pc := Filled(pkt))
  }

  function DoDescribe(c: Config, s: Tx): (r: Tx)
    requires Shape(c, s) && s.pc.Filled?
  {
    s.(mem := s.mem.(desc := s.mem.desc[RingSlot(s.nextAvail, c.qs) := Desc(NextBuf(c, s), |s.pc.pkt|)]),
       pc := Described(s.pc.pkt))
  }

  function DoOffer(c: Config, s: Tx): (r: Tx)
    requires Shape(c, s) && s.pc.Described?
  {
    var i := RingSlot(s.nextAvail, c.qs);
    s.(mem := s.mem.(avail := s.mem.avail[i := i]), pc := Offered(s.pc.pkt))
  }

  function DoPublish(s: Tx): (r: Tx)
    requires s.pc.Offered?
  {
    var next := (s.nextAvail + 1) % TWO16;
    s.(mem := s.mem.(availIdx := next), nextAvail := next, pc := Idle, sent := s.sent + [s.pc.pkt])
  }

  function DoTake(c: Config, s: Tx): (r: Tx)
    requires Shape(c, s)
  {
    s.(dev := s.dev.(heads := s.dev.heads + [s.mem.avail[RingSlot(|s.dev.heads|, c.qs)]]))
  }

  /** The bytes behind a chain head; a head or descriptor that names nothing reads as nothing. */
  function Behind(s: Tx, head: nat): (b: seq<byte>) {
    if head < |s.mem.desc| && s.mem.desc[head].buf < |s.mem.bufs|
        && s.mem.desc[head].len <= |s.mem.bufs[s.mem.desc[head].buf]|
    then s.mem.bufs[s.mem.desc[head].buf][..s.mem.desc[head].len] else []
  }

  function DoRead(s: Tx, k: nat): (r: Tx)
    requires k < |s.dev.heads|
  {
    s.(seen := s.seen + [Read(k, Behind(s, s.dev.heads[k]))])
  }

  function DoFinish(s: Tx, k: nat): (r: Tx) {
    s.(dev := s.dev.(done := s.dev.done + {k}))
  }

  ghost function Apply(c: Config, s: Tx, step: Step): (r: Tx)
    requires Shape(c, s) && Enabled(c, s, step)
  {
    match step
    case Fill(pkt) => DoFill(c, s, pkt)
    case Describe => DoDescribe(c, s)
    case Offer => DoOffer(c, s)
    case Publish => DoPublish(s)
    case Take => DoTake(c, s)
    case ReadFrame(k) => DoRead(s, k)
    case Finish(k) => DoFinish(s, k)
  }

  // ---- the slots of the next frame belong to no owned frame ----

  lemma {:induction false} SlotOfSlot(k: nat, qs: nat, n: nat)
    requires n > 0 && qs > 0 && RingSlot(qs, n) == 0
    ensures RingSlot(RingSlot(k, qs), n) == RingSlot(k, n)
  {
    if k >= qs {
      SlotOfSlot(k - qs, qs, n);
      SlotSkips(k - qs, qs, n);
    }
  }

  lemma NextSlots(c: Config, s: Tx)
    requires Inv(c, s)
    ensures RingSlot(s.nextAvail, c.qs) == RingSlot(|s.sent|, c.qs) && NextBuf(c, s) == RingSlot(|s.sent|, c.n)
  {
    WrappedSlot(|s.sent|, c.qs);
    SlotOfSlot(|s.sent|, c.qs, c.n);
  }

  lemma OwnedApart(c: Config, s: Tx, k: nat)
    requires Shape(c, s) && LagBelow(s, c.n) && Owned(s, k)
    ensures RingSlot(k, c.n) != RingSlot(|s.sent|, c.n) && RingSlot(k, c.qs) != RingSlot(|s.sent|, c.qs)
  {
    DistinctSlots(k, |s.sent|, c.n);
    DistinctSlots(k, |s.sent|, c.qs);
  }

  // ---- every step keeps the invariant ----

  lemma FillKeepsInv(c: Config, s: Tx, pkt: seq<byte>)
    requires Inv(c, s) && Enabled(c, s, Fill(pkt))
    ensures Inv(c, DoFill(c, s, pkt))
  {
    var t := DoFill(c, s, pkt);
    NextSlots(c, s);
    forall k: nat {:trigger Owned(t, k)} | Owned(t, k) ensures |t.sent| - k < c.n && Intact(c, t, k) {
      assert Owned(s, k);
      OwnedApart(c, s, k);
    }
  }

  lemma DescribeKeepsInv(c: Config, s: Tx)
    requires Inv(c, s) && s.pc.Filled?
    ensures Inv(c, DoDescribe(c, s))
  {
    var t := DoDescribe(c, s);
    NextSlots(c, s);
    forall k: nat {:trigger Owned(t, k)} | Owned(t, k) ensures |t.sent| - k < c.n && Intact(c, t, k) {
      assert Owned(s, k);
      OwnedApart(c, s, k);
    }
  }

  lemma OfferKeepsInv(c: Config, s: Tx)
    requires Inv(c, s) && s.pc.Described?
    ensures Inv(c, DoOffer(c, s))
  {
    var t := DoOffer(c, s);
    NextSlots(c, s);
    forall k: nat {:trigger Owned(t, k)} | Owned(t, k) ensures |t.sent| - k < c.n && Intact(c, t, k) {
      assert Owned(s, k);
      OwnedApart(c, s, k);
    }
  }

  lemma PublishKeepsInv(c: Config, s: Tx)
    requires Inv(c, s) && s.pc.Offered?
    ensures Inv(c, DoPublish(s))
  {
    var t := DoPublish(s);
    Advance(|s.sent|, 1);
    forall k: nat {:trigger Owned(t, k)} | Owned(t, k) ensures |t.sent| - k <= c.n && Intact(c, t, k) {
      if k < |s.sent| {
        assert Owned(s, k);
      }
    }
  }

  lemma TakeKeepsInv(c: Config, s: Tx)
    requires Inv(c, s) && Enabled(c, s, Take)
    ensures Inv(c, DoTake(c, s))
  {
    var t, h := DoTake(c, s), |s.dev.heads|;
    forall k: nat {:trigger Owned(t, k)} | Owned(t, k) ensures |t.sent| - k <= c.n && Intact(c, t, k) {
      assert Owned(s, k);
    }
    forall k: nat {:trigger Owned(t, k)} | Owned(t, k) && !t.pc.Idle? ensures |t.sent| - k < c.n {
      assert Owned(s, k);
    }
  }

  lemma ReadKeepsInv(c: Config, s: Tx, k: nat)
    requires Inv(c, s) && Enabled(c, s, ReadFrame(k))
    ensures Inv(c, DoRead(s, k))
    ensures DoRead(s, k).seen == s.seen + [Read(k, s.sent[k])]
  {
    var t := DoRead(s, k);
    assert Owned(s, k) && Intact(c, s, k);
    forall j: nat {:trigger Owned(t, j)} | Owned(t, j) ensures |t.sent| - j <= c.n && Intact(c, t, j) {
      assert Owned(s, j);
    }
    forall j: nat {:trigger Owned(t, j)} | Owned(t, j) && !t.pc.Idle? ensures |t.sent| - j < c.n {
      assert Owned(s, j);
    }
  }

  lemma FinishKeepsInv(c: Config, s: Tx, k: nat)
    requires Inv(c, s) && Enabled(c, s, Finish(k))
    ensures Inv(c, DoFinish(s, k))
  {
    var t := DoFinish(s, k);
    forall j: nat {:trigger Owned(t, j)} | Owned(t, j) ensures |t.sent| - j <= c.n && Intact(c, t, j) {
      assert Owned(s, j);
    }
    forall j: nat {:trigger Owned(t, j)} | Owned(t, j) && !t.pc.Idle? ensures |t.sent| - j < c.n {
      assert Owned(s, j);
    }
  }

  lemma StepKeepsInv(c: Config, s: Tx, step: Step)
    requires Inv(c, s) && Enabled(c, s, step)
    ensures Inv(c, Apply(c, s, step))
  {
    match step
    case Fill(pkt) => FillKeepsInv(c, s, pkt);
    case Describe => DescribeKeepsInv(c, s);
    case Offer => OfferKeepsInv(c, s);
    case Publish => PublishKeepsInv(c, s);
    case Take => TakeKeepsInv(c, s);
    case ReadFrame(k) => ReadKeepsInv(c, s, k);
    case Finish(k) => FinishKeepsInv(c, s, k);
  }

  // ---- runs ----

  function Init(mem: Shared): (s: Tx) {
    Tx(mem.(availIdx := 0), 0, Idle, Device([], {}), [], [])
  }

  ghost predicate Runs(c: Config, s: Tx, steps: seq<Step>)
    decreases |steps|
  {
    Shape(c, s) && (steps == [] || (Enabled(c, s, steps[0]) && Runs(c, Apply(c, s, steps[0]), steps[1..])))
  }

  ghost function After(c: Config, s: Tx, steps: seq<Step>): (r: Tx)
    requires Runs(c, s, steps)
    decreases |steps|
  {
    if steps == [] then s else After(c, Apply(c, s, steps[0]), steps[1..])
  }

  lemma {:induction false} RunKeepsInv(c: Config, s: Tx, steps: seq<Step>)
    requires Inv(c, s) && Runs(c, s, steps)
    ensures Inv(c, After(c, s, steps))
    decreases |steps|
  {
    if steps != [] {
      StepKeepsInv(c, s, steps[0]);
      RunKeepsInv(c, Apply(c, s, steps[0]), steps[1..]);
    }
  }

  /**
   * While no send starts with the device n or more frames behind, every read the device makes in any
   * interleaving returns exactly the bytes of the frame it is reading, and every frame it still owns is intact.
   */
  lemma ReadsAreFrames(c: Config, mem: Shared, steps: seq<Step>)
    requires Runs(c, Init(mem), steps)
    ensures var s := After(c, Init(mem), steps);
      && Shape(c, s)
      && (forall r :: r in s.seen ==> r.frame < |s.sent| && r.bytes == s.sent[r.frame])
      && (forall k: nat :: Owned(s, k) ==> Intact(c, s, k))
  {
    RunKeepsInv(c, Init(mem), steps);
  }

  /**
   * The bound is sharp: filling the buffer of the next frame leaves every owned frame readable, whatever the
   * next frame is, exactly when no owned non-empty frame shares its buffer.
   */
  lemma OverwriteIff(c: Config, s: Tx)
    requires Inv(c, s) && s.pc.Idle? && c.size > 0
    ensures (forall k: nat {:trigger Owned(s, k)} :: Owned(s, k) && s.sent[k] != [] ==> |s.sent| - k < c.n)
       <==> (forall pkt, k: nat {:trigger DoFill(c, s, pkt), Owned(s, k)} :: |pkt| <= c.size && Owned(s, k) ==>
           Intact(c, DoFill(c, s, pkt), k))
  {
    NextSlots(c, s);
    if k: nat :| Owned(s, k) && s.sent[k] != [] && |s.sent| - k >= c.n {
      assert Intact(c, s, k);
      LagIsOneRound(k, c.n);
      var pkt: seq<byte> := [if s.sent[k][0] == 0 then 1 else 0];
      var t := DoFill(c, s, pkt);
      assert t.mem.bufs[RingSlot(k, c.n)][0] == pkt[0];
      assert t.mem.bufs[RingSlot(k, c.n)][..|s.sent[k]|][0] == pkt[0];
      assert !Intact(c, t, k);
    } else {
      forall pkt, k: nat {:trigger DoFill(c, s, pkt), Owned(s, k)} | |pkt| <= c.size && Owned(s, k)
        ensures Intact(c, DoFill(c, s, pkt), k)
      {
        assert Intact(c, s, k);
        if s.sent[k] != [] {
          DistinctSlots(k, |s.sent|, c.n);
        }
      }
    }
  }

  /** n sends of one packet. */
  function Sends(pkt: seq<byte>, n: nat): (steps: seq<Step>) {
    if n == 0 then [] else Sends(pkt, n - 1) + [Fill(pkt)] + [Describe] + [Offer] + [Publish]
  }

  lemma {:induction false} RunGrows(c: Config, s: Tx, steps: seq<Step>, step: Step)
    requires Runs(c, s, steps) && Shape(c, After(c, s, steps)) && Enabled(c, After(c, s, steps), step)
    requires Shape(c, Apply(c, After(c, s, steps), step))
    ensures Runs(c, s, steps + [step]) && After(c, s, steps + [step]) == Apply(c, After(c, s, steps), step)
    decreases |steps|
  {
    if steps == [] {
      assert [] + [step] == [step] && [step][1..] == [];
      assert Runs(c, Apply(c, s, step), []);
    } else {
      assert (steps + [step])[1..] == steps[1..] + [step];
      RunGrows(c, Apply(c, s, steps[0]), steps[1..], step);
    }
  }

  lemma OneSend(c: Config, s0: Tx, steps: seq<Step>, pkt: seq<byte>)
    requires Runs(c, s0, steps) && Shape(c, After(c, s0, steps)) && |pkt| <= c.size
    requires After(c, s0, steps).pc.Idle? && LagBelow(After(c, s0, steps), c.n)
    ensures var more := steps + [Fill(pkt)] + [Describe] + [Offer] + [Publish];
      Runs(c, s0, more) && After(c, s0, more) == Call(c, After(c, s0, steps), pkt) && Shape(c, After(c, s0, more))
  {
    RunGrows(c, s0, steps, Fill(pkt));
    RunGrows(c, s0, steps + [Fill(pkt)], Describe);
    RunGrows(c, s0, steps + [Fill(pkt)] + [Describe], Offer);
    RunGrows(c, s0, steps + [Fill(pkt)] + [Describe] + [Offer], Publish);
  }

  /** A device that does nothing lets as many sends through as there are buffers. */
  lemma {:induction false} SendsRun(c: Config, mem: Shared, pkt: seq<byte>, n: nat)
    requires Shape(c, Init(mem)) && |pkt| <= c.size && n <= c.n
    ensures Runs(c, Init(mem), Sends(pkt, n))
    ensures var s := After(c, Init(mem), Sends(pkt, n));
      && Shape(c, s) && s.pc.Idle? && s.dev == Device([], {}) && |s.sent| == n
      && forall k :: 0 <= k < n ==> s.sent[k] == pkt
  {
    if n > 0 {
      SendsRun(c, mem, pkt, n - 1);
      OneSend(c, Init(mem), Sends(pkt, n - 1), pkt);
    }
  }

  /** States in which the next fill spoils a frame the device owns can be reached, for every queue. */
  lemma FullRoundReached(c: Config, mem: Shared, pkt: seq<byte>)
    requires Shape(c, Init(mem)) && 0 < |pkt| <= c.size
    ensures Runs(c, Init(mem), Sends(pkt, c.n))
    ensures var s := After(c, Init(mem), Sends(pkt, c.n));
      && Inv(c, s) && s.pc.Idle?
      && exists next, k: nat :: |next| <= c.size && Owned(s, k) && !Intact(c, DoFill(c, s, next), k)
  {
    SendsRun(c, mem, pkt, c.n);
    RunKeepsInv(c, Init(mem), Sends(pkt, c.n));
    var s := After(c, Init(mem), Sends(pkt, c.n));
    assert Owned(s, 0) && s.sent[0] != [] && |s.sent| - 0 >= c.n;
    OverwriteIff(c, s);
  }

  lemma LagIsOneRound(k: nat, n: nat)
    requires n > 0
    ensures RingSlot(k + n, n) == RingSlot(k, n)
  {
  }

  // ---- one whole call ----

  /** `send_packet` when the device happens not to act in between. */
  function Call(c: Config, s: Tx, pkt: seq<byte>): (r: Tx)
    requires Shape(c, s) && |pkt| <= c.size
  {
    DoPublish(DoOffer(c, DoDescribe(c, DoFill(c, s, pkt))))
  }

  // ---- reachable states ----

  /** Some interleaving in which no send starts with the device a full round behind leads from the start to s. */
  ghost predicate Reachable(c: Config, s: Tx) {
    exists mem, steps :: Runs(c, Init(mem), steps) && After(c, Init(mem), steps) == s
  }

  lemma InitReachable(c: Config, mem: Shared)
    requires Shape(c, Init(mem))
    ensures Reachable(c, Init(mem))
  {
    assert Runs(c, Init(mem), []) && After(c, Init(mem), []) == Init(mem);
  }

  lemma StepReachable(c: Config, s: Tx, step: Step)
    requires Reachable(c, s) && Shape(c, s) && Enabled(c, s, step)
    ensures Shape(c, Apply(c, s, step)) && Reachable(c, Apply(c, s, step))
  {
    var mem, steps :| Runs(c, Init(mem), steps) && After(c, Init(mem), steps) == s;
    RunKeepsInv(c, Init(mem), steps);
    StepKeepsInv(c, s, step);
    RunGrows(c, Init(mem), steps, step);
  }

  /** What the device has read in a reachable state is the frames sent, byte for byte. */
  lemma ReachableReads(c: Config, s: Tx)
    requires Reachable(c, s)
    ensures Shape(c, s) && forall r :: r in s.seen ==> r.frame < |s.sent| && r.bytes == s.sent[r.frame]
  {
    var mem, steps :| Runs(c, Init(mem), steps) && After(c, Init(mem), steps) == s;
    ReadsAreFrames(c, mem, steps);
  }
}
