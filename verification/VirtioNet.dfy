/** The network driver: sixteen buffers of 2048 bytes each way, and a ten-byte header before every frame. */
module VirtioNet {
  import opened Bytes
  import opened Virtqueue
  import RxRing
  import TxRing
  import RxDriver
  import TxDriver

  const QUEUE_BUFS := 16
  const BUF_SIZE := 2048
  const VNET_HDR := 10

  function Queue(qs: nat): (c: Config) {
    Config(qs, QUEUE_BUFS, BUF_SIZE)
  }

  /** What the driver hands up of a packet: everything after the virtio header. */
  function Frame(pkt: seq<byte>): (f: seq<byte>) {
    if |pkt| > VNET_HDR then pkt[VNET_HDR..] else []
  }

  class VirtioNetDev {
    const rx: RxDriver.RxQueue
    const tx: TxDriver.TxQueue

    ghost predicate Valid()
      reads this, rx, rx.mem, rx.bufs, tx, tx.mem, tx.bufs
    {
      && rx.Valid() && rx.pc.Idle? && tx.Valid() && rx.c == tx.c == Queue(rx.c.qs)
      && rx.mem != tx.mem && rx.mem != tx.bufs && rx.bufs != tx.mem && rx.bufs != tx.bufs
    }

    /** Any queue of a power of two of at least sixteen entries. */
    constructor Init(qs: nat)
      requires Queue(qs).Valid() && RingSlot(qs, QUEUE_BUFS) == 0
      ensures Valid() && fresh(rx) && fresh(tx) && fresh(rx.mem) && fresh(rx.bufs) && fresh(tx.mem) && fresh(tx.bufs)
      ensures rx.c == tx.c == Config(qs, 16, 2048) && rx.log == RxRing.History(0, QUEUE_BUFS, [], [])
      ensures tx.sent == [] && tx.InStep()
    {
      rx := new RxDriver.RxQueue.Init(Queue(qs));
      tx := new TxDriver.TxQueue.Init(Queue(qs));
    }

    /**
     * One frame, if a buffer has come back, whatever the device does meanwhile: the bytes behind the header of the
     * packet that was delivered next.
     */
    method TryRecv(device: nat -> seq<RxRing.Step>) returns (r: Option<seq<byte>>)
      requires Valid()
      modifies rx, rx.mem, rx.bufs
      ensures Valid()
      ensures r.None? ==> rx.log.received == old(rx.log.received) == rx.log.delivered
      ensures r.Some? ==>
          && rx.log.received <= rx.log.delivered && |rx.log.received| == |old(rx.log.received)| + 1
          && rx.log.received[..|old(rx.log.received)|] == old(rx.log.received)
          && var pkt := rx.log.received[|old(rx.log.received)|];
             && r.value == Frame(pkt) && (|pkt| >= 10 ==> pkt == pkt[..10] + r.value) && (|pkt| < 10 ==> r.value == [])
             && forall frame :: pkt == Zeros(10) + frame ==> r.value == frame
    {
      var got := rx.Recv(device);
      if got.None? {
        return None;
      }
      var (buf, len) := got.value;
      var dataLen := if len > VNET_HDR then len - VNET_HDR else 0;
      assert buf[VNET_HDR..VNET_HDR + dataLen] == Frame(buf[..len]);
      r := Some(buf[VNET_HDR..VNET_HDR + dataLen]);
    }

    /** Send one frame behind a zeroed header. */
    method SendPacket(frame: seq<byte>, device: nat -> seq<TxRing.Step>)
      requires Valid() && VNET_HDR + |frame| <= BUF_SIZE
      modifies tx, tx.mem, tx.bufs
      ensures Valid() && tx.sent == old(tx.sent) + [Zeros(10) + frame]
      ensures tx.Memory() == TxRing.Call(tx.c, old(tx.State()), Zeros(VNET_HDR) + frame).mem
      ensures old(tx.InStep()) && TxRing.LagBelow(old(tx.State()), QUEUE_BUFS) ==> tx.InStep()
      ensures tx.InStep() ==> forall read | read in tx.seen ::
        read.frame < |tx.sent| && read.bytes == tx.sent[read.frame]
    {
      tx.Send(Zeros(VNET_HDR) + frame, device);
      if tx.InStep() {
        TxRing.ReachableReads(tx.c, tx.State());
      }
    }
  }
}
