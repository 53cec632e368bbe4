/** The packet queues under the vsock device: eight buffers of 4096 bytes each way,
    headers read and written in place. */
module VsockQueues {
  import opened Bytes
  import opened Virtqueue
  import opened VsockFiles
  import RxRing
  import TxRing
  import RxDriver
  import TxDriver
  import FileProtocol
  import FileServer
  import Utf8

  const QUEUE_SIZE := 8

  const QUEUE := Config(QUEUE_SIZE, QUEUE_SIZE, BUF_SIZE)

  lemma QueueFits()
    ensures QUEUE.Valid() && RingSlot(QUEUE_SIZE, QUEUE_SIZE) == 0
  {
    SlotIsRemainder(TWO16, QUEUE_SIZE);
  }

  /** What a packet in a buffer says: its operation, and what is behind the header. */
  function Decoded(buf: seq<byte>, len: nat): (p: Poll)
    requires len <= |buf| && 32 <= |buf|
  {
    Packet(U16At(buf, 30), if len > HDR_SIZE then buf[HDR_SIZE..len] else [])
  }

  /** A packet as it is sent decodes to its operation and payload, in a buffer with anything behind it. */
  lemma SentDecodes(len: u32, op: u16, src: u32, dst: u32, fwd: u32, payload: seq<byte>, rest: seq<byte>)
    ensures var h := MakeHdr(len, op, src, dst, fwd);
      Decoded(h + payload + rest, HDR_SIZE + |payload|) == Packet(op, payload)
  {
    var h := MakeHdr(len, op, src, dst, fwd);
    var buf := h + payload + rest;
    HeaderFields(len, op, src, dst, fwd);
    assert buf[30] == h[30] && buf[31] == h[31];
    assert buf[HDR_SIZE..HDR_SIZE + |payload|] == payload;
  }

  /** The packet of a file request decodes to the request the server is to read. */
  lemma RequestFramed(d: Dev, op: byte, path: seq<byte>, data: seq<byte>)
    requires Fits(path, data) && Utf8.Valid(path)
    ensures var sent := SentRequest(d, op, path, data).sent;
      && sent[..|d.sent|] == d.sent && |sent| == |d.sent| + 1
      && var frame := sent[|d.sent|].bytes;
         && |frame| <= BUF_SIZE && Decoded(frame, |frame|) == Packet(RW, RequestBytes(op, path, data))
         && FileServer.Parsed(Decoded(frame, |frame|).data) == FileServer.Request(op, path, data)
  {
    var payload := RequestBytes(op, path, data);
    SentDecodes(|payload|, RW, GUEST_FILE_PORT, HOST_FILE_PORT, d.fwd, payload, []);
    var frame := MakeHdr(|payload|, RW, GUEST_FILE_PORT, HOST_FILE_PORT, d.fwd) + payload;
    assert frame + [] == frame;
    FileProtocol.RequestUnderstood(op, path, data);
  }

  class VsockPort {
    const rx: RxDriver.RxQueue
    const tx: TxDriver.TxQueue
    var fwdCnt: u32

    ghost predicate Valid()
      reads this, rx, rx.mem, rx.bufs, tx, tx.mem, tx.bufs
    {
      && rx.Valid() && rx.pc.Idle? && tx.Valid() && rx.c == tx.c == QUEUE
      && rx.mem != tx.mem && rx.mem != tx.bufs && rx.bufs != tx.mem && rx.bufs != tx.bufs
    }

    constructor Init()
      ensures Valid() && fwdCnt == 0 && tx.sent == [] && tx.InStep()
      ensures fresh(rx) && fresh(tx) && fresh(rx.mem) && fresh(rx.bufs) && fresh(tx.mem) && fresh(tx.bufs)
    {
      QueueFits();
      rx := new RxDriver.RxQueue.Init(QUEUE);
      tx := new TxDriver.TxQueue.Init(QUEUE);
      fwdCnt := 0;
    }

    /** The next packet delivered, if a buffer has come back; its payload is added to the flow-control counter. */
    method TryRecv(device: nat -> seq<RxRing.Step>) returns (r: Poll)
      requires Valid()
      modifies this`fwdCnt, rx, rx.mem, rx.bufs
      ensures Valid()
      ensures r.Empty? ==> rx.log.received == old(rx.log.received) == rx.log.delivered && fwdCnt == old(fwdCnt)
      ensures r.Packet? ==>
          && rx.log.received <= rx.log.delivered && |rx.log.received| == |old(rx.log.received)| + 1
          && rx.log.received[..|old(rx.log.received)|] == old(rx.log.received)
          && var pkt := rx.log.received[|old(rx.log.received)|];
             && r.data == (if |pkt| > HDR_SIZE then pkt[HDR_SIZE..] else [])
                 && (|pkt| >= 44 ==> r.op == U16At(pkt, 30) && pkt == pkt[..44] + r.data)
      ensures r.Packet? ==> fwdCnt == (old(fwdCnt) + |r.data|) % TWO32
    {
      var got := rx.Recv(device);
      if got.None? {
        return Empty;
      }
      var (buf, len) := got.value;
      r := Decoded(buf, len);
      fwdCnt := Wrap32(fwdCnt + |r.data|);
      DecodedFront(buf, len);
    }

    /** Header and payload in one buffer, one descriptor; what does not fit the buffer stops the kernel. */
    method SendRaw(hdr: seq<byte>, data: seq<byte>, device: nat -> seq<TxRing.Step>) returns (stops: bool)
      requires Valid() && |hdr| == HDR_SIZE
      modifies tx, tx.mem, tx.bufs
      ensures Valid() && stops == (HDR_SIZE + |data| > BUF_SIZE)
      ensures stops ==> tx.State() == old(tx.State())
      ensures !stops ==>
          && tx.sent == old(tx.sent) + [hdr + data]
          && tx.Memory() == TxRing.Call(QUEUE, old(tx.State()), hdr + data).mem
      ensures old(tx.InStep()) && TxRing.LagBelow(old(tx.State()), QUEUE_SIZE) ==> tx.InStep()
      ensures tx.InStep() ==> forall read | read in tx.seen ::
        read.frame < |tx.sent| && read.bytes == tx.sent[read.frame]
    {
      stops := HDR_SIZE + |data| > BUF_SIZE;
      if !stops {
        tx.Send(hdr + data, device);
      }
      if tx.InStep() {
        TxRing.ReachableReads(tx.c, tx.State());
      }
    }
  }

  /** Only the bytes that count decide, if they hold a header. */
  lemma DecodedFront(buf: seq<byte>, len: nat)
    requires len <= |buf| && 32 <= |buf|
    ensures Decoded(buf, len).data == if len > HDR_SIZE then buf[..len][HDR_SIZE..] else []
    ensures len >= HDR_SIZE ==> Decoded(buf, len) == Decoded(buf[..len], len)
  {
    if len > HDR_SIZE {
      assert buf[..len][HDR_SIZE..len] == buf[HDR_SIZE..len] == buf[..len][HDR_SIZE..];
    }
  }
}
