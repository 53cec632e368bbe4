/** The guest side of the file protocol: packets in and out of the vsock device, reassembly of the answer. */
module VsockFiles {
  import opened Bytes
  import FileServer

  const REQUEST: u16 := 1
  const RESPONSE: u16 := 2
  const RST: u16 := 3
  const RW: u16 := 5
  const CREDIT_UPDATE: u16 := 6

  const GUEST_CID := 3
  const HOST_CID := 2
  const HOST_FILE_PORT: u32 := 1235
  const GUEST_FILE_PORT: u32 := 40001
  const BUF_ALLOC: u32 := 65536
  const HDR_SIZE := 44
  const BUF_SIZE := 4096

  /** The most that path and data of a file request can have together. */
  const MAX_REQUEST := BUF_SIZE - HDR_SIZE - 7

  /** How often a receive loop polls before it gives up. */
  const POLLS := 50_000_000

  /** What a call returns, unless it stops the kernel. */
  datatype Ended<T> = Stops | Returns(value: T)

  /** What one look at the receive queue yields. */
  datatype Poll = Empty | Packet(op: u16, data: seq<byte>)

  /** A packet sent, header included, and how many looks at the receive queue were still to come then. */
  datatype Sent = Sent(left: nat, bytes: seq<byte>)

  /** Packets to come, in polling order; flow-control counter; packets sent. */
  datatype Dev = Dev(rx: seq<Poll>, fwd: u32, sent: seq<Sent>)

  // ---- packet headers (section 5.10.6 of VIRTIO 1.1) ----

  function MakeHdr(len: u32, op: u16, src: u32, dst: u32, fwd: u32): (h: seq<byte>)
    ensures |h| == HDR_SIZE
  {
    LE32(GUEST_CID) + LE32(0) + LE32(HOST_CID) + LE32(0) + LE32(src) + LE32(dst) + LE32(len)
    + LE16(1) + LE16(op) + LE32(0) + LE32(BUF_ALLOC) + LE32(fwd)
  }

  lemma WordAt(h: seq<byte>, at: nat, v: u32)
    requires at + 4 <= |h| && h[at..at + 4] == LE32(v)
    ensures U32At(h, at) == v
  {
    U32Slice(h, at);
    LE32RoundTrip(v);
  }

  /** A word read where it was appended to the fields before it. */
  lemma WordBehind(p: seq<byte>, v: u32, h: seq<byte>)
    requires p + LE32(v) <= h
    ensures p <= h && |p| + 4 <= |h| && U32At(h, |p|) == v
  {
    var q := p + LE32(v);
    assert h[|p|..|p| + 4] == q[|p|..] == LE32(v);
    WordAt(h, |p|, v);
  }

  lemma TwoWordsBehind(p: seq<byte>, v: u32, w: u32, h: seq<byte>)
    requires p + LE32(v) + LE32(w) <= h
    ensures p <= h && |p| + 8 <= |h| && U32At(h, |p|) == v && U32At(h, |p| + 4) == w
  {
    WordBehind(p + LE32(v), w, h);
    WordBehind(p, v, h);
  }

  lemma HalfBehind(p: seq<byte>, v: u16, h: seq<byte>)
    requires p + LE16(v) <= h
    ensures p <= h && |p| + 2 <= |h| && U16At(h, |p|) == v
  {
    var q := p + LE16(v);
    assert h[|p|..|p| + 2] == q[|p|..] == LE16(v);
    LE16RoundTrip(v);
  }

  lemma HalvesBehind(p: seq<byte>, v: u16, w: u16, h: seq<byte>)
    requires p + LE16(v) + LE16(w) <= h
    ensures p <= h && |p| + 4 <= |h| && U16At(h, |p|) == v && U16At(h, |p| + 2) == w
  {
    HalfBehind(p + LE16(v), w, h);
    HalfBehind(p, v, h);
  }

  /** Every field of the header sits where the device looks for it. */
  lemma HeaderFields(len: u32, op: u16, src: u32, dst: u32, fwd: u32)
    ensures var h := MakeHdr(len, op, src, dst, fwd);
      && U32At(h, 0) == GUEST_CID && U32At(h, 4) == 0 && U32At(h, 8) == HOST_CID && U32At(h, 12) == 0
      && U32At(h, 16) == src && U32At(h, 20) == dst && U32At(h, 24) == len && U16At(h, 28) == 1 && U16At(h, 30) == op
      && U32At(h, 32) == 0 && U32At(h, 36) == BUF_ALLOC && U32At(h, 40) == fwd
  {
    var p2 := LE32(GUEST_CID) + LE32(0);
    var p4 := p2 + LE32(HOST_CID) + LE32(0);
    var p6 := p4 + LE32(src) + LE32(dst);
    var p7 := p6 + LE32(len);
    var p9 := p7 + LE16(1) + LE16(op);
    var p11 := p9 + LE32(0) + LE32(BUF_ALLOC);
    var h := p11 + LE32(fwd);
    WordBehind(p11, fwd, h);
    TwoWordsBehind(p9, 0, BUF_ALLOC, h);
    HalvesBehind(p7, 1, op, h);
    WordBehind(p6, len, h);
    TwoWordsBehind(p4, src, dst, h);
    TwoWordsBehind(p2, HOST_CID, 0, h);
    TwoWordsBehind([], GUEST_CID, 0, h);
  }

  // ---- the device state and its operations, as functions ----

  function Received(d: Dev): (r: Dev)
    requires d.rx != []
  {
    var fwd := if d.rx[0].Packet? then Wrap32(d.fwd + |d.rx[0].data|) else d.fwd;
    d.(rx := d.rx[1..], fwd := fwd)
  }

  function SentHdr(d: Dev, src: u32, dst: u32, op: u16): (r: Dev) {
    d.(sent := d.sent + [Sent(|d.rx|, MakeHdr(0, op, src, dst, d.fwd))])
  }

  /** Poll until there is nothing. */
  function Drained(d: Dev): (r: Dev)
    decreases |d.rx|
  {
    if d.rx == [] then d
    else if d.rx[0].Empty? then Received(d)
    else Drained(Received(d))
  }

  /** Wait for the answer to a connection request. */
  function Awaited(d: Dev, src: u32, dst: u32, polls: nat): (r: (bool, Dev))
    decreases polls
  {
    if polls == 0 then (false, d)
    else if d.rx == [] then (false, d)
    else
      var e, d1 := d.rx[0], Received(d);
      if e.Packet? && e.op == RESPONSE then (true, SentHdr(d1, src, dst, CREDIT_UPDATE))
      else if e.Packet? && e.op == RST then (false, d1)
      else Awaited(d1, src, dst, polls - 1)
  }

  function Connected(d: Dev, src: u32, dst: u32): (r: (bool, Dev)) {
    Awaited(SentHdr(Drained(d).(fwd := 0), src, dst, REQUEST), src, dst, POLLS)
  }

  function RequestBytes(op: byte, path: seq<byte>, data: seq<byte>): (p: seq<byte>)
    ensures |p| == 7 + |path| + |data|
  {
    [op] + LE16(|path| % TWO16) + LE32(Wrap32(|data|)) + path + data
  }

  /** The request goes into one packet. */
  predicate Fits(path: seq<byte>, data: seq<byte>) {
    |path| + |data| <= MAX_REQUEST
  }

  function SentRequest(d: Dev, op: byte, path: seq<byte>, data: seq<byte>): (r: Dev)
    requires Fits(path, data)
  {
    var payload := RequestBytes(op, path, data);
    d.(sent := d.sent + [Sent(|d.rx|, MakeHdr(|payload|, RW, GUEST_FILE_PORT, HOST_FILE_PORT, d.fwd) + payload)])
  }

  /** How far the answer has been put together: its status and length once the first packet is in. */
  datatype Partial = NoHeader | Body(status: byte, expected: u32, payload: seq<byte>)

  function Extended(p: Partial, data: seq<byte>): (r: Partial)
    requires p.NoHeader? ==> |data| >= 5
  {
    if p.NoHeader? then Body(data[0], U32At(data, 1), data[5..]) else p.(payload := p.payload + data)
  }

  type Answer = Option<(bool, seq<byte>)>

  /** The receive loop of `recv_file_resp`. */
  function Assembled(d: Dev, p: Partial, polls: nat): (r: (Answer, Dev))
    decreases polls
  {
    if polls == 0 then (None, d)
    else if d.rx == [] then (None, d)
    else
      var e, d1 := d.rx[0], Received(d);
      if e.Empty? then Assembled(d1, p, polls - 1)
      else if e.op == CREDIT_UPDATE then
        Assembled(SentHdr(d1, GUEST_FILE_PORT, HOST_FILE_PORT, CREDIT_UPDATE), p, polls - 1)
      else if e.op == RST then (None, d1)
      else if e.op == RW then
        if p.NoHeader? && |e.data| < 5 then (None, d1)
        else
          var q := Extended(p, e.data);
          if |q.payload| >= q.expected then (Some((q.status == 0, q.payload[..q.expected])), d1)
          else Assembled(d1, q, polls - 1)
      else Assembled(d1, p, polls - 1)
  }

  /** One request and its answer: connect, send, reassemble, close. What does not fit a packet stops the kernel. */
  function Exchanged(d: Dev, op: byte, path: seq<byte>, data: seq<byte>): (r: (Ended<Answer>, Dev)) {
    var (up, d1) := Connected(d, GUEST_FILE_PORT, HOST_FILE_PORT);
    if !up then (Returns(None), d1)
    else if !Fits(path, data) then (Stops, d1)
    else
      var (answer, d2) := Assembled(SentRequest(d1, op, path, data), NoHeader, POLLS);
      (Returns(answer), SentHdr(d2, GUEST_FILE_PORT, HOST_FILE_PORT, RST))
  }

  /** The data of a successful exchange. */
  function Content(e: Ended<Answer>): (r: Ended<Option<seq<byte>>>) {
    match e
    case Stops => Stops
    case Returns(answer) => Returns(if answer.Some? && answer.value.0 then Some(answer.value.1) else None)
  }

  /** Whether an exchange succeeded. */
  function Success(e: Ended<Answer>): (r: Ended<bool>) {
    match e
    case Stops => Stops
    case Returns(answer) => Returns(answer.Some? && answer.value.0)
  }

  // ---- the driver object ----

  class VsockDev {
    var rx: seq<Poll>
    var fwdCnt: u32
    var sent: seq<Sent>

    function State(): (d: Dev)
      reads this
    {
      Dev(rx, fwdCnt, sent)
    }

    constructor (rx: seq<Poll>)
      ensures State() == Dev(rx, 0, [])
    {
      this.rx, fwdCnt, sent := rx, 0, [];
    }

    /** Queue one packet; the buffer takes 4096 bytes, and more stops the kernel. */
    method SendRaw(hdr: seq<byte>, data: seq<byte>) returns (stops: bool)
      requires |hdr| == HDR_SIZE
      modifies this`sent
      ensures stops == (HDR_SIZE + |data| > BUF_SIZE)
      ensures sent == if stops then old(sent) else old(sent) + [Sent(|rx|, hdr + data)]
    {
      if HDR_SIZE + |data| > BUF_SIZE {
        return true;
      }
      sent := sent + [Sent(|rx|, hdr + data)];
      stops := false;
    }

    /** The next packet, counting its payload; when nothing more is to come every look is empty. */
    method TryRecv() returns (r: Poll)
      modifies this`rx, this`fwdCnt
      ensures old(rx) == [] ==> r == Empty && State() == old(State())
      ensures old(rx) != [] ==> r == old(rx)[0] && State() == Received(old(State()))
    {
      if rx == [] {
        return Empty;
      }
      r := rx[0];
      if r.Packet? {
        fwdCnt := Wrap32(fwdCnt + |r.data|);
      }
      rx := rx[1..];
    }

    method SendHdrPort(src: u32, dst: u32, op: u16)
      modifies this`sent
      ensures State() == SentHdr(old(State()), src, dst, op)
    {
      var hdr := MakeHdr(0, op, src, dst, fwdCnt);
      var stops := SendRaw(hdr, []);
      assert hdr + [] == hdr;
    }

    method DrainRx()
      modifies this`rx, this`fwdCnt
      ensures State() == Drained(old(State()))
    {
      ghost var goal := Drained(State());
      var p := TryRecv();
      while p != Empty
        invariant goal == if p == Empty then State() else Drained(State())
        invariant sent == old(sent)
        decreases |rx|, p != Empty
      {
        p := TryRecv();
      }
    }

    method ConnectPort(src: u32, dst: u32) returns (up: bool)
      modifies this
      ensures (up, State()) == Connected(old(State()), src, dst)
    {
      DrainRx();
      fwdCnt := 0;
      SendHdrPort(src, dst, REQUEST);
      ghost var goal := Awaited(State(), src, dst, POLLS);
      var i := 0;
      while i < POLLS
        invariant 0 <= i <= POLLS
        invariant goal == Awaited(State(), src, dst, POLLS - i)
      {
        var p := TryRecv();
        if p.Packet? {
          if p.op == RESPONSE {
            SendHdrPort(src, dst, CREDIT_UPDATE);
            return true;
          } else if p.op == RST {
            return false;
          }
        }
        i := i + 1;
      }
      up := false;
    }

    method SendFileReq(op: byte, path: seq<byte>, data: seq<byte>) returns (stops: bool)
      modifies this`sent
      ensures stops == !Fits(path, data)
      ensures State() == if stops then old(State()) else SentRequest(old(State()), op, path, data)
    {
      var payload := RequestBytes(op, path, data);
      stops := SendRaw(MakeHdr(Wrap32(|payload|), RW, GUEST_FILE_PORT, HOST_FILE_PORT, fwdCnt), payload);
    }

    method RecvFileResp() returns (r: Answer)
      modifies this
      ensures (r, State()) == Assembled(old(State()), NoHeader, POLLS)
    {
      ghost var goal := Assembled(State(), NoHeader, POLLS);
      var headerReceived, expectedLen, status: byte, payload := false, 0, 0xFF, [];
      var i := 0;
      while i < POLLS
        invariant 0 <= i <= POLLS
        invariant 0 <= expectedLen < TWO32
        invariant goal ==
          Assembled(State(), if headerReceived then Body(status, expectedLen, payload) else NoHeader, POLLS - i)
        invariant !headerReceived ==> payload == []
      {
        var p := TryRecv();
        if p.Packet? {
          if p.op == CREDIT_UPDATE {
            SendHdrPort(GUEST_FILE_PORT, HOST_FILE_PORT, CREDIT_UPDATE);
          } else if p.op == RST {
            return None;
          } else if p.op == RW {
            if !headerReceived {
              if |p.data| < 5 {
                return None;
              }
              status := p.data[0];
              expectedLen := U32At(p.data, 1);
              assert payload + p.data[5..] == p.data[5..];
              payload := payload + p.data[5..];
              headerReceived := true;
            } else {
              payload := payload + p.data;
            }
            if headerReceived && |payload| >= expectedLen {
              return Some((status == 0, payload[..expectedLen]));
            }
          }
        }
        i := i + 1;
      }
      r := None;
    }

    method Exchange(op: byte, path: seq<byte>, data: seq<byte>) returns (r: Ended<Answer>)
      modifies this
      ensures (r, State()) == Exchanged(old(State()), op, path, data)
    {
      var up := ConnectPort(GUEST_FILE_PORT, HOST_FILE_PORT);
      if !up {
        return Returns(None);
      }
      var stops := SendFileReq(op, path, data);
      if stops {
        return Stops;
      }
      var answer := RecvFileResp();
      SendHdrPort(GUEST_FILE_PORT, HOST_FILE_PORT, RST);
      r := Returns(answer);
    }

    method FileRead(path: seq<byte>) returns (r: Ended<Option<seq<byte>>>)
      modifies this
      ensures var (e, d) := Exchanged(old(State()), FileServer.OP_READ, path, []);
        r == Content(e) && State() == d
    {
      var e := Exchange(FileServer.OP_READ, path, []);
      r := Content(e);
    }

    method FileWrite(path: seq<byte>, data: seq<byte>) returns (ok: Ended<bool>)
      modifies this
      ensures var (e, d) := Exchanged(old(State()), FileServer.OP_WRITE, path, data);
        ok == Success(e) && State() == d
    {
      var e := Exchange(FileServer.OP_WRITE, path, data);
      ok := Success(e);
    }

    method FileList(dir: seq<byte>) returns (r: Ended<Option<seq<byte>>>)
      modifies this
      ensures var (e, d) := Exchanged(old(State()), FileServer.OP_LIST, dir, []);
        r == Content(e) && State() == d
    {
      var e := Exchange(FileServer.OP_LIST, dir, []);
      r := Content(e);
    }
  }
}
