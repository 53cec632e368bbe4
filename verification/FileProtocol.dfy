/** Both halves of the file protocol together: what is written is what is read, however packets are cut. */
module FileProtocol {
  import opened Bytes
  import opened VsockFiles
  import Server = FileServer
  import Utf8

  // ---- the answer comes through any fragmentation ----

  /** Payload of the data packets, in order. */
  function Stream(es: seq<Poll>): (s: seq<byte>) {
    if es == [] then []
    else (if es[0].Packet? && es[0].op == RW then es[0].data else []) + Stream(es[1..])
  }

  predicate IsResponse(e: Poll) {
    e.Packet? && e.op == RESPONSE
  }

  predicate IsReset(e: Poll) {
    e.Packet? && e.op == RST
  }

  predicate NoReset(es: seq<Poll>) {
    forall i :: 0 <= i < |es| ==> !(es[i].Packet? && es[i].op == RST)
  }

  /** The first data packet, if any, has at least n bytes. */
  predicate FirstAtLeast(es: seq<Poll>, n: nat) {
    es != [] && (if es[0].Packet? && es[0].op == RW then |es[0].data| >= n else FirstAtLeast(es[1..], n))
  }

  /** Bytes still missing after the partial answer p, when `rest` is all that follows in the stream. */
  predicate Completes(p: Partial, rest: seq<byte>, status: byte, body: seq<byte>) {
    match p
    case NoHeader => |body| < TWO32 && rest == Server.Response(status, body)
    case Body(st, n, got) => st == status && n == |body| && |got| < n && got + rest == body
  }

  lemma ResponseParts(status: byte, body: seq<byte>)
    requires |body| < TWO32
    ensures var r := Server.Response(status, body);
      |r| == 5 + |body| && r[0] == status && U32At(r, 1) == |body| && r[5..] == body
  {
    var r := Server.Response(status, body);
    assert r[1..5] == LE32(|body|);
    U32Slice(r, 1);
    LE32RoundTrip(|body|);
  }

  /** The first packet of an answer carries its status and length. */
  lemma FirstPacket(data: seq<byte>, rest: seq<byte>, status: byte, body: seq<byte>)
    requires |data| >= 5 && Completes(NoHeader, data + rest, status, body)
    ensures data[0] == status && U32At(data, 1) == |body| && data[5..] + rest == body
  {
    var r := Server.Response(status, body);
    ResponseParts(status, body);
    assert r == data + rest;
    assert forall i :: 0 <= i < 5 ==> data[i] == r[i];
    assert r[5..] == data[5..] + rest;
  }

  /**
   * Whatever packets the answer is cut into, with empty polls, credit updates and any other packets but
   * resets in between, the receive loop puts it together exactly.
   */
  lemma {:induction false} AssemblesAnswer(d: Dev, es: seq<Poll>, more: seq<Poll>, p: Partial, polls: nat,
      status: byte, body: seq<byte>)
    requires d.rx == es + more && |es| <= polls && NoReset(es)
    requires Completes(p, Stream(es), status, body) && (p.NoHeader? ==> FirstAtLeast(es, 5))
    ensures Assembled(d, p, polls).0 == Some((status == 0, body))
    decreases |es|
  {
    assert p.Body? ==> |Stream(es)| == p.expected - |p.payload|;
    var e, d1, rest := es[0], Received(d), es[1..];
    assert d.rx[0] == e && d1.rx == rest + more;
    assert NoReset(rest);
    if e.Packet? && e.op == RW {
      if p.NoHeader? {
        FirstPacket(e.data, Stream(rest), status, body);
      }
      var q := Extended(p, e.data);
      assert q.payload + Stream(rest) == body;
      if |q.payload| >= q.expected {
        assert q.payload[..q.expected] == body;
      } else {
        AssemblesAnswer(d1, rest, more, q, polls - 1, status, body);
      }
    } else {
      assert Stream(es) == Stream(rest);
      var update := e.Packet? && e.op == CREDIT_UPDATE;
      var next := if update then SentHdr(d1, GUEST_FILE_PORT, HOST_FILE_PORT, CREDIT_UPDATE) else d1;
      AssemblesAnswer(next, rest, more, p, polls - 1, status, body);
    }
  }

  /** The answer is lost as soon as its first data packet is too short to hold the header. */
  lemma {:induction false} ShortFirstPacketLoses(d: Dev, es: seq<Poll>, more: seq<Poll>, polls: nat)
    requires d.rx == es + more && |es| <= polls && NoReset(es) && !FirstAtLeast(es, 5) && Stream(es) != []
    ensures Assembled(d, NoHeader, polls).0 == None
    decreases |es|
  {
    var e, d1, rest := es[0], Received(d), es[1..];
    assert d.rx[0] == e && d1.rx == rest + more;
    if !(e.Packet? && e.op == RW) {
      assert Stream(es) == Stream(rest);
      var update := e.Packet? && e.op == CREDIT_UPDATE;
      var next := if update then SentHdr(d1, GUEST_FILE_PORT, HOST_FILE_PORT, CREDIT_UPDATE) else d1;
      assert NoReset(rest);
      ShortFirstPacketLoses(next, rest, more, polls - 1);
    }
  }

  /** An answer that arrives complete and without a reset is understood exactly when its first packet has 5 bytes. */
  lemma AnswerUnderstoodIff(d: Dev, es: seq<Poll>, more: seq<Poll>, status: byte, body: seq<byte>)
    requires |body| < TWO32 && d.rx == es + more && |es| <= POLLS && NoReset(es)
    requires Stream(es) == Server.Response(status, body)
    ensures Assembled(d, NoHeader, POLLS).0 == Some((status == 0, body)) <==> FirstAtLeast(es, 5)
  {
    if FirstAtLeast(es, 5) {
      AssemblesAnswer(d, es, more, NoHeader, POLLS, status, body);
    } else {
      ResponseParts(status, body);
      ShortFirstPacketLoses(d, es, more, POLLS);
    }
  }

  /** One look at the queue, as part of the stream. */
  lemma StreamFront(es: seq<Poll>, k: nat)
    requires 0 < k <= |es|
    ensures Stream(es[..k]) == (if es[0].Packet? && es[0].op == RW then es[0].data else []) + Stream(es[1..][..k - 1])
    ensures NoReset(es[..k]) <==> !IsReset(es[0]) && NoReset(es[1..][..k - 1])
  {
    assert es[..k][1..] == es[1..][..k - 1];
    assert es[..k] == [es[0]] + es[1..][..k - 1];
  }

  lemma {:induction false} RestDelivered(d: Dev, p: Partial, polls: nat) returns (k: nat)
    requires p.Body? && Assembled(d, p, polls).0.Some?
    ensures k <= |d.rx| && k <= polls && NoReset(d.rx[..k])
    ensures var s := p.payload + Stream(d.rx[..k]);
      |s| >= p.expected && Assembled(d, p, polls).0.value == (p.status == 0, s[..p.expected])
    decreases polls
  {
    var e, d1 := d.rx[0], Received(d);
    if e.Packet? && e.op == RW {
      var q := Extended(p, e.data);
      if |q.payload| >= q.expected {
        k := 1;
        assert Stream(d.rx[1..][..0]) == [] && q.payload + [] == q.payload;
      } else {
        var j := RestDelivered(d1, q, polls - 1);
        k := j + 1;
      }
      PayloadJoins(p.payload, e.data, Stream(d.rx[1..][..k - 1]));
    } else {
      var update := e.Packet? && e.op == CREDIT_UPDATE;
      var next := if update then SentHdr(d1, GUEST_FILE_PORT, HOST_FILE_PORT, CREDIT_UPDATE) else d1;
      var j := RestDelivered(next, p, polls - 1);
      k := j + 1;
      assert [] + Stream(d.rx[1..][..k - 1]) == Stream(d.rx[1..][..k - 1]);
    }
    StreamFront(d.rx, k);
  }

  lemma PayloadJoins(a: seq<byte>, b: seq<byte>, c: seq<byte>)
    ensures a + b + c == a + (b + c)
  {
  }

  /** Head and first data, and what comes later. */
  lemma HeadThenRest(first: seq<byte>, later: seq<byte>, n: nat)
    requires |first| >= 5 && n == U32At(first, 1) && |first[5..] + later| >= n
    ensures Server.Response(first[0], (first[5..] + later)[..n]) <= first + later
  {
    var s := first + later;
    assert s[5..] == first[5..] + later;
    assert U32At(s, 1) == U32At(first, 1);
    ResponseIs(s, s[5..5 + n]);
  }

  lemma FirstDelivered(d: Dev, polls: nat) returns (k: nat, status: byte)
    requires Assembled(d, NoHeader, polls).0.Some? && d.rx[0].Packet? && d.rx[0].op == RW
    ensures k <= |d.rx| && k <= polls && NoReset(d.rx[..k])
    ensures var (ok, body) := Assembled(d, NoHeader, polls).0.value;
      |body| < TWO32 && Server.Response(status, body) <= Stream(d.rx[..k]) && ok == (status == 0)
  {
    var first := d.rx[0].data;
    var q := Extended(NoHeader, first);
    status := q.status;
    if |q.payload| >= q.expected {
      k := 1;
      assert Stream(d.rx[1..][..0]) == [] && q.payload + [] == q.payload;
    } else {
      var j := RestDelivered(Received(d), q, polls - 1);
      k := j + 1;
    }
    StreamFront(d.rx, k);
    HeadThenRest(first, Stream(d.rx[1..][..k - 1]), q.expected);
  }

  /** The receive loop answers nothing but what was delivered: a whole response of the server before any reset. */
  lemma {:induction false} AnswerIsDelivered(d: Dev, polls: nat) returns (k: nat, status: byte)
    requires Assembled(d, NoHeader, polls).0.Some?
    ensures k <= |d.rx| && k <= polls && NoReset(d.rx[..k])
    ensures var (ok, body) := Assembled(d, NoHeader, polls).0.value;
      |body| < TWO32 && Server.Response(status, body) <= Stream(d.rx[..k]) && ok == (status == 0)
    decreases polls
  {
    var e, d1 := d.rx[0], Received(d);
    if e.Packet? && e.op == RW {
      k, status := FirstDelivered(d, polls);
    } else {
      var update := e.Packet? && e.op == CREDIT_UPDATE;
      var next := if update then SentHdr(d1, GUEST_FILE_PORT, HOST_FILE_PORT, CREDIT_UPDATE) else d1;
      var j;
      j, status := AnswerIsDelivered(next, polls - 1);
      k := j + 1;
      StreamFront(d.rx, k);
    }
  }

  /** A stream that starts with status, length and that many bytes starts with the response. */
  lemma ResponseIs(s: seq<byte>, body: seq<byte>)
    requires |s| >= 5 + |body| && U32At(s, 1) == |body| && s[5..5 + |body|] == body
    ensures Server.Response(s[0], body) <= s
  {
    var w := LE32(|body|);
    LE32Reads(s, 1);
    assert s[..5 + |body|] == [s[0]] + w + body;
  }

  // ---- connecting ----

  predicate AllPackets(es: seq<Poll>) {
    forall i :: 0 <= i < |es| ==> es[i].Packet?
  }

  /** Leftovers of an earlier connection, up to the first empty poll, are thrown away. */
  lemma {:induction false} DrainsLeftovers(d: Dev, old1: seq<Poll>, more: seq<Poll>)
    requires d.rx == old1 + [Empty] + more && AllPackets(old1)
    ensures Drained(d).rx == more && Drained(d).sent == d.sent
    decreases |old1|
  {
    if old1 == [] {
      assert d.rx[0] == Empty && d.rx[1..] == more;
    } else {
      assert d.rx[0] == old1[0] && Received(d).rx == old1[1..] + [Empty] + more;
      DrainsLeftovers(Received(d), old1[1..], more);
    }
  }

  /** The connection is accepted within `polls` looks: a RESPONSE comes before any reset. */
  predicate Accepts(es: seq<Poll>) {
    && es != [] && NoReset(es) && es[|es| - 1].Packet? && es[|es| - 1].op == RESPONSE
    && forall i :: 0 <= i < |es| - 1 ==> !(es[i].Packet? && es[i].op == RESPONSE)
  }

  lemma {:induction false} AwaitsResponse(d: Dev, es: seq<Poll>, more: seq<Poll>, src: u32, dst: u32, polls: nat)
    requires d.rx == es + more && Accepts(es) && |es| <= polls
    ensures Awaited(d, src, dst, polls).0 && Awaited(d, src, dst, polls).1.rx == more
    decreases |es|
  {
    var d1 := Received(d);
    assert d.rx[0] == es[0] && d1.rx == es[1..] + more;
    if |es| == 1 {
      assert es[1..] + more == more;
    } else {
      AwaitsResponse(d1, es[1..], more, src, dst, polls - 1);
    }
  }

  /** Among the first `polls` looks is a RESPONSE, with no reset before it. */
  ghost predicate AcceptedWithin(es: seq<Poll>, polls: nat) {
    exists k: nat :: k < |es| && k < polls && IsResponse(es[k]) && forall i :: 0 <= i < k ==> !IsReset(es[i])
  }

  lemma AcceptedNext(es: seq<Poll>, polls: nat)
    requires es != [] && polls > 0 && !IsResponse(es[0])
    ensures AcceptedWithin(es, polls) <==> !IsReset(es[0]) && AcceptedWithin(es[1..], polls - 1)
  {
    if AcceptedWithin(es, polls) {
      var k: nat :| k < |es| && k < polls && IsResponse(es[k]) && forall i :: 0 <= i < k ==> !IsReset(es[i]);
      assert IsResponse(es[1..][k - 1]) && forall i :: 0 <= i < k - 1 ==> !IsReset(es[1..][i]);
    }
    if !IsReset(es[0]) && AcceptedWithin(es[1..], polls - 1) {
      var k: nat :| k < |es[1..]| && k < polls - 1 && IsResponse(es[1..][k])
        && forall i :: 0 <= i < k ==> !IsReset(es[1..][i]);
      assert IsResponse(es[k + 1]);
      assert forall i :: 0 < i < k + 1 ==> es[i] == es[1..][i - 1];
    }
  }

  /** The waiting loop succeeds exactly when the connection is accepted in time. */
  lemma {:induction false} AwaitedIff(d: Dev, src: u32, dst: u32, polls: nat)
    ensures Awaited(d, src, dst, polls).0 <==> AcceptedWithin(d.rx, polls)
    decreases polls
  {
    if polls > 0 && d.rx != [] {
      if IsResponse(d.rx[0]) {
        var k: nat := 0;
        assert k < |d.rx| && k < polls && IsResponse(d.rx[k]);
      } else {
        AcceptedNext(d.rx, polls);
        if !IsReset(d.rx[0]) {
          AwaitedIff(Received(d), src, dst, polls - 1);
        }
      }
    }
  }

  /**
   * A request stops the kernel exactly when the connection is accepted and path and data are more than a packet
   * holds; with the connection refused or timed out even the longest only fails.
   */
  lemma ExchangeStopsIff(d: Dev, op: byte, path: seq<byte>, data: seq<byte>)
    ensures Exchanged(d, op, path, data).0.Stops? <==>
            AcceptedWithin(Drained(d).rx, POLLS) && |path| + |data| > 4045
    ensures !AcceptedWithin(Drained(d).rx, POLLS) ==> Exchanged(d, op, path, data).0 == Returns(None)
  {
    AwaitedIff(SentHdr(Drained(d).(fwd := 0), GUEST_FILE_PORT, HOST_FILE_PORT, REQUEST), GUEST_FILE_PORT,
               HOST_FILE_PORT, POLLS);
  }

  /** What reaches the guest during one exchange whose answer is `answer`. */
  ghost predicate Delivers(es: seq<Poll>, leftovers: seq<Poll>, handshake: seq<Poll>, packets: seq<Poll>,
      more: seq<Poll>, answer: seq<byte>) {
    && es == leftovers + [Empty] + handshake + packets + more
    && AllPackets(leftovers) && Accepts(handshake) && |handshake| <= POLLS
    && |packets| <= POLLS && NoReset(packets) && FirstAtLeast(packets, 5) && Stream(packets) == answer
  }

  /** An exchange yields exactly the answer that was delivered. */
  lemma ExchangeYieldsAnswer(d: Dev, op: byte, path: seq<byte>, data: seq<byte>, leftovers: seq<Poll>,
      handshake: seq<Poll>, packets: seq<Poll>, more: seq<Poll>, status: byte, body: seq<byte>)
    requires Fits(path, data) && |body| < TWO32
    requires Delivers(d.rx, leftovers, handshake, packets, more, Server.Response(status, body))
    ensures Exchanged(d, op, path, data).0 == Returns(Some((status == 0, body)))
  {
    assert d.rx == leftovers + [Empty] + (handshake + packets + more);
    DrainsLeftovers(d, leftovers, handshake + packets + more);
    var d0 := SentHdr(Drained(d).(fwd := 0), GUEST_FILE_PORT, HOST_FILE_PORT, REQUEST);
    assert d0.rx == handshake + (packets + more);
    AwaitsResponse(d0, handshake, packets + more, GUEST_FILE_PORT, HOST_FILE_PORT, POLLS);
    var d1 := Connected(d, GUEST_FILE_PORT, HOST_FILE_PORT).1;
    AssemblesAnswer(SentRequest(d1, op, path, data), packets, more, NoHeader, POLLS, status, body);
  }

  // ---- the request comes through ----

  lemma RequestParts(op: byte, path: seq<byte>, data: seq<byte>)
    requires |path| < TWO16 && |data| < TWO32
    ensures var r := RequestBytes(op, path, data);
      && r[0] == op && U16At(r, 1) == |path| && U32At(r, 3) == |data|
      && r[7..7 + |path|] == path && r[7 + |path|..7 + |path| + |data|] == data
  {
    PartsJoined([op], LE16(|path|), LE32(|data|), path, data);
    LengthsRead(RequestBytes(op, path, data), |path|, |data|);
  }

  lemma LengthsRead(r: seq<byte>, a: u16, b: u32)
    requires |r| >= 7 && r[1..3] == LE16(a) && r[3..7] == LE32(b)
    ensures U16At(r, 1) == a && U32At(r, 3) == b
  {
    assert r[1] == r[1..3][0] && r[2] == r[1..3][1];
    LE16RoundTrip(a);
    U32Slice(r, 3);
    LE32RoundTrip(b);
  }

  lemma PartsJoined(op: seq<byte>, a: seq<byte>, b: seq<byte>, path: seq<byte>, data: seq<byte>)
    requires |op| == 1 && |a| == 2 && |b| == 4
    ensures var r := op + a + b + path + data;
      && r[0] == op[0] && r[1..3] == a && r[3..7] == b && r[7..7 + |path|] == path
          && r[7 + |path|..7 + |path| + |data|] == data
      && |r| == 7 + |path| + |data|
  {
  }

  /** The server reads back exactly the request the guest spelled out. */
  lemma RequestUnderstood(op: byte, path: seq<byte>, data: seq<byte>)
    requires Utf8.Valid(path) && Fits(path, data)
    ensures Server.Parsed(RequestBytes(op, path, data)) == Server.Request(op, path, data)
  {
    RequestParts(op, path, data);
    PartsParsed(RequestBytes(op, path, data), op, path, data);
  }

  lemma PartsParsed(req: seq<byte>, op: byte, path: seq<byte>, data: seq<byte>)
    requires |req| == 7 + |path| + |data| && req[0] == op && U16At(req, 1) == |path| && U32At(req, 3) == |data|
    requires req[7..7 + |path|] == path && req[7 + |path|..7 + |path| + |data|] == data && Utf8.Valid(path)
    ensures Server.Parsed(req) == Server.Request(op, path, data)
  {
  }

  // ---- what an exchange sends ----

  /** A packet from port 40001 of the guest to port 1235 of the host, by the fields of section 5.10.6 of VIRTIO 1.1. */
  predicate OnConnection(b: seq<byte>, op: u16) {
    && |b| >= 44 && U32At(b, 0) == 3 && U32At(b, 4) == 0 && U32At(b, 8) == 2 && U32At(b, 12) == 0
    && U32At(b, 16) == 40001 && U32At(b, 20) == 1235 && U32At(b, 24) == |b| - 44 && U16At(b, 28) == 1
    && U16At(b, 30) == op
  }

  /** One that is nothing but a header. */
  predicate Bare(b: seq<byte>, op: u16) {
    OnConnection(b, op) && |b| == 44
  }

  /** Packets lo to hi - 1 are credit updates. */
  predicate Updates(sent: seq<Sent>, lo: nat, hi: nat) {
    hi <= |sent| && forall i :: lo <= i < hi ==> Bare(sent[i].bytes, 6)
  }

  /** The stream that the data packets (operation 5) carry to the server. */
  function Carried(sent: seq<Sent>): (s: seq<byte>) {
    if sent == [] then []
    else (if OnConnection(sent[0].bytes, 5) then sent[0].bytes[44..] else []) + Carried(sent[1..])
  }

  /** The stream that went out between two states of the device. */
  function Uploaded(before: Dev, after: Dev): (s: seq<byte>) {
    if |before.sent| <= |after.sent| then Carried(after.sent[|before.sent|..]) else []
  }

  lemma FramedOnConnection(op: u16, src: u32, dst: u32, fwd: u32, payload: seq<byte>)
    requires src == GUEST_FILE_PORT && dst == HOST_FILE_PORT && |payload| < TWO32
    ensures var b := MakeHdr(|payload|, op, src, dst, fwd) + payload; OnConnection(b, op) && b[44..] == payload
  {
    var h := MakeHdr(|payload|, op, src, dst, fwd);
    HeaderFields(|payload|, op, src, dst, fwd);
    FrontReads(h, payload);
  }

  /** Fields of the header are read the same with a payload behind it. */
  lemma FrontReads(h: seq<byte>, payload: seq<byte>)
    requires |h| == 44
    ensures forall at :: 0 <= at <= 40 ==> U32At(h + payload, at) == U32At(h, at)
    ensures forall at :: 0 <= at <= 42 ==> U16At(h + payload, at) == U16At(h, at)
  {
  }

  lemma HdrBare(d: Dev, src: u32, dst: u32, op: u16)
    requires src == GUEST_FILE_PORT && dst == HOST_FILE_PORT
    ensures var r := SentHdr(d, src, dst, op);
      |r.sent| == |d.sent| + 1 && d.sent <= r.sent && Bare(r.sent[|d.sent|].bytes, op)
  {
    FramedOnConnection(op, src, dst, d.fwd, []);
    assert MakeHdr(0, op, src, dst, d.fwd) + [] == MakeHdr(0, op, src, dst, d.fwd);
  }

  lemma {:induction false} DrainedSends(d: Dev)
    ensures Drained(d).sent == d.sent
    decreases |d.rx|
  {
    if d.rx != [] && d.rx[0].Packet? {
      DrainedSends(Received(d));
    }
  }

  /** Waiting for the answer sends nothing but a credit update when it has come. */
  lemma {:induction false} AwaitedSends(d: Dev, src: u32, dst: u32, polls: nat)
    requires src == GUEST_FILE_PORT && dst == HOST_FILE_PORT
    ensures var (up, r) := Awaited(d, src, dst, polls);
      if up then |r.sent| == |d.sent| + 1 && d.sent <= r.sent && Bare(r.sent[|d.sent|].bytes, 6) else r.sent == d.sent
    decreases polls
  {
    if polls > 0 && d.rx != [] {
      var e, d1 := d.rx[0], Received(d);
      if IsResponse(e) {
        HdrBare(d1, src, dst, CREDIT_UPDATE);
      } else if !IsReset(e) {
        AwaitedSends(d1, src, dst, polls - 1);
      }
    }
  }

  lemma UpdateFirst(before: seq<Sent>, now: seq<Sent>, after: seq<Sent>)
    requires before <= now <= after && |now| == |before| + 1 && Bare(now[|before|].bytes, 6)
    requires Updates(after, |now|, |after|)
    ensures before <= after && Updates(after, |before|, |after|)
  {
  }

  /** Receiving sends nothing but credit updates. */
  lemma {:induction false} AssembledSends(d: Dev, p: Partial, polls: nat)
    ensures var r := Assembled(d, p, polls).1; d.sent <= r.sent && Updates(r.sent, |d.sent|, |r.sent|)
    decreases polls
  {
    if polls > 0 && d.rx != [] {
      var e, d1 := d.rx[0], Received(d);
      if e.Packet? && e.op == CREDIT_UPDATE {
        var d2 := SentHdr(d1, GUEST_FILE_PORT, HOST_FILE_PORT, CREDIT_UPDATE);
        HdrBare(d1, GUEST_FILE_PORT, HOST_FILE_PORT, CREDIT_UPDATE);
        AssembledSends(d2, p, polls - 1);
        UpdateFirst(d.sent, d2.sent, Assembled(d2, p, polls - 1).1.sent);
      } else if e.Packet? && e.op == RW && !(p.NoHeader? && |e.data| < 5) {
        AssembledSends(d1, Extended(p, e.data), polls - 1);
      } else if !(e.Packet? && e.op in {RST, RW}) {
        AssembledSends(d1, p, polls - 1);
      }
    }
  }

  lemma {:induction false} UpdatesCarryNothing(sent: seq<Sent>)
    requires forall i :: 0 <= i < |sent| ==> !OnConnection(sent[i].bytes, 5)
    ensures Carried(sent) == []
    decreases |sent|
  {
    if sent != [] {
      UpdatesCarryNothing(sent[1..]);
    }
  }

  /** Only the third packet of these carries data. */
  lemma ThirdCarries(sent: seq<Sent>)
    requires |sent| >= 3 && !OnConnection(sent[0].bytes, 5) && !OnConnection(sent[1].bytes, 5)
    requires OnConnection(sent[2].bytes, 5) && forall i :: 3 <= i < |sent| ==> !OnConnection(sent[i].bytes, 5)
    ensures Carried(sent) == sent[2].bytes[44..]
  {
    var a, b, c := sent[1..], sent[2..], sent[3..];
    assert a[1..] == b && b[1..] == c && a[0] == sent[1] && b[0] == sent[2];
    UpdatesCarryNothing(c);
    assert Carried(b) == sent[2].bytes[44..] + [];
    assert Carried(sent) == [] + ([] + Carried(b));
  }

  /** The packets of an exchange from number n on: a connection request, an update, the data, updates, a reset. */
  predicate Conversation(sent: seq<Sent>, n: nat) {
    && |sent| >= n + 4 && Bare(sent[n].bytes, 1) && Bare(sent[n + 1].bytes, 6) && OnConnection(sent[n + 2].bytes, 5)
    && Updates(sent, n + 3, |sent| - 1) && Bare(sent[|sent| - 1].bytes, 3)
  }

  lemma ConversationCarries(sent: seq<Sent>, n: nat)
    requires Conversation(sent, n)
    ensures Carried(sent[n..]) == sent[n + 2].bytes[44..]
  {
    var s := sent[n..];
    forall i | 3 <= i < |s| ensures !OnConnection(s[i].bytes, 5) {
      assert s[i] == sent[n + i];
    }
    ThirdCarries(s);
  }

  /** The connection request, and the update once it is accepted. */
  lemma RequestThenWait(d: Dev, src: u32, dst: u32, polls: nat)
    requires src == GUEST_FILE_PORT && dst == HOST_FILE_PORT
    ensures var (up, r) := Awaited(SentHdr(d, src, dst, REQUEST), src, dst, polls); var n := |d.sent|;
      && d.sent <= r.sent && (up <==> AcceptedWithin(d.rx, polls))
      && |r.sent| == (if up then n + 2 else n + 1) && Bare(r.sent[n].bytes, 1) && (up ==> Bare(r.sent[n + 1].bytes, 6))
  {
    HdrBare(d, src, dst, REQUEST);
    AwaitedSends(SentHdr(d, src, dst, REQUEST), src, dst, polls);
    AwaitedIff(SentHdr(d, src, dst, REQUEST), src, dst, polls);
  }

  lemma ConnectSends(d: Dev, src: u32, dst: u32, polls: nat) returns (up: bool, r: Dev)
    requires src == GUEST_FILE_PORT && dst == HOST_FILE_PORT && polls == POLLS
    ensures (up, r) == Connected(d, src, dst) && d.sent <= r.sent && (up <==> AcceptedWithin(Drained(d).rx, polls))
    ensures var n := |d.sent|;
      |r.sent| == (if up then n + 2 else n + 1) && Bare(r.sent[n].bytes, 1) && (up ==> Bare(r.sent[n + 1].bytes, 6))
  {
    DrainedSends(d);
    RequestThenWait(Drained(d).(fwd := 0), src, dst, polls);
    var result := Connected(d, src, dst);
    up, r := result.0, result.1;
  }

  /** One data packet with the request in it. */
  lemma RequestSends(d: Dev, op: byte, path: seq<byte>, data: seq<byte>)
    requires Fits(path, data)
    ensures var r := SentRequest(d, op, path, data); var n := |d.sent|;
      && |r.sent| == n + 1 && d.sent <= r.sent && OnConnection(r.sent[n].bytes, 5)
      && r.sent[n].bytes[44..] == RequestBytes(op, path, data)
  {
    FramedOnConnection(RW, GUEST_FILE_PORT, HOST_FILE_PORT, d.fwd, RequestBytes(op, path, data));
  }

  /** What follows on an accepted connection. */
  lemma RequestToReset(d: Dev, op: byte, path: seq<byte>, data: seq<byte>, polls: nat) returns (r: Dev)
    requires Fits(path, data)
    ensures r == SentHdr(Assembled(SentRequest(d, op, path, data), NoHeader, polls).1, GUEST_FILE_PORT,
                         HOST_FILE_PORT, RST)
    ensures var n := |d.sent|;
      && d.sent <= r.sent && |r.sent| >= n + 2 && OnConnection(r.sent[n].bytes, 5)
      && r.sent[n].bytes[44..] == RequestBytes(op, path, data)
      && Updates(r.sent, n + 1, |r.sent| - 1) && Bare(r.sent[|r.sent| - 1].bytes, 3)
  {
    var d2 := SentRequest(d, op, path, data);
    RequestSends(d, op, path, data);
    AssembledSends(d2, NoHeader, polls);
    var d3 := Assembled(d2, NoHeader, polls).1;
    HdrBare(d3, GUEST_FILE_PORT, HOST_FILE_PORT, RST);
    r := SentHdr(d3, GUEST_FILE_PORT, HOST_FILE_PORT, RST);
  }

  lemma AcceptedSends(n: nat, d: Dev, op: byte, path: seq<byte>, data: seq<byte>, polls: nat) returns (r: Dev)
    requires Fits(path, data) && |d.sent| == n + 2 && Bare(d.sent[n].bytes, 1) && Bare(d.sent[n + 1].bytes, 6)
    ensures r == SentHdr(Assembled(SentRequest(d, op, path, data), NoHeader, polls).1, GUEST_FILE_PORT,
                         HOST_FILE_PORT, RST)
    ensures d.sent <= r.sent && Conversation(r.sent, n) && Carried(r.sent[n..]) == RequestBytes(op, path, data)
  {
    r := RequestToReset(d, op, path, data, polls);
    assert r.sent[n] == d.sent[n] && r.sent[n + 1] == d.sent[n + 1];
    ConversationCarries(r.sent, n);
  }

  /**
   * Whatever the host does: refused, an exchange sends its connection request and nothing else; accepted, and if path
   * and data fit, exactly one data packet, and the server reads in it the very request that was meant.
   */
  lemma ExchangeSends(d: Dev, op: byte, path: seq<byte>, data: seq<byte>)
    ensures var r := Exchanged(d, op, path, data).1; var n := |d.sent|;
      && d.sent <= r.sent
      && (!AcceptedWithin(Drained(d).rx, POLLS) ==> |r.sent| == n + 1 && Bare(r.sent[n].bytes, 1))
      && (AcceptedWithin(Drained(d).rx, POLLS) && |path| + |data| <= 4045 ==>
            && Conversation(r.sent, n)
            && (Utf8.Valid(path) ==> Server.Parsed(Uploaded(d, r)) == Server.Request(op, path, data)))
  {
    var up, d1 := ConnectSends(d, GUEST_FILE_PORT, HOST_FILE_PORT, POLLS);
    if up && Fits(path, data) {
      var r := AcceptedSends(|d.sent|, d1, op, path, data, POLLS);
      assert r == Exchanged(d, op, path, data).1;
      if Utf8.Valid(path) {
        RequestUnderstood(op, path, data);
      }
    }
  }

  // ---- end to end ----

  /** An exchange against the server: the packets that come are those of the server's answer to what was sent. */
  ghost predicate Session(h: Server.Host, files: map<Server.Path, seq<byte>>, before: Dev, after: Dev)
    requires Server.ValidHost(h)
  {
    exists leftovers, handshake, packets, more ::
      Delivers(before.rx, leftovers, handshake, packets, more, Server.Handled(h, files, Uploaded(before, after)).sent)
  }

  lemma DeliveredIsAccepted(es: seq<Poll>, d: Dev, leftovers: seq<Poll>, handshake: seq<Poll>, packets: seq<Poll>,
      more: seq<Poll>, answer: seq<byte>)
    requires d.rx == es && Delivers(es, leftovers, handshake, packets, more, answer)
    ensures AcceptedWithin(Drained(d).rx, POLLS)
  {
    assert d.rx == leftovers + [Empty] + (handshake + packets + more);
    DrainsLeftovers(d, leftovers, handshake + packets + more);
    var k: nat := |handshake| - 1;
    assert IsResponse(Drained(d).rx[k]) && forall i :: 0 <= i < k ==> !IsReset(Drained(d).rx[i]);
  }

  /** What the server makes of an exchange is the operation that was asked for, and its answer is what comes back. */
  lemma SessionYields(h: Server.Host, files: map<Server.Path, seq<byte>>, d: Dev, op: byte, path: seq<byte>,
      data: seq<byte>, status: byte, body: seq<byte>)
    requires Server.ValidHost(h) && Fits(path, data) && Utf8.Valid(path) && |body| < TWO32
    requires Session(h, files, d, Exchanged(d, op, path, data).1)
    requires Server.Performed(h, files, op, path, data).sent == Server.Response(status, body)
    ensures Server.Handled(h, files, Uploaded(d, Exchanged(d, op, path, data).1))
         == Server.Performed(h, files, op, path, data)
    ensures Exchanged(d, op, path, data).0 == Returns(Some((status == 0, body)))
  {
    var r := Exchanged(d, op, path, data).1;
    var leftovers, handshake, packets, more :|
      Delivers(d.rx, leftovers, handshake, packets, more, Server.Handled(h, files, Uploaded(d, r)).sent);
    DeliveredIsAccepted(d.rx, d, leftovers, handshake, packets, more, Server.Handled(h, files, Uploaded(d, r)).sent);
    ExchangeSends(d, op, path, data);
    ExchangeYieldsAnswer(d, op, path, data, leftovers, handshake, packets, more, status, body);
  }

  /**
   * Writing a file and reading it back gives the very bytes, and no other file changes, for every way the
   * packets of either exchange are cut and interleaved and every state the device is in.
   */
  lemma WriteThenRead(h: Server.Host, files: map<Server.Path, seq<byte>>, path: seq<byte>, data: seq<byte>, dw: Dev,
      dr: Dev)
    requires Server.ValidHost(h) && Utf8.Valid(path) && Fits(path, data)
    requires path in h.resolve && h.resolve[path] !in h.refused
    requires Session(h, files, dw, Exchanged(dw, Server.OP_WRITE, path, data).1)
    requires Session(h, files[h.resolve[path] := data], dr, Exchanged(dr, Server.OP_READ, path, []).1)
    ensures var after := Server.Handled(h, files, Uploaded(dw, Exchanged(dw, Server.OP_WRITE, path, data).1)).files;
      && after == files[h.resolve[path] := data]
      && Server.Handled(h, after, Uploaded(dr, Exchanged(dr, Server.OP_READ, path, []).1)).files == after
    ensures Exchanged(dw, Server.OP_WRITE, path, data).0 == Returns(Some((true, [])))
    ensures Exchanged(dr, Server.OP_READ, path, []).0 == Returns(Some((true, data)))
  {
    var after := files[h.resolve[path] := data];
    SessionYields(h, files, dw, Server.OP_WRITE, path, data, Server.STATUS_OK, []);
    SessionYields(h, after, dr, Server.OP_READ, path, [], Server.STATUS_OK, data);
  }

  lemma MissingText(h: Server.Host, files: map<Server.Path, seq<byte>>, path: seq<byte>) returns (text: seq<byte>)
    requires Server.ValidHost(h) && (path !in h.resolve || h.resolve[path] !in files)
    ensures |text| < TWO32 && Server.Performed(h, files, Server.OP_READ, path, []) ==
            Server.Answer(files, Server.Response(Server.STATUS_ERROR, text))
  {
    text := if path !in h.resolve then Ascii("path traversal denied") else Ascii("file not found");
  }

  /** Reading a file that is not there reports failure, as does any other refusal. */
  lemma MissingFileReported(h: Server.Host, files: map<Server.Path, seq<byte>>, path: seq<byte>, d: Dev)
    requires Server.ValidHost(h) && Utf8.Valid(path) && Fits(path, [])
    requires path !in h.resolve || h.resolve[path] !in files
    requires Session(h, files, d, Exchanged(d, Server.OP_READ, path, []).1)
    ensures Success(Exchanged(d, Server.OP_READ, path, []).0) == Returns(false)
    ensures Exchanged(d, Server.OP_READ, path, []).0.value.Some?
    ensures Server.Handled(h, files, Uploaded(d, Exchanged(d, Server.OP_READ, path, []).1)).files == files
  {
    var text := MissingText(h, files, path);
    SessionYields(h, files, d, Server.OP_READ, path, [], Server.STATUS_ERROR, text);
  }

  // ---- flow control ----

  /** Payload bytes of the packets es. */
  function Taken(es: seq<Poll>): (n: nat) {
    if es == [] then 0 else (if es[0].Packet? then |es[0].data| else 0) + Taken(es[1..])
  }

  lemma {:induction false} TakenAppends(a: seq<Poll>, b: seq<Poll>)
    ensures Taken(a + b) == Taken(a) + Taken(b)
  {
    if a == [] {
      assert a + b == b;
    } else {
      assert (a + b)[1..] == a[1..] + b;
      TakenAppends(a[1..], b);
    }
  }

  /**
   * The device since a connection began with `start` packets to come and `n0` packets sent: the counter is
   * the payload taken so far, and each packet sent since carries the payload taken before it.
   */
  predicate Accounted(start: seq<Poll>, n0: nat, d: Dev) {
    && |d.rx| <= |start| && start[|start| - |d.rx|..] == d.rx && n0 <= |d.sent|
    && d.fwd == Taken(start[..|start| - |d.rx|]) % TWO32
    && forall i :: n0 <= i < |d.sent| ==> Honest(start, d.sent[i])
  }

  /** The packet's fwd_cnt field is the payload of exactly what had been received when it was sent. */
  predicate Honest(start: seq<Poll>, pkt: Sent) {
    pkt.left <= |start| && |pkt.bytes| >= HDR_SIZE && U32At(pkt.bytes, 40) == Taken(start[..|start| - pkt.left]) % TWO32
  }

  lemma ReceivedAccounted(start: seq<Poll>, n0: nat, d: Dev)
    requires Accounted(start, n0, d) && d.rx != []
    ensures Accounted(start, n0, Received(d))
  {
    var k := |start| - |d.rx|;
    assert start[k] == start[k..][0] == d.rx[0];
    assert start[..k + 1] == start[..k] + [start[k]];
    TakenAppends(start[..k], [start[k]]);
    assert start[k + 1..] == d.rx[1..];
  }

  lemma SentAccounted(start: seq<Poll>, n0: nat, d: Dev, len: u32, op: u16, src: u32, dst: u32, payload: seq<byte>)
    requires Accounted(start, n0, d)
    ensures Accounted(start, n0, d.(sent := d.sent + [Sent(|d.rx|, MakeHdr(len, op, src, dst, d.fwd) + payload)]))
  {
    var h := MakeHdr(len, op, src, dst, d.fwd);
    HeaderFields(len, op, src, dst, d.fwd);
    var k := |start| - |d.rx|;
    assert U32At(h + payload, 40) == U32At(h, 40) == Taken(start[..k]) % TWO32;
    assert Honest(start, Sent(|d.rx|, h + payload));
  }

  lemma HdrAccounted(start: seq<Poll>, n0: nat, d: Dev, src: u32, dst: u32, op: u16)
    requires Accounted(start, n0, d)
    ensures Accounted(start, n0, SentHdr(d, src, dst, op))
  {
    SentAccounted(start, n0, d, 0, op, src, dst, []);
    assert MakeHdr(0, op, src, dst, d.fwd) + [] == MakeHdr(0, op, src, dst, d.fwd);
  }

  lemma {:induction false} AwaitedAccounted(start: seq<Poll>, n0: nat, d: Dev, src: u32, dst: u32, polls: nat)
    requires Accounted(start, n0, d)
    ensures Accounted(start, n0, Awaited(d, src, dst, polls).1)
    decreases polls
  {
    if polls > 0 && d.rx != [] {
      ReceivedAccounted(start, n0, d);
      var e, d1 := d.rx[0], Received(d);
      if e.Packet? && e.op == RESPONSE {
        HdrAccounted(start, n0, d1, src, dst, CREDIT_UPDATE);
      } else if !(e.Packet? && e.op == RST) {
        AwaitedAccounted(start, n0, d1, src, dst, polls - 1);
      }
    }
  }

  lemma {:induction false} AssembledAccounted(start: seq<Poll>, n0: nat, d: Dev, p: Partial, polls: nat)
    requires Accounted(start, n0, d)
    ensures Accounted(start, n0, Assembled(d, p, polls).1)
    decreases polls
  {
    if polls > 0 && d.rx != [] {
      ReceivedAccounted(start, n0, d);
      var e, d1 := d.rx[0], Received(d);
      if e.Packet? && e.op == CREDIT_UPDATE {
        HdrAccounted(start, n0, d1, GUEST_FILE_PORT, HOST_FILE_PORT, CREDIT_UPDATE);
        AssembledAccounted(start, n0, SentHdr(d1, GUEST_FILE_PORT, HOST_FILE_PORT, CREDIT_UPDATE), p, polls - 1);
      } else if e.Packet? && e.op == RW && !(p.NoHeader? && |e.data| < 5) {
        AssembledAccounted(start, n0, d1, Extended(p, e.data), polls - 1);
      } else if !(e.Packet? && e.op in {RST, RW}) {
        AssembledAccounted(start, n0, d1, p, polls - 1);
      }
    }
  }

  /**
   * Every packet sent in an exchange, whatever the host does, carries in fwd_cnt the number of payload bytes
   * taken between the start of the connection and that packet, modulo 2^32.
   */
  lemma FlowControlIsHonest(d: Dev, op: byte, path: seq<byte>, data: seq<byte>)
    ensures var r := Exchanged(d, op, path, data).1;
      && |Drained(d).sent| <= |r.sent|
      && forall i :: |Drained(d).sent| <= i < |r.sent| ==> Honest(Drained(d).rx, r.sent[i])
  {
    var d0 := Drained(d).(fwd := 0);
    var start, n0 := d0.rx, |d0.sent|;
    assert start[0..] == start && start[..0] == [];
    HdrAccounted(start, n0, d0, GUEST_FILE_PORT, HOST_FILE_PORT, REQUEST);
    var d1 := SentHdr(d0, GUEST_FILE_PORT, HOST_FILE_PORT, REQUEST);
    AwaitedAccounted(start, n0, d1, GUEST_FILE_PORT, HOST_FILE_PORT, POLLS);
    var (up, d2) := Connected(d, GUEST_FILE_PORT, HOST_FILE_PORT);
    if up && Fits(path, data) {
      var payload := RequestBytes(op, path, data);
      SentAccounted(start, n0, d2, |payload|, RW, GUEST_FILE_PORT, HOST_FILE_PORT, payload);
      var d3 := SentRequest(d2, op, path, data);
      AssembledAccounted(start, n0, d3, NoHeader, POLLS);
      HdrAccounted(start, n0, Assembled(d3, NoHeader, POLLS).1, GUEST_FILE_PORT, HOST_FILE_PORT, RST);
    }
  }
}
