/** The page endpoint: one connection on port 80, and how much of a request's body reaches the application. */
module Pages {
  import opened Bytes
  import opened Http
  import Admin

  /** Size of the buffer a look receives into. */
  const PAGE_CHUNK := 1024

  /** What has been received on the connection, whether it has been answered, and what the peer still sends. */
  datatype Page = Page(buf: seq<byte>, sent: bool, incoming: seq<byte>)

  /** The socket as one turn finds it: `size` bytes could be received now. */
  datatype Look = Look(open: bool, mayRecv: bool, size: nat)

  datatype Turned = Turned(next: Page, asked: Option<Request>)

  /** One turn of the main loop on port 80: as soon as the head is complete what is there is the request. */
  function Turn(p: Page, look: Look): (r: Turned) {
    var p1 := if look.open then p else Page([], false, p.incoming);
    if !look.mayRecv || p1.sent then Turned(p1, None)
    else
      var chunk := Admin.Chunk(p1.incoming, look.size, PAGE_CHUNK);
      var buf := p1.buf + chunk;
      var whole := HeaderEnd(buf).Some?;
      Turned(Page(buf, whole, p1.incoming[|chunk|..]), if whole then Some(ParseHttp(buf)) else None)
  }

  /** The requests a run of turns comes to. */
  function Asked(p: Page, looks: seq<Look>): (rs: seq<Request>)
    decreases |looks|
  {
    if looks == [] then []
    else
      var t := Turn(p, looks[0]);
      (if t.asked.Some? then [t.asked.value] else []) + Asked(t.next, looks[1..])
  }

  predicate AllOpen(looks: seq<Look>) {
    forall i :: 0 <= i < |looks| ==> looks[i].open
  }

  function CountBusy(looks: seq<Look>): (n: nat) {
    if looks == [] then 0 else (if looks[0].mayRecv && looks[0].size > 0 then 1 else 0) + CountBusy(looks[1..])
  }

  // ---- one request ----

  /** The request with the first k bytes of its body. */
  function BodyCut(stream: seq<byte>, k: nat): (r: Request)
    requires k <= |ParseHttp(stream).body|
  {
    ParseHttp(stream).(body := ParseHttp(stream).body[..k])
  }

  /** On the way: the head is not complete in what has been received. */
  predicate Underway(stream: seq<byte>, p: Page) {
    !p.sent && p.buf + p.incoming == stream && HeaderEnd(p.buf).None?
  }

  /** Verb and path are told by any part of the stream with the whole head, the body as far as the part goes. */
  lemma PartParsed(stream: seq<byte>, n: nat)
    requires HeaderEnd(stream).Some? && HeaderEnd(stream).value + 4 <= n <= |stream|
    ensures n - HeaderEnd(stream).value - 4 <= |ParseHttp(stream).body|
    ensures ParseHttp(stream[..n]) == BodyCut(stream, n - HeaderEnd(stream).value - 4)
  {
    var end, part := HeaderEnd(stream).value, stream[..n];
    HeaderEndStable(stream, n);
    BlankStart(stream, end);
    FirstLineWithin(stream, part, end);
    SameWords(stream, part);
    PartBehind(stream, n, end + 4);
  }

  lemma BlankStart(stream: seq<byte>, end: nat)
    requires HeaderEnd(stream) == Some(end)
    ensures stream[end] == CR
  {
    FirstBeyond(stream, 0, BLANK_LINE);
    assert stream[end] == stream[end..end + 4][0];
  }

  /** Verb and path are told by the first line. */
  lemma SameWords(a: seq<byte>, b: seq<byte>)
    requires FirstLine(a) == FirstLine(b)
    ensures ParseHttp(a).verb == ParseHttp(b).verb && ParseHttp(a).path == ParseHttp(b).path
  {
  }

  lemma PartBehind(s: seq<byte>, n: nat, at: nat)
    requires at <= n <= |s|
    ensures s[..n][at..] == s[at..][..n - at]
  {
  }

  lemma FirstLineWithin(stream: seq<byte>, part: seq<byte>, end: nat)
    requires part <= stream && end < |part| && stream[end] == CR
    ensures FirstLine(part) == FirstLine(stream)
  {
    var i := IndexOf(stream, CR);
    IndexIs(part, CR, i);
  }

  /** A turn leaves the request on its way or asks for it, with at most 1023 bytes of its body. */
  lemma TurnAsks(stream: seq<byte>, p: Page, look: Look)
    requires HeaderEnd(stream).Some? && Underway(stream, p) && look.open
    ensures var t := Turn(p, look);
      && (t.asked.None? ==> Underway(stream, t.next))
      && (t.asked.Some? ==> t.next.sent && exists k: nat ::
            k <= |ParseHttp(stream).body| && k < PAGE_CHUNK && t.asked.value == BodyCut(stream, k))
    ensures look.mayRecv && look.size > 0 ==>
      var t := Turn(p, look); t.asked.Some? || |t.next.incoming| < |p.incoming|
  {
    if look.mayRecv {
      var chunk := Admin.Chunk(p.incoming, look.size, PAGE_CHUNK);
      var buf, rest := p.buf + chunk, p.incoming[|chunk|..];
      Admin.Moved(p.buf, p.incoming, |chunk|);
      HeadWithin(stream, p.buf, p.incoming);
      HeadWithin(stream, buf, rest);
      if HeaderEnd(buf).Some? {
        PartParsed(stream, |buf|);
        assert stream[..|buf|] == buf;
      }
    }
  }

  /** The head is complete in what has been received exactly when that reaches behind the blank line. */
  lemma HeadWithin(stream: seq<byte>, buf: seq<byte>, rest: seq<byte>)
    requires HeaderEnd(stream).Some? && buf + rest == stream
    ensures HeaderEnd(buf).Some? <==> |buf| >= HeaderEnd(stream).value + 4
    ensures buf == stream[..|buf|]
  {
    assert stream[..|buf|] == buf;
    HeaderEndStable(stream, |buf|);
  }

  /** An answered connection asks nothing more. */
  lemma {:induction false} SilentWhenSent(p: Page, looks: seq<Look>)
    requires p.sent && AllOpen(looks)
    ensures Asked(p, looks) == []
    decreases |looks|
  {
    if looks != [] {
      assert looks[0].open && AllOpen(looks[1..]);
      SilentWhenSent(Turn(p, looks[0]).next, looks[1..]);
    }
  }

  /** The requests are that of the stream, once, with some part of its body. */
  ghost predicate AsksOnce(stream: seq<byte>, rs: seq<Request>) {
    |rs| == 1 && exists k: nat ::
      k <= |ParseHttp(stream).body| && k < PAGE_CHUNK && rs == [BodyCut(stream, k)]
  }

  lemma {:induction false} PageRun(stream: seq<byte>, p: Page, looks: seq<Look>)
    requires HeaderEnd(stream).Some? && Underway(stream, p) && AllOpen(looks)
    ensures Asked(p, looks) != [] ==> AsksOnce(stream, Asked(p, looks))
    ensures CountBusy(looks) > |p.incoming| ==> Asked(p, looks) != []
    decreases |looks|
  {
    if looks != [] {
      assert looks[0].open && AllOpen(looks[1..]);
      var t := Turn(p, looks[0]);
      TurnAsks(stream, p, looks[0]);
      if t.asked.None? {
        PageRun(stream, t.next, looks[1..]);
        assert Asked(p, looks) == Asked(t.next, looks[1..]);
      } else {
        SilentWhenSent(t.next, looks[1..]);
        assert Asked(p, looks) == [t.asked.value];
      }
    }
  }

  /**
   * However a request is cut into receives it is handed over exactly once, with its own verb and path; of its body
   * come some bytes from the front, 1023 at most.
   */
  lemma HandedOverOnce(stream: seq<byte>, looks: seq<Look>)
    requires HeaderEnd(stream).Some? && AllOpen(looks) && CountBusy(looks) > |stream|
    ensures AsksOnce(stream, Asked(Page([], false, stream), looks))
  {
    assert [] + stream == stream;
    HeadWithin(stream, [], stream);
    PageRun(stream, Page([], false, stream), looks);
  }

  /** A connection found closed leaves nothing behind: the turn is that of a new one. */
  lemma ClosedForgets(p: Page, look: Look)
    requires !look.open
    ensures Turn(p, look) == Turn(Page([], false, p.incoming), look.(open := true))
  {
  }

  /** A request as clients write it is its verb, its path and the bytes behind its head. */
  lemma PageUnderstood(verb: seq<byte>, path: seq<byte>, version: seq<byte>, lines: seq<seq<byte>>, body: seq<byte>)
    requires Admin.HeadLines(lines) && lines[0] == verb + [SPACE] + path + [SPACE] + version
    requires SPACE !in verb && SPACE !in path && CR !in verb && CR !in path && CR !in version
    ensures var stream := JoinLines(lines) + BLANK_LINE + body;
      HeaderEnd(stream) == Some(|JoinLines(lines)|) && ParseHttp(stream) == Request(verb, path, body)
  {
    var tail := BehindFirst(lines, body);
    Admin.HeadEnds(lines, body);
    RequestLineRead(verb, path, version, tail);
    assert JoinLines(lines) + BLANK_LINE + body == verb + [SPACE] + path + [SPACE] + version + tail;
    BodyBehind(JoinLines(lines), body);
  }

  lemma BehindFirst(lines: seq<seq<byte>>, body: seq<byte>) returns (tail: seq<byte>)
    requires lines != []
    ensures JoinLines(lines) + BLANK_LINE + body == lines[0] + tail && tail != [] && tail[0] == CR
  {
    tail := (if |lines| == 1 then [] else [CR, LF] + JoinLines(lines[1..])) + BLANK_LINE + body;
  }

  lemma BodyBehind(head: seq<byte>, body: seq<byte>)
    ensures (head + BLANK_LINE + body)[|head| + 4..] == body
  {
  }

  // ---- which bodies ----

  function Ready(size: nat): (look: Look) {
    Look(true, true, size)
  }

  /** Receives of one byte each. */
  function Drip(n: nat): (looks: seq<Look>)
    ensures |looks| == n && AllOpen(looks)
  {
    seq(n, _ => Ready(1))
  }

  /** Receives that take the head byte by byte, and k bytes of the body with its last. */
  function CutInBody(stream: seq<byte>, k: nat): (looks: seq<Look>)
    requires HeaderEnd(stream).Some?
    ensures AllOpen(looks)
  {
    Drip(HeaderEnd(stream).value + 3) + [Ready(1 + k)]
  }

  /** Before the last byte of the head, n bytes away, nothing is asked. */
  lemma {:induction false} DripThenTake(stream: seq<byte>, p: Page, n: nat, k: nat)
    requires HeaderEnd(stream).Some? && Underway(stream, p) && |p.buf| + n == HeaderEnd(stream).value + 3
    requires k <= |ParseHttp(stream).body| && k < PAGE_CHUNK
    ensures Asked(p, Drip(n) + [Ready(1 + k)]) == [BodyCut(stream, k)]
    decreases n
  {
    var looks := Drip(n) + [Ready(1 + k)];
    HeadWithin(stream, p.buf, p.incoming);
    if n == 0 {
      assert looks == [Ready(1 + k)] && looks[1..] == [];
      LastTaken(stream, p, k);
      assert [BodyCut(stream, k)] + [] == [BodyCut(stream, k)];
    } else {
      assert looks[1..] == Drip(n - 1) + [Ready(1 + k)] && looks[0] == Ready(1);
      ByteTaken(stream, p);
      DripThenTake(stream, Turn(p, Ready(1)).next, n - 1, k);
    }
  }

  lemma ByteTaken(stream: seq<byte>, p: Page)
    requires HeaderEnd(stream).Some? && Underway(stream, p) && |p.buf| + 1 < HeaderEnd(stream).value + 4
    ensures var t := Turn(p, Ready(1)); t.asked.None? && Underway(stream, t.next) && |t.next.buf| == |p.buf| + 1
  {
    var buf, rest := p.buf + p.incoming[..1], p.incoming[1..];
    Admin.Moved(p.buf, p.incoming, 1);
    HeadWithin(stream, buf, rest);
  }

  lemma LastTaken(stream: seq<byte>, p: Page, k: nat)
    requires HeaderEnd(stream).Some? && Underway(stream, p) && |p.buf| == HeaderEnd(stream).value + 3
    requires k <= |ParseHttp(stream).body| && k < PAGE_CHUNK
    ensures Turn(p, Ready(1 + k)).asked == Some(BodyCut(stream, k))
  {
    var buf, rest := p.buf + p.incoming[..1 + k], p.incoming[1 + k..];
    Admin.Moved(p.buf, p.incoming, 1 + k);
    HeadWithin(stream, buf, rest);
    PartParsed(stream, |buf|);
  }

  /** Some way to cut the stream hands this request over. */
  ghost predicate MayAsk(stream: seq<byte>, r: Request) {
    exists looks :: AllOpen(looks) && Asked(Page([], false, stream), looks) == [r]
  }

  /**
   * The requests that may be handed over for a stream are exactly its own with any front part of the body of at most
   * 1023 bytes: which one, the cut decides.
   */
  lemma BodiesIff(stream: seq<byte>, r: Request)
    requires HeaderEnd(stream).Some?
    ensures MayAsk(stream, r) <==>
            exists k: nat :: k <= |ParseHttp(stream).body| && k < PAGE_CHUNK && r == BodyCut(stream, k)
  {
    var p := Page([], false, stream);
    assert [] + stream == stream;
    HeadWithin(stream, [], stream);
    if MayAsk(stream, r) {
      var looks :| AllOpen(looks) && Asked(p, looks) == [r];
      PageRun(stream, p, looks);
      var k: nat :| k <= |ParseHttp(stream).body| && k < PAGE_CHUNK && [r] == [BodyCut(stream, k)];
      assert r == BodyCut(stream, k);
    }
    if k: nat :| k <= |ParseHttp(stream).body| && k < PAGE_CHUNK && r == BodyCut(stream, k) {
      DripThenTake(stream, p, HeaderEnd(stream).value + 3, k);
      assert AllOpen(CutInBody(stream, k)) && Asked(p, CutInBody(stream, k)) == [r];
    }
  }

  /** The body may come through whole exactly when it has at most 1023 bytes; a longer one never does. */
  lemma WholeBodyIff(stream: seq<byte>)
    requires HeaderEnd(stream).Some?
    ensures MayAsk(stream, ParseHttp(stream)) <==> |ParseHttp(stream).body| <= 1023
  {
    var r := ParseHttp(stream);
    BodiesIff(stream, r);
    if |r.body| < PAGE_CHUNK {
      assert r == BodyCut(stream, |r.body|);
    }
  }
}
