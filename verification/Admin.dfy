/** The upload endpoint: one connection as a state machine, and why the chunks it arrives in do not matter. */
module Admin {
  import opened Bytes
  import opened Decimal
  import opened Http
  import Utf8

  const MAX_WASM_SIZE := 524288

  /** Sizes of the buffers a look receives into. */
  const HEADER_CHUNK := 1024
  const BODY_CHUNK := 4096

  /** A halted endpoint is one whose kernel has stopped. */
  datatype State =
    | Idle
    | ReceivingHeaders(buf: seq<byte>)
    | ReceivingBody(prefix: seq<byte>, buf: seq<byte>, total: nat)
    | Halted

  /** What one turn comes to; an accepted module is stored and becomes the pending entry. */
  datatype Outcome = Nothing | BadRequest | TooLarge | Accepted(prefix: seq<byte>, bytes: seq<byte>) | Halts

  /** The socket as one turn finds it: `size` bytes could be received now. */
  datatype Look = Look(open: bool, mayRecv: bool, size: nat, stillOpen: bool)

  /** The endpoint, and the bytes the peer sends that have not been received yet. */
  datatype Endpoint = Endpoint(state: State, incoming: seq<byte>)

  datatype Turned = Turned(next: Endpoint, outcome: Outcome)

  function Chunk(incoming: seq<byte>, size: nat, limit: nat): (c: seq<byte>)
    ensures c <= incoming && |c| <= limit
  {
    incoming[..Min(Min(size, limit), |incoming|)]
  }

  /** The state after the headers have been seen to end. */
  function AfterHeaders(buf: seq<byte>): (r: (State, Outcome)) {
    var end := HeaderEnd(buf);
    if end.None? then (ReceivingHeaders(buf), Nothing)
    else
      var headers := buf[..end.value];
      match ContentLength(headers)
      case Stops => (Halted, Halts)
      case NoLength => (Idle, BadRequest)
      case Length(total) => (ReceivingBody(RoutePrefix(ParseHttp(headers).path), buf[end.value + 4..], total), Nothing)
  }

  function AfterBody(prefix: seq<byte>, buf: seq<byte>, total: nat): (r: (State, Outcome)) {
    if |buf| < total then (ReceivingBody(prefix, buf, total), Nothing)
    else if total > MAX_WASM_SIZE then (Idle, TooLarge)
    else (Idle, Accepted(prefix, buf[..total]))
  }

  function Kept(state: State, stillOpen: bool): (r: State) {
    if stillOpen || state.Halted? then state else Idle
  }

  /** One turn of the main loop on port 8081. */
  function Turn(e: Endpoint, look: Look): (r: Turned) {
    match if look.open || e.state.Halted? then e.state else Idle
    case Idle => Turned(Endpoint(if look.mayRecv then ReceivingHeaders([]) else Idle, e.incoming), Nothing)
    case ReceivingHeaders(buf) =>
      var chunk := Chunk(e.incoming, look.size, HEADER_CHUNK);
      var (state, outcome) := if chunk == [] then (ReceivingHeaders(buf), Nothing) else AfterHeaders(buf + chunk);
      Turned(Endpoint(Kept(state, look.stillOpen), e.incoming[|chunk|..]), outcome)
    case ReceivingBody(prefix, buf, total) =>
      var chunk := Chunk(e.incoming, look.size, BODY_CHUNK);
      var (state, outcome) := AfterBody(prefix, buf + chunk, total);
      Turned(Endpoint(Kept(state, look.stillOpen), e.incoming[|chunk|..]), outcome)
    case Halted => Turned(e, Nothing)
  }

  /** The answers of a run of turns, silent turns left out. */
  function Outcomes(e: Endpoint, looks: seq<Look>): (os: seq<Outcome>)
    decreases |looks|
  {
    if looks == [] then []
    else
      var t := Turn(e, looks[0]);
      (if t.outcome == Nothing then [] else [t.outcome]) + Outcomes(t.next, looks[1..])
  }

  // ---- one request ----

  /** A head with its blank line and, if it gives a length, at least that many bytes more. */
  predicate IsRequest(stream: seq<byte>) {
    var end := HeaderEnd(stream);
    end.Some? && var length := ContentLength(stream[..end.value]); length.Length? ==>
        end.value + 4 + length.value <= |stream|
  }

  function Headers(stream: seq<byte>): (h: seq<byte>)
    requires IsRequest(stream)
  {
    stream[..HeaderEnd(stream).value]
  }

  /** Everything behind the head. */
  function Rest(stream: seq<byte>): (b: seq<byte>)
    requires IsRequest(stream)
  {
    stream[HeaderEnd(stream).value + 4..]
  }

  /** Bytes of the body. */
  function BodySize(stream: seq<byte>): (n: nat)
    requires IsRequest(stream)
    ensures n <= |Rest(stream)|
  {
    var length := ContentLength(Headers(stream));
    if length.Length? then length.value else 0
  }

  /** What follows the request. */
  function Surplus(stream: seq<byte>): (b: seq<byte>)
    requires IsRequest(stream)
  {
    Rest(stream)[BodySize(stream)..]
  }

  /** What the request has to come to. */
  function Expected(stream: seq<byte>): (o: Outcome)
    requires IsRequest(stream)
    ensures o != Nothing
  {
    match ContentLength(Headers(stream))
    case Stops => Halts
    case NoLength => BadRequest
    case Length(total) =>
      if total > MAX_WASM_SIZE then TooLarge
      else Accepted(RoutePrefix(ParseHttp(Headers(stream)).path), Rest(stream)[..total])
  }

  /** How far the endpoint has come with the request. */
  predicate Underway(stream: seq<byte>, e: Endpoint)
    requires IsRequest(stream)
  {
    match e.state
    case Idle => e.incoming == stream
    case ReceivingHeaders(buf) => buf + e.incoming == stream && HeaderEnd(buf).None?
    case ReceivingBody(prefix, buf, total) =>
      && ContentLength(Headers(stream)) == Length(total) && prefix == RoutePrefix(ParseHttp(Headers(stream)).path)
      && buf + e.incoming == Rest(stream)
    case Halted => false
  }

  predicate EndsWith(s: seq<byte>, tail: seq<byte>) {
    |tail| <= |s| && s[|s| - |tail|..] == tail
  }

  /** The request is over: what is left to receive is the end of what followed it. */
  predicate Over(stream: seq<byte>, e: Endpoint)
    requires IsRequest(stream)
  {
    EndsWith(Surplus(stream), e.incoming) && if Expected(stream) == Halts then e.state.Halted? else e.state.Idle?
  }

  predicate Open(look: Look) {
    look.open && look.stillOpen
  }

  predicate AllOpen(looks: seq<Look>) {
    forall i :: 0 <= i < |looks| ==> Open(looks[i])
  }

  lemma HeadersSplit(stream: seq<byte>, buf: seq<byte>, rest: seq<byte>)
    requires IsRequest(stream) && buf + rest == stream
    ensures HeaderEnd(buf).None? || (HeaderEnd(buf) == HeaderEnd(stream) && |buf| >= HeaderEnd(stream).value + 4)
    ensures HeaderEnd(buf).Some? ==> buf[..HeaderEnd(buf).value] == Headers(stream)
    ensures HeaderEnd(buf).Some? ==> buf[HeaderEnd(buf).value + 4..] + rest == Rest(stream)
  {
    assert stream[..|buf|] == buf;
    HeaderEndStable(stream, |buf|);
    var end := HeaderEnd(stream).value;
    if |buf| >= end + 4 {
      assert stream[..end] == buf[..end];
      assert stream[end + 4..] == buf[end + 4..] + rest;
    }
  }

  /** What is left when n of the bytes are used up and more has been received. */
  lemma LeftOver(all: seq<byte>, buf: seq<byte>, rest: seq<byte>, n: nat)
    requires buf + rest == all && n <= |buf|
    ensures EndsWith(all[n..], rest) && buf[..n] == all[..n]
  {
  }

  lemma Moved(buf: seq<byte>, incoming: seq<byte>, n: nat)
    requires n <= |incoming|
    ensures buf + incoming[..n] + incoming[n..] == buf + incoming
  {
  }

  /** Bytes still to be received and turns still to be taken, at most. */
  function Remaining(e: Endpoint): (n: nat) {
    |e.incoming| + if e.state.Idle? then 2 else 1
  }

  /** A look at which something happens. */
  predicate Busy(look: Look) {
    look.mayRecv && look.size > 0
  }

  lemma HeadersTurn(stream: seq<byte>, e: Endpoint, look: Look)
    requires IsRequest(stream) && Underway(stream, e) && Open(look) && e.state.ReceivingHeaders?
    ensures var t := Turn(e, look);
      if t.outcome == Nothing then Underway(stream, t.next) && !t.next.state.Idle? && Remaining(t.next) <= Remaining(e)
      else t.outcome == Expected(stream) && Over(stream, t.next)
    ensures Busy(look) ==> var t := Turn(e, look); t.outcome != Nothing || Remaining(t.next) < Remaining(e)
  {
    var chunk := Chunk(e.incoming, look.size, HEADER_CHUNK);
    var buf, rest := e.state.buf + chunk, e.incoming[|chunk|..];
    Moved(e.state.buf, e.incoming, |chunk|);
    HeadersSplit(stream, buf, rest);
    assert e.state.buf + [] == e.state.buf;
    if HeaderEnd(buf).Some? {
      LeftOver(Rest(stream), buf[HeaderEnd(buf).value + 4..], rest, 0);
      assert Rest(stream)[0..] == Rest(stream);
    }
  }

  lemma BodyTurn(stream: seq<byte>, e: Endpoint, look: Look)
    requires IsRequest(stream) && Underway(stream, e) && Open(look) && e.state.ReceivingBody?
    ensures var t := Turn(e, look);
      if t.outcome == Nothing then Underway(stream, t.next) && !t.next.state.Idle? && Remaining(t.next) <= Remaining(e)
      else t.outcome == Expected(stream) && Over(stream, t.next)
    ensures Busy(look) ==> var t := Turn(e, look); t.outcome != Nothing || Remaining(t.next) < Remaining(e)
  {
    var chunk := Chunk(e.incoming, look.size, BODY_CHUNK);
    var buf, rest := e.state.buf + chunk, e.incoming[|chunk|..];
    Moved(e.state.buf, e.incoming, |chunk|);
    assert buf + rest == Rest(stream);
    if |buf| >= e.state.total {
      LeftOver(Rest(stream), buf, rest, e.state.total);
    } else {
      assert |rest| == |Rest(stream)| - |buf|;
    }
  }

  /** Every turn keeps the request on its way, or ends it with the expected answer. */
  lemma UploadTurn(stream: seq<byte>, e: Endpoint, look: Look)
    requires IsRequest(stream) && Underway(stream, e) && Open(look)
    ensures var t := Turn(e, look);
      if t.outcome == Nothing then Underway(stream, t.next) && Remaining(t.next) <= Remaining(e)
      else t.outcome == Expected(stream) && Over(stream, t.next)
    ensures Busy(look) ==> var t := Turn(e, look); t.outcome != Nothing || Remaining(t.next) < Remaining(e)
  {
    match e.state
    case Idle =>
      assert [] + stream == stream;
      HeaderEndStable(stream, 0);
      assert stream[..0] == [];
    case ReceivingHeaders(_) => HeadersTurn(stream, e, look);
    case ReceivingBody(_, _, _) => BodyTurn(stream, e, look);
  }

  /** A connection that has closed leaves nothing behind: the next one starts from scratch. */
  lemma ClosedForgets(e: Endpoint, look: Look)
    requires !e.state.Halted? && !(look.open && look.stillOpen)
    ensures !look.open ==>
      var t := Turn(e, look);
      && t.outcome == Nothing && t.next.incoming == e.incoming
      && (t.next.state.Idle? || t.next.state == ReceivingHeaders([]))
    ensures look.open && !e.state.Idle? ==> Turn(e, look).next.state.Idle? || Turn(e, look).next.state.Halted?
  {
  }

  // ---- after the answer ----

  /** Nothing that is still to come can be answered: the kernel has stopped, or no head ends in it. */
  predicate Quiet(e: Endpoint) {
    match e.state
    case Idle => HeaderEnd(e.incoming).None?
    case ReceivingHeaders(buf) => HeaderEnd(buf + e.incoming).None?
    case ReceivingBody(_, _, _) => false
    case Halted => true
  }

  lemma NoHeadInside(s: seq<byte>, lo: nat, hi: nat)
    requires lo <= hi <= |s| && HeaderEnd(s).None?
    ensures HeaderEnd(s[lo..hi]).None?
  {
    var part := s[lo..hi];
    FirstBeyond(s, 0, BLANK_LINE);
    forall q: nat ensures !At(part, q, BLANK_LINE) {
      if q + 4 <= |part| {
        SubSlice(s, lo, hi, q, q + 4);
        assert !At(s, lo + q, BLANK_LINE);
      }
    }
    FirstIsFirst(part, 0, BLANK_LINE, |part| + 1);
  }

  lemma QuietTurn(e: Endpoint, look: Look)
    requires Quiet(e) && Open(look)
    ensures Quiet(Turn(e, look).next) && Turn(e, look).outcome == Nothing
  {
    match e.state
    case Idle => assert [] + e.incoming == e.incoming;
    case ReceivingHeaders(buf) =>
      var chunk := Chunk(e.incoming, look.size, HEADER_CHUNK);
      Moved(buf, e.incoming, |chunk|);
      var all := buf + e.incoming;
      NoHeadInside(all, 0, |buf + chunk|);
      assert all[0..|buf + chunk|] == buf + chunk;
      assert e.incoming[0..] == e.incoming;
    case Halted =>
  }

  lemma {:induction false} SilentWhenQuiet(e: Endpoint, looks: seq<Look>)
    requires Quiet(e) && AllOpen(looks)
    ensures Outcomes(e, looks) == []
    decreases |looks|
  {
    if looks != [] {
      assert Open(looks[0]) && AllOpen(looks[1..]);
      QuietTurn(e, looks[0]);
      SilentWhenQuiet(Turn(e, looks[0]).next, looks[1..]);
    }
  }

  /** No further head is complete behind the request, or the kernel does not live to see it. */
  predicate Last(stream: seq<byte>)
    requires IsRequest(stream)
  {
    HeaderEnd(Surplus(stream)).None? || Expected(stream) == Halts
  }

  lemma QuietWhenOver(stream: seq<byte>, e: Endpoint)
    requires IsRequest(stream) && Over(stream, e) && Last(stream)
    ensures Quiet(e)
  {
    if Expected(stream) != Halts {
      var s := Surplus(stream);
      NoHeadInside(s, |s| - |e.incoming|, |s|);
      assert s[|s| - |e.incoming|..|s|] == e.incoming;
    }
  }

  function CountBusy(looks: seq<Look>): (n: nat) {
    if looks == [] then 0 else (if Busy(looks[0]) then 1 else 0) + CountBusy(looks[1..])
  }

  /** Until it is over a request has no answer, and then the expected one first, and no other if it is the last. */
  lemma {:induction false} UploadRun(stream: seq<byte>, e: Endpoint, looks: seq<Look>)
    requires IsRequest(stream) && Underway(stream, e) && AllOpen(looks)
    ensures var os := Outcomes(e, looks);
      && (os != [] ==> os[0] == Expected(stream)) && (Last(stream) ==> |os| <= 1)
      && (CountBusy(looks) >= Remaining(e) ==> os != [])
    decreases |looks|
  {
    if looks != [] {
      assert Open(looks[0]) && AllOpen(looks[1..]);
      var t := Turn(e, looks[0]);
      UploadTurn(stream, e, looks[0]);
      if t.outcome == Nothing {
        UploadRun(stream, t.next, looks[1..]);
        assert Outcomes(e, looks) == Outcomes(t.next, looks[1..]);
      } else if Last(stream) {
        QuietWhenOver(stream, t.next);
        SilentWhenQuiet(t.next, looks[1..]);
      }
    }
  }

  /**
   * However a request is cut into receives, whatever idle turns come between and whatever follows it, the first
   * answer is its own: its route prefix and the first bytes of its body, as many as its length says, if they are
   * not too many. It is the only answer if what follows holds no further head.
   */
  lemma ChunksDoNotMatter(stream: seq<byte>, looks: seq<Look>)
    requires IsRequest(stream) && AllOpen(looks) && CountBusy(looks) >= |stream| + 2
    ensures var os := Outcomes(Endpoint(Idle, stream), looks);
      os != [] && os[0] == Expected(stream) && (Last(stream) ==> os == [Expected(stream)])
  {
    UploadRun(stream, Endpoint(Idle, stream), looks);
  }

  /** A module is stored exactly when the request has a length that is not too large. */
  lemma StoredIffFits(stream: seq<byte>, looks: seq<Look>)
    requires IsRequest(stream) && Last(stream) && AllOpen(looks) && CountBusy(looks) >= |stream| + 2
    ensures (exists o :: o in Outcomes(Endpoint(Idle, stream), looks) && o.Accepted?) <==>
            ContentLength(Headers(stream)).Length? && BodySize(stream) <= 524288
    ensures forall o :: o in Outcomes(Endpoint(Idle, stream), looks) && o.Accepted? ==>
        o.bytes == Rest(stream)[..BodySize(stream)]
  {
    ChunksDoNotMatter(stream, looks);
    var os := Outcomes(Endpoint(Idle, stream), looks);
    assert os[0] in os;
  }

  // ---- requests as clients write them ----

  predicate NoCr(lines: seq<seq<byte>>) {
    forall i :: 0 <= i < |lines| ==> CR !in lines[i]
  }

  /** The lines of a head: none empty, none with a carriage return. */
  predicate HeadLines(lines: seq<seq<byte>>) {
    lines != [] && NoCr(lines) && forall i :: 0 <= i < |lines| ==> lines[i] != []
  }

  lemma {:induction false} NoBlankInside(lines: seq<seq<byte>>, tail: seq<byte>, q: nat)
    requires HeadLines(lines) && q < |JoinLines(lines)|
    ensures !At(JoinLines(lines) + BLANK_LINE + tail, q, BLANK_LINE)
    decreases |lines|
  {
    var text := JoinLines(lines) + BLANK_LINE + tail;
    var n := |lines[0]|;
    if At(text, q, BLANK_LINE) {
      AtByte(text, q, BLANK_LINE, 0);
      AtByte(text, q, BLANK_LINE, 1);
      AtByte(text, q, BLANK_LINE, 2);
      assert forall k :: 0 <= k < n ==> text[k] == lines[0][k];
      if |lines| > 1 {
        var rest := JoinLines(lines[1..]) + BLANK_LINE + tail;
        assert text == lines[0] + [CR, LF] + rest;
        RestStarts(lines[1..], tail);
        assert text[n + 2] == rest[0];
        if q >= n + 2 {
          AtBehind(lines[0] + [CR, LF], rest, q - (n + 2), BLANK_LINE);
          NoBlankInside(lines[1..], tail, q - (n + 2));
        }
      }
    }
  }

  lemma RestStarts(lines: seq<seq<byte>>, tail: seq<byte>)
    requires HeadLines(lines)
    ensures |JoinLines(lines)| > 0 && (JoinLines(lines) + BLANK_LINE + tail)[0] != CR
  {
    assert JoinLines(lines)[0] == lines[0][0];
  }

  /** The head of a request ends where its lines end. */
  lemma HeadEnds(lines: seq<seq<byte>>, body: seq<byte>)
    requires HeadLines(lines)
    ensures HeaderEnd(JoinLines(lines) + BLANK_LINE + body) == Some(|JoinLines(lines)|)
  {
    var head := JoinLines(lines);
    var text := head + BLANK_LINE + body;
    forall q: nat | q < |head| ensures !At(text, q, BLANK_LINE) {
      NoBlankInside(lines, body, q);
    }
    assert At(text, |head|, BLANK_LINE) by {
      assert text[|head|..|head| + 4] == BLANK_LINE;
    }
    FirstIsFirst(text, 0, BLANK_LINE, |head|);
  }

  function RequestLine(path: seq<byte>, version: seq<byte>): (s: seq<byte>) {
    [80, 79, 83, 84] + [SPACE] + path + [SPACE] + version
  }

  /** A number as it may be given: digits, with or without a plus sign. */
  predicate Numeral(s: seq<byte>, n: nat) {
    var digits := if s != [] && s[0] == 43 then s[1..] else s;
    digits != [] && AllDigits(digits) && Value(digits) == n
  }

  /** What follows the name of the length: a number with white space around it. */
  predicate NumberText(s: seq<byte>, left: seq<nat>, number: seq<byte>, right: seq<nat>) {
    Whites(left) && Whites(right) && s == Utf8.Encoded(left) + number + Utf8.Encoded(right)
  }

  /** The head's lines: a POST request line, then headers of which number k is the first to give the length. */
  predicate UploadHead(path: seq<byte>, version: seq<byte>, lines: seq<seq<byte>>, k: nat, left: seq<nat>,
      number: seq<byte>, right: seq<nat>, total: nat) {
    && HeadLines(lines) && lines[0] == RequestLine(path, version) && SPACE !in path && CR !in path && CR !in version
    && 0 < k < |lines| && IsLengthLine(lines[k]) && NumberText(lines[k][16..], left, number, right)
    && Numeral(number, total) && forall i :: 1 <= i < k ==> !IsLengthLine(lines[i])
  }

  /** No line before number k makes the kernel stop. */
  predicate Whole(lines: seq<seq<byte>>, k: nat) {
    forall i :: 0 <= i < k && i < |lines| ==> !Breaks(lines[i])
  }

  lemma HeadPath(path: seq<byte>, version: seq<byte>, lines: seq<seq<byte>>)
    requires HeadLines(lines) && lines[0] == RequestLine(path, version) && SPACE !in path && CR !in path
    requires CR !in version
    ensures ParseHttp(JoinLines(lines)).path == path
  {
    var rest := if |lines| == 1 then [] else [CR, LF] + JoinLines(lines[1..]);
    assert JoinLines(lines) == [80, 79, 83, 84] + [SPACE] + path + [SPACE] + version + rest;
    RequestLineRead([80, 79, 83, 84], path, version, rest);
  }

  lemma HeadOf(lines: seq<seq<byte>>)
    requires HeadLines(lines)
    ensures Lines(JoinLines(lines)) == lines
  {
    forall i, q: nat | 0 <= i < |lines| ensures !At(lines[i], q, [CR, LF]) {
      if At(lines[i], q, [CR, LF]) {
        AtByte(lines[i], q, [CR, LF], 0);
      }
    }
    LinesJoined(lines);
  }

  /** A number that fits 64 bits is taken, and no other. */
  lemma NumberParsed(number: seq<byte>, total: nat)
    requires Numeral(number, total)
    ensures ParseUsize(number) == if total < 0x1_0000_0000_0000_0000 then Some(total) else None
    ensures number != [] && Graphic(number[0]) && Graphic(number[|number| - 1])
  {
    var digits := if number[0] == 43 then number[1..] else number;
    assert number[|number| - 1] == digits[|digits| - 1];
  }

  /** The first byte of a character is no continuation. */
  lemma NumberStarts(left: seq<nat>, number: seq<byte>, right: seq<nat>)
    requires Whites(left) && Whites(right) && number != [] && Graphic(number[0])
    ensures !Utf8.Tail((Utf8.Encoded(left) + number + Utf8.Encoded(right))[0])
  {
    if left != [] {
      assert (Utf8.Encoded(left) + number + Utf8.Encoded(right))[0] == Utf8.Encode(left[0])[0];
    }
  }

  lemma LengthLineNumber(line: seq<byte>, left: seq<nat>, number: seq<byte>, right: seq<nat>, total: nat)
    requires IsLengthLine(line) && NumberText(line[16..], left, number, right) && Numeral(number, total)
    ensures !Breaks(line) && NumberIn(line) == if total < 0x1_0000_0000_0000_0000 then Length(total) else NoLength
  {
    NumberParsed(number, total);
    Trimmed(left, number, right);
    NumberStarts(left, number, right);
    assert line[16] == line[16..][0];
  }

  lemma HeadLength(path: seq<byte>, version: seq<byte>, lines: seq<seq<byte>>, k: nat, left: seq<nat>,
      number: seq<byte>, right: seq<nat>, total: nat)
    requires UploadHead(path, version, lines, k, left, number, right, total)
    ensures Whole(lines, k) ==> LengthIn(lines) == if total < 0x1_0000_0000_0000_0000 then Length(total) else NoLength
    ensures !Whole(lines, k) ==> LengthIn(lines) == Stops
  {
    assert !IsLengthLine(lines[0]) by {
      assert lines[0][0] == 80;
    }
    LengthLineNumber(lines[k], left, number, right, total);
    if Whole(lines, k) {
      LengthRead(lines, k);
    } else {
      StopsIff(lines);
    }
  }

  lemma UpdateText()
    ensures UPDATE == Ascii("/update")
  {
  }

  /** What is behind /update in the path of an upload is the prefix, and without that it is the root. */
  lemma PrefixRead(path: seq<byte>)
    ensures var prefix := RoutePrefix(path);
      && (forall p :: p != [] && path == Ascii("/update") + p ==> prefix == p)
      && (path == Ascii("/update") || !(Ascii("/update") <= path) ==> prefix == [47])
  {
    UpdateText();
    forall p: seq<byte> | p != [] && path == Ascii("/update") + p ensures RoutePrefix(path) == p {
      assert path[|UPDATE|..] == p;
    }
  }

  /**
   * Every request a client spells out this way, in any case and with any other headers, comes to what it should,
   * whatever follows it, exactly when no line before the length has a character across its sixteenth byte.
   */
  lemma UploadUnderstood(path: seq<byte>, version: seq<byte>, lines: seq<seq<byte>>, k: nat, left: seq<nat>,
      number: seq<byte>, right: seq<nat>, total: nat, rest: seq<byte>)
    requires UploadHead(path, version, lines, k, left, number, right, total)
    requires total < 0x1_0000_0000_0000_0000 ==> total <= |rest|
    ensures var stream, prefix := JoinLines(lines) + BLANK_LINE + rest, RoutePrefix(path);
      && IsRequest(stream) && Headers(stream) == JoinLines(lines) && Rest(stream) == rest
      && (Expected(stream) ==
          if !Utf8.Valid(JoinLines(lines)) then BadRequest
          else if !Whole(lines, k) then Halts
          else if total >= 0x1_0000_0000_0000_0000 then BadRequest
          else if total > 524288 then TooLarge
          else Accepted(prefix, rest[..total]))
      && (forall p :: p != [] && path == Ascii("/update") + p ==> prefix == p)
      && (path == Ascii("/update") || !(Ascii("/update") <= path) ==> prefix == [47])
  {
    UploadTaken(path, version, lines, k, left, number, right, total, rest);
    PrefixRead(path);
  }

  lemma UploadTaken(path: seq<byte>, version: seq<byte>, lines: seq<seq<byte>>, k: nat, left: seq<nat>,
      number: seq<byte>, right: seq<nat>, total: nat, rest: seq<byte>)
    requires UploadHead(path, version, lines, k, left, number, right, total)
    requires total < 0x1_0000_0000_0000_0000 ==> total <= |rest|
    ensures var stream := JoinLines(lines) + BLANK_LINE + rest;
      && IsRequest(stream) && Headers(stream) == JoinLines(lines) && Rest(stream) == rest
      && Expected(stream) ==
         if !Utf8.Valid(JoinLines(lines)) then BadRequest
         else if !Whole(lines, k) then Halts
         else if total >= 0x1_0000_0000_0000_0000 then BadRequest
         else if total > 524288 then TooLarge
         else Accepted(RoutePrefix(path), rest[..total])
  {
    var head := JoinLines(lines);
    var stream := head + BLANK_LINE + rest;
    HeadEnds(lines, rest);
    HeadOf(lines);
    HeadLength(path, version, lines, k, left, number, right, total);
    HeadPath(path, version, lines);
    assert stream[..|head|] == head && stream[|head| + 4..] == rest;
  }

  /** What follows an accepted request is what is behind the bytes it is accepted with. */
  lemma AcceptedSurplus(stream: seq<byte>, prefix: seq<byte>, data: seq<byte>)
    requires IsRequest(stream) && Expected(stream) == Accepted(prefix, data)
    ensures |data| <= |Rest(stream)| && Surplus(stream) == Rest(stream)[|data|..]
  {
  }

  /**
   * For every head: the kernel stops exactly when the head is text and a line with a character across its
   * sixteenth byte comes before the first length line.
   */
  lemma HaltsIff(stream: seq<byte>)
    requires IsRequest(stream)
    ensures var lines := Lines(Headers(stream));
      Expected(stream) == Halts <==>
      (Utf8.Valid(Headers(stream))
       && exists k :: 0 <= k < |lines| && Breaks(lines[k]) && forall i :: 0 <= i < k ==> !IsLengthLine(lines[i]))
  {
    var h := Headers(stream);
    StopsIff(Lines(h));
    assert Utf8.Valid(h) ==> ContentLength(h) == LengthIn(Lines(h));
  }

  /** "POST / " */
  const POST_LINE: seq<byte> := [80, 79, 83, 84, 32, 47, 32]

  /** "Content-Length: 1" */
  const LENGTH_LINE: seq<byte> := [67, 111, 110, 116, 101, 110, 116, 45, 76, 101, 110, 103, 116, 104, 58, 32, 49]

  /** Fifteen times the letter x and an accented letter. */
  const WIDE_LINE: seq<byte> := [120, 120, 120, 120, 120, 120, 120, 120, 120, 120, 120, 120, 120, 120, 120, 0xC3, 0xA9]

  lemma LengthLineReads()
    ensures IsLengthLine(LENGTH_LINE) && NumberText(LENGTH_LINE[16..], [], [49], []) && Numeral([49], 1)
    ensures !IsLengthLine(WIDE_LINE) && Breaks(WIDE_LINE) && !Breaks(POST_LINE)
    ensures POST_LINE == RequestLine([47], [])
  {
    assert Lower(WIDE_LINE[0]) != CONTENT_LENGTH[0];
    assert LENGTH_LINE[16..] == [] + [49] + [];
    assert Value([49]) == 1 by {
      assert [49 as byte][..0] == [];
    }
    assert POST_LINE == [80, 79, 83, 84] + [SPACE] + [47] + [SPACE] + [];
  }

  /** A one-byte upload whose second line stops the kernel. */
  lemma WideLineHalts()
    ensures var stream := JoinLines([POST_LINE, WIDE_LINE, LENGTH_LINE]) + BLANK_LINE + [7];
      IsRequest(stream) && Expected(stream) == Halts
  {
    var lines := [POST_LINE, WIDE_LINE, LENGTH_LINE];
    LengthLineReads();
    UploadUnderstood([47], [], lines, 2, [], [49], [], 1, [7]);
    TextWithWideLine();
    assert Breaks(lines[1]);
  }

  lemma TextWithWideLine()
    ensures Utf8.Valid(JoinLines([POST_LINE, WIDE_LINE, LENGTH_LINE]))
  {
    ThreeLines(POST_LINE, WIDE_LINE, LENGTH_LINE);
    var x, y, z := POST_LINE + [CR, LF] + WIDE_LINE[..15], WIDE_LINE[15..], [CR, LF] + LENGTH_LINE;
    assert x + (y + z) == POST_LINE + [CR, LF] + (WIDE_LINE + [CR, LF] + LENGTH_LINE) by {
      assert WIDE_LINE == WIDE_LINE[..15] + y;
    }
    Utf8.AsciiValid(z);
    Wide(y, z);
    AsciiJoins(POST_LINE + [CR, LF], WIDE_LINE[..15]);
    Utf8.AsciiBefore(x, y + z);
  }

  predicate AllAscii(s: seq<byte>) {
    forall i :: 0 <= i < |s| ==> s[i] < 0x80
  }

  lemma AsciiJoins(a: seq<byte>, b: seq<byte>)
    requires AllAscii(a) && AllAscii(b)
    ensures AllAscii(a + b)
  {
  }

  lemma Wide(y: seq<byte>, z: seq<byte>)
    requires |y| == 2 && y[0] == 0xC3 && y[1] == 0xA9 && Utf8.Valid(z)
    ensures Utf8.Valid(y + z)
  {
    assert (y + z)[2..] == z;
  }

  lemma ThreeLines(a: seq<byte>, b: seq<byte>, c: seq<byte>)
    ensures JoinLines([a, b, c]) == a + [CR, LF] + (b + [CR, LF] + c)
  {
    var lines := [a, b, c];
    assert lines[1..] == [b, c] && [b, c][1..] == [c];
    assert JoinLines([c]) == c && JoinLines([b, c]) == b + [CR, LF] + c;
  }

  // ---- more than one request ----

  /** A look at a socket that stays open, with `size` bytes there. */
  function Ready(size: nat): (look: Look) {
    Look(true, true, size, true)
  }

  /** Receives of one byte each. */
  function Drip(n: nat): (looks: seq<Look>)
    ensures |looks| == n && AllOpen(looks)
  {
    seq(n, _ => Ready(1))
  }

  /** Receives that take a request byte by byte, and with its last byte k bytes of what follows. */
  function CutBehind(stream: seq<byte>, k: nat): (looks: seq<Look>)
    requires IsRequest(stream)
    ensures AllOpen(looks)
  {
    [Ready(0)] + (Drip(|stream| - |Surplus(stream)| - 1) + [Ready(1 + k), Ready(0)])
  }

  /** The endpoint after a run of turns. */
  function After(e: Endpoint, looks: seq<Look>): (r: Endpoint)
    decreases |looks|
  {
    if looks == [] then e else After(Turn(e, looks[0]).next, looks[1..])
  }

  lemma NothingSaid(os: seq<Outcome>)
    ensures [] + os == os && os + [] == os
  {
  }

  lemma {:induction false} OutcomesJoin(e: Endpoint, a: seq<Look>, b: seq<Look>)
    ensures Outcomes(e, a + b) == Outcomes(e, a) + Outcomes(After(e, a), b)
    decreases |a|
  {
    if a == [] {
      assert a + b == b && Outcomes(e, a) == [];
      NothingSaid(Outcomes(e, b));
    } else {
      var t := Turn(e, a[0]);
      assert (a + b)[0] == a[0] && (a + b)[1..] == a[1..] + b;
      OutcomesJoin(t.next, a[1..], b);
      Assoc(if t.outcome == Nothing then [] else [t.outcome], Outcomes(t.next, a[1..]),
            Outcomes(After(t.next, a[1..]), b));
    }
  }

  lemma {:induction false} AfterJoin(e: Endpoint, a: seq<Look>, b: seq<Look>)
    ensures After(e, a + b) == After(After(e, a), b)
    decreases |a|
  {
    if a == [] {
      assert a + b == b;
    } else {
      assert (a + b)[0] == a[0] && (a + b)[1..] == a[1..] + b;
      AfterJoin(Turn(e, a[0]).next, a[1..], b);
    }
  }

  lemma OneTurn(e: Endpoint, look: Look)
    ensures var t := Turn(e, look);
      After(e, [look]) == t.next && Outcomes(e, [look]) == if t.outcome == Nothing then [] else [t.outcome]
  {
    var t := Turn(e, look);
    assert [look][1..] == [];
    var none: seq<Outcome> := [];
    assert Outcomes(t.next, []) == none;
    NothingSaid(if t.outcome == Nothing then none else [t.outcome]);
  }

  /** In the middle of a request, with n bytes of it still to come. */
  predicate Within(stream: seq<byte>, e: Endpoint, n: nat)
    requires IsRequest(stream)
  {
    Underway(stream, e) && !e.state.Idle? && |e.incoming| == n + |Surplus(stream)|
  }

  /** A byte that is not the last of the request is taken and answered by nothing. */
  lemma ByteTaken(stream: seq<byte>, e: Endpoint, n: nat)
    requires IsRequest(stream) && Within(stream, e, n) && n > 1
    ensures Turn(e, Ready(1)).outcome == Nothing && Within(stream, Turn(e, Ready(1)).next, n - 1)
  {
    UploadTurn(stream, e, Ready(1));
    assert |Turn(e, Ready(1)).next.incoming| == |e.incoming| - 1;
  }

  lemma {:induction false} Dripped(stream: seq<byte>, e: Endpoint, n: nat)
    requires IsRequest(stream) && Within(stream, e, n + 1)
    ensures Outcomes(e, Drip(n)) == [] && Within(stream, After(e, Drip(n)), 1)
    decreases n
  {
    if n > 0 {
      ByteTaken(stream, e, n + 1);
      assert Drip(n)[1..] == Drip(n - 1);
      Dripped(stream, Turn(e, Ready(1)).next, n - 1);
    }
  }

  /** Once all bytes of a request are there and it has not been answered, the next turn answers it. */
  lemma AnswerDue(stream: seq<byte>, e: Endpoint)
    requires IsRequest(stream) && Underway(stream, e) && !e.state.Idle? && |e.incoming| <= |Surplus(stream)|
    ensures Turn(e, Ready(0)).outcome == Expected(stream) && Turn(e, Ready(0)).next == Endpoint(Idle, e.incoming)
  {
    if e.state.ReceivingHeaders? {
      HeadersSplit(stream, e.state.buf, e.incoming);
      assert stream[..|e.state.buf|] == e.state.buf;
      HeaderEndStable(stream, |e.state.buf|);
    } else {
      var buf := e.state.buf;
      assert buf + [] == buf && e.incoming[0..] == e.incoming;
      LeftOver(Rest(stream), buf, e.incoming, e.state.total);
    }
  }

  lemma TwoTurns(e: Endpoint, a: Look, b: Look)
    ensures var t := Turn(e, a); var u := Turn(t.next, b);
      && After(e, [a, b]) == u.next
      && Outcomes(e, [a, b])
          == (if t.outcome == Nothing then [] else [t.outcome]) + (if u.outcome == Nothing then [] else [u.outcome])
  {
    OneTurn(Turn(e, a).next, b);
    assert [a, b][1..] == [b];
  }

  lemma EndOf(stream: seq<byte>, incoming: seq<byte>)
    requires IsRequest(stream) && |incoming| <= |Surplus(stream)| && EndsWith(Rest(stream), incoming)
    ensures EndsWith(Surplus(stream), incoming)
  {
  }

  lemma EndIs(s: seq<byte>, tail: seq<byte>, k: nat)
    requires EndsWith(s, tail) && |tail| == |s| - k
    ensures tail == s[k..]
  {
  }

  lemma NothingYet(stream: seq<byte>, e: Endpoint, k: nat)
    requires IsRequest(stream) && Underway(stream, e) && !e.state.Idle? && k <= |Surplus(stream)|
    requires |e.incoming| == |Surplus(stream)| - k
    ensures e.incoming == Surplus(stream)[k..] && Expected(stream) != Halts
  {
    AnswerDue(stream, e);
    EndOf(stream, e.incoming);
    EndIs(Surplus(stream), e.incoming, k);
  }

  /** The turn that takes the last byte and what comes with it. */
  lemma LastTurn(stream: seq<byte>, e: Endpoint, k: nat)
    requires IsRequest(stream) && Within(stream, e, 1) && k < HEADER_CHUNK && k <= |Surplus(stream)|
    ensures var t := Turn(e, Ready(1 + k));
      && t.next.incoming == Surplus(stream)[k..]
      && (t.outcome == Nothing ==>
            Underway(stream, t.next) && !t.next.state.Idle? && Expected(stream) != Halts)
      && (t.outcome != Nothing ==>
            && t.outcome == Expected(stream)
            && (if Expected(stream) == Halts then t.next.state.Halted? else t.next.state.Idle?))
  {
    var t := Turn(e, Ready(1 + k));
    UploadTurn(stream, e, Ready(1 + k));
    assert |t.next.incoming| == |Surplus(stream)| - k;
    if t.outcome == Nothing {
      NothingYet(stream, t.next, k);
    } else {
      EndIs(Surplus(stream), t.next.incoming, k);
    }
  }

  /** The request is over, and k bytes of what follows it are gone. */
  predicate Rested(stream: seq<byte>, r: Endpoint, k: nat)
    requires IsRequest(stream) && k <= |Surplus(stream)|
  {
    && r.incoming == Surplus(stream)[k..]
    && if Expected(stream) == Halts then r.state.Halted? else r.state.Idle? || r.state == ReceivingHeaders([])
  }

  /** The last byte and the turn after it. */
  lemma LastByteTaken(stream: seq<byte>, e: Endpoint, k: nat)
    requires IsRequest(stream) && Within(stream, e, 1) && k < HEADER_CHUNK && k <= |Surplus(stream)|
    ensures var r := After(e, [Ready(1 + k), Ready(0)]);
      && Outcomes(e, [Ready(1 + k), Ready(0)]) == [Expected(stream)] && Rested(stream, r, k)
  {
    var t := Turn(e, Ready(1 + k));
    LastTurn(stream, e, k);
    TwoTurns(e, Ready(1 + k), Ready(0));
    NothingSaid([Expected(stream)]);
    if t.outcome == Nothing {
      AnswerDue(stream, t.next);
    } else {
      assert t.next.incoming[0..] == t.next.incoming;
    }
  }

  /**
   * A request received so that k bytes of what follows it come with its last byte is answered, and only what is behind
   * those is left to be looked at.
   */
  lemma CutTaken(stream: seq<byte>, state: State, k: nat)
    requires IsRequest(stream) && (state == Idle || state == ReceivingHeaders([]))
    requires k < HEADER_CHUNK && k <= |Surplus(stream)|
    ensures var e := Endpoint(state, stream);
      Outcomes(e, CutBehind(stream, k)) == [Expected(stream)] && Rested(stream, After(e, CutBehind(stream, k)), k)
  {
    var e, n := Endpoint(state, stream), |stream| - |Surplus(stream)| - 1;
    var e1 := Endpoint(ReceivingHeaders([]), stream);
    var rest := Drip(n) + [Ready(1 + k), Ready(0)];
    GetsReady(stream, state);
    QuietFirst(e, Ready(0), rest);
    CutFollowed(stream, e1, n, k, rest);
    assert CutBehind(stream, k) == [Ready(0)] + rest;
  }

  lemma QuietFirst(e: Endpoint, look: Look, rest: seq<Look>)
    requires Turn(e, look).outcome == Nothing
    ensures Outcomes(e, [look] + rest) == Outcomes(Turn(e, look).next, rest)
    ensures After(e, [look] + rest) == After(Turn(e, look).next, rest)
  {
    assert ([look] + rest)[1..] == rest;
    NothingSaid(Outcomes(Turn(e, look).next, rest));
  }

  lemma GetsReady(stream: seq<byte>, state: State)
    requires IsRequest(stream) && (state == Idle || state == ReceivingHeaders([]))
    ensures Turn(Endpoint(state, stream), Ready(0)) == Turned(Endpoint(ReceivingHeaders([]), stream), Nothing)
    ensures Within(stream, Endpoint(ReceivingHeaders([]), stream), |stream| - |Surplus(stream)|)
  {
    assert stream[0..] == stream && [] + stream == stream;
    HeaderEndStable(stream, 0);
    assert stream[..0] == [];
  }

  lemma CutFollowed(stream: seq<byte>, e: Endpoint, n: nat, k: nat, looks: seq<Look>)
    requires IsRequest(stream) && Within(stream, e, n + 1) && k < HEADER_CHUNK && k <= |Surplus(stream)|
    requires looks == Drip(n) + [Ready(1 + k), Ready(0)]
    ensures Outcomes(e, looks) == [Expected(stream)] && Rested(stream, After(e, looks), k)
  {
    Dripped(stream, e, n);
    LastByteTaken(stream, After(e, Drip(n)), k);
    OutcomesJoin(e, Drip(n), [Ready(1 + k), Ready(0)]);
    AfterJoin(e, Drip(n), [Ready(1 + k), Ready(0)]);
    NothingSaid([Expected(stream)]);
  }

  /**
   * Two requests on one connection, of any size: cut in one way both are acted on, though the second finds the
   * connection closed for its response.
   */
  lemma BothActedOn(stream: seq<byte>)
    requires IsRequest(stream) && IsRequest(Surplus(stream)) && Expected(stream) != Halts
    ensures Outcomes(Endpoint(Idle, stream), CutBehind(stream, 0) + CutBehind(Surplus(stream), 0))
            == [Expected(stream), Expected(Surplus(stream))]
  {
    var e, second := Endpoint(Idle, stream), Surplus(stream);
    CutTaken(stream, Idle, 0);
    var r := After(e, CutBehind(stream, 0));
    assert second[0..] == second;
    CutTaken(second, r.state, 0);
    OutcomesJoin(e, CutBehind(stream, 0), CutBehind(second, 0));
    assert [Expected(stream)] + [Expected(second)] == [Expected(stream), Expected(second)];
  }

  /**
   * Cut so that enough of the second comes with the end of the first that no head ends in the rest of it, it is lost,
   * however long one waits.
   */
  lemma SecondLost(stream: seq<byte>, k: nat, later: seq<Look>)
    requires IsRequest(stream) && k < HEADER_CHUNK && k <= |Surplus(stream)| && AllOpen(later)
    requires HeaderEnd(Surplus(stream)[k..]).None?
    ensures Outcomes(Endpoint(Idle, stream), CutBehind(stream, k) + later) == [Expected(stream)]
  {
    var e := Endpoint(Idle, stream);
    CutTaken(stream, Idle, k);
    var r := After(e, CutBehind(stream, k));
    assert [] + r.incoming == r.incoming;
    SilentWhenQuiet(r, later);
    OutcomesJoin(e, CutBehind(stream, k), later);
    NothingSaid([Expected(stream)]);
  }

  /** So the cut decides whether the second request is acted on; its size does not matter, only where its head ends. */
  lemma PipelinedDependsOnCut(s1: seq<byte>, s2: seq<byte>, k: nat, later: seq<Look>)
    requires IsRequest(s1) && Surplus(s1) == [] && Expected(s1) != Halts && IsRequest(s2)
    requires k < HEADER_CHUNK && k <= |s2| && HeaderEnd(s2[k..]).None? && AllOpen(later)
    ensures IsRequest(s1 + s2)
    ensures var e := Endpoint(Idle, s1 + s2);
      && Outcomes(e, CutBehind(s1 + s2, 0) + CutBehind(s2, 0)) == [Expected(s1), Expected(s2)]
      && Outcomes(e, CutBehind(s1 + s2, k) + later) == [Expected(s1)]
  {
    HeaderBefore(s1, s2);
    BothActedOn(s1 + s2);
    SecondLost(s1 + s2, k, later);
  }

  lemma HeaderBefore(s1: seq<byte>, s2: seq<byte>)
    requires IsRequest(s1)
    ensures IsRequest(s1 + s2) && Expected(s1 + s2) == Expected(s1) && Surplus(s1 + s2) == Surplus(s1) + s2
  {
    var s, end := s1 + s2, HeaderEnd(s1).value;
    HeaderEndBefore(s1, s2, end);
    FrontOfBoth(s1, s2, end);
    BackOfBoth(s1, s2, end + 4);
    FrontOfBoth(s1[end + 4..], s2, BodySize(s1));
    BackOfBoth(s1[end + 4..], s2, BodySize(s1));
  }

  lemma HeaderEndBefore(s1: seq<byte>, s2: seq<byte>, end: nat)
    requires HeaderEnd(s1) == Some(end)
    ensures HeaderEnd(s1 + s2) == Some(end)
  {
    FirstBeyond(s1, 0, BLANK_LINE);
    forall q: nat | q <= end ensures At(s1 + s2, q, BLANK_LINE) <==> At(s1, q, BLANK_LINE) {
      SliceOfBoth(s1, s2, q, q + 4);
    }
    FirstIsFirst(s1 + s2, 0, BLANK_LINE, end);
  }

  lemma SliceOfBoth(s1: seq<byte>, s2: seq<byte>, lo: nat, hi: nat)
    requires lo <= hi <= |s1|
    ensures (s1 + s2)[lo..hi] == s1[lo..hi]
  {
  }

  lemma FrontOfBoth(s1: seq<byte>, s2: seq<byte>, n: nat)
    requires n <= |s1|
    ensures (s1 + s2)[..n] == s1[..n]
  {
  }

  lemma BackOfBoth(s1: seq<byte>, s2: seq<byte>, n: nat)
    requires n <= |s1|
    ensures (s1 + s2)[n..] == s1[n..] + s2
  {
  }

  /** Such requests exist: a one-byte upload, twice. */
  lemma ShortUpload()
    ensures var s := JoinLines([POST_LINE, LENGTH_LINE]) + BLANK_LINE + [7];
      IsRequest(s) && |s| < HEADER_CHUNK && Surplus(s) == [] && Expected(s) == Accepted([SLASH], [7])
  {
    LengthLineReads();
    TwoLines(POST_LINE, LENGTH_LINE);
    TwoShortLines(POST_LINE + [CR, LF] + LENGTH_LINE);
    UploadUnderstood([47], [], [POST_LINE, LENGTH_LINE], 1, [], [49], [], 1, [7]);
    assert [7][..1] == [7 as byte];
  }

  lemma TwoLines(a: seq<byte>, b: seq<byte>)
    ensures JoinLines([a, b]) == a + [CR, LF] + b
  {
    assert [a, b][1..] == [b];
  }

  lemma TwoShortLines(head: seq<byte>)
    requires head == POST_LINE + [CR, LF] + LENGTH_LINE
    ensures |head| == 26 && Utf8.Valid(head)
  {
    assert AllAscii(head);
    Utf8.AsciiValid(head);
  }
}
