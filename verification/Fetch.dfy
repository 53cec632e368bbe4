/** The background fetch: connect, receive, hand the body over, wait; and the sockets it holds meanwhile. */
module Fetch {
  import opened Bytes
  import opened Http

  const FEED_MAX_SIZE := 262144
  const FEED_INTERVAL := 60
  const FETCH_CHUNK := 4096
  const MAX_IDLE := 200_000
  const MAX_STALE := 500_000

  datatype State =
    | Idle(nextTs: int) | Connecting(handle: nat, idle: nat) | Receiving(handle: nat, buf: seq<byte>, stale: nat)

  /** What one turn finds: the clock, the outcome of a connect, the socket, and what each receive would return. */
  datatype Look = Look(now: int, connects: bool, maySend: bool, isOpen: bool, mayRecv: bool, chunks: seq<seq<byte>>)

  datatype Turned = Turned(state: State, slots: seq<bool>, feed: Option<seq<byte>>)

  // ---- the socket set: a slot is taken or free ----

  function FreeSlot(slots: seq<bool>): (h: nat)
    ensures h <= |slots| && (h < |slots| ==> !slots[h]) && forall k :: 0 <= k < h ==> slots[k]
  {
    if slots == [] || !slots[0] then 0 else 1 + FreeSlot(slots[1..])
  }

  /** A new socket goes into the first free slot, or a new one. */
  function Added(slots: seq<bool>): (r: seq<bool>) {
    var h := FreeSlot(slots);
    if h < |slots| then slots[h := true] else slots + [true]
  }

  function Removed(slots: seq<bool>, h: nat): (r: seq<bool>) {
    if h < |slots| then slots[h := false] else slots
  }

  // ---- one turn ----

  /** The buffer after receiving what is there, as long as it is not full. */
  function Drained(buf: seq<byte>, chunks: seq<seq<byte>>): (r: seq<byte>)
    ensures buf <= r
    decreases |chunks|
  {
    if chunks == [] || |buf| >= FEED_MAX_SIZE || chunks[0] == [] then buf
    else Drained(buf + chunks[0][..Min(FETCH_CHUNK, |chunks[0]|)], chunks[1..])
  }

  /** Whatever the peer sends, the buffer never gets more than one receive beyond the limit. */
  lemma {:induction false} DrainStops(buf: seq<byte>, chunks: seq<seq<byte>>)
    requires |buf| < 262144 + 4096
    ensures |Drained(buf, chunks)| < 262144 + 4096
    ensures |buf| >= 262144 ==> Drained(buf, chunks) == buf
    decreases |chunks|
  {
    if chunks != [] && |buf| < FEED_MAX_SIZE && chunks[0] != [] {
      DrainStops(buf + chunks[0][..Min(FETCH_CHUNK, |chunks[0]|)], chunks[1..]);
    }
  }

  /** The body of a response, if there is one with something in it. */
  function FeedIn(buf: seq<byte>): (f: Option<seq<byte>>)
    ensures f.Some? ==> f.value != []
  {
    var end := HeaderEnd(buf);
    if end.Some? && buf[end.value + 4..] != [] then Some(buf[end.value + 4..]) else None
  }

  function Turn(s: State, slots: seq<bool>, look: Look): (r: Turned) {
    match s
    case Idle(nextTs) =>
      if look.now < nextTs then Turned(s, slots, None)
      else if look.connects then Turned(Connecting(FreeSlot(slots), 0), Added(slots), None)
      else Turned(Idle(look.now + FEED_INTERVAL), slots, None)
    case Connecting(h, idle) =>
      if look.maySend then Turned(Receiving(h, [], 0), slots, None)
      else if !look.isOpen || idle > MAX_IDLE then Turned(Idle(look.now + FEED_INTERVAL), Removed(slots, h), None)
      else Turned(Connecting(h, idle + 1), slots, None)
    case Receiving(h, buf, stale) =>
      var all := Drained(buf, look.chunks);
      var quiet := if |all| > |buf| then 0 else stale + 1;
      if !look.mayRecv || quiet > MAX_STALE || |all| >= FEED_MAX_SIZE then
        Turned(Idle(look.now + FEED_INTERVAL), Removed(slots, h), FeedIn(all))
      else Turned(Receiving(h, all, quiet), slots, None)
  }

  // ---- no socket is lost, and every fetch ends ----

  /** The two server sockets, and a third exactly while a fetch is under way. */
  predicate SocketsRight(s: State, slots: seq<bool>) {
    if s.Idle? then slots == [true, true] || slots == [true, true, false]
    else s.handle == 2 && slots == [true, true, true]
  }

  lemma TurnKeepsSockets(s: State, slots: seq<bool>, look: Look)
    requires SocketsRight(s, slots)
    ensures SocketsRight(Turn(s, slots, look).state, Turn(s, slots, look).slots)
  {
    if s.Idle? {
      assert slots[0] && slots[1] && (|slots| == 3 ==> !slots[2]);
      assert FreeSlot(slots) == 2;
      assert Added(slots) == [true, true, true];
    } else {
      assert Removed(slots, 2) == [true, true, false];
    }
  }

  /** Counters within their limits. */
  predicate Ticking(s: State) {
    match s
    case Idle(_) => true
    case Connecting(_, idle) => idle <= MAX_IDLE + 1
    case Receiving(_, buf, stale) => |buf| < FEED_MAX_SIZE && stale <= MAX_STALE
  }

  const RECEIVE_TURNS := FEED_MAX_SIZE * (MAX_STALE + 2) + MAX_STALE + 2

  /** How many more turns a fetch can take: free buffer space first, quiet turns second. */
  function TurnsLeft(s: State): (n: nat)
    requires Ticking(s)
  {
    match s
    case Idle(_) => 0
    case Connecting(_, idle) => RECEIVE_TURNS + MAX_IDLE + 2 - idle
    case Receiving(_, buf, stale) => (FEED_MAX_SIZE - |buf|) * (MAX_STALE + 2) + MAX_STALE + 1 - stale
  }

  lemma TurnsRunOut(s: State, slots: seq<bool>, look: Look)
    requires Ticking(s)
    ensures var r := Turn(s, slots, look).state;
      Ticking(r) && (!s.Idle? && !r.Idle? ==> TurnsLeft(r) < TurnsLeft(s))
  {
    if s.Receiving? {
      var all := Drained(s.buf, look.chunks);
      var gained := |all| - |s.buf|;
      assert (FEED_MAX_SIZE - |all|) * (MAX_STALE + 2)
          == (FEED_MAX_SIZE - |s.buf|) * (MAX_STALE + 2) - gained * (MAX_STALE + 2);
    }
  }

  /** The fetch comes back to waiting within the given turns. */
  predicate ComesBack(s: State, slots: seq<bool>, looks: seq<Look>)
    decreases |looks|
  {
    s.Idle? || (looks != [] && ComesBack(Turn(s, slots, looks[0]).state, Turn(s, slots, looks[0]).slots, looks[1..]))
  }

  /** Whatever the network does, a fetch ends in a bounded number of turns. */
  lemma {:induction false} EveryFetchEnds(s: State, slots: seq<bool>, looks: seq<Look>)
    requires Ticking(s) && |looks| >= TurnsLeft(s)
    ensures ComesBack(s, slots, looks)
    decreases |looks|
  {
    if !s.Idle? {
      TurnsRunOut(s, slots, looks[0]);
      var t := Turn(s, slots, looks[0]);
      EveryFetchEnds(t.state, t.slots, looks[1..]);
    }
  }

  // ---- a response that arrives whole is handed over whole ----

  function Joined(chunks: seq<seq<byte>>): (s: seq<byte>) {
    if chunks == [] then [] else chunks[0] + Joined(chunks[1..])
  }

  predicate Receivable(chunks: seq<seq<byte>>) {
    forall i :: 0 <= i < |chunks| ==> 0 < |chunks[i]| <= FETCH_CHUNK
  }

  lemma {:induction false} DrainsAll(buf: seq<byte>, chunks: seq<seq<byte>>)
    requires Receivable(chunks) && |buf| + |Joined(chunks)| < FEED_MAX_SIZE
    ensures Drained(buf, chunks) == buf + Joined(chunks)
    decreases |chunks|
  {
    if chunks == [] {
      assert buf + [] == buf;
    } else {
      assert chunks[0][..|chunks[0]|] == chunks[0];
      DrainsAll(buf + chunks[0], chunks[1..]);
      assert buf + chunks[0] + Joined(chunks[1..]) == buf + (chunks[0] + Joined(chunks[1..]));
    }
  }

  /** The bytes that arrive over the given turns. */
  function Arrived(looks: seq<Look>): (s: seq<byte>) {
    if looks == [] then [] else Joined(looks[0].chunks) + Arrived(looks[1..])
  }

  /** The fetch ends with the last of these turns and not before, and hands over this feed. */
  predicate Completes(s: State, slots: seq<bool>, looks: seq<Look>, feed: Option<seq<byte>>)
    decreases |looks|
  {
    && looks != []
    && var t := Turn(s, slots, looks[0]);
      if |looks| == 1 then t.state.Idle? && t.feed == feed
      else !t.state.Idle? && t.feed.None? && Completes(t.state, t.slots, looks[1..], feed)
  }

  /** The peer sends until the last turn and closes there. */
  predicate Sends(looks: seq<Look>) {
    && looks != [] && !looks[|looks| - 1].mayRecv
    && (forall i :: 0 <= i < |looks| ==> Receivable(looks[i].chunks))
    && forall i :: 0 <= i < |looks| - 1 ==> looks[i].mayRecv
  }

  lemma SendsOn(looks: seq<Look>)
    requires Sends(looks) && |looks| > 1
    ensures Sends(looks[1..]) && looks[0].mayRecv
  {
    var rest := looks[1..];
    assert rest[|rest| - 1] == looks[|looks| - 1];
    assert forall i :: 0 <= i < |rest| ==> rest[i] == looks[i + 1];
  }

  lemma ReceiveTurn(h: nat, buf: seq<byte>, stale: nat, slots: seq<bool>, look: Look, all: seq<byte>, quiet: nat)
    requires Receivable(look.chunks) && all == buf + Joined(look.chunks) && |all| < FEED_MAX_SIZE && stale < MAX_STALE
    requires quiet == if |all| > |buf| then 0 else stale + 1
    ensures var t := Turn(Receiving(h, buf, stale), slots, look);
      if look.mayRecv then t == Turned(Receiving(h, all, quiet), slots, None)
      else t.state.Idle? && t.feed == FeedIn(all)
  {
    DrainsAll(buf, look.chunks);
  }

  /** A response below the size limit, in whatever chunks and with whatever pauses, is handed over exactly. */
  lemma {:induction false} ResponseHandedOver(h: nat, buf: seq<byte>, stale: nat, slots: seq<bool>, looks: seq<Look>)
    requires Sends(looks) && |buf| + |Arrived(looks)| < 262144 && stale + |looks| <= 500_000
    ensures Completes(Receiving(h, buf, stale), slots, looks, FeedIn(buf + Arrived(looks)))
    decreases |looks|
  {
    var all := buf + Joined(looks[0].chunks);
    var quiet := if |all| > |buf| then 0 else stale + 1;
    assert all + Arrived(looks[1..]) == buf + Arrived(looks);
    ReceiveTurn(h, buf, stale, slots, looks[0], all, quiet);
    if |looks| == 1 {
      assert all + [] == all;
    } else {
      SendsOn(looks);
      ResponseHandedOver(h, all, quiet, slots, looks[1..]);
    }
  }

  /** The feed in a response is what follows its first blank line, if that is anything. */
  lemma FeedRead(head: seq<byte>, body: seq<byte>)
    requires forall q :: 0 <= q < |head| ==> !At(head + BLANK_LINE + body, q, BLANK_LINE)
    ensures FeedIn(head + Ascii("\r\n\r\n") + body) == if body == [] then None else Some(body)
  {
    var buf := head + BLANK_LINE + body;
    BlankText();
    assert buf[|head|..|head| + 4] == BLANK_LINE;
    FirstIsFirst(buf, 0, BLANK_LINE, |head|);
    assert buf[|head| + 4..] == body;
  }

  lemma BlankText()
    ensures BLANK_LINE == Ascii("\r\n\r\n")
  {
  }

  /** A response without a blank line has none. */
  lemma NoFeed(buf: seq<byte>)
    requires forall q: nat :: !At(buf, q, BLANK_LINE)
    ensures FeedIn(buf) == None
  {
    FirstIsFirst(buf, 0, BLANK_LINE, |buf| + 1);
  }

  // ---- a whole fetch ----

  /** When a fetch starts, and when the next one is due: sixty seconds after the last came to an end, however it did. */
  lemma NextDue(s: State, slots: seq<bool>, look: Look)
    ensures var t := Turn(s, slots, look);
      && (s.Idle? && look.now < s.nextTs ==> t == Turned(s, slots, None))
      && (s.Idle? && look.now >= s.nextTs && look.connects ==> t.state == Connecting(FreeSlot(slots), 0))
      && (t.state.Idle? && !(s.Idle? && look.now < s.nextTs) ==> t.state.nextTs == look.now + 60)
  {
  }

  /** The socket is open but not connected yet. */
  predicate StillConnecting(looks: seq<Look>) {
    forall i :: 0 <= i < |looks| ==> !looks[i].maySend && looks[i].isOpen
  }

  lemma CompletesLater(s: State, slots: seq<bool>, look: Look, rest: seq<Look>, feed: Option<seq<byte>>)
    requires rest != [] && var t := Turn(s, slots, look);
      !t.state.Idle? && t.feed.None? && Completes(t.state, t.slots, rest, feed)
    ensures Completes(s, slots, [look] + rest, feed)
  {
    assert ([look] + rest)[1..] == rest;
  }

  lemma GoThenReceive(h: nat, idle: nat, slots: seq<bool>, go: Look, looks: seq<Look>, stale: nat)
    requires go.maySend && Sends(looks) && |Arrived(looks)| < 262144 && |looks| <= 500_000 && stale == 0
    ensures Completes(Connecting(h, idle), slots, [go] + looks, FeedIn(Arrived(looks)))
  {
    ResponseHandedOver(h, [], stale, slots, looks);
    assert [] + Arrived(looks) == Arrived(looks);
    CompletesLater(Connecting(h, idle), slots, go, looks, FeedIn(Arrived(looks)));
  }

  lemma WaitTurn(h: nat, idle: nat, slots: seq<bool>, wait: Look)
    requires !wait.maySend && wait.isOpen && idle <= 200_000
    ensures Turn(Connecting(h, idle), slots, wait) == Turned(Connecting(h, idle + 1), slots, None)
  {
  }

  lemma {:induction false} WaitsPass(h: nat, idle: nat, slots: seq<bool>, waits: seq<Look>, rest: seq<Look>,
      feed: Option<seq<byte>>)
    requires StillConnecting(waits) && idle + |waits| <= 200_001 && rest != []
    requires Completes(Connecting(h, idle + |waits|), slots, rest, feed)
    ensures Completes(Connecting(h, idle), slots, waits + rest, feed)
    decreases |waits|
  {
    if waits == [] {
      assert waits + rest == rest;
    } else {
      WaitsPass(h, idle + 1, slots, waits[1..], rest, feed);
      WaitTurn(h, idle, slots, waits[0]);
      CompletesLater(Connecting(h, idle), slots, waits[0], waits[1..] + rest, feed);
      assert waits + rest == [waits[0]] + (waits[1..] + rest);
    }
  }

  /**
   * A fetch that is due connects, waits at most 200001 turns until it may send, and hands over the feed in what
   * arrives after that.
   */
  lemma WholeFetch(nextTs: int, slots: seq<bool>, due: Look, waits: seq<Look>, go: Look, looks: seq<Look>)
    requires due.now >= nextTs && due.connects && StillConnecting(waits) && |waits| <= 200_001 && go.maySend
    requires Sends(looks) && |Arrived(looks)| < 262144 && |looks| <= 500_000
    ensures Completes(Idle(nextTs), slots, [due] + (waits + ([go] + looks)), FeedIn(Arrived(looks)))
  {
    GoThenReceive(FreeSlot(slots), |waits|, Added(slots), go, looks, 0);
    WaitsPass(FreeSlot(slots), 0, Added(slots), waits, [go] + looks, FeedIn(Arrived(looks)));
    CompletesLater(Idle(nextTs), slots, due, waits + ([go] + looks), FeedIn(Arrived(looks)));
  }
}
