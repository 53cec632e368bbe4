/** The bulletin board: twenty slots in linear memory, a window over the last posts, printed as JSON. */
module Bbs {
  import opened Bytes
  import opened LinearMemory
  import Json

  const MEMORY := 262144
  const COUNT := 131072
  const AREA := 131076
  const SLOT := 256
  const MAX_MESSAGES := 20
  const MAX_BODY := 252
  const AREA_END := 136196

  // Static data: address and length of each piece.
  const OK_HEADER := 200110
  const OK_LENGTH := 102
  const CREATED := 200212
  const CREATED_LENGTH := 107
  const BAD_REQUEST := 200399
  const BAD_LENGTH := 84
  const OPENING := 200504
  const OPENING_LENGTH := 13
  const CLOSING := 200517
  const CLOSING_LENGTH := 2

  /** {"messages":[ and ]} */
  const OPENING_TEXT: seq<byte> := [123, 34, 109, 101, 115, 115, 97, 103, 101, 115, 34, 58, 91]
  const CLOSING_TEXT: seq<byte> := [93, 125]

  function SlotAt(i: nat): (a: nat) {
    AREA + SLOT * i
  }

  /** The bytes of a slot carry the message: its length, then the message. */
  predicate Carries(s: seq<byte>, msg: seq<byte>) {
    |s| == SLOT && 1 <= |msg| <= MAX_BODY && U32At(s, 0) == |msg| && s[4..4 + |msg|] == msg
  }

  function SlotOf(m: seq<byte>, i: nat): (s: seq<byte>)
    requires SlotAt(i) + SLOT <= |m|
    ensures |s| == SLOT
  {
    m[SlotAt(i)..SlotAt(i) + SLOT]
  }

  /** The first slots of memory m carry the messages. */
  predicate Slots(m: seq<byte>, ms: seq<seq<byte>>) {
    SlotAt(|ms|) <= |m| && forall i :: 0 <= i < |ms| ==> Carries(SlotOf(m, i), ms[i])
  }

  /** The board in memory m holds these messages, oldest first. */
  predicate Holds(m: seq<byte>, ms: seq<seq<byte>>) {
    |m| == MEMORY && |ms| <= MAX_MESSAGES && U32At(m, COUNT) == |ms| && Slots(m, ms)
  }

  /** Memory tells its messages: no two boards fit the same memory. */
  lemma HoldsOne(m: seq<byte>, ms: seq<seq<byte>>, ns: seq<seq<byte>>)
    requires Holds(m, ms) && Holds(m, ns)
    ensures ms == ns
  {
    forall i | 0 <= i < |ms| ensures ms[i] == ns[i] {
      assert Carries(SlotOf(m, i), ms[i]) && Carries(SlotOf(m, i), ns[i]);
    }
  }

  /** The board with one message more, and the oldest gone if it was full. */
  function Added(ms: seq<seq<byte>>, msg: seq<byte>): (r: seq<seq<byte>>) {
    if |ms| >= MAX_MESSAGES then ms[1..] + [msg] else ms + [msg]
  }

  /** The board after a post: an empty one is refused, the oldest message makes room. */
  function Posted(ms: seq<seq<byte>>, body: seq<byte>): (r: seq<seq<byte>>) {
    if body == [] then ms else Added(ms, Cut(body, MAX_BODY))
  }

  // ---- the window over a history of posts ----

  function PostAll(bodies: seq<seq<byte>>): (ms: seq<seq<byte>>) {
    if bodies == [] then [] else Posted(PostAll(bodies[..|bodies| - 1]), bodies[|bodies| - 1])
  }

  /** The posts that count: those with a body, each cut to size. */
  function Kept(bodies: seq<seq<byte>>): (ms: seq<seq<byte>>) {
    if bodies == [] then []
    else Kept(bodies[..|bodies| - 1]) + if bodies[|bodies| - 1] == [] then [] else [Cut(bodies[|bodies| - 1], MAX_BODY)]
  }

  function Last<T>(xs: seq<T>, n: nat): (r: seq<T>)
    ensures |r| == Min(|xs|, n)
  {
    xs[|xs| - Min(|xs|, n)..]
  }

  /** After any posts the board is exactly the last twenty that count, in posting order. */
  lemma {:induction false} WindowOfPosts(bodies: seq<seq<byte>>)
    ensures PostAll(bodies) == Last(Kept(bodies), 20)
    decreases |bodies|
  {
    if bodies != [] {
      var init, body := bodies[..|bodies| - 1], bodies[|bodies| - 1];
      WindowOfPosts(init);
      if body != [] {
        LastSnoc(Kept(init), Cut(body, MAX_BODY));
      } else {
        assert Kept(bodies) == Kept(init);
      }
    }
  }

  lemma LastSnoc(xs: seq<seq<byte>>, x: seq<byte>)
    ensures Last(xs + [x], MAX_MESSAGES) ==
      if |xs| >= MAX_MESSAGES then Last(xs, MAX_MESSAGES)[1..] + [x] else Last(xs, MAX_MESSAGES) + [x]
  {
  }

  // ---- stores into the board ----

  /** Stores before the board or behind the last message leave the messages alone. */
  lemma SlotsKept(m: seq<byte>, at: nat, x: seq<byte>, ms: seq<seq<byte>>)
    requires Slots(m, ms) && at + |x| <= |m| && (at + |x| <= AREA || SlotAt(|ms|) <= at)
    ensures Slots(Splice(m, at, x), ms)
  {
    forall i | 0 <= i < |ms| ensures SlotOf(Splice(m, at, x), i) == SlotOf(m, i) {
      SpliceFrame(m, at, x, SlotAt(i), SlotAt(i) + SLOT);
    }
  }

  lemma CountKept(m: seq<byte>, at: nat, x: seq<byte>)
    requires COUNT + 4 <= at && at + |x| <= |m|
    ensures U32At(Splice(m, at, x), COUNT) == U32At(m, COUNT)
  {
  }

  /** A message stored into slot i: its length, then its bytes. */
  function WithMessage(m: seq<byte>, i: nat, msg: seq<byte>): (r: seq<byte>)
    requires SlotAt(i) + SLOT <= |m| && |msg| <= MAX_BODY
    ensures |r| == |m|
  {
    Splice(Splice(m, SlotAt(i), LE32(|msg|)), SlotAt(i) + 4, msg)
  }

  lemma LengthStored(m1: seq<byte>, i: nat, msg: seq<byte>, a: nat, s: seq<byte>)
    requires a == SlotAt(i) && a + SLOT <= |m1| && |msg| <= MAX_BODY && m1[a..a + 4] == LE32(|msg|)
    requires s == SlotOf(Splice(m1, a + 4, msg), i)
    ensures U32At(s, 0) == |msg|
  {
    var m2 := Splice(m1, a + 4, msg);
    SpliceFrame(m1, a + 4, msg, a, a + 4);
    SubSlice(m2, a, a + SLOT, 0, 4);
    U32Slice(s, 0);
    LE32RoundTrip(|msg|);
  }

  lemma TextStored(m1: seq<byte>, i: nat, msg: seq<byte>, a: nat, s: seq<byte>)
    requires a == SlotAt(i) && a + SLOT <= |m1| && |msg| <= MAX_BODY && s == SlotOf(Splice(m1, a + 4, msg), i)
    ensures s[4..4 + |msg|] == msg
  {
    SpliceHit(m1, a + 4, msg);
    SubSlice(Splice(m1, a + 4, msg), a, a + SLOT, 4, 4 + |msg|);
  }

  lemma MessageStored(m: seq<byte>, i: nat, msg: seq<byte>)
    requires SlotAt(i) + SLOT <= |m| && 1 <= |msg| <= MAX_BODY
    ensures Carries(SlotOf(WithMessage(m, i, msg), i), msg)
  {
    var a := SlotAt(i);
    var m1 := Splice(m, a, LE32(|msg|));
    var s := SlotOf(WithMessage(m, i, msg), i);
    SpliceHit(m, a, LE32(|msg|));
    LengthStored(m1, i, msg, a, s);
    TextStored(m1, i, msg, a, s);
  }

  lemma MessageFrame(m: seq<byte>, i: nat, msg: seq<byte>)
    requires i < MAX_MESSAGES && AREA_END <= |m| && |msg| <= MAX_BODY
    ensures var r := WithMessage(m, i, msg);
      forall k :: 0 <= k < |m| && !(COUNT <= k < AREA_END) ==> r[k] == m[k]
  {
  }

  lemma MessageCount(m: seq<byte>, i: nat, msg: seq<byte>)
    requires SlotAt(i) + SLOT <= |m| && |msg| <= MAX_BODY
    ensures U32At(WithMessage(m, i, msg), COUNT) == U32At(m, COUNT)
  {
    CountKept(m, SlotAt(i), LE32(|msg|));
    CountKept(Splice(m, SlotAt(i), LE32(|msg|)), SlotAt(i) + 4, msg);
  }

  /** A message behind the others. */
  lemma OneMore(m: seq<byte>, ms: seq<seq<byte>>, msg: seq<byte>)
    requires Slots(m, ms) && SlotAt(|ms|) + SLOT <= |m| && 1 <= |msg| <= MAX_BODY
    ensures Slots(WithMessage(m, |ms|, msg), ms + [msg]) && U32At(WithMessage(m, |ms|, msg), COUNT) == U32At(m, COUNT)
  {
    var n := |ms|;
    var m1 := Splice(m, SlotAt(n), LE32(|msg|));
    SlotsKept(m, SlotAt(n), LE32(|msg|), ms);
    SlotsKept(m1, SlotAt(n) + 4, msg, ms);
    MessageStored(m, n, msg);
    MessageCount(m, n, msg);
    var all, r := ms + [msg], WithMessage(m, n, msg);
    forall i | 0 <= i < |all| ensures Carries(SlotOf(r, i), all[i]) {
      if i < n {
        assert all[i] == ms[i];
      }
    }
  }

  /** The nineteen later slots, as they are copied over the earlier ones. */
  function Later(m: seq<byte>): (s: seq<byte>)
    requires |m| == MEMORY
    ensures |s| == SLOT * (MAX_MESSAGES - 1)
  {
    m[AREA + SLOT..AREA_END]
  }

  lemma SlotMoves(m: seq<byte>, i: nat)
    requires |m| == MEMORY && i < MAX_MESSAGES - 1
    ensures SlotOf(Splice(m, AREA, Later(m)), i) == SlotOf(m, i + 1)
  {
    var off := SLOT * i;
    var m1 := Splice(m, AREA, Later(m));
    SpliceHit(m, AREA, Later(m));
    SubSlice(m1, AREA, AREA + |Later(m)|, off, off + SLOT);
    SubSlice(m, AREA + SLOT, AREA_END, off, off + SLOT);
  }

  /** The overlapping copy moves every message but the oldest down one slot and loses none of them. */
  lemma Shifted(m: seq<byte>, ms: seq<seq<byte>>)
    requires Holds(m, ms) && |ms| == MAX_MESSAGES
    ensures Slots(Splice(m, AREA, Later(m)), ms[1..]) && U32At(Splice(m, AREA, Later(m)), COUNT) == MAX_MESSAGES
  {
    CountKept(m, AREA, Later(m));
    forall i: nat | i < MAX_MESSAGES - 1 ensures Carries(SlotOf(Splice(m, AREA, Later(m)), i), ms[1..][i]) {
      SlotMoves(m, i);
      assert ms[1..][i] == ms[i + 1];
    }
  }

  method DropOldest(mem: array<byte>, ghost ms: seq<seq<byte>>)
    requires Holds(mem[..], ms) && |ms| == MAX_MESSAGES
    modifies mem
    ensures mem.Length == MEMORY && Slots(mem[..], ms[1..]) && U32At(mem[..], COUNT) == MAX_MESSAGES
    ensures forall k :: 0 <= k < mem.Length && !(COUNT <= k < AREA_END) ==> mem[k] == old(mem[k])
  {
    Shifted(mem[..], ms);
    assert mem[AREA + SLOT..AREA_END] == Later(mem[..]);
    MemoryCopy(mem, AREA, AREA + SLOT, SLOT * (MAX_MESSAGES - 1));
  }

  method CountOneMore(mem: array<byte>, ghost ms: seq<seq<byte>>)
    requires Holds(mem[..], ms) && |ms| < MAX_MESSAGES
    modifies mem
    ensures mem.Length == MEMORY && Slots(mem[..], ms) && U32At(mem[..], COUNT) == |ms| + 1
    ensures forall k :: 0 <= k < mem.Length && !(COUNT <= k < AREA_END) ==> mem[k] == old(mem[k])
  {
    var cnt: nat := U32At(mem[..], COUNT);
    SlotsKept(mem[..], COUNT, LE32(cnt + 1), ms);
    U32Stored(mem[..], COUNT, cnt + 1);
    PutU32(mem, COUNT, cnt + 1);
  }

  /** A new slot behind the last message, or the last slot after the oldest message has been dropped. */
  method MakeRoom(mem: array<byte>, ghost ms: seq<seq<byte>>, ghost kept: seq<seq<byte>>) returns (i: nat)
    requires Holds(mem[..], ms) && kept == if |ms| >= MAX_MESSAGES then ms[1..] else ms
    modifies mem
    ensures mem.Length == MEMORY && Slots(mem[..], kept) && i == |kept| < MAX_MESSAGES && U32At(mem[..], COUNT) == i + 1
    ensures forall k :: 0 <= k < mem.Length && !(COUNT <= k < AREA_END) ==> mem[k] == old(mem[k])
  {
    i := U32At(mem[..], COUNT);
    if i >= MAX_MESSAGES {
      DropOldest(mem, ms);
      i := MAX_MESSAGES - 1;
    } else {
      CountOneMore(mem, ms);
    }
  }

  lemma MessagePut(m: seq<byte>, m1: seq<byte>, i: nat, bp: nat, al: nat)
    requires |m| == MEMORY && i < MAX_MESSAGES && 1 <= al <= MAX_BODY && bp + al <= COUNT
    requires m1 == Splice(m, SlotAt(i), LE32(al))
    ensures Splice(m1, SlotAt(i) + 4, m1[bp..bp + al]) == WithMessage(m, i, m[bp..bp + al])
  {
    SpliceFrame(m, SlotAt(i), LE32(al), bp, bp + al);
  }

  /** Store the message of al bytes at bp into slot i. */
  method PutMessage(mem: array<byte>, i: nat, bp: nat, al: nat)
    requires mem.Length == MEMORY && i < MAX_MESSAGES && 1 <= al <= MAX_BODY && bp + al <= COUNT
    modifies mem
    ensures mem[..] == WithMessage(old(mem[..]), i, old(mem[bp..bp + al]))
  {
    ghost var m := mem[..];
    PutU32(mem, SlotAt(i), al);
    ghost var m1 := mem[..];
    assert m1[bp..bp + al] == mem[bp..bp + al];
    MemoryCopy(mem, SlotAt(i) + 4, bp, al);
    MessagePut(m, m1, i, bp, al);
  }

  lemma PostedCut(ms: seq<seq<byte>>, m: seq<byte>, bp: nat, bl: nat)
    requires bp + bl <= |m| && bl > 0
    ensures Posted(ms, m[bp..bp + bl]) == Added(ms, m[bp..bp + Min(bl, MAX_BODY)])
  {
    CutSlice(m, bp, bl, MAX_BODY);
  }

  /** Handle a post; the length of the response. Only the response area and the board change. */
  method Post(mem: array<byte>, bp: nat, bl: nat, ghost ms: seq<seq<byte>>) returns (len: nat)
    requires Holds(mem[..], ms) && bp + bl <= COUNT
    modifies mem
    ensures Holds(mem[..], Posted(ms, old(mem[bp..bp + bl])))
    ensures var reply := if bl == 0 then old(mem[BAD_REQUEST..BAD_REQUEST + BAD_LENGTH])
        else old(mem[CREATED..CREATED + CREATED_LENGTH]);
      len == |reply| && mem[..len] == reply
    ensures forall k :: 0 <= k < mem.Length && !(k < len || COUNT <= k < AREA_END) ==> mem[k] == old(mem[k])
  {
    var al := if bl > MAX_BODY then MAX_BODY else bl;
    if al == 0 {
      Reply(mem, BAD_REQUEST, BAD_LENGTH, ms);
      return BAD_LENGTH;
    }
    ghost var m := mem[..];
    assert m[bp..bp + bl] == mem[bp..bp + bl] && m[bp..bp + al] == mem[bp..bp + al];
    PostedCut(ms, m, bp, bl);
    Accept(mem, bp, al, ms);
    len := CREATED_LENGTH;
  }

  lemma CutSlice(m: seq<byte>, at: nat, n: nat, max: nat)
    requires at + n <= |m|
    ensures Cut(m[at..at + n], max) == m[at..at + Min(n, max)]
  {
  }

  /** A stretch of memory that nothing was stored to. */
  lemma StretchKept(m: seq<byte>, m': seq<byte>, lo: nat, hi: nat)
    requires |m'| == |m| && lo <= hi <= |m| && forall k :: lo <= k < hi ==> m'[k] == m[k]
    ensures m'[lo..hi] == m[lo..hi]
  {
  }

  method Accept(mem: array<byte>, bp: nat, al: nat, ghost ms: seq<seq<byte>>)
    requires Holds(mem[..], ms) && 1 <= al <= MAX_BODY && bp + al <= COUNT
    modifies mem
    ensures Holds(mem[..], Added(ms, old(mem[bp..bp + al])))
    ensures mem[..CREATED_LENGTH] == old(mem[CREATED..CREATED + CREATED_LENGTH])
    ensures forall k :: CREATED_LENGTH <= k < COUNT || AREA_END <= k < mem.Length ==> mem[k] == old(mem[k])
  {
    ghost var m, msg := mem[..], mem[bp..bp + al];
    StoreMessage(mem, bp, al, ms);
    StretchKept(m, mem[..], CREATED, CREATED + CREATED_LENGTH);
    assert mem[CREATED..CREATED + CREATED_LENGTH] == m[CREATED..CREATED + CREATED_LENGTH];
    Reply(mem, CREATED, CREATED_LENGTH, Added(ms, msg));
  }

  method StoreMessage(mem: array<byte>, bp: nat, al: nat, ghost ms: seq<seq<byte>>)
    requires Holds(mem[..], ms) && 1 <= al <= MAX_BODY && bp + al <= COUNT
    modifies mem
    ensures Holds(mem[..], Added(ms, old(mem[bp..bp + al])))
    ensures forall k :: 0 <= k < mem.Length && !(COUNT <= k < AREA_END) ==> mem[k] == old(mem[k])
  {
    ghost var msg := mem[bp..bp + al];
    ghost var kept := if |ms| >= MAX_MESSAGES then ms[1..] else ms;
    var i := MakeRoom(mem, ms, kept);
    assert mem[bp..bp + al] == msg;
    OneMore(mem[..], kept, msg);
    MessageFrame(mem[..], i, msg);
    PutMessage(mem, i, bp, al);
  }

  /** Copy a static response to the front of memory. */
  method Reply(mem: array<byte>, at: nat, n: nat, ghost ms: seq<seq<byte>>)
    requires Holds(mem[..], ms) && AREA_END <= at && at + n <= MEMORY && n <= COUNT
    modifies mem
    ensures Holds(mem[..], ms) && mem[..n] == old(mem[at..at + n])
    ensures forall k :: n <= k < mem.Length ==> mem[k] == old(mem[k])
  {
    SlotsKept(mem[..], 0, mem[at..at + n], ms);
    assert U32At(Splice(mem[..], 0, mem[at..at + n]), COUNT) == U32At(mem[..], COUNT);
    MemoryCopy(mem, 0, at, n);
  }

  // ---- printing the board ----

  /** Print one byte of a message. */
  method PutEscaped(mem: array<byte>, p: nat, b: byte, ghost m0: seq<byte>, ghost text: seq<byte>) returns (q: nat)
    requires Written(m0, mem[..], text) && p == |text| && p + 2 <= mem.Length
    modifies mem
    ensures Written(m0, mem[..], text + Json.EscapedByte(b)) && q == p + |Json.EscapedByte(b)|
  {
    q := p;
    if b == 34 {
      q := PutByte(mem, q, 92, m0, text);
      q := PutByte(mem, q, 34, m0, text + [92]);
      assert text + [92] + [34] == text + [92, 34];
    } else if b == 92 {
      q := PutByte(mem, q, 92, m0, text);
      q := PutByte(mem, q, 92, m0, text + [92]);
      assert text + [92] + [92] == text + [92, 92];
    } else if b >= 32 {
      q := PutByte(mem, q, b, m0, text);
    } else {
      assert text + [] == text;
    }
  }

  /** Print the message of ml bytes at mp between quotes. */
  method PutQuoted(mem: array<byte>, p: nat, mp: nat, ml: nat, ghost m0: seq<byte>, ghost text: seq<byte>,
      ghost msg: seq<byte>) returns (q: nat)
    requires Written(m0, mem[..], text) && p == |text| && p + 2 * ml + 2 <= mp && At(m0, mp, msg) && ml == |msg|
    modifies mem
    ensures Written(m0, mem[..], text + Json.Quoted(msg)) && q == p + |Json.Quoted(msg)|
  {
    q := PutByte(mem, p, 34, m0, text);
    ghost var out := text + [34];
    q := PutBody(mem, q, mp, ml, m0, out, msg);
    q := PutByte(mem, q, 34, m0, out + Json.Escaped(msg));
    assert out + Json.Escaped(msg) + [34] == text + Json.Quoted(msg);
  }

  method PutNext(mem: array<byte>, p: nat, mp: nat, j: nat, ghost m0: seq<byte>, ghost out: seq<byte>,
      ghost msg: seq<byte>) returns (q: nat)
    requires j < |msg| && At(m0, mp, msg) && |out| + 2 * |msg| + 1 <= mp
    requires Written(m0, mem[..], out + Json.Escaped(msg[..j])) && p == |out + Json.Escaped(msg[..j])|
    modifies mem
    ensures Written(m0, mem[..], out + Json.Escaped(msg[..j + 1])) && q == |out + Json.Escaped(msg[..j + 1])|
  {
    AtByte(m0, mp, msg, j);
    EscapedNext(msg, j, out);
    q := PutEscaped(mem, p, mem[mp + j], m0, out + Json.Escaped(msg[..j]));
  }

  method PutBody(mem: array<byte>, p: nat, mp: nat, ml: nat, ghost m0: seq<byte>, ghost out: seq<byte>,
      ghost msg: seq<byte>) returns (q: nat)
    requires Written(m0, mem[..], out) && p == |out| && p + 2 * ml + 1 <= mp && At(m0, mp, msg) && ml == |msg|
    modifies mem
    ensures Written(m0, mem[..], out + Json.Escaped(msg)) && q == p + |Json.Escaped(msg)|
  {
    q := p;
    var j := 0;
    assert msg[..0] == [] && out + [] == out;
    while j < ml
      invariant j <= ml && Written(m0, mem[..], out + Json.Escaped(msg[..j])) && q == |out + Json.Escaped(msg[..j])|
    {
      q := PutNext(mem, q, mp, j, m0, out, msg);
      j := j + 1;
    }
    assert msg[..ml] == msg;
  }

  lemma EscapedNext(msg: seq<byte>, j: nat, out: seq<byte>)
    requires j < |msg|
    ensures out + Json.Escaped(msg[..j + 1]) == out + Json.Escaped(msg[..j]) + Json.EscapedByte(msg[j])
  {
    assert msg[..j + 1][..j] == msg[..j] && msg[..j + 1][j] == msg[j];
  }

  /** What has been printed of the list after i messages. */
  function Printed(ms: seq<seq<byte>>, i: nat): (s: seq<byte>)
    requires i <= |ms|
  {
    Json.Listed(ms[..i]) + if 0 < i < |ms| then [44] else []
  }

  lemma PrintedNext(ms: seq<seq<byte>>, i: nat)
    requires i < |ms|
    ensures Printed(ms, i + 1) == Printed(ms, i) + Json.Quoted(ms[i]) + if i + 1 < |ms| then [44] else []
  {
    assert ms[..i + 1][..i] == ms[..i] && ms[..i + 1][i] == ms[i];
    if i == 0 {
      assert [] + Json.Quoted(ms[0]) == Json.Quoted(ms[0]);
    }
  }

  /** Seven characters of overhead at most for each message, and two for each of its bytes. */
  lemma {:induction false} PrintedBound(ms: seq<seq<byte>>, i: nat)
    requires i <= |ms| && forall k :: 0 <= k < |ms| ==> |ms[k]| <= MAX_BODY
    ensures |Printed(ms, i)| <= 507 * i && (i == |ms| > 0 ==> |Printed(ms, i)| <= 507 * i - 1)
    decreases i
  {
    if i > 0 {
      PrintedBound(ms, i - 1);
      PrintedNext(ms, i - 1);
    } else {
      assert ms[..0] == [];
    }
  }

  lemma ReadSlot(m0: seq<byte>, ms: seq<seq<byte>>, i: nat)
    requires Holds(m0, ms) && i < |ms|
    ensures U32At(m0, SlotAt(i)) == |ms[i]| && At(m0, SlotAt(i) + 4, ms[i])
  {
    var a, s := SlotAt(i), SlotOf(m0, i);
    assert Carries(s, ms[i]);
    SubSlice(m0, a, a + SLOT, 0, 4);
    SubSlice(m0, a, a + SLOT, 4, 4 + |ms[i]|);
    U32Slice(m0, a);
    U32Slice(s, 0);
  }

  /** Print message i and the comma after it, if another one follows. */
  method PutMessageAt(mem: array<byte>, p: nat, i: nat, cnt: nat, ghost m0: seq<byte>, ghost start: seq<byte>,
      ghost ms: seq<seq<byte>>) returns (q: nat)
    requires Holds(m0, ms) && i < cnt == |ms| && |start| <= 115
    requires Written(m0, mem[..], start + Printed(ms, i)) && p == |start + Printed(ms, i)|
    modifies mem
    ensures Written(m0, mem[..], start + Printed(ms, i + 1)) && q == |start + Printed(ms, i + 1)|
  {
    ghost var text := start + Printed(ms, i);
    BodiesFit(m0, ms);
    PrintedBound(ms, i);
    ReadSlot(m0, ms, i);
    WrittenWord(m0, mem[..], text, SlotAt(i));
    var ml: nat := U32At(mem[..], SlotAt(i));
    q := PutQuoted(mem, p, SlotAt(i) + 4, ml, m0, text, ms[i]);
    ghost var quoted := text + Json.Quoted(ms[i]);
    PrintedNext(ms, i);
    Assoc(start, Printed(ms, i), Json.Quoted(ms[i]));
    if i + 1 < cnt {
      q := PutByte(mem, q, 44, m0, quoted);
      Assoc(start, Printed(ms, i) + Json.Quoted(ms[i]), [44]);
    } else {
      assert Printed(ms, i) + Json.Quoted(ms[i]) + [] == Printed(ms, i) + Json.Quoted(ms[i]);
    }
  }

  lemma BodiesFit(m0: seq<byte>, ms: seq<seq<byte>>)
    requires Holds(m0, ms)
    ensures forall k :: 0 <= k < |ms| ==> |ms[k]| <= MAX_BODY
  {
    forall k | 0 <= k < |ms| ensures |ms[k]| <= MAX_BODY {
      assert Carries(SlotOf(m0, k), ms[k]);
    }
  }

  /** The pieces of static data that go around the messages. */
  predicate Statics(m: seq<byte>) {
    |m| == MEMORY && At(m, OPENING, OPENING_TEXT) && At(m, CLOSING, CLOSING_TEXT)
  }

  function Response(m0: seq<byte>, ms: seq<seq<byte>>): (r: seq<byte>)
    requires |m0| == MEMORY
  {
    m0[OK_HEADER..OK_HEADER + OK_LENGTH] + OPENING_TEXT + Json.Listed(ms) + CLOSING_TEXT
  }

  /** Print the board; the length of the response. Nothing behind the response changes. */
  method Msgs(mem: array<byte>, ghost ms: seq<seq<byte>>) returns (p: nat)
    requires Holds(mem[..], ms) && Statics(mem[..])
    modifies mem
    ensures Written(old(mem[..]), mem[..], Response(old(mem[..]), ms)) && p == |Response(old(mem[..]), ms)| <= 10256
  {
    ghost var m0 := mem[..];
    assert [] + m0[0..] == m0;
    p := CopyOut(mem, 0, OK_HEADER, OK_LENGTH, m0, []);
    ghost var header := m0[OK_HEADER..OK_HEADER + OK_LENGTH];
    assert [] + header == header;
    p := CopyOut(mem, p, OPENING, OPENING_LENGTH, m0, header);
    ghost var start := header + OPENING_TEXT;
    p := PutAll(mem, p, m0, start, ms);
    BodiesFit(m0, ms);
    PrintedBound(ms, |ms|);
    ghost var text := start + Json.Listed(ms);
    assert Printed(ms, |ms|) == Json.Listed(ms) by {
      assert ms[..|ms|] == ms && Json.Listed(ms) + [] == Json.Listed(ms);
    }
    p := CopyOut(mem, p, CLOSING, CLOSING_LENGTH, m0, text);
  }

  method PutAll(mem: array<byte>, p: nat, ghost m0: seq<byte>, ghost start: seq<byte>, ghost ms: seq<seq<byte>>)
    returns (q: nat)
    requires Holds(m0, ms) && |start| == 115 && Written(m0, mem[..], start) && p == 115
    modifies mem
    ensures Written(m0, mem[..], start + Printed(ms, |ms|)) && q == |start + Printed(ms, |ms|)|
  {
    q := p;
    WrittenWord(m0, mem[..], start, COUNT);
    var cnt: nat := U32At(mem[..], COUNT);
    var i := 0;
    assert Printed(ms, 0) == [] && start + [] == start;
    while i < cnt
      invariant i <= cnt == |ms| && Written(m0, mem[..], start + Printed(ms, i)) && q == |start + Printed(ms, i)|
    {
      q := PutMessageAt(mem, q, i, cnt, m0, start, ms);
      i := i + 1;
    }
  }

  lemma OpeningIs()
    ensures OPENING_TEXT[..12] == Ascii("{\"messages\":")
  {
  }

  /** The response body is a JSON object whose one member reads back as the messages, control characters removed. */
  lemma ResponseReads(m0: seq<byte>, ms: seq<seq<byte>>, r: seq<byte>)
    requires |m0| == MEMORY && r == Response(m0, ms)
    ensures r[..OK_LENGTH + 12] == m0[OK_HEADER..OK_HEADER + OK_LENGTH] + Ascii("{\"messages\":")
    ensures Json.ArrayAt(r, OK_LENGTH + 12) == Json.Strs(Json.AllClean(ms), |r| - 1) && r[|r| - 1] == 125
  {
    OpeningIs();
    var array1 := Json.ArrayText(ms);
    var before := m0[OK_HEADER..OK_HEADER + OK_LENGTH] + OPENING_TEXT[..12];
    assert OPENING_TEXT == OPENING_TEXT[..12] + [91] && CLOSING_TEXT == [93] + [125];
    assert r == before + array1 + [125];
    assert At(r, |before|, array1);
    Json.ArrayReads(r, |before|, ms, |before| + |array1|);
  }

  /** After any posts the page reads back as the last twenty that count, control characters removed. */
  lemma PageAfterPosts(m0: seq<byte>, bodies: seq<seq<byte>>)
    requires Holds(m0, PostAll(bodies))
    ensures var r := Response(m0, PostAll(bodies));
      Json.ArrayAt(r, OK_LENGTH + 12) == Json.Strs(Json.AllClean(Last(Kept(bodies), MAX_MESSAGES)), |r| - 1)
  {
    WindowOfPosts(bodies);
    ResponseReads(m0, PostAll(bodies), Response(m0, PostAll(bodies)));
  }

  /** Printing leaves board and static data as they were. */
  lemma PrintingKeepsBoard(m0: seq<byte>, m: seq<byte>, text: seq<byte>, ms: seq<seq<byte>>)
    requires Holds(m0, ms) && Statics(m0) && Written(m0, m, text) && |text| <= COUNT
    ensures Holds(m, ms) && Statics(m)
  {
    WrittenWord(m0, m, text, COUNT);
    forall i | 0 <= i < |ms| ensures Carries(SlotOf(m, i), ms[i]) {
      assert SlotOf(m, i) == SlotOf(m0, i);
    }
    assert m[OPENING..OPENING + OPENING_LENGTH] == m0[OPENING..OPENING + OPENING_LENGTH];
    assert m[CLOSING..CLOSING + CLOSING_LENGTH] == m0[CLOSING..CLOSING + CLOSING_LENGTH];
  }
}
