/** The earthquake feed: objects found by matching braces, at most twenty of them, one slot each. */
module FeedArray {
  import opened Bytes
  import opened FeedText
  import opened FeedSlots

  const FEED_LEN := 131080
  const FEED_DATA := 131084
  const MAX_FEED_LEN := 32768
  const ENTRY_AREA := 262144
  const MAX_ENTRIES := 20

  const OPEN_BRACKET: byte := 91
  const CLOSE_BRACKET: byte := 93
  const OPEN_BRACE: byte := 123
  const CLOSE_BRACE: byte := 125

  // ---- the scan, for any text ----

  /** The index after the first opening bracket at or after i. */
  function ArrayStart(t: seq<byte>, i: nat): (r: nat)
    ensures i <= r && (i <= |t| ==> r <= |t|)
    decreases |t| - i
  {
    if i >= |t| then i else if t[i] == OPEN_BRACKET then i + 1 else ArrayStart(t, i + 1)
  }

  /** Where the next object starts, the end of the text if there is none; or that the array ends. */
  function ObjectStart(t: seq<byte>, i: nat): (r: Option<nat>)
    requires i <= |t|
    ensures r.Some? ==> i <= r.value <= |t|
    decreases |t| - i
  {
    if i >= |t| then Some(i)
    else if t[i] == CLOSE_BRACKET then None
    else if t[i] == OPEN_BRACE then Some(i + 1)
    else ObjectStart(t, i + 1)
  }

  /** The scanner inside an object: open braces, inside a string, after a backslash there. */
  datatype Scan = Scan(depth: int, inStr: bool, esc: bool)

  function Scanned(s: Scan, c: byte): (r: Scan) {
    if s.esc then s.(esc := false)
    else if s.inStr then s.(esc := c == BACKSLASH, inStr := c != QUOTE)
    else s.(inStr := c == QUOTE, depth := if c == OPEN_BRACE then s.depth + 1
        else if c == CLOSE_BRACE then s.depth - 1 else s.depth)
  }

  /** The index at which the depth reaches zero. */
  function ObjectEnd(t: seq<byte>, i: nat, s: Scan): (r: nat)
    requires i <= |t|
    ensures i <= r <= |t|
    decreases |t| - i
  {
    if i >= |t| || s.depth == 0 then i
    else if Scanned(s, t[i]).depth == 0 then i
    else ObjectEnd(t, i + 1, Scanned(s, t[i]))
  }

  const OPENED := Scan(1, false, false)

  /** The spans of the objects found, in order. */
  datatype Objects = NoMore | Object(start: nat, end: nat, rest: Objects)

  /** The objects from i on, when cnt of them have been parsed before. */
  function ObjectsFrom(t: seq<byte>, i: nat, cnt: nat): (os: Objects)
    requires cnt <= MAX_ENTRIES
    decreases MAX_ENTRIES - cnt
  {
    if i >= |t| || cnt >= MAX_ENTRIES then NoMore
    else
      var s := ObjectStart(t, i);
      if s.None? then NoMore
      else
        var e := ObjectEnd(t, s.value, OPENED);
        Object(s.value, e, ObjectsFrom(t, e + 1, cnt + 1))
  }

  function FeedObjects(t: seq<byte>): (os: Objects) {
    ObjectsFrom(t, ArrayStart(t, 0), 0)
  }

  function Count(os: Objects): (n: nat) {
    if os.NoMore? then 0 else 1 + Count(os.rest)
  }

  function Nth(os: Objects, k: nat): (o: Objects)
    requires k < Count(os)
    ensures o.Object?
  {
    if k == 0 then os else Nth(os.rest, k - 1)
  }

  predicate Within(t: seq<byte>, os: Objects) {
    os.Object? ==> os.start <= os.end <= |t| && Within(t, os.rest)
  }

  /** At most twenty objects, all inside the text. */
  lemma {:induction false} ScanWithin(t: seq<byte>, i: nat, cnt: nat)
    requires cnt <= MAX_ENTRIES
    ensures cnt + Count(ObjectsFrom(t, i, cnt)) <= MAX_ENTRIES && Within(t, ObjectsFrom(t, i, cnt))
    decreases MAX_ENTRIES - cnt
  {
    if i < |t| && cnt < MAX_ENTRIES && ObjectStart(t, i).Some? {
      ScanWithin(t, ObjectEnd(t, ObjectStart(t, i).value, OPENED) + 1, cnt + 1);
    }
  }

  /** The slot made from the object between start and end. */
  function SlotOf(t: seq<byte>, start: nat, end: nat): (s: seq<byte>)
    requires end <= |t|
    ensures |s| == SLOT
  {
    Layout(EntryOf(t[..end], start))
  }

  function SlotAddress(k: nat): (a: nat) {
    ENTRY_AREA + SLOT * k
  }

  /** Memory m with the entries of the objects in the slots from number cnt on, as far as memory reaches. */
  function Filled(m: seq<byte>, t: seq<byte>, os: Objects, cnt: nat): (r: seq<byte>)
    ensures |r| == |m|
    decreases os
  {
    if os.NoMore? || os.end > |t| || SlotAddress(cnt) + SLOT > |m| then m
    else Filled(Splice(m, SlotAddress(cnt), SlotOf(t, os.start, os.end)), t, os.rest, cnt + 1)
  }

  lemma FilledStep(m: seq<byte>, m1: seq<byte>, t: seq<byte>, os: Objects, cnt: nat)
    requires os.Object? && os.end <= |t| && SlotAddress(cnt) + SLOT <= |m|
    requires m1 == Splice(m, SlotAddress(cnt), SlotOf(t, os.start, os.end))
    ensures Filled(m, t, os, cnt) == Filled(m1, t, os.rest, cnt + 1)
  {
  }

  /** Nothing outside those slots changes. */
  lemma {:induction false} FilledOutside(m: seq<byte>, t: seq<byte>, os: Objects, cnt: nat, k: nat)
    requires k < |m| && (k < SlotAddress(cnt) || SlotAddress(cnt + Count(os)) <= k)
    ensures Filled(m, t, os, cnt)[k] == m[k]
    decreases os
  {
    if os.Object? && os.end <= |t| && SlotAddress(cnt) + SLOT <= |m| {
      var x := SlotOf(t, os.start, os.end);
      var m1 := Splice(m, SlotAddress(cnt), x);
      FilledStep(m, m1, t, os, cnt);
      SpliceMiss(m, SlotAddress(cnt), x, k);
      FilledOutside(m1, t, os.rest, cnt + 1, k);
    }
  }

  lemma SpliceMiss(m: seq<byte>, at: nat, x: seq<byte>, k: nat)
    requires at + |x| <= |m| && k < |m| && !(at <= k < at + |x|)
    ensures Splice(m, at, x)[k] == m[k]
  {
  }

  /** Each slot holds its own object's entry. */
  lemma {:induction false} FilledSlots(m: seq<byte>, t: seq<byte>, os: Objects, cnt: nat, k: nat, a: nat, o: Objects)
    requires Within(t, os) && k < Count(os) && a == SlotAddress(cnt + k) && SlotAddress(cnt + Count(os)) <= |m|
    requires o == Nth(os, k)
    ensures o.end <= |t| && Filled(m, t, os, cnt)[a..a + SLOT] == SlotOf(t, o.start, o.end)
    decreases os
  {
    var x := SlotOf(t, os.start, os.end);
    var m1 := Splice(m, SlotAddress(cnt), x);
    FilledStep(m, m1, t, os, cnt);
    if k > 0 {
      FilledSlots(m1, t, os.rest, cnt + 1, k - 1, a, o);
    } else {
      FirstSlot(m, m1, t, os.rest, cnt, a, x);
    }
  }

  lemma FirstSlot(m: seq<byte>, m1: seq<byte>, t: seq<byte>, os: Objects, cnt: nat, a: nat, x: seq<byte>)
    requires a == SlotAddress(cnt) && a + SLOT <= |m| && |x| == SLOT && m1 == Splice(m, a, x)
    ensures Filled(m1, t, os, cnt + 1)[a..a + SLOT] == x
  {
    var r := Filled(m1, t, os, cnt + 1);
    forall k: nat | a <= k < a + SLOT ensures r[k] == m1[k] {
      FilledOutside(m1, t, os, cnt + 1, k);
    }
    assert r[a..a + SLOT] == m1[a..a + SLOT];
    SpliceHit(m, a, x);
  }

  /** Slot k of the entry area in memory m. */
  function SlotIn(m: seq<byte>, k: nat): (s: seq<byte>)
    requires SlotAddress(k) + SLOT <= |m|
  {
    m[SlotAddress(k)..SlotAddress(k) + SLOT]
  }

  lemma SlotLies(m: seq<byte>, k: nat)
    requires k < 20 && SlotAddress(MAX_ENTRIES) <= |m|
    ensures SlotIn(m, k) == m[262144 + 84 * k..262144 + 84 * k + 84]
  {
  }

  lemma SlotsFit(n: nat, k: nat, size: nat) returns (a: nat, top: nat)
    requires k < n <= MAX_ENTRIES && SlotAddress(MAX_ENTRIES) <= size
    ensures top == SlotAddress(n) <= size && a == SlotAddress(k) && a + SLOT <= size
  {
    a, top := SlotAddress(k), SlotAddress(n);
  }

  lemma FromFirstSlot(m: seq<byte>, t: seq<byte>, os: Objects, first: nat, k: nat, a: nat, o: Objects, top: nat)
    requires Within(t, os) && k < Count(os) && top == SlotAddress(Count(os)) <= |m| && o == Nth(os, k)
    requires a == SlotAddress(k) && a + SLOT <= |m| && first == 0
    ensures o.end <= |t| && Filled(m, t, os, first)[a..a + SLOT] == SlotOf(t, o.start, o.end)
  {
    FilledSlots(m, t, os, first, k, a, o);
  }

  lemma SlotStands(m: seq<byte>, k: nat, a: nat, x: seq<byte>)
    requires a == SlotAddress(k) && a + SLOT <= |m| && m[a..a + SLOT] == x
    ensures SlotIn(m, k) == x
  {
  }

  lemma SlotFilled(m: seq<byte>, t: seq<byte>, os: Objects, k: nat, o: Objects, x: seq<byte>)
    requires Within(t, os) && k < Count(os) <= MAX_ENTRIES && SlotAddress(MAX_ENTRIES) <= |m| && o == Nth(os, k)
    requires o.end <= |t| && x == SlotOf(t, o.start, o.end)
    ensures SlotIn(Filled(m, t, os, 0), k) == x
  {
    var a, top := SlotsFit(Count(os), k, |m|);
    FromFirstSlot(m, t, os, 0, k, a, o, top);
    SlotStands(Filled(m, t, os, 0), k, a, x);
  }

  // ---- the parser ----

  method FindArray(mem: array<byte>, base: nat, end: nat) returns (i: nat)
    requires base + end <= mem.Length
    ensures i == ArrayStart(mem[base..base + end], 0)
  {
    i := 0;
    while i < end
      invariant i <= end && ArrayStart(mem[base..base + end], i) == ArrayStart(mem[base..base + end], 0)
    {
      if mem[base + i] == OPEN_BRACKET {
        return i + 1;
      }
      i := i + 1;
    }
  }

  method FindObject(mem: array<byte>, base: nat, from: nat, end: nat) returns (r: Option<nat>)
    requires base + end <= mem.Length && from <= end
    ensures r == ObjectStart(mem[base..base + end], from)
  {
    var i := from;
    while i < end
      invariant from <= i <= end && ObjectStart(mem[base..base + end], i) == ObjectStart(mem[base..base + end], from)
    {
      if mem[base + i] == CLOSE_BRACKET {
        return None;
      }
      if mem[base + i] == OPEN_BRACE {
        return Some(i + 1);
      }
      i := i + 1;
    }
    r := Some(i);
  }

  method MatchBrace(mem: array<byte>, base: nat, from: nat, end: nat) returns (i: nat)
    requires base + end <= mem.Length && from <= end
    ensures i == ObjectEnd(mem[base..base + end], from, OPENED)
  {
    ghost var t := mem[base..base + end];
    i := from;
    var depth, inStr, esc := 1, false, false;
    while i < end
      invariant from <= i <= end && depth != 0
      invariant ObjectEnd(t, i, Scan(depth, inStr, esc)) == ObjectEnd(t, from, OPENED)
    {
      ghost var s := Scan(depth, inStr, esc);
      var c := mem[base + i];
      assert c == t[i];
      if esc {
        esc := false;
      } else if inStr {
        if c == BACKSLASH {
          esc := true;
        }
        if c == QUOTE {
          inStr := false;
        }
      } else {
        if c == QUOTE {
          inStr := true;
        }
        if c == OPEN_BRACE {
          depth := depth + 1;
        }
        if c == CLOSE_BRACE {
          depth := depth - 1;
          if depth == 0 {
            break;
          }
        }
      }
      assert Scan(depth, inStr, esc) == Scanned(s, c);
      i := i + 1;
    }
  }

  /** The text stands in memory at FEED_DATA. */
  predicate TextIn(m: seq<byte>, t: seq<byte>) {
    FEED_DATA + |t| <= ENTRY_AREA <= |m| && m[FEED_DATA..FEED_DATA + |t|] == t
  }

  lemma TextKept(m: seq<byte>, t: seq<byte>, at: nat, x: seq<byte>)
    requires TextIn(m, t) && ENTRY_AREA <= at && at + |x| <= |m|
    ensures TextIn(Splice(m, at, x), t)
  {
    SpliceFrame(m, at, x, FEED_DATA, FEED_DATA + |t|);
  }

  /** The text and every part of it, as memory holds them. */
  lemma TextRead(mem: array<byte>, t: seq<byte>, end: nat)
    requires TextIn(mem[..], t) && end <= |t|
    ensures mem[FEED_DATA..FEED_DATA + end] == t[..end] && mem[FEED_DATA..FEED_DATA + |t|] == t
  {
    assert mem[FEED_DATA..FEED_DATA + |t|] == mem[..][FEED_DATA..FEED_DATA + |t|];
    assert mem[FEED_DATA..FEED_DATA + end] == mem[FEED_DATA..FEED_DATA + |t|][..end];
  }

  /** Parse one object into the next slot. */
  method ParseObject(mem: array<byte>, cnt: nat, start: nat, end: nat, ghost t: seq<byte>)
    requires cnt < MAX_ENTRIES && SlotAddress(MAX_ENTRIES) <= mem.Length && TextIn(mem[..], t) && start <= end <= |t|
    modifies mem
    ensures mem[..] == Splice(old(mem[..]), SlotAddress(cnt), SlotOf(t, start, end))
    ensures TextIn(mem[..], t)
  {
    TextRead(mem, t, end);
    TextKept(mem[..], t, SlotAddress(cnt), SlotOf(t, start, end));
    ParseEntry(mem, FEED_DATA, start, end, SlotAddress(cnt));
  }

  /** What is left to do: the objects os from index i on go into the slots from number cnt on. */
  predicate Pending(m: seq<byte>, t: seq<byte>, i: nat, cnt: nat, os: Objects) {
    && TextIn(m, t) && SlotAddress(cnt + Count(os)) <= |m| && cnt + Count(os) <= MAX_ENTRIES
    && Within(t, os) && os == ObjectsFrom(t, i, cnt)
  }

  lemma OneFilled(m: seq<byte>, m1: seq<byte>, t: seq<byte>, i: nat, cnt: nat, os: Objects, next: nat)
    requires Pending(m, t, i, cnt, os) && os.Object? && next == os.end + 1 && os.rest == ObjectsFrom(t, next, cnt + 1)
    requires TextIn(m1, t) && m1 == Splice(m, SlotAddress(cnt), SlotOf(t, os.start, os.end))
    ensures Pending(m1, t, next, cnt + 1, os.rest) && Filled(m1, t, os.rest, cnt + 1) == Filled(m, t, os, cnt)
  {
    FilledStep(m, m1, t, os, cnt);
  }

  /** The next object and where the scan goes on after it. */
  method NextObject(mem: array<byte>, i: nat, end: nat, ghost t: seq<byte>, ghost cnt: nat)
    returns (found: bool, start: nat, objEnd: nat)
    requires TextIn(mem[..], t) && end == |t| && i < end && cnt < MAX_ENTRIES
    ensures !found ==> ObjectsFrom(t, i, cnt) == NoMore
    ensures found ==>
        start <= objEnd <= end && ObjectsFrom(t, i, cnt) == Object(start, objEnd, ObjectsFrom(t, objEnd + 1, cnt + 1))
  {
    TextRead(mem, t, end);
    var s := FindObject(mem, FEED_DATA, i, end);
    found, start, objEnd := false, 0, 0;
    if s.Some? {
      found, start := true, s.value;
      objEnd := MatchBrace(mem, FEED_DATA, start, end);
    }
  }

  /** The same, with what will come of it: `total` entries in memory `goal`. */
  predicate Heading(m: seq<byte>, t: seq<byte>, i: nat, cnt: nat, os: Objects, goal: seq<byte>, total: nat) {
    Pending(m, t, i, cnt, os) && cnt + Count(os) == total && Filled(m, t, os, cnt) == goal
  }

  /** The loop is on its way to `total` objects and memory `goal`. */
  ghost predicate OnTheWay(m: seq<byte>, t: seq<byte>, i: nat, cnt: nat, goal: seq<byte>, total: nat) {
    exists os :: Heading(m, t, i, cnt, os, goal, total)
  }

  /** One turn of the main loop; where the next one starts, if there is another object. */
  method Turn(mem: array<byte>, i: nat, end: nat, cnt: nat, ghost t: seq<byte>, ghost goal: seq<byte>,
      ghost total: nat) returns (found: bool, next: nat)
    requires SlotAddress(MAX_ENTRIES) <= mem.Length && end == |t| && i < end && cnt < MAX_ENTRIES
    requires OnTheWay(mem[..], t, i, cnt, goal, total)
    modifies mem
    ensures !found ==> cnt == total && mem[..] == goal
    ensures found ==> OnTheWay(mem[..], t, next, cnt + 1, goal, total)
  {
    ghost var os :| Heading(mem[..], t, i, cnt, os, goal, total);
    var start, objEnd;
    found, start, objEnd := NextObject(mem, i, end, t, cnt);
    next := objEnd + 1;
    if found {
      ParseObject(mem, cnt, start, objEnd, t);
      OneFilled(old(mem[..]), mem[..], t, i, cnt, os, next);
      assert Heading(mem[..], t, next, cnt + 1, os.rest, goal, total);
    }
  }

  lemma Finished(m: seq<byte>, t: seq<byte>, i: nat, cnt: nat, goal: seq<byte>, total: nat)
    requires OnTheWay(m, t, i, cnt, goal, total) && (i >= |t| || cnt >= MAX_ENTRIES)
    ensures cnt == total && m == goal
  {
    var os :| Heading(m, t, i, cnt, os, goal, total);
    assert os == NoMore;
  }

  lemma Started(m: seq<byte>, t: seq<byte>, first: nat, os: Objects)
    requires SlotAddress(MAX_ENTRIES) <= |m| && TextIn(m, t) && os == ObjectsFrom(t, first, 0)
    ensures OnTheWay(m, t, first, 0, Filled(m, t, os, 0), Count(os))
  {
    ScanWithin(t, first, 0);
    assert Heading(m, t, first, 0, os, Filled(m, t, os, 0), Count(os));
  }

  /** The main loop, from the first object on. */
  method ParseArray(mem: array<byte>, first: nat, end: nat, ghost t: seq<byte>) returns (cnt: nat)
    requires SlotAddress(MAX_ENTRIES) <= mem.Length && TextIn(mem[..], t) && end == |t|
    modifies mem
    ensures cnt == Count(ObjectsFrom(t, first, 0)) && mem[..] == Filled(old(mem[..]), t, ObjectsFrom(t, first, 0), 0)
  {
    ghost var os := ObjectsFrom(t, first, 0);
    ghost var goal, total := Filled(mem[..], t, os, 0), Count(os);
    Started(mem[..], t, first, os);
    var i: nat := first;
    cnt := 0;
    while i < end && cnt < MAX_ENTRIES
      invariant OnTheWay(mem[..], t, i, cnt, goal, total)
      decreases MAX_ENTRIES - cnt
    {
      var found, next := Turn(mem, i, end, cnt, t, goal, total);
      if !found {
        return;
      }
      cnt, i := cnt + 1, next;
    }
    Finished(mem[..], t, i, cnt, goal, total);
  }

  /** Parse the cached feed into the entry area; how many entries there are. */
  method ParseFeed(mem: array<byte>) returns (cnt: nat)
    requires SlotAddress(MAX_ENTRIES) <= mem.Length && U32At(mem[..], FEED_LEN) <= MAX_FEED_LEN
    modifies mem
    ensures var t := old(mem[131084..131084 + U32At(mem[..], 131080)]);
      && cnt == Count(FeedObjects(t)) <= MAX_ENTRIES && Within(t, FeedObjects(t))
      && mem[..] == Filled(old(mem[..]), t, FeedObjects(t), 0)
  {
    var end: nat := U32At(mem[..], FEED_LEN);
    ghost var t := mem[FEED_DATA..FEED_DATA + end];
    assert mem[..][FEED_DATA..FEED_DATA + end] == t;
    ScanWithin(t, ArrayStart(t, 0), 0);
    var i := FindArray(mem, FEED_DATA, end);
    cnt := ParseArray(mem, i, end, t);
  }
}
