/** Which feeds are parsed right: arrays of objects as JSON writes them, with braces nested and inside strings. */
module FeedGrammar {
  import opened Bytes
  import opened FeedText
  import opened FeedSlots
  import opened FeedArray

  /** A byte of a string as it is written: an ordinary one, or a backslash and the byte after it. */
  datatype Unit = Ordinary(b: byte) | Escape(b: byte)

  /** The inside of an object: bytes that are neither quotes nor braces, strings, and objects inside. */
  datatype Pieces =
    | End | Plain(b: byte, rest: Pieces) | Str(units: seq<Unit>, rest: Pieces) | Inner(inner: Pieces, rest: Pieces)

  predicate ValidUnits(us: seq<Unit>) {
    forall i :: 0 <= i < |us| && us[i].Ordinary? ==> us[i].b != QUOTE && us[i].b != BACKSLASH
  }

  predicate ValidPieces(p: Pieces) {
    match p
    case End => true
    case Plain(b, rest) => b != QUOTE && b != OPEN_BRACE && b != CLOSE_BRACE && ValidPieces(rest)
    case Str(units, rest) => ValidUnits(units) && ValidPieces(rest)
    case Inner(inner, rest) => ValidPieces(inner) && ValidPieces(rest)
  }

  function UnitText(u: Unit): (s: seq<byte>) {
    match u case Ordinary(b) => [b] case Escape(b) => [BACKSLASH, b]
  }

  function UnitsText(us: seq<Unit>): (s: seq<byte>) {
    if us == [] then [] else UnitText(us[0]) + UnitsText(us[1..])
  }

  function PiecesText(p: Pieces): (s: seq<byte>) {
    match p
    case End => []
    case Plain(b, rest) => [b] + PiecesText(rest)
    case Str(units, rest) => [QUOTE] + (UnitsText(units) + ([QUOTE] + PiecesText(rest)))
    case Inner(inner, rest) => [OPEN_BRACE] + (PiecesText(inner) + ([CLOSE_BRACE] + PiecesText(rest)))
  }

  /** From i in state s the scanner comes to j in state r. */
  predicate Reaches(t: seq<byte>, i: nat, s: Scan, j: nat, r: Scan) {
    i <= j <= |t| && ObjectEnd(t, i, s) == ObjectEnd(t, j, r)
  }

  lemma StepReaches(t: seq<byte>, i: nat, s: Scan, c: byte)
    requires At(t, i, [c]) && s.depth > 0 && Scanned(s, c).depth > 0
    ensures Reaches(t, i, s, i + 1, Scanned(s, c))
  {
    AtByte(t, i, [c], 0);
  }

  /** A string body leaves the scanner inside the string, with no escape pending. */
  lemma {:induction false} UnitsReach(t: seq<byte>, i: nat, us: seq<Unit>, s: Scan, j: nat)
    requires ValidUnits(us) && At(t, i, UnitsText(us)) && j == i + |UnitsText(us)|
    requires s.depth > 0 && s.inStr && !s.esc
    ensures Reaches(t, i, s, j, s)
    decreases |us|
  {
    if us != [] {
      var first := UnitText(us[0]);
      var mid := i + |first|;
      AtSplits(t, i, first, UnitsText(us[1..]));
      if us[0].Escape? {
        AtSplits(t, i, [BACKSLASH], [us[0].b]);
        StepReaches(t, i, s, BACKSLASH);
        StepReaches(t, i + 1, s.(esc := true), us[0].b);
      } else {
        StepReaches(t, i, s, us[0].b);
      }
      UnitsReach(t, mid, us[1..], s, j);
    }
  }

  lemma StringReaches(t: seq<byte>, i: nat, units: seq<Unit>, s: Scan, a: nat, b: nat)
    requires ValidUnits(units) && a == i + 1 && b == a + |UnitsText(units)|
    requires At(t, i, [QUOTE]) && At(t, a, UnitsText(units)) && At(t, b, [QUOTE])
    requires s.depth > 0 && !s.inStr && !s.esc
    ensures Reaches(t, i, s, b + 1, s)
  {
    StepReaches(t, i, s, QUOTE);
    UnitsReach(t, a, units, s.(inStr := true), b);
    StepReaches(t, b, s.(inStr := true), QUOTE);
  }

  lemma BracesReach(t: seq<byte>, i: nat, s: Scan, a: nat, b: nat)
    requires a == i + 1 && At(t, i, [OPEN_BRACE]) && At(t, b, [CLOSE_BRACE])
    requires s.depth > 0 && !s.inStr && !s.esc
    requires Reaches(t, a, s.(depth := s.depth + 1), b, s.(depth := s.depth + 1))
    ensures Reaches(t, i, s, b + 1, s)
  {
    StepReaches(t, i, s, OPEN_BRACE);
    StepReaches(t, b, s.(depth := s.depth + 1), CLOSE_BRACE);
  }

  /** The inside of an object leaves the scanner at the same depth outside strings. */
  lemma {:induction false} PiecesReach(t: seq<byte>, i: nat, p: Pieces, s: Scan, j: nat)
    requires ValidPieces(p) && At(t, i, PiecesText(p)) && j == i + |PiecesText(p)|
    requires s.depth > 0 && !s.inStr && !s.esc
    ensures Reaches(t, i, s, j, s)
    decreases p, 1
  {
    match p
    case End =>
    case Plain(b, rest) => PlainReaches(t, i, p, s, j);
    case Str(units, rest) => StrReaches(t, i, p, s, j);
    case Inner(inner, rest) => InnerReaches(t, i, p, s, j);
  }

  lemma {:induction false} PlainReaches(t: seq<byte>, i: nat, p: Pieces, s: Scan, j: nat)
    requires p.Plain? && ValidPieces(p) && At(t, i, PiecesText(p)) && j == i + |PiecesText(p)|
    requires s.depth > 0 && !s.inStr && !s.esc
    ensures Reaches(t, i, s, j, s)
    decreases p, 0
  {
    AtSplits(t, i, [p.b], PiecesText(p.rest));
    StepReaches(t, i, s, p.b);
    PiecesReach(t, i + 1, p.rest, s, j);
  }

  lemma {:induction false} StrReaches(t: seq<byte>, i: nat, p: Pieces, s: Scan, j: nat)
    requires p.Str? && ValidPieces(p) && At(t, i, PiecesText(p)) && j == i + |PiecesText(p)|
    requires s.depth > 0 && !s.inStr && !s.esc
    ensures Reaches(t, i, s, j, s)
    decreases p, 0
  {
    var a, b := Wrapped(t, i, QUOTE, UnitsText(p.units), QUOTE, PiecesText(p.rest));
    StringReaches(t, i, p.units, s, a, b);
    PiecesReach(t, b + 1, p.rest, s, j);
  }

  lemma {:induction false} InnerReaches(t: seq<byte>, i: nat, p: Pieces, s: Scan, j: nat)
    requires p.Inner? && ValidPieces(p) && At(t, i, PiecesText(p)) && j == i + |PiecesText(p)|
    requires s.depth > 0 && !s.inStr && !s.esc
    ensures Reaches(t, i, s, j, s)
    decreases p, 0
  {
    var a, b := Wrapped(t, i, OPEN_BRACE, PiecesText(p.inner), CLOSE_BRACE, PiecesText(p.rest));
    PiecesReach(t, a, p.inner, s.(depth := s.depth + 1), b);
    BracesReach(t, i, s, a, b);
    PiecesReach(t, b + 1, p.rest, s, j);
  }

  /** Where the parts of a bracketed stretch stand. */
  lemma Wrapped(t: seq<byte>, i: nat, open: byte, body: seq<byte>, close: byte, rest: seq<byte>)
    returns (a: nat, b: nat)
    requires At(t, i, [open] + (body + ([close] + rest)))
    ensures a == i + 1 && b == a + |body|
    ensures At(t, i, [open]) && At(t, a, body) && At(t, b, [close]) && At(t, b + 1, rest)
  {
    a, b := i + 1, i + 1 + |body|;
    AtSplits(t, i, [open], body + ([close] + rest));
    AtSplits(t, a, body, [close] + rest);
    AtSplits(t, b, [close], rest);
  }

  /** The brace that closes an object is the one the scanner stops at, whatever follows. */
  lemma BraceMatched(t: seq<byte>, i: nat, p: Pieces, end: nat)
    requires ValidPieces(p) && At(t, i, PiecesText(p)) && end == i + |PiecesText(p)| && At(t, end, [CLOSE_BRACE])
    ensures ObjectEnd(t, i, OPENED) == end
  {
    PiecesReach(t, i, p, OPENED, end);
    AtByte(t, end, [CLOSE_BRACE], 0);
  }

  // ---- arrays ----

  /** Objects, each with what separates it from the one before. */
  datatype Items = NoItems | Item(sep: seq<byte>, body: Pieces, rest: Items)

  /** Anything may stand between objects but an opening brace or a closing bracket. */
  predicate Separator(s: seq<byte>) {
    forall i :: 0 <= i < |s| ==> s[i] != OPEN_BRACE && s[i] != CLOSE_BRACKET
  }

  predicate ValidItems(xs: Items) {
    xs.Item? ==> Separator(xs.sep) && ValidPieces(xs.body) && ValidItems(xs.rest)
  }

  function Length(xs: Items): (n: nat) {
    if xs.NoItems? then 0 else 1 + Length(xs.rest)
  }

  function ItemsText(xs: Items): (s: seq<byte>) {
    if xs.NoItems? then [] else xs.sep + ([OPEN_BRACE] + (PiecesText(xs.body) + ([CLOSE_BRACE] + ItemsText(xs.rest))))
  }

  /** Where the body of the first of the items at i starts and ends. */
  function StartOf(xs: Items, i: nat): (s: nat)
    requires xs.Item?
  {
    i + |xs.sep| + 1
  }

  function EndOf(xs: Items, i: nat): (e: nat)
    requires xs.Item?
  {
    i + |xs.sep| + 1 + |PiecesText(xs.body)|
  }

  /** The first n bodies of the items that start at i, and then `more`. */
  function Bodies(xs: Items, i: nat, n: nat, more: Objects): (os: Objects)
    decreases xs
  {
    if xs.NoItems? || n == 0 then more
    else Object(StartOf(xs, i), EndOf(xs, i), Bodies(xs.rest, EndOf(xs, i) + 1, n - 1, more))
  }

  lemma {:induction false} BodiesCounted(xs: Items, i: nat, n: nat)
    ensures Count(Bodies(xs, i, n, NoMore)) == Min(Length(xs), n)
    decreases xs
  {
    if xs.Item? && n > 0 {
      BodiesCounted(xs.rest, EndOf(xs, i) + 1, n - 1);
    }
  }

  lemma {:induction false} SeparatorSkipped(t: seq<byte>, i: nat, sep: seq<byte>, j: nat)
    requires Separator(sep) && At(t, i, sep) && j == i + |sep|
    ensures ObjectStart(t, i) == ObjectStart(t, j)
    decreases |sep|
  {
    if sep != [] {
      AtByte(t, i, sep, 0);
      assert sep == [sep[0]] + sep[1..];
      AtSplits(t, i, [sep[0]], sep[1..]);
      SeparatorSkipped(t, i + 1, sep[1..], j);
    }
  }

  /** The items stand in t one after the other from i to `after`. */
  predicate ItemsAt(t: seq<byte>, i: nat, xs: Items, after: nat)
    decreases xs
  {
    if xs.NoItems? then i == after else ItemAt(t, i, xs) && ItemsAt(t, EndOf(xs, i) + 1, xs.rest, after)
  }

  predicate ItemAt(t: seq<byte>, i: nat, xs: Items)
    requires xs.Item?
  {
    && At(t, i, xs.sep) && At(t, i + |xs.sep|, [OPEN_BRACE])
    && At(t, StartOf(xs, i), PiecesText(xs.body)) && At(t, EndOf(xs, i), [CLOSE_BRACE])
  }

  lemma ItemStands(t: seq<byte>, i: nat, xs: Items)
    requires xs.Item? && At(t, i, ItemsText(xs))
    ensures ItemAt(t, i, xs) && At(t, EndOf(xs, i) + 1, ItemsText(xs.rest))
    ensures |ItemsText(xs)| == EndOf(xs, i) + 1 - i + |ItemsText(xs.rest)|
  {
    ItemParts(t, i, xs.sep, PiecesText(xs.body), ItemsText(xs.rest), StartOf(xs, i), EndOf(xs, i), EndOf(xs, i) + 1);
  }

  lemma ItemParts(t: seq<byte>, i: nat, sep: seq<byte>, body: seq<byte>, rest: seq<byte>, start: nat, end: nat,
      next: nat)
    requires At(t, i, sep + ([OPEN_BRACE] + (body + ([CLOSE_BRACE] + rest))))
    requires start == i + |sep| + 1 && end == start + |body| && next == end + 1
    ensures At(t, i, sep) && At(t, i + |sep|, [OPEN_BRACE]) && At(t, start, body) && At(t, end, [CLOSE_BRACE])
    ensures At(t, next, rest)
  {
    AtSplits(t, i, sep, [OPEN_BRACE] + (body + ([CLOSE_BRACE] + rest)));
    var a, b := Wrapped(t, i + |sep|, OPEN_BRACE, body, CLOSE_BRACE, rest);
  }

  lemma {:induction false} ItemsStand(t: seq<byte>, i: nat, xs: Items, after: nat)
    requires At(t, i, ItemsText(xs)) && after == i + |ItemsText(xs)|
    ensures ItemsAt(t, i, xs, after)
    decreases xs
  {
    if xs.Item? {
      ItemStands(t, i, xs);
      ItemsStand(t, EndOf(xs, i) + 1, xs.rest, after);
    }
  }

  lemma BraceOpens(t: seq<byte>, j: nat)
    requires At(t, j, [OPEN_BRACE])
    ensures j < |t| && ObjectStart(t, j) == Some(j + 1)
  {
    AtByte(t, j, [OPEN_BRACE], 0);
  }

  /** The scan of one item. */
  lemma ItemScanned(t: seq<byte>, i: nat, xs: Items)
    requires xs.Item? && Separator(xs.sep) && ValidPieces(xs.body) && ItemAt(t, i, xs)
    ensures i < |t| && ObjectStart(t, i) == Some(StartOf(xs, i)) && ObjectEnd(t, StartOf(xs, i), OPENED) == EndOf(xs, i)
  {
    var brace := i + |xs.sep|;
    SeparatorSkipped(t, i, xs.sep, brace);
    BraceOpens(t, brace);
    BraceMatched(t, StartOf(xs, i), xs.body, EndOf(xs, i));
  }

  lemma OneScanned(t: seq<byte>, i: nat, xs: Items, cnt: nat, room: nat, more: Objects)
    requires xs.Item? && Separator(xs.sep) && ValidPieces(xs.body) && ItemAt(t, i, xs) && cnt + room == MAX_ENTRIES
    requires room > 0
    requires ObjectsFrom(t, EndOf(xs, i) + 1, cnt + 1) == Bodies(xs.rest, EndOf(xs, i) + 1, room - 1, more)
    ensures ObjectsFrom(t, i, cnt) == Bodies(xs, i, room, more)
  {
    ItemScanned(t, i, xs);
  }

  /** The scan yields the bodies, as many as there is room for, and then whatever follows. */
  lemma {:induction false} ItemsScanned(t: seq<byte>, i: nat, xs: Items, cnt: nat, room: nat, after: nat,
      total: nat, more: Objects)
    requires ValidItems(xs) && ItemsAt(t, i, xs, after) && cnt + room == MAX_ENTRIES
    requires total == cnt + Length(xs) && more == if total <= MAX_ENTRIES then ObjectsFrom(t, after, total) else NoMore
    ensures ObjectsFrom(t, i, cnt) == Bodies(xs, i, room, more)
    decreases xs
  {
    if xs.Item? && room > 0 {
      ItemsScanned(t, EndOf(xs, i) + 1, xs.rest, cnt + 1, room - 1, after, total, more);
      OneScanned(t, i, xs, cnt, room, more);
    }
  }

  predicate NoBracket(s: seq<byte>) {
    forall i :: 0 <= i < |s| ==> s[i] != OPEN_BRACKET
  }

  lemma {:induction false} ArrayFound(t: seq<byte>, i: nat, pre: seq<byte>, j: nat)
    requires NoBracket(pre) && At(t, i, pre) && j == i + |pre| && At(t, j, [OPEN_BRACKET])
    ensures ArrayStart(t, i) == j + 1
    decreases |pre|
  {
    if pre == [] {
      AtByte(t, j, [OPEN_BRACKET], 0);
    } else {
      AtByte(t, i, pre, 0);
      assert pre == [pre[0]] + pre[1..];
      AtSplits(t, i, [pre[0]], pre[1..]);
      ArrayFound(t, i + 1, pre[1..], j);
    }
  }

  /** A feed: something before the array, its objects, and what comes after them. */
  function Feed(pre: seq<byte>, xs: Items, tail: seq<byte>): (t: seq<byte>) {
    pre + ([OPEN_BRACKET] + (ItemsText(xs) + tail))
  }

  /** Where the parts of a feed stand; the scan starts at the first item. */
  lemma FeedParts(pre: seq<byte>, xs: Items, tail: seq<byte>) returns (first: nat, after: nat)
    requires NoBracket(pre)
    ensures first == |pre| + 1 && after == first + |ItemsText(xs)| && after + |tail| == |Feed(pre, xs, tail)|
    ensures ItemsAt(Feed(pre, xs, tail), first, xs, after) && At(Feed(pre, xs, tail), after, tail)
    ensures ArrayStart(Feed(pre, xs, tail), 0) == first
  {
    var t := Feed(pre, xs, tail);
    first, after := |pre| + 1, |pre| + 1 + |ItemsText(xs)|;
    assert At(t, 0, t);
    AtSplits(t, 0, pre, [OPEN_BRACKET] + (ItemsText(xs) + tail));
    AtSplits(t, |pre|, [OPEN_BRACKET], ItemsText(xs) + tail);
    AtSplits(t, first, ItemsText(xs), tail);
    ItemsStand(t, first, xs, after);
    ArrayFound(t, 0, pre, |pre|);
  }

  lemma ArrayCloses(t: seq<byte>, i: nat, sep: seq<byte>, post: seq<byte>)
    requires Separator(sep) && At(t, i, sep + ([CLOSE_BRACKET] + post))
    ensures ObjectStart(t, i) == None && i <= |t|
  {
    AtSplits(t, i, sep, [CLOSE_BRACKET] + post);
    AtSplits(t, i + |sep|, [CLOSE_BRACKET], post);
    AtByte(t, i + |sep|, [CLOSE_BRACKET], 0);
    SeparatorSkipped(t, i, sep, i + |sep|);
  }

  /** A closed array of n objects gives min(n, 20) entries, entry k from exactly the inside of object k. */
  lemma ClosedFeedParsed(pre: seq<byte>, xs: Items, sep: seq<byte>, post: seq<byte>)
    requires NoBracket(pre) && ValidItems(xs) && Separator(sep)
    ensures var os := FeedObjects(Feed(pre, xs, sep + ([CLOSE_BRACKET] + post)));
      os == Bodies(xs, |pre| + 1, 20, NoMore) && Count(os) == Min(Length(xs), 20)
  {
    var tail := sep + ([CLOSE_BRACKET] + post);
    var t := Feed(pre, xs, tail);
    var first, after := FeedParts(pre, xs, tail);
    ArrayCloses(t, after, sep, post);
    ItemsScanned(t, first, xs, 0, MAX_ENTRIES, after, Length(xs), NoMore);
    BodiesCounted(xs, first, MAX_ENTRIES);
  }

  /** A feed cut off between objects gets one blank entry too many exactly when anything follows the last object. */
  lemma CutFeedParsed(pre: seq<byte>, xs: Items, sep: seq<byte>)
    requires NoBracket(pre) && ValidItems(xs) && Separator(sep) && Length(xs) < MAX_ENTRIES
    ensures var t := Feed(pre, xs, sep);
      && FeedObjects(t) == Bodies(xs, |pre| + 1, MAX_ENTRIES, if sep == [] then NoMore else Object(|t|, |t|, NoMore))
      && EntryOf(t[..|t|], |t|) == BLANK
  {
    var t := Feed(pre, xs, sep);
    var first, after := FeedParts(pre, xs, sep);
    SeparatorSkipped(t, after, sep, |t|);
    ItemsScanned(t, first, xs, 0, MAX_ENTRIES, after, Length(xs), ObjectsFrom(t, after, Length(xs)));
  }
}
