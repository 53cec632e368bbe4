/**
 * Objects as members with names and values: which value the field finder takes for a member's, and what the entry
 * of a whole record is.
 */
module FeedMembers {
  import opened Bytes
  import opened Decimal
  import opened FeedText
  import opened FeedStrings
  import opened FeedSlots
  import opened FeedGrammar
  import opened FeedRecord
  import FeedArray
  import Utf8

  const COLON: byte := 58
  const COMMA: byte := 44

  /** The members of an object: white space and commas, a name, a gap and a colon, a value of any kind. */
  datatype Members =
    | NoMembers
    | Member(lead: seq<byte>, name: seq<Unit>, gap: seq<byte>, value: Pieces, rest: Members)

  predicate IsLower(b: byte) {
    97 <= b <= 122
  }

  /** No letter follows directly on a string. */
  predicate Separated(p: Pieces) {
    match p
    case End => true
    case Plain(_, rest) => Separated(rest)
    case Str(_, rest) => Separated(rest) && (rest.Plain? ==> !IsLower(rest.b))
    case Inner(inner, rest) => Separated(inner) && Separated(rest)
  }

  predicate Lead(s: seq<byte>) {
    forall i :: 0 <= i < |s| ==> s[i] <= 32 || s[i] == COMMA
  }

  /** Members as JSON writes them. */
  predicate ValidMembers(ms: Members) {
    ms.Member? ==>
      && Lead(ms.lead) && (ms.rest.Member? ==> ms.rest.lead != []) && ValidUnits(ms.name)
      && AllWhite(ms.gap) && ValidPieces(ms.value) && Separated(ms.value) && ValidMembers(ms.rest)
  }

  function MembersText(ms: Members): (s: seq<byte>) {
    if ms.NoMembers? then []
    else MemberText(ms.lead, UnitsText(ms.name), ms.gap, PiecesText(ms.value), MembersText(ms.rest))
  }

  function MemberText(lead: seq<byte>, name: seq<byte>, gap: seq<byte>, value: seq<byte>, rest: seq<byte>)
    : (s: seq<byte>)
  {
    lead + ([QUOTE] + (name + ([QUOTE] + (gap + ([COLON] + (value + rest))))))
  }

  // ---- members are pieces ----

  function Appended(p: Pieces, q: Pieces): (r: Pieces) {
    match p
    case End => q
    case Plain(b, rest) => Plain(b, Appended(rest, q))
    case Str(units, rest) => Str(units, Appended(rest, q))
    case Inner(inner, rest) => Inner(inner, Appended(rest, q))
  }

  function Plains(s: seq<byte>, q: Pieces): (r: Pieces) {
    if s == [] then q else Plain(s[0], Plains(s[1..], q))
  }

  function Inside(ms: Members): (p: Pieces) {
    if ms.NoMembers? then End
    else Plains(ms.lead, Str(ms.name, Plains(ms.gap, Plain(COLON, Appended(ms.value, Inside(ms.rest))))))
  }

  lemma {:induction false} AppendedText(p: Pieces, q: Pieces)
    ensures PiecesText(Appended(p, q)) == PiecesText(p) + PiecesText(q)
    ensures ValidPieces(p) && ValidPieces(q) ==> ValidPieces(Appended(p, q))
  {
    match p
    case End => assert [] + PiecesText(q) == PiecesText(q);
    case Plain(b, rest) =>
      AppendedText(rest, q);
      Assoc([b], PiecesText(rest), PiecesText(q));
    case Str(units, rest) =>
      AppendedText(rest, q);
      Wrapping(QUOTE, UnitsText(units), QUOTE, PiecesText(rest), PiecesText(q));
    case Inner(inner, rest) =>
      AppendedText(rest, q);
      Wrapping(FeedArray.OPEN_BRACE, PiecesText(inner), FeedArray.CLOSE_BRACE, PiecesText(rest), PiecesText(q));
  }

  lemma Wrapping(a: byte, x: seq<byte>, b: byte, y: seq<byte>, z: seq<byte>)
    ensures [a] + (x + ([b] + (y + z))) == [a] + (x + ([b] + y)) + z
  {
  }

  lemma {:induction false} PlainsText(s: seq<byte>, q: Pieces)
    ensures PiecesText(Plains(s, q)) == s + PiecesText(q)
    decreases |s|
  {
    if s == [] {
      assert s + PiecesText(q) == PiecesText(q);
    } else {
      PlainsText(s[1..], q);
      Assoc([s[0]], s[1..], PiecesText(q));
      assert [s[0]] + s[1..] == s;
    }
  }

  lemma {:induction false} PlainsValid(s: seq<byte>, q: Pieces)
    requires Lead(s) && ValidPieces(q)
    ensures ValidPieces(Plains(s, q))
    decreases |s|
  {
    if s != [] {
      PlainsValid(s[1..], q);
    }
  }

  /** Members are the inside of an object, and read as such. */
  lemma {:induction false} InsideText(ms: Members)
    requires ValidMembers(ms)
    ensures PiecesText(Inside(ms)) == MembersText(ms) && ValidPieces(Inside(ms))
  {
    if ms.Member? {
      InsideText(ms.rest);
      AppendedText(ms.value, Inside(ms.rest));
      var tail := Plain(COLON, Appended(ms.value, Inside(ms.rest)));
      PlainsValid(ms.gap, tail);
      PlainsText(ms.gap, tail);
      PlainsValid(ms.lead, Str(ms.name, Plains(ms.gap, tail)));
      PlainsText(ms.lead, Str(ms.name, Plains(ms.gap, tail)));
    }
  }

  // ---- where a quoted key can stand ----

  /** A key the finder looks for: lower-case letters. */
  predicate Key(key: seq<byte>) {
    key != [] && forall i :: 0 <= i < |key| ==> IsLower(key[i])
  }

  /** A string that shows the quoted key: it is the key, or ends with an escaped quote and the key. */
  predicate Shows(units: seq<Unit>, key: seq<byte>) {
    var s := UnitsText(units);
    s == key || (|s| >= |key| + 2 && s[|s| - |key| - 2..] == [BACKSLASH, QUOTE] + key)
  }

  /** A string at any depth shows the key. */
  predicate ShownIn(p: Pieces, key: seq<byte>) {
    match p
    case End => false
    case Plain(_, rest) => ShownIn(rest, key)
    case Str(units, rest) => Shows(units, key) || ShownIn(rest, key)
    case Inner(inner, rest) => ShownIn(inner, key) || ShownIn(rest, key)
  }

  /** The quoted key stands in t somewhere from lo on but before hi. */
  ghost predicate Stands(t: seq<byte>, lo: nat, hi: nat, key: seq<byte>) {
    exists q: nat :: lo <= q < hi && At(t, q, Quoted(key))
  }

  lemma {:induction false} QuotesEscaped(units: seq<Unit>, x: nat)
    requires ValidUnits(units) && x < |UnitsText(units)| && UnitsText(units)[x] == QUOTE
    ensures x > 0 && UnitsText(units)[x - 1] == BACKSLASH
    decreases |units|
  {
    var first := UnitText(units[0]);
    if x >= |first| {
      QuotesEscaped(units[1..], x - |first|);
    }
  }

  lemma KeyAt(t: seq<byte>, q: nat, key: seq<byte>)
    requires Key(key) && At(t, q, Quoted(key))
    ensures q + |key| + 1 < |t| && t[q] == t[q + |key| + 1] == QUOTE && t[q + 1..q + 1 + |key|] == key
    ensures forall k :: q < k <= q + |key| ==> IsLower(t[k])
  {
    QuotedParts(t, q, key);
    forall k | q < k <= q + |key| ensures IsLower(t[k]) {
      AtByte(t, q + 1, key, k - q - 1);
    }
  }

  /** The quoted key stands at a quote of a string just if the string shows it. */
  lemma StringShows(t: seq<byte>, i: nat, units: seq<Unit>, a: nat, b: nat, key: seq<byte>)
    requires ValidUnits(units) && a == i + 1 && b == a + |UnitsText(units)| && Key(key)
    requires At(t, i, [QUOTE]) && At(t, a, UnitsText(units)) && At(t, b, [QUOTE])
    ensures Stands(t, i, b, key) <==> Shows(units, key)
  {
    AtByte(t, i, [QUOTE], 0);
    AtByte(t, b, [QUOTE], 0);
    if Shows(units, key) {
      ShownStands(t, i, units, a, b, key);
    }
    if q: nat :| i <= q < b && At(t, q, Quoted(key)) {
      KeyAt(t, q, key);
      ShownAt(t, i, units, a, b, key, q);
    }
  }

  lemma ShownStands(t: seq<byte>, i: nat, units: seq<Unit>, a: nat, b: nat, key: seq<byte>)
    requires ValidUnits(units) && a == i + 1 && b == a + |UnitsText(units)| < |t| && Key(key)
    requires t[i] == t[b] == QUOTE && t[a..b] == UnitsText(units) && Shows(units, key)
    ensures Stands(t, i, b, key)
  {
    KeyEnds(units, key);
    QuotedEnd(t, i, UnitsText(units), a, b, key, b - |key| - 1);
  }

  lemma QuotedEnd(t: seq<byte>, i: nat, s: seq<byte>, a: nat, b: nat, key: seq<byte>, q: nat)
    requires a == i + 1 && b == a + |s| < |t| && t[i] == t[b] == QUOTE && t[a..b] == s
    requires |s| >= |key| && s[|s| - |key|..] == key && (|s| > |key| ==> s[|s| - |key| - 1] == QUOTE)
    requires q == b - |key| - 1
    ensures Stands(t, i, b, key)
  {
    assert t[q] == QUOTE by {
      if q > i {
        assert s[q - a] == t[q];
      }
    }
    SubSlice(t, a, b, |s| - |key|, |s|);
    assert s[|s| - |key|..|s|] == key;
    assert At(t, q + 1, key);
    QuotedAt(t, q, key);
  }

  /** A string that shows the key ends with it, and with a quote before it if there is more. */
  lemma KeyEnds(units: seq<Unit>, key: seq<byte>)
    requires Shows(units, key)
    ensures var s := UnitsText(units);
      |s| >= |key| && s[|s| - |key|..] == key && (|s| > |key| ==> s[|s| - |key| - 1] == QUOTE)
  {
    var s := UnitsText(units);
    if s != key {
      var x := s[|s| - |key| - 2..];
      assert x[1] == QUOTE && x[2..] == key;
    }
  }

  lemma ShownAt(t: seq<byte>, i: nat, units: seq<Unit>, a: nat, b: nat, key: seq<byte>, q: nat)
    requires ValidUnits(units) && a == i + 1 && b == a + |UnitsText(units)| < |t| && Key(key)
    requires t[i] == t[b] == QUOTE && t[a..b] == UnitsText(units)
    requires i <= q < b && q + |key| + 1 < |t| && t[q] == t[q + |key| + 1] == QUOTE && t[q + 1..q + 1 + |key|] == key
    requires forall k :: q < k <= q + |key| ==> IsLower(t[k])
    ensures Shows(units, key)
  {
    EndsAtQuote(t, units, a, b, key, q);
    var s := UnitsText(units);
    SubSlice(t, a, b, q + 1 - a, |s|);
    assert s[q + 1 - a..] == key;
    if q > i {
      assert s[q - a] == t[q];
      QuotesEscaped(units, q - a);
      EscapedTail(s, q - a, key);
    } else {
      assert s[0..] == s;
    }
  }

  lemma EscapedTail(s: seq<byte>, x: nat, key: seq<byte>)
    requires 0 < x < |s| && s[x - 1] == BACKSLASH && s[x] == QUOTE && s[x + 1..] == key
    ensures |s| == |key| + x + 1 && s[x - 1..] == [BACKSLASH, QUOTE] + key
  {
  }

  /** The quote behind the key is the one that ends the string. */
  lemma EndsAtQuote(t: seq<byte>, units: seq<Unit>, a: nat, b: nat, key: seq<byte>, q: nat)
    requires ValidUnits(units) && a <= q + 1 && b == a + |UnitsText(units)| < |t| && t[b] == QUOTE
    requires t[a..b] == UnitsText(units)
    requires key != [] && q < b && q + |key| + 1 < |t| && t[q + |key| + 1] == QUOTE
    requires forall k :: q < k <= q + |key| ==> IsLower(t[k])
    ensures q + |key| + 1 == b
  {
    var s, e := UnitsText(units), q + |key| + 1;
    assert !IsLower(t[b]);
    if e < b {
      assert s[e - a] == t[e] && s[e - 1 - a] == t[e - 1];
      QuotesEscaped(units, e - a);
      assert false;
    }
  }

  lemma NotAt(t: seq<byte>, q: nat, key: seq<byte>)
    requires Key(key) && (q < |t| && t[q] == QUOTE ==> q + 1 >= |t| || !IsLower(t[q + 1]))
    ensures !Stands(t, q, q + 1, key)
  {
    if At(t, q, Quoted(key)) {
      KeyAt(t, q, key);
    }
  }

  lemma StandsJoins(t: seq<byte>, lo: nat, mid: nat, hi: nat, key: seq<byte>)
    requires lo <= mid <= hi
    ensures Stands(t, lo, hi, key) <==> (Stands(t, lo, mid, key) || Stands(t, mid, hi, key))
  {
  }

  /** The quoted key stands in an object's inside just if a string in it shows the key. */
  lemma {:induction false} PiecesShow(t: seq<byte>, i: nat, p: Pieces, j: nat, key: seq<byte>)
    requires ValidPieces(p) && Separated(p) && Key(key) && At(t, i, PiecesText(p)) && j == i + |PiecesText(p)|
    requires j < |t| ==> !IsLower(t[j])
    ensures Stands(t, i, j, key) <==> ShownIn(p, key)
    decreases p, 1
  {
    match p
    case End =>
    case Plain(b, rest) =>
      AtSplits(t, i, [b], PiecesText(rest));
      AtByte(t, i, [b], 0);
      NotAt(t, i, key);
      PiecesShow(t, i + 1, rest, j, key);
      StandsJoins(t, i, i + 1, j, key);
    case Str(units, rest) => StrShows(t, i, p, j, key);
    case Inner(inner, rest) => InnerShows(t, i, p, j, key);
  }

  lemma {:induction false} StrShows(t: seq<byte>, i: nat, p: Pieces, j: nat, key: seq<byte>)
    requires p.Str? && ValidPieces(p) && Separated(p) && Key(key) && At(t, i, PiecesText(p)) && j == i + |PiecesText(p)|
    requires j < |t| ==> !IsLower(t[j])
    ensures Stands(t, i, j, key) <==> ShownIn(p, key)
    decreases p, 0
  {
    var b := KeyInString(t, i, p.units, PiecesText(p.rest), key);
    AfterString(t, b + 1, p.rest, j);
    NotAt(t, b, key);
    PiecesShow(t, b + 1, p.rest, j, key);
    StandsAround(t, i, b, j, key);
  }

  lemma KeyInString(t: seq<byte>, i: nat, units: seq<Unit>, rest: seq<byte>, key: seq<byte>) returns (b: nat)
    requires ValidUnits(units) && Key(key) && At(t, i, [QUOTE] + (UnitsText(units) + ([QUOTE] + rest)))
    ensures b == i + 1 + |UnitsText(units)| && At(t, b, [QUOTE]) && At(t, b + 1, rest)
    ensures Stands(t, i, b, key) <==> Shows(units, key)
  {
    var a, b' := Wrapped(t, i, QUOTE, UnitsText(units), QUOTE, rest);
    b := b';
    StringShows(t, i, units, a, b, key);
  }

  lemma StandsAround(t: seq<byte>, lo: nat, mid: nat, hi: nat, key: seq<byte>)
    requires lo <= mid < hi && !Stands(t, mid, mid + 1, key)
    ensures Stands(t, lo, hi, key) <==> (Stands(t, lo, mid, key) || Stands(t, mid + 1, hi, key))
  {
    StandsJoins(t, lo, mid, hi, key);
    StandsJoins(t, mid, mid + 1, hi, key);
  }

  /** No letter comes after a string. */
  lemma AfterString(t: seq<byte>, k: nat, rest: Pieces, j: nat)
    requires At(t, k, PiecesText(rest)) && j == k + |PiecesText(rest)| && (j < |t| ==> !IsLower(t[j]))
    requires rest.Plain? ==> !IsLower(rest.b)
    ensures k >= |t| || !IsLower(t[k])
  {
    if !rest.End? {
      AtByte(t, k, PiecesText(rest), 0);
    }
  }

  lemma {:induction false} InnerShows(t: seq<byte>, i: nat, p: Pieces, j: nat, key: seq<byte>)
    requires p.Inner? && ValidPieces(p) && Separated(p) && Key(key) && At(t, i, PiecesText(p))
    requires j == i + |PiecesText(p)|
    requires j < |t| ==> !IsLower(t[j])
    ensures Stands(t, i, j, key) <==> ShownIn(p, key)
    decreases p, 0
  {
    var a, b := Wrapped(t, i, FeedArray.OPEN_BRACE, PiecesText(p.inner), FeedArray.CLOSE_BRACE, PiecesText(p.rest));
    AtByte(t, i, [FeedArray.OPEN_BRACE], 0);
    AtByte(t, b, [FeedArray.CLOSE_BRACE], 0);
    NotAt(t, i, key);
    NotAt(t, b, key);
    PiecesShow(t, a, p.inner, b, key);
    PiecesShow(t, b + 1, p.rest, j, key);
    StandsJoins(t, i, a, j, key);
    StandsJoins(t, a, b, j, key);
    StandsJoins(t, b, b + 1, j, key);
  }

  // ---- what the finder finds ----

  lemma {:induction false} FieldSkips(t: seq<byte>, i: nat, w: nat, key: seq<byte>)
    requires i <= w <= |t| && !Stands(t, i, w, key)
    ensures FieldAt(t, i, key) == FieldAt(t, w, key)
    decreases w - i
  {
    if i < w {
      assert !At(t, i, Quoted(key));
      FieldSkips(t, i + 1, w, key);
    }
  }

  lemma {:induction false} FieldEarly(t: seq<byte>, i: nat, w: nat, key: seq<byte>)
    requires w <= |t| && Stands(t, i, w, key)
    ensures FieldAt(t, i, key).Some? && FieldAt(t, i, key).value < w + |key| + 3
    decreases |t| - i
  {
    if !At(t, i, Quoted(key)) {
      FieldEarly(t, i + 1, w, key);
    }
  }

  /** Where the value of the first member of the name starts, if the members start at i. */
  function FieldOf(ms: Members, i: nat, key: seq<byte>): (v: Option<nat>)
    ensures v.Some? ==> v.value >= i + |key| + 3
  {
    if ms.NoMembers? then None
    else if UnitsText(ms.name) == key then Some(i + |ms.lead| + |key| + 3 + |ms.gap|)
    else FieldOf(ms.rest, ValueEnd(ms, i), key)
  }

  function ValueStart(ms: Members, i: nat): (v: nat)
    requires ms.Member?
  {
    i + |ms.lead| + |UnitsText(ms.name)| + 3 + |ms.gap|
  }

  function ValueEnd(ms: Members, i: nat): (w: nat)
    requires ms.Member?
  {
    ValueStart(ms, i) + |PiecesText(ms.value)|
  }

  function ValueOf(ms: Members, key: seq<byte>): (p: Option<Pieces>) {
    if ms.NoMembers? then None else if UnitsText(ms.name) == key then Some(ms.value) else ValueOf(ms.rest, key)
  }

  /** No string before the member of that name, in a name or anywhere in a value, shows the key. */
  predicate Unmasked(ms: Members, key: seq<byte>) {
    ms.NoMembers? || UnitsText(ms.name) == key
    || (!Shows(ms.name, key) && !ShownIn(ms.value, key) && Unmasked(ms.rest, key))
  }

  /** The first member of that name, if there is one, has its colon right behind the name. */
  predicate Adjacent(ms: Members, key: seq<byte>) {
    ms.NoMembers? || (if UnitsText(ms.name) == key then ms.gap == [] else Adjacent(ms.rest, key))
  }

  /** The parts of a member at i: the quotes around its name at p and b, its value from v to w. */
  predicate MemberAt(t: seq<byte>, i: nat, ms: Members, p: nat, b: nat, v: nat, w: nat)
    requires ms.Member?
  {
    && p == i + |ms.lead| && b == p + 1 + |UnitsText(ms.name)| && v == b + 2 + |ms.gap|
    && w == v + |PiecesText(ms.value)|
    && At(t, i, ms.lead) && At(t, p, [QUOTE]) && At(t, p + 1, UnitsText(ms.name)) && At(t, b, [QUOTE])
    && At(t, b + 1, ms.gap) && At(t, v - 1, [COLON]) && At(t, v, PiecesText(ms.value)) && At(t, w, MembersText(ms.rest))
  }

  lemma MemberStands(t: seq<byte>, i: nat, ms: Members) returns (p: nat, b: nat, v: nat, w: nat)
    requires ms.Member? && At(t, i, MembersText(ms))
    ensures MemberAt(t, i, ms, p, b, v, w) && v == ValueStart(ms, i) && w == ValueEnd(ms, i)
    ensures i + |MembersText(ms)| == w + |MembersText(ms.rest)|
  {
    p, b, v, w := MemberParts(t, i, ms.lead, UnitsText(ms.name), ms.gap, PiecesText(ms.value), MembersText(ms.rest));
  }

  lemma MemberParts(t: seq<byte>, i: nat, lead: seq<byte>, name: seq<byte>, gap: seq<byte>, value: seq<byte>,
      rest: seq<byte>) returns (p: nat, b: nat, v: nat, w: nat)
    requires At(t, i, MemberText(lead, name, gap, value, rest))
    ensures p == i + |lead| && b == p + 1 + |name| && v == b + 2 + |gap| && w == v + |value|
    ensures At(t, i, lead) && At(t, p, [QUOTE]) && At(t, p + 1, name) && At(t, b, [QUOTE]) && At(t, b + 1, gap)
    ensures At(t, v - 1, [COLON]) && At(t, v, value) && At(t, w, rest)
    ensures i + |MemberText(lead, name, gap, value, rest)| == w + |rest|
  {
    p := i + |lead|;
    b := p + 1 + |name|;
    v := b + 2 + |gap|;
    w := v + |value|;
    NameParts(t, i, lead, name, gap + ([COLON] + (value + rest)), p, b);
    ValueParts(t, b + 1, gap, value, rest, v, w);
  }

  lemma NameParts(t: seq<byte>, i: nat, lead: seq<byte>, name: seq<byte>, behind: seq<byte>, p: nat, b: nat)
    requires At(t, i, lead + ([QUOTE] + (name + ([QUOTE] + behind)))) && p == i + |lead| && b == p + 1 + |name|
    ensures At(t, i, lead) && At(t, p, [QUOTE]) && At(t, p + 1, name) && At(t, b, [QUOTE]) && At(t, b + 1, behind)
    ensures i + |lead + ([QUOTE] + (name + ([QUOTE] + behind)))| == b + 1 + |behind|
  {
    AtSplits(t, i, lead, [QUOTE] + (name + ([QUOTE] + behind)));
    AtSplits(t, p, [QUOTE], name + ([QUOTE] + behind));
    AtSplits(t, p + 1, name, [QUOTE] + behind);
    AtSplits(t, b, [QUOTE], behind);
  }

  lemma ValueParts(t: seq<byte>, i: nat, gap: seq<byte>, value: seq<byte>, rest: seq<byte>, v: nat, w: nat)
    requires At(t, i, gap + ([COLON] + (value + rest))) && v == i + |gap| + 1 && w == v + |value|
    ensures At(t, i, gap) && At(t, v - 1, [COLON]) && At(t, v, value) && At(t, w, rest)
    ensures i + |gap + ([COLON] + (value + rest))| == w + |rest|
  {
    AtSplits(t, i, gap, [COLON] + (value + rest));
    AtSplits(t, v - 1, [COLON], value + rest);
    AtSplits(t, v, value, rest);
  }

  lemma NoneInLead(t: seq<byte>, i: nat, lead: seq<byte>, p: nat, key: seq<byte>)
    requires Lead(lead) && At(t, i, lead) && p == i + |lead| && Key(key)
    ensures !Stands(t, i, p, key)
  {
    forall q: nat | i <= q < p ensures !At(t, q, Quoted(key)) {
      AtByte(t, i, lead, q - i);
      NotAt(t, q, key);
    }
  }

  /** No quoted key starts between the end of a name and the value. */
  lemma NoneInGap(t: seq<byte>, b: nat, gap: seq<byte>, v: nat, key: seq<byte>)
    requires AllWhite(gap) && Key(key) && v == b + 2 + |gap|
    requires At(t, b, [QUOTE]) && At(t, b + 1, gap) && At(t, v - 1, [COLON])
    ensures !Stands(t, b, v, key)
  {
    AtByte(t, v - 1, [COLON], 0);
    forall q: nat | b <= q < v ensures !At(t, q, Quoted(key)) {
      if b < q < v - 1 {
        AtByte(t, b + 1, gap, q - b - 1);
      } else if b == q < v - 2 {
        AtByte(t, b + 1, gap, 0);
      }
      NotAt(t, q, key);
    }
  }

  /** The quoted key stands from the quote before a name to the value exactly when the name shows it. */
  lemma NameShows(t: seq<byte>, name: seq<Unit>, gap: seq<byte>, p: nat, b: nat, v: nat, key: seq<byte>)
    requires ValidUnits(name) && AllWhite(gap) && Key(key) && b == p + 1 + |UnitsText(name)| && v == b + 2 + |gap|
    requires At(t, p, [QUOTE]) && At(t, p + 1, UnitsText(name)) && At(t, b, [QUOTE])
    requires At(t, b + 1, gap) && At(t, v - 1, [COLON])
    ensures Stands(t, p, v, key) <==> Shows(name, key)
  {
    StringShows(t, p, name, p + 1, b, key);
    NoneInGap(t, b, gap, v, key);
    StandsJoins(t, p, b, v, key);
  }

  /** Up to the end of a member's value the quoted key stands just if name or value shows it. */
  lemma MemberShows(t: seq<byte>, i: nat, ms: Members, p: nat, b: nat, v: nat, w: nat, key: seq<byte>)
    requires ms.Member? && ValidMembers(ms) && MemberAt(t, i, ms, p, b, v, w) && Key(key)
    requires w < |t| ==> !IsLower(t[w])
    ensures Stands(t, i, w, key) <==> (Shows(ms.name, key) || ShownIn(ms.value, key))
  {
    NoneInLead(t, i, ms.lead, p, key);
    NameShows(t, ms.name, ms.gap, p, b, v, key);
    PiecesShow(t, v, ms.value, w, key);
    StandsJoins(t, i, p, w, key);
    StandsJoins(t, p, v, w, key);
  }

  /** After a member comes white space, a comma or the end. */
  lemma AfterMember(t: seq<byte>, ms: Members, w: nat)
    requires ms.Member? && ValidMembers(ms) && At(t, w, MembersText(ms.rest)) && w + |MembersText(ms.rest)| == |t|
    ensures w < |t| ==> t[w] <= 32 || t[w] == COMMA
  {
    if ms.rest.Member? {
      AtByte(t, w, MembersText(ms.rest), 0);
      assert MembersText(ms.rest)[0] == ms.rest.lead[0];
    }
  }

  lemma NameQuoted(t: seq<byte>, p: nat, key: seq<byte>)
    requires At(t, p, [QUOTE]) && At(t, p + 1, key) && At(t, p + 1 + |key|, [QUOTE])
    ensures At(t, p, Quoted(key))
  {
    AtByte(t, p, [QUOTE], 0);
    AtByte(t, p + 1 + |key|, [QUOTE], 0);
    QuotedAt(t, p, key);
  }

  lemma NamedFound(t: seq<byte>, i: nat, lead: seq<byte>, p: nat, key: seq<byte>)
    requires Lead(lead) && At(t, i, lead) && p == i + |lead| && Key(key)
    requires At(t, p, [QUOTE]) && At(t, p + 1, key) && At(t, p + 1 + |key|, [QUOTE])
    ensures FieldAt(t, i, key) == Some(p + |key| + 3)
  {
    NoneInLead(t, i, lead, p, key);
    NameQuoted(t, p, key);
    FieldIsFirst(t, i, key, p);
  }

  /**
   * For every object and key: what the finder takes for the value is that of the first member so named, or nothing
   * when there is none, exactly when no string before it shows the quoted key and its colon follows at once.
   */
  lemma {:induction false} FieldReadIff(t: seq<byte>, i: nat, ms: Members, key: seq<byte>)
    requires ValidMembers(ms) && At(t, i, MembersText(ms)) && i + |MembersText(ms)| == |t| && Key(key)
    ensures FieldAt(t, i, key) == FieldOf(ms, i, key) <==> Unmasked(ms, key) && Adjacent(ms, key)
    decreases ms
  {
    if ms.Member? {
      var p, b, v, w := MemberStands(t, i, ms);
      AfterMember(t, ms, w);
      if UnitsText(ms.name) == key {
        NamedMember(t, i, ms, p, b, key);
      } else {
        MemberShows(t, i, ms, p, b, v, w, key);
        FieldReadIff(t, w, ms.rest, key);
        NextMember(t, i, ms, w, key);
      }
    }
  }

  lemma NamedMember(t: seq<byte>, i: nat, ms: Members, p: nat, b: nat, key: seq<byte>)
    requires ms.Member? && Lead(ms.lead) && Key(key) && UnitsText(ms.name) == key
    requires p == i + |ms.lead| && b == p + 1 + |key|
    requires At(t, i, ms.lead) && At(t, p, [QUOTE]) && At(t, p + 1, key) && At(t, b, [QUOTE])
    ensures FieldAt(t, i, key) == FieldOf(ms, i, key) <==> ms.gap == []
  {
    NamedFound(t, i, ms.lead, p, key);
  }

  lemma NextMember(t: seq<byte>, i: nat, ms: Members, w: nat, key: seq<byte>)
    requires ms.Member? && UnitsText(ms.name) != key && i <= w <= |t| && w == ValueEnd(ms, i)
    requires Stands(t, i, w, key) <==> (Shows(ms.name, key) || ShownIn(ms.value, key))
    requires FieldAt(t, w, key) == FieldOf(ms.rest, w, key) <==> Unmasked(ms.rest, key) && Adjacent(ms.rest, key)
    ensures FieldAt(t, i, key) == FieldOf(ms, i, key) <==> Unmasked(ms, key) && Adjacent(ms, key)
  {
    assert FieldOf(ms, i, key) == FieldOf(ms.rest, w, key);
    if Stands(t, i, w, key) {
      FieldEarly(t, i, w, key);
    } else {
      FieldSkips(t, i, w, key);
    }
  }

  /** The value of that member stands where it was found. */
  lemma {:induction false} ValueStands(t: seq<byte>, i: nat, ms: Members, key: seq<byte>)
    requires At(t, i, MembersText(ms))
    ensures FieldOf(ms, i, key).Some? <==> ValueOf(ms, key).Some?
    ensures FieldOf(ms, i, key).Some? ==> At(t, FieldOf(ms, i, key).value, PiecesText(ValueOf(ms, key).value))
    decreases ms
  {
    if ms.Member? {
      var p, b, v, w := MemberStands(t, i, ms);
      if UnitsText(ms.name) != key {
        ValueStands(t, w, ms.rest, key);
      }
    }
  }

  // ---- the entry of a whole record ----

  /** A member that is not there, or is and says something after white space. */
  datatype Spelled<T> = Absent | Present(white: seq<byte>, what: T)

  datatype Position = Position(lat: Decimal, lon: Decimal)

  datatype Grade = Grade(quoted: bool, c: byte)

  /** What the members of a record say that an entry keeps. */
  datatype Quake = Quake(
    at: Spelled<seq<Char>>, mag: Spelled<Magnitude>, name: Spelled<seq<Char>>, cod: Spelled<Position>,
        maxi: Spelled<Grade>)

  function ValueText(ms: Members, key: seq<byte>): (s: seq<byte>)
    requires ValueOf(ms, key).Some?
  {
    PiecesText(ValueOf(ms, key).value)
  }

  predicate SaysText(ms: Members, key: seq<byte>, x: Spelled<seq<Char>>) {
    if x.Absent? then ValueOf(ms, key).None?
    else
      && ValueOf(ms, key).Some? && AllWhite(x.white) && ValidChars(x.what)
      && x.white + ([QUOTE] + (Text(x.what) + [QUOTE])) <= ValueText(ms, key)
  }

  predicate SaysMag(ms: Members, x: Spelled<Magnitude>) {
    if x.Absent? then ValueOf(ms, KEY_MAG).None?
    else
      && ValueOf(ms, KEY_MAG).Some? && AllWhite(x.white) && ValidMagnitude(x.what)
      && MagText(x.white, x.what) <= ValueText(ms, KEY_MAG)
      && AllWhite(ValueText(ms, KEY_MAG)[|MagText(x.white, x.what)|..])
  }

  function MagText(white: seq<byte>, m: Magnitude): (s: seq<byte>) {
    white + (MagLead(m) + MagDigits(m)) + (if m.quoted then [QUOTE] else [])
  }

  predicate SaysCod(ms: Members, x: Spelled<Position>) {
    if x.Absent? then ValueOf(ms, KEY_COD).None?
    else
      && ValueOf(ms, KEY_COD).Some? && AllWhite(x.white) && ValidDecimal(x.what.lat) && ValidDecimal(x.what.lon)
      && x.white + [34] + Spelling(x.what.lat) + Spelling(x.what.lon) <= ValueText(ms, KEY_COD)
  }

  predicate SaysMaxi(ms: Members, x: Spelled<Grade>) {
    if x.Absent? then ValueOf(ms, KEY_MAXI).None?
    else
      && ValueOf(ms, KEY_MAXI).Some? && AllWhite(x.white) && x.what.c > 32 && x.what.c != QUOTE
      && x.white + ((if x.what.quoted then [QUOTE] else []) + [x.what.c]) <= ValueText(ms, KEY_MAXI)
  }

  /** The members say what q tells of them; the first of a name counts, all others are free. */
  predicate Says(ms: Members, q: Quake) {
    SaysText(ms, KEY_AT, q.at) && SaysMag(ms, q.mag) && SaysText(ms, KEY_ANM, q.name) && SaysCod(ms, q.cod)
        && SaysMaxi(ms, q.maxi)
  }

  function TextMeant(x: Spelled<seq<Char>>, max: nat): (s: seq<byte>)
    requires x.Present? ==> ValidChars(x.what)
    ensures |s| <= max
  {
    if x.Absent? then [] else Cut(Utf8.Encoded(AllTaken(x.what)), max)
  }

  /** A member whose colon does not follow its name at once is as good as absent. */
  function Heard<T>(ms: Members, key: seq<byte>, x: Spelled<T>): (y: Spelled<T>) {
    if Adjacent(ms, key) then x else Absent
  }

  /**
   * The entry of q: texts cut to size, digits, tenths of degrees modulo 2^32; zero or nothing for what is absent or
   * has a gap before its colon, but then the colon for the intensity.
   */
  function Meant(ms: Members, q: Quake): (e: Entry)
    requires Says(ms, q)
    ensures ValidEntry(e)
  {
    var mag, cod, maxi := Heard(ms, KEY_MAG, q.mag), Heard(ms, KEY_COD, q.cod), Heard(ms, KEY_MAXI, q.maxi);
    Entry(
      TextMeant(Heard(ms, KEY_AT, q.at), AT_MAX),
      MagMeant(mag).0,
      MagMeant(mag).1,
      TextMeant(Heard(ms, KEY_ANM, q.name), NAME_MAX),
      if cod.Absent? then 0 else Wrap32(TenthsOf(cod.what.lat)),
      if cod.Absent? then 0 else Wrap32(TenthsOf(cod.what.lon)),
      if !Adjacent(ms, KEY_MAXI) then COLON else if maxi.Absent? then 0 else maxi.what.c)
  }

  function MagMeant(x: Spelled<Magnitude>): (r: (byte, byte))
    requires x.Present? ==> ValidMagnitude(x.what)
    ensures r.0 <= 9 && r.1 <= 9
  {
    if x.Absent? then (0, 0) else MagTaken(x.what)
  }

  /** No key of the feed is masked. */
  predicate Clear(ms: Members) {
    Unmasked(ms, KEY_AT) && Unmasked(ms, KEY_MAG) && Unmasked(ms, KEY_ANM) && Unmasked(ms, KEY_COD)
        && Unmasked(ms, KEY_MAXI)
  }

  /** The value of the member so named is where the finder looks, or there is none and it finds none. */
  lemma ValueFound(ms: Members, t: seq<byte>, key: seq<byte>) returns (v: nat)
    requires ValidMembers(ms) && t == MembersText(ms) && Key(key) && Unmasked(ms, key) && Adjacent(ms, key)
    ensures ValueOf(ms, key).None? ==> FieldAt(t, 0, key) == None
    ensures ValueOf(ms, key).Some? ==> FieldAt(t, 0, key) == Some(v) && At(t, v, ValueText(ms, key))
  {
    WholeText(t);
    FieldReadIff(t, 0, ms, key);
    ValueStands(t, 0, ms, key);
    v := if FieldOf(ms, 0, key).Some? then FieldOf(ms, 0, key).value else 0;
  }

  predicate ColonNext(t: seq<byte>, f: nat) {
    SkipWs(t, f) < |t| && t[SkipWs(t, f)] == COLON
  }

  /** With a gap before its colon the value found starts, white space aside, with the colon. */
  lemma {:induction false} ColonFound(t: seq<byte>, i: nat, ms: Members, key: seq<byte>) returns (f: nat)
    requires ValidMembers(ms) && At(t, i, MembersText(ms)) && i + |MembersText(ms)| == |t| && Key(key)
    requires Unmasked(ms, key) && !Adjacent(ms, key)
    ensures FieldAt(t, i, key) == Some(f) && ColonNext(t, f)
    decreases ms
  {
    if UnitsText(ms.name) == key {
      f := GappedMember(t, i, ms, key);
    } else {
      var w := MemberSkipped(t, i, ms, key);
      f := ColonFound(t, w, ms.rest, key);
    }
  }

  lemma GappedMember(t: seq<byte>, i: nat, ms: Members, key: seq<byte>) returns (f: nat)
    requires ms.Member? && ValidMembers(ms) && At(t, i, MembersText(ms)) && Key(key)
    requires UnitsText(ms.name) == key && ms.gap != []
    ensures FieldAt(t, i, key) == Some(f) && ColonNext(t, f)
  {
    f := GappedParts(t, i, ms.lead, ms.gap, PiecesText(ms.value), MembersText(ms.rest), key);
  }

  lemma GappedParts(t: seq<byte>, i: nat, lead: seq<byte>, gap: seq<byte>, value: seq<byte>, rest: seq<byte>,
      key: seq<byte>) returns (f: nat)
    requires Lead(lead) && AllWhite(gap) && gap != [] && Key(key) && At(t, i, MemberText(lead, key, gap, value, rest))
    ensures FieldAt(t, i, key) == Some(f) && ColonNext(t, f)
  {
    var p, b, v, w := MemberParts(t, i, lead, key, gap, value, rest);
    f := b + 2;
    NamedColon(t, i, lead, gap, p, b, v - 1, key);
  }

  lemma MemberSkipped(t: seq<byte>, i: nat, ms: Members, key: seq<byte>) returns (w: nat)
    requires ms.Member? && ValidMembers(ms) && At(t, i, MembersText(ms)) && i + |MembersText(ms)| == |t| && Key(key)
    requires UnitsText(ms.name) != key && Unmasked(ms, key)
    ensures At(t, w, MembersText(ms.rest)) && w + |MembersText(ms.rest)| == |t|
    ensures FieldAt(t, i, key) == FieldAt(t, w, key)
  {
    var p, b, v, w' := MemberStands(t, i, ms);
    w := w';
    AfterMember(t, ms, w);
    MemberShows(t, i, ms, p, b, v, w, key);
    FieldSkips(t, i, w, key);
  }

  lemma NamedColon(t: seq<byte>, i: nat, lead: seq<byte>, gap: seq<byte>, p: nat, b: nat, c: nat, key: seq<byte>)
    requires Lead(lead) && AllWhite(gap) && gap != [] && Key(key)
    requires p == i + |lead| && b == p + 1 + |key| && c == b + 1 + |gap|
    requires At(t, i, lead) && At(t, p, [QUOTE]) && At(t, p + 1, key) && At(t, b, [QUOTE]) && At(t, b + 1, gap)
    requires At(t, c, [COLON])
    ensures FieldAt(t, i, key) == Some(b + 2) && ColonNext(t, b + 2)
  {
    NamedFound(t, i, lead, p, key);
    GapSkipped(t, b + 1, gap, c);
  }

  lemma GapSkipped(t: seq<byte>, i: nat, gap: seq<byte>, c: nat)
    requires AllWhite(gap) && gap != [] && At(t, i, gap) && c == i + |gap| && At(t, c, [COLON])
    ensures ColonNext(t, i + 1)
  {
    AtByte(t, c, [COLON], 0);
    assert gap == [gap[0]] + gap[1..];
    AtSplits(t, i, [gap[0]], gap[1..]);
    SkipsWhite(t, i + 1, gap[1..]);
  }

  /** What the fields of such a member come to. */
  lemma GapRead(t: seq<byte>, key: seq<byte>, f: nat, max: nat)
    requires FieldAt(t, 0, key) == Some(f) && ColonNext(t, f)
    ensures StringField(t, 0, key, max) == []
    ensures key == KEY_MAG ==> Units(t, 0) == Tenth(t, 0) == 0
    ensures key == KEY_MAXI ==> Intensity(t, 0) == COLON
    ensures key == KEY_COD ==> Lat(t, 0) == Lon(t, 0) == 0
  {
    if key == KEY_COD {
      NoNumber(t, SkipWs(t, f));
    }
  }

  lemma NoNumber(t: seq<byte>, c: nat)
    requires c < |t| && t[c] == COLON
    ensures Tenths(t, c) == Reading(Some(0), c)
  {
    assert t[c..c] == [] && Value([]) == 0;
  }

  lemma AtPrefix(t: seq<byte>, i: nat, s: seq<byte>, x: seq<byte>)
    requires At(t, i, s) && x <= s
    ensures At(t, i, x)
  {
    assert s == x + s[|x|..];
    AtSplits(t, i, x, s[|x|..]);
  }

  lemma TextOfRecord(ms: Members, t: seq<byte>, key: seq<byte>, x: Spelled<seq<Char>>, max: nat)
    requires ValidMembers(ms) && t == MembersText(ms) && Key(key) && Unmasked(ms, key) && SaysText(ms, key, x)
    ensures StringField(t, 0, key, max) == TextMeant(Heard(ms, key, x), max)
  {
    if !Adjacent(ms, key) {
      WholeText(t);
      var f := ColonFound(t, 0, ms, key);
      GapRead(t, key, f, max);
      return;
    }
    var v := ValueFound(ms, t, key);
    if x.Present? {
      AtPrefix(t, v, ValueText(ms, key), x.white + ([QUOTE] + (Text(x.what) + [QUOTE])));
      StringParsed(t, key, v, x.white, x.what, max);
    }
  }

  lemma CodOfRecord(ms: Members, t: seq<byte>, x: Spelled<Position>)
    requires ValidMembers(ms) && t == MembersText(ms) && Unmasked(ms, KEY_COD) && SaysCod(ms, x)
    ensures var y := Heard(ms, KEY_COD, x);
      && Lat(t, 0) == (if y.Absent? then 0 else Wrap32(TenthsOf(y.what.lat)))
      && Lon(t, 0) == (if y.Absent? then 0 else Wrap32(TenthsOf(y.what.lon)))
  {
    if !Adjacent(ms, KEY_COD) {
      WholeText(t);
      var f := ColonFound(t, 0, ms, KEY_COD);
      GapRead(t, KEY_COD, f, 0);
      return;
    }
    var v := ValueFound(ms, t, KEY_COD);
    if x.Present? {
      AtPrefix(t, v, ValueText(ms, KEY_COD), x.white + [34] + Spelling(x.what.lat) + Spelling(x.what.lon));
      CodParsed(t, v, x.white, x.what.lat, x.what.lon);
    }
  }

  lemma MaxiOfRecord(ms: Members, t: seq<byte>, x: Spelled<Grade>)
    requires ValidMembers(ms) && t == MembersText(ms) && Unmasked(ms, KEY_MAXI) && SaysMaxi(ms, x)
    ensures Intensity(t, 0) == if !Adjacent(ms, KEY_MAXI) then COLON else if x.Absent? then 0 else x.what.c
  {
    if !Adjacent(ms, KEY_MAXI) {
      WholeText(t);
      var f := ColonFound(t, 0, ms, KEY_MAXI);
      GapRead(t, KEY_MAXI, f, 0);
      return;
    }
    var v := ValueFound(ms, t, KEY_MAXI);
    if x.Present? {
      AtPrefix(t, v, ValueText(ms, KEY_MAXI), x.white + ((if x.what.quoted then [QUOTE] else []) + [x.what.c]));
      MaxiParsed(t, v, x.white, x.what.quoted, x.what.c);
    }
  }

  /** After the value of a member so named, at e, comes white space, a comma or the end. */
  lemma {:induction false} AfterValue(t: seq<byte>, i: nat, ms: Members, key: seq<byte>, v: nat) returns (e: nat)
    requires ValidMembers(ms) && At(t, i, MembersText(ms)) && i + |MembersText(ms)| == |t|
    requires FieldOf(ms, i, key) == Some(v)
    ensures ValueOf(ms, key).Some? && e == v + |PiecesText(ValueOf(ms, key).value)|
    ensures e < |t| ==> t[e] <= 32 || t[e] == COMMA
    decreases ms
  {
    var p, b, v', w := MemberStands(t, i, ms);
    if UnitsText(ms.name) == key {
      AfterMember(t, ms, w);
      e := w;
    } else {
      e := AfterValue(t, w, ms.rest, key, v);
    }
  }

  lemma MagOfRecord(ms: Members, t: seq<byte>, x: Spelled<Magnitude>)
    requires ValidMembers(ms) && t == MembersText(ms) && Unmasked(ms, KEY_MAG) && SaysMag(ms, x)
    ensures (Units(t, 0), Tenth(t, 0)) == MagMeant(Heard(ms, KEY_MAG, x))
  {
    KeysAreKeys();
    if !Adjacent(ms, KEY_MAG) {
      WholeText(t);
      var f := ColonFound(t, 0, ms, KEY_MAG);
      GapRead(t, KEY_MAG, f, 0);
    } else {
      MagHeard(ms, t, x);
    }
  }

  lemma MagHeard(ms: Members, t: seq<byte>, x: Spelled<Magnitude>)
    requires ValidMembers(ms) && t == MembersText(ms) && SaysMag(ms, x) && Key(KEY_MAG)
    requires Unmasked(ms, KEY_MAG) && Adjacent(ms, KEY_MAG)
    ensures (Units(t, 0), Tenth(t, 0)) == MagMeant(x)
  {
    if x.Absent? {
      var v := ValueFound(ms, t, KEY_MAG);
    } else {
      var v := ValuePlace(ms, t, KEY_MAG);
      MagStands(t, v, x.white, x.what, ValueText(ms, KEY_MAG));
    }
  }

  /** Where the value of a member stands and is found, and what comes after it. */
  lemma ValuePlace(ms: Members, t: seq<byte>, key: seq<byte>) returns (v: nat)
    requires ValidMembers(ms) && t == MembersText(ms) && Key(key) && Unmasked(ms, key) && Adjacent(ms, key)
    requires ValueOf(ms, key).Some?
    ensures FieldAt(t, 0, key) == Some(v) && At(t, v, ValueText(ms, key))
    ensures var e := v + |ValueText(ms, key)|; e < |t| ==> t[e] <= 32 || t[e] == COMMA
  {
    v := ValueFound(ms, t, key);
    FieldOfFound(ms, t, key, v);
    ValueFollowed(ms, t, key, v);
  }

  lemma MagStands(t: seq<byte>, v: nat, white: seq<byte>, m: Magnitude, text: seq<byte>)
    requires FieldAt(t, 0, KEY_MAG) == Some(v) && At(t, v, text) && AllWhite(white) && ValidMagnitude(m)
    requires MagText(white, m) <= text && AllWhite(text[|MagText(white, m)|..])
    requires v + |text| < |t| ==> t[v + |text|] <= 32 || t[v + |text|] == COMMA
    ensures (Units(t, 0), Tenth(t, 0)) == MagTaken(m)
  {
    var said := MagText(white, m);
    AtPrefix(t, v, text, said);
    EndFollowed(t, v, text, said);
    var a, d, e := NumberSplits(t, v, white, MagLead(m), MagDigits(m), m.quoted, said);
    MagParsed(t, v, white, m, a, d, e);
  }

  lemma EndFollowed(t: seq<byte>, v: nat, text: seq<byte>, said: seq<byte>)
    requires At(t, v, text) && said <= text && AllWhite(text[|said|..])
    requires v + |text| < |t| ==> t[v + |text|] <= 32 || t[v + |text|] == COMMA
    ensures v + |said| < |t| ==> t[v + |said|] <= 32 || t[v + |said|] == COMMA
  {
    if |said| < |text| {
      AtByte(t, v, text, |said|);
      assert text[|said|..][0] == text[|said|];
    }
  }

  lemma NumberSplits(t: seq<byte>, v: nat, white: seq<byte>, x: seq<byte>, y: seq<byte>, quoted: bool, text: seq<byte>)
    returns (a: nat, d: nat, e: nat)
    requires At(t, v, text) && text == white + (x + y) + (if quoted then [QUOTE] else [])
    requires v + |text| < |t| ==> t[v + |text|] <= 32 || t[v + |text|] == COMMA
    ensures a == v + |white| && d == a + |x| && e == d + |y|
    ensures At(t, v, white) && At(t, a, x) && At(t, d, y) && NumberEnds(t, e)
  {
    a, d, e := v + |white|, v + |white| + |x|, v + |white| + |x| + |y|;
    AtPrefix(t, v, text, white + (x + y));
    NumberFollowed(t, v, text, white + (x + y), quoted);
    AtSplits(t, v, white, x + y);
    AtSplits(t, a, x, y);
  }

  /** A quote, white space, a comma or nothing follows the number. */
  lemma NumberFollowed(t: seq<byte>, v: nat, text: seq<byte>, y: seq<byte>, quoted: bool)
    requires At(t, v, text) && text == y + (if quoted then [QUOTE] else [])
    requires v + |text| < |t| ==> t[v + |text|] <= 32 || t[v + |text|] == COMMA
    ensures NumberEnds(t, v + |y|)
  {
    if quoted {
      AtByte(t, v, text, |y|);
    }
  }

  lemma ValueFollowed(ms: Members, t: seq<byte>, key: seq<byte>, v: nat)
    requires ValidMembers(ms) && t == MembersText(ms) && ValueOf(ms, key).Some? && FieldOf(ms, 0, key) == Some(v)
    ensures var e := v + |ValueText(ms, key)|; e < |t| ==> t[e] <= 32 || t[e] == COMMA
  {
    WholeText(t);
    var e := AfterValue(t, 0, ms, key, v);
  }

  lemma FieldOfFound(ms: Members, t: seq<byte>, key: seq<byte>, v: nat)
    requires ValidMembers(ms) && t == MembersText(ms) && Key(key) && Unmasked(ms, key) && Adjacent(ms, key)
    requires FieldAt(t, 0, key) == Some(v)
    ensures FieldOf(ms, 0, key) == Some(v)
  {
    WholeText(t);
    FieldReadIff(t, 0, ms, key);
  }

  lemma WholeText(t: seq<byte>)
    ensures At(t, 0, t)
  {
    assert t == t[0..|t|];
  }

  lemma KeysAreKeys()
    ensures Key(KEY_AT) && Key(KEY_MAG) && Key(KEY_ANM) && Key(KEY_COD) && Key(KEY_MAXI)
  {
  }

  /**
   * The entry of a record none of whose keys is masked is what its members say, in whatever order and company, but for
   * those with a gap before their colon.
   */
  lemma RecordParsed(ms: Members, t: seq<byte>, q: Quake)
    requires ValidMembers(ms) && t == MembersText(ms) && Clear(ms) && Says(ms, q)
    ensures EntryOf(t, 0) == Meant(ms, q)
  {
    RecordTexts(ms, t, q);
    RecordNumbers(ms, t, q);
  }

  lemma RecordTexts(ms: Members, t: seq<byte>, q: Quake)
    requires ValidMembers(ms) && t == MembersText(ms) && Clear(ms) && Says(ms, q)
    ensures EntryOf(t, 0).at == Meant(ms, q).at && EntryOf(t, 0).name == Meant(ms, q).name
  {
    KeysAreKeys();
    TextOfRecord(ms, t, KEY_AT, q.at, AT_MAX);
    TextOfRecord(ms, t, KEY_ANM, q.name, NAME_MAX);
  }

  lemma RecordNumbers(ms: Members, t: seq<byte>, q: Quake)
    requires ValidMembers(ms) && t == MembersText(ms) && Clear(ms) && Says(ms, q)
    ensures var e, r := EntryOf(t, 0), Meant(ms, q);
      && e.magUnits == r.magUnits && e.magTenth == r.magTenth && e.lat == r.lat && e.lon == r.lon && e.maxi == r.maxi
  {
    MagOfRecord(ms, t, q.mag);
    CodOfRecord(ms, t, q.cod);
    MaxiOfRecord(ms, t, q.maxi);
  }

  /** In a closed feed the slot of such a record holds what its members say. */
  lemma SlotHoldsRecord(pre: seq<byte>, xs: Items, sep: seq<byte>, post: seq<byte>, t: seq<byte>, m: seq<byte>, k: nat,
      ms: Members, q: Quake)
    requires NoBracket(pre) && ValidItems(xs) && Separator(sep)
    requires t == Feed(pre, xs, sep + ([FeedArray.CLOSE_BRACKET] + post))
    requires k < Min(Length(xs), FeedArray.MAX_ENTRIES) && FeedArray.SlotAddress(FeedArray.MAX_ENTRIES) <= |m|
    requires NthBody(xs, k) == Inside(ms) && ValidMembers(ms) && Clear(ms) && Says(ms, q)
    ensures var a := 262144 + 84 * k;
      FeedArray.Filled(m, t, FeedArray.FeedObjects(t), 0)[a..a + 84] == Layout(Meant(ms, q))
  {
    SlotHoldsObject(pre, xs, sep, post, t, m, k);
    FeedArray.SlotLies(FeedArray.Filled(m, t, FeedArray.FeedObjects(t), 0), k);
    InsideText(ms);
    RecordParsed(ms, MembersText(ms), q);
  }

  // ---- a masked member ----

  function Digit(c: byte): (p: Pieces) {
    Str([Ordinary(c)], End)
  }

  function Letters(s: seq<byte>): (us: seq<Unit>)
    ensures |us| == |s| && forall i :: 0 <= i < |s| ==> us[i] == Ordinary(s[i])
  {
    seq(|s|, i requires 0 <= i < |s| => Ordinary(s[i]))
  }

  lemma {:induction false} LettersText(s: seq<byte>)
    ensures UnitsText(Letters(s)) == s
    decreases |s|
  {
    if s != [] {
      assert Letters(s)[1..] == Letters(s[1..]);
      LettersText(s[1..]);
    }
  }

  const INT: seq<byte> := [105, 110, 116]

  /** "maxi":"7" */
  function Seven(): (ms: Members) {
    Member([], Letters(KEY_MAXI), [], Digit(55), NoMembers)
  }

  /** "int":{"maxi":"7"},"maxi":"3" */
  function NestedMaxi(): (ms: Members) {
    Member([], Letters(INT), [], Inner(Inside(Seven()), End),
           Member([COMMA], Letters(KEY_MAXI), [], Digit(51), NoMembers))
  }

  /** "int":{"maxi":"7" */
  const NESTED_FRONT: seq<byte> := [34, 105, 110, 116, 34, 58, 123, 34, 109, 97, 120, 105, 34, 58, 34, 55, 34]

  /** The intensity nested in the first member is taken, not the record's own. */
  lemma NestedMasks()
    ensures var ms := NestedMaxi();
      && ValidMembers(ms) && !Unmasked(ms, KEY_MAXI) && ValueOf(ms, KEY_MAXI) == Some(Digit(51))
      && Intensity(MembersText(ms), 0) == 55
  {
    NestedValid();
    NestedText();
    FrontTaken(MembersText(NestedMaxi()));
  }

  lemma NestedValid()
    ensures var ms := NestedMaxi();
      ValidMembers(ms) && !Unmasked(ms, KEY_MAXI) && ValueOf(ms, KEY_MAXI) == Some(Digit(51))
  {
    LettersText(KEY_MAXI);
    LettersText(INT);
    SevenInside();
    assert UnitsText(Letters(INT)) != KEY_MAXI;
  }

  lemma SevenInside()
    ensures ValidMembers(Seven()) && ValidPieces(Inside(Seven())) && Separated(Inside(Seven()))
    ensures ShownIn(Inside(Seven()), KEY_MAXI)
    ensures PiecesText(Inside(Seven())) == NESTED_FRONT[7..]
  {
    LettersText(KEY_MAXI);
    InsideText(Seven());
    assert [Ordinary(55)][1..] == [];
    assert UnitsText([Ordinary(55)]) == [55] + UnitsText([]) == [55];
    assert PiecesText(Digit(55)) == [34, 55, 34];
    assert Inside(Seven()) == Str(Letters(KEY_MAXI), Plain(COLON, Digit(55)));
  }

  lemma NestedText()
    ensures NESTED_FRONT <= MembersText(NestedMaxi())
  {
    LettersText(INT);
    SevenInside();
    var ms := NestedMaxi();
    var x := NESTED_FRONT[7..];
    InnerFront(x, MembersText(ms.rest));
    assert PiecesText(ms.value) == [123] + (x + ([125] + PiecesText(End)));
    assert NESTED_FRONT == [34] + INT + [34, 58, 123] + x;
  }

  lemma InnerFront(x: seq<byte>, rest: seq<byte>)
    ensures [34] + INT + [34, 58, 123] + x <= MemberText([], INT, [], [123] + (x + ([125] + [])), rest)
  {
    assert MemberText([], INT, [], [123] + (x + ([125] + [])), rest) == [34] + INT + [34, 58, 123] + x + ([125] + rest);
  }

  /** Whatever follows. */
  lemma FrontTaken(t: seq<byte>)
    requires NESTED_FRONT <= t
    ensures Intensity(t, 0) == 55
  {
    assert forall k :: 0 <= k < |NESTED_FRONT| ==> t[k] == NESTED_FRONT[k];
    KeysAreKeys();
    assert !Stands(t, 0, 7, KEY_MAXI) by {
      forall q: nat | q < 7 ensures !At(t, q, Quoted(KEY_MAXI)) {
        if q == 0 {
          NotMaxi(t, 0);
        } else {
          NotAt(t, q, KEY_MAXI);
        }
      }
    }
    assert t[8..12] == KEY_MAXI;
    QuotedAt(t, 7, KEY_MAXI);
    FieldIsFirst(t, 0, KEY_MAXI, 7);
    assert t[14..16] == [] + ([QUOTE] + [55]);
    MaxiParsed(t, 14, [], true, 55);
  }

  lemma NotMaxi(t: seq<byte>, q: nat)
    requires q + 1 < |t| && t[q + 1] != 109
    ensures !At(t, q, Quoted(KEY_MAXI))
  {
    if At(t, q, Quoted(KEY_MAXI)) {
      AtByte(t, q, Quoted(KEY_MAXI), 1);
    }
  }

  /** "maxi" :"3" */
  function SpacedMaxi(): (ms: Members) {
    Member([], Letters(KEY_MAXI), [32], Digit(51), NoMembers)
  }

  /** One byte is taken for the colon: with a space before it the colon is taken for the value. */
  lemma SpaceBeforeColon()
    ensures var ms := SpacedMaxi();
      && ValidMembers(ms) && Unmasked(ms, KEY_MAXI) && !Adjacent(ms, KEY_MAXI)
      && ValueOf(ms, KEY_MAXI) == Some(Digit(51)) && Intensity(MembersText(ms), 0) == COLON
  {
    var ms := SpacedMaxi();
    LettersText(KEY_MAXI);
    KeysAreKeys();
    assert [Ordinary(51)][1..] == [];
    WholeText(MembersText(ms));
    var f := ColonFound(MembersText(ms), 0, ms, KEY_MAXI);
    GapRead(MembersText(ms), KEY_MAXI, f, 0);
  }
}
