/** A parsed entry says what its object says, and nothing else in the feed matters to it. */
module FeedRecord {
  import opened Bytes
  import opened Decimal
  import opened FeedText
  import opened FeedStrings
  import opened FeedSlots
  import opened FeedArray
  import opened FeedGrammar
  import Utf8

  // ---- an entry depends on nothing before its object ----

  /** u is t from s on. */
  predicate Tail(t: seq<byte>, s: nat, u: seq<byte>) {
    |t| == s + |u| && forall k :: 0 <= k < |u| ==> t[s + k] == u[k]
  }

  lemma SliceShifts(t: seq<byte>, s: nat, u: seq<byte>, a: nat, b: nat)
    requires Tail(t, s, u) && a <= b <= |u|
    ensures t[s + a..s + b] == u[a..b]
  {
    forall k | 0 <= k < b - a ensures t[s + a..s + b][k] == u[a..b][k] {
      assert t[s + (a + k)] == u[a + k];
    }
  }

  lemma AtShifts(t: seq<byte>, s: nat, u: seq<byte>, i: nat, x: seq<byte>)
    requires Tail(t, s, u)
    ensures At(t, s + i, x) <==> At(u, i, x)
  {
    if i + |x| <= |u| {
      SliceShifts(t, s, u, i, i + |x|);
    }
  }

  lemma {:induction false} SkipWsShifts(t: seq<byte>, s: nat, u: seq<byte>, i: nat)
    requires Tail(t, s, u)
    ensures SkipWs(t, s + i) == s + SkipWs(u, i)
    decreases |u| - i
  {
    if i < |u| && u[i] <= 32 {
      assert t[s + i] == u[i];
      SkipWsShifts(t, s, u, i + 1);
    } else if i < |u| {
      assert t[s + i] == u[i];
    }
  }

  function Moved(o: Option<nat>, s: nat): (r: Option<nat>) {
    if o.Some? then Some(s + o.value) else None
  }

  lemma {:induction false} FieldShifts(t: seq<byte>, s: nat, u: seq<byte>, i: nat, key: seq<byte>)
    requires Tail(t, s, u)
    ensures FieldAt(t, s + i, key) == Moved(FieldAt(u, i, key), s)
    decreases |u| - i
  {
    AtShifts(t, s, u, i, Quoted(key));
    if i < |u| && !At(u, i, Quoted(key)) {
      FieldShifts(t, s, u, i + 1, key);
    }
  }

  lemma StringStartShifts(t: seq<byte>, s: nat, u: seq<byte>, i: nat)
    requires Tail(t, s, u)
    ensures StringStart(t, s + i) == Moved(StringStart(u, i), s)
  {
    SkipWsShifts(t, s, u, i);
    var j := SkipWs(u, i);
    assert j < |u| ==> t[s + j] == u[j];
  }

  lemma NibShifts(t: seq<byte>, s: nat, u: seq<byte>, i: nat)
    requires Tail(t, s, u)
    ensures NibAt(t, s + i) == NibAt(u, i)
  {
    assert i < |u| ==> t[s + i] == u[i];
  }

  lemma PieceShifts(t: seq<byte>, s: nat, u: seq<byte>, i: nat)
    requires Tail(t, s, u)
    ensures Stops(t, s + i) <==> Stops(u, i)
    ensures !Stops(u, i) ==> Piece(t, s + i) == Piece(u, i) && Next(t, s + i) == s + Next(u, i)
  {
    assert i < |u| ==> t[s + i] == u[i];
    assert i + 1 < |u| ==> t[s + (i + 1)] == u[i + 1];
    NibShifts(t, s, u, i + 2);
    NibShifts(t, s, u, i + 3);
    NibShifts(t, s, u, i + 4);
    NibShifts(t, s, u, i + 5);
  }

  lemma {:induction false} StringShifts(t: seq<byte>, s: nat, u: seq<byte>, i: nat, g: nat)
    requires Tail(t, s, u) && g == s + i
    ensures StringBytes(t, g) == StringBytes(u, i)
    decreases |u| - i
  {
    PieceShifts(t, s, u, i);
    if !Stops(u, i) {
      StringShifts(t, s, u, Next(u, i), Next(t, g));
    }
  }

  lemma BodyStartShifts(t: seq<byte>, s: nat, u: seq<byte>, key: seq<byte>)
    requires Tail(t, s, u)
    ensures BodyStart(t, s, key) == Moved(BodyStart(u, 0, key), s)
  {
    FieldShifts(t, s, u, 0, key);
    var f := FieldAt(u, 0, key);
    if f.Some? {
      StringStartShifts(t, s, u, f.value);
    }
  }

  lemma StringFieldShifts(t: seq<byte>, s: nat, u: seq<byte>, key: seq<byte>, max: nat)
    requires Tail(t, s, u)
    ensures StringField(t, s, key, max) == StringField(u, 0, key, max)
  {
    BodyStartShifts(t, s, u, key);
    var j := BodyStart(u, 0, key);
    if j.Some? {
      StringShifts(t, s, u, j.value, s + j.value);
    }
  }

  lemma DigitShifts(t: seq<byte>, s: nat, u: seq<byte>, j: nat)
    requires Tail(t, s, u)
    ensures DigitAt(t, s + j) == DigitAt(u, j) && MagTenthAt(t, s + j) == MagTenthAt(u, j)
  {
    assert j < |u| ==> t[s + j] == u[j];
    assert j + 1 < |u| ==> t[s + (j + 1)] == u[j + 1];
  }

  lemma MagShifts(t: seq<byte>, s: nat, u: seq<byte>)
    requires Tail(t, s, u)
    ensures Units(t, s) == Units(u, 0) && Tenth(t, s) == Tenth(u, 0)
  {
    FieldShifts(t, s, u, 0, KEY_MAG);
    var f := FieldAt(u, 0, KEY_MAG);
    if f.Some? {
      MagFieldShifts(t, s, u, f.value, s + f.value);
    }
  }

  lemma MagFieldShifts(t: seq<byte>, s: nat, u: seq<byte>, f: nat, g: nat)
    requires Tail(t, s, u) && g == s + f && FieldAt(u, 0, KEY_MAG) == Some(f) && FieldAt(t, s, KEY_MAG) == Some(g)
    ensures Units(t, s) == Units(u, 0) && Tenth(t, s) == Tenth(u, 0)
  {
    MagStartShifts(t, s, u, f);
    MagDigitsShift(t, s, u, MagStart(u, f), MagStart(t, g));
  }

  lemma MagDigitsShift(t: seq<byte>, s: nat, u: seq<byte>, j: nat, k: nat)
    requires Tail(t, s, u) && k == s + j
    ensures DigitAt(t, k) == DigitAt(u, j) && MagTenthAt(t, k + 1) == MagTenthAt(u, j + 1)
  {
    DigitShifts(t, s, u, j);
    DigitShifts(t, s, u, j + 1);
  }

  lemma MagStartShifts(t: seq<byte>, s: nat, u: seq<byte>, f: nat)
    requires Tail(t, s, u)
    ensures MagStart(t, s + f) == s + MagStart(u, f)
  {
    SkipWsShifts(t, s, u, f);
    var a := SkipWs(u, f);
    assert a < |u| ==> t[s + a] == u[a];
    assert a + 1 < |u| ==> t[s + (a + 1)] == u[a + 1];
  }

  lemma MaxiShifts(t: seq<byte>, s: nat, u: seq<byte>)
    requires Tail(t, s, u)
    ensures Intensity(t, s) == Intensity(u, 0)
  {
    FieldShifts(t, s, u, 0, KEY_MAXI);
    var f := FieldAt(u, 0, KEY_MAXI);
    if f.Some? {
      SkipWsShifts(t, s, u, f.value);
      var a := SkipWs(u, f.value);
      assert a < |u| ==> t[s + a] == u[a];
      assert a + 1 < |u| ==> t[s + (a + 1)] == u[a + 1];
    }
  }

  lemma {:induction false} DigitsShift(t: seq<byte>, s: nat, u: seq<byte>, i: nat)
    requires Tail(t, s, u) && i <= |u|
    ensures DigitsEnd(t, s + i) == s + DigitsEnd(u, i)
    decreases |u| - i
  {
    if i < |u| {
      assert t[s + i] == u[i];
      if IsDigit(u[i]) {
        DigitsShift(t, s, u, i + 1);
      }
    }
  }

  lemma SignShifts(t: seq<byte>, s: nat, u: seq<byte>, i: nat)
    requires Tail(t, s, u) && i < |u|
    ensures SignAt(t, s + i) == (SignAt(u, i).0, s + SignAt(u, i).1)
  {
    assert t[s + i] == u[i];
  }

  lemma FractionShifts(t: seq<byte>, s: nat, u: seq<byte>, i: nat)
    requires Tail(t, s, u) && i <= |u|
    ensures FractionAt(t, s + i) == (FractionAt(u, i).0, s + FractionAt(u, i).1)
  {
    assert i < |u| ==> t[s + i] == u[i];
    assert i + 1 < |u| ==> t[s + (i + 1)] == u[i + 1];
  }

  lemma FoundShifts(t: seq<byte>, s: nat, u: seq<byte>, i: nat)
    requires Tail(t, s, u) && i < |u|
    ensures FoundAt(t, s + i) == FoundAt(u, i).(end := s + FoundAt(u, i).end)
  {
    SignShifts(t, s, u, i);
    var a := SignAt(u, i).1;
    DigitsShift(t, s, u, a);
    var b := DigitsEnd(u, a);
    SliceShifts(t, s, u, a, b);
    FractionShifts(t, s, u, b);
  }

  lemma TenthsShift(t: seq<byte>, s: nat, u: seq<byte>, i: nat)
    requires Tail(t, s, u)
    ensures Tenths(t, s + i) == Reading(Tenths(u, i).word, s + Tenths(u, i).end)
  {
    if i < |u| {
      FoundShifts(t, s, u, i);
    }
  }

  lemma CodStartShifts(t: seq<byte>, s: nat, u: seq<byte>, f: nat)
    requires Tail(t, s, u)
    ensures CodStart(t, s + f) == s + CodStart(u, f)
  {
    SkipWsShifts(t, s, u, f);
    var a := SkipWs(u, f);
    assert a < |u| ==> t[s + a] == u[a];
  }

  lemma LatitudeShifts(t: seq<byte>, s: nat, u: seq<byte>, f: nat, g: nat)
    requires Tail(t, s, u) && g == s + f
    ensures Latitude(t, g).word == Latitude(u, f).word && Latitude(t, g).end == s + Latitude(u, f).end
  {
    SkipWsShifts(t, s, u, f);
    CodStartShifts(t, s, u, f);
    var a := CodStart(u, f);
    TenthsShift(t, s, u, a);
    assert CodStart(t, g) == s + a;
  }

  lemma LongitudeShifts(t: seq<byte>, s: nat, u: seq<byte>, f: nat, g: nat)
    requires Tail(t, s, u) && g == s + f
    ensures Longitude(t, g).word == Longitude(u, f).word
  {
    SkipWsShifts(t, s, u, f);
    LatitudeShifts(t, s, u, f, g);
    TenthsShift(t, s, u, Latitude(u, f).end);
  }

  lemma CodShifts(t: seq<byte>, s: nat, u: seq<byte>)
    requires Tail(t, s, u)
    ensures Lat(t, s) == Lat(u, 0) && Lon(t, s) == Lon(u, 0)
  {
    FieldShifts(t, s, u, 0, KEY_COD);
    var f, g := FieldAt(u, 0, KEY_COD), FieldAt(t, s, KEY_COD);
    if f.Some? {
      LatitudeShifts(t, s, u, f.value, g.value);
      LongitudeShifts(t, s, u, f.value, g.value);
      WordsOf(t, s, g.value);
      WordsOf(u, 0, f.value);
    }
  }

  lemma WordsOf(t: seq<byte>, s: nat, f: nat)
    requires FieldAt(t, s, KEY_COD) == Some(f)
    ensures Lat(t, s) == WordOrZero(Latitude(t, f).word) && Lon(t, s) == WordOrZero(Longitude(t, f).word)
  {
  }

  /** An entry is made from the inside of its own object alone. */
  lemma OwnSpanOnly(t: seq<byte>, start: nat, end: nat)
    requires start <= end <= |t|
    ensures EntryOf(t[..end], start) == EntryOf(t[start..end], 0)
  {
    var a, u := t[..end], t[start..end];
    assert Tail(a, start, u);
    StringFieldShifts(a, start, u, KEY_AT, AT_MAX);
    StringFieldShifts(a, start, u, KEY_ANM, NAME_MAX);
    MagShifts(a, start, u);
    CodShifts(a, start, u);
    MaxiShifts(a, start, u);
  }

  // ---- what the fields of an object come to ----

  /** A string value: white space, a quote, characters, a quote. */
  lemma StringParsed(u: seq<byte>, key: seq<byte>, v: nat, white: seq<byte>, cs: seq<Char>, max: nat)
    requires FieldAt(u, 0, key) == Some(v) && AllWhite(white) && ValidChars(cs)
    requires At(u, v, white + ([QUOTE] + (Text(cs) + [QUOTE])))
    ensures StringField(u, 0, key, max) == Cut(Utf8.Encoded(AllTaken(cs)), max)
  {
    var start, close := StringStands(u, v, white, Text(cs));
    StringReads(u, start, cs, close);
  }

  lemma StringStands(u: seq<byte>, v: nat, white: seq<byte>, body: seq<byte>) returns (start: nat, close: nat)
    requires AllWhite(white) && At(u, v, white + ([QUOTE] + (body + [QUOTE])))
    ensures StringStart(u, v) == Some(start) && At(u, start, body) && close == start + |body| && close < |u|
    ensures u[close] == QUOTE
  {
    var quote := v + |white|;
    start := quote + 1;
    AtSplits(u, v, white, [QUOTE] + (body + [QUOTE]));
    close := start + |body|;
    AtSplits(u, quote, [QUOTE], body + [QUOTE]);
    AtSplits(u, start, body, [QUOTE]);
    AtByte(u, quote, [QUOTE], 0);
    AtByte(u, close, [QUOTE], 0);
    SkipsWhite(u, v, white);
  }

  /** A coordinate pair comes to its two words, which are its coordinates if those fit 32 bits. */
  lemma CodParsed(u: seq<byte>, v: nat, white: seq<byte>, lat: Decimal, lon: Decimal)
    requires FieldAt(u, 0, KEY_COD) == Some(v) && AllWhite(white) && ValidDecimal(lat) && ValidDecimal(lon)
    requires At(u, v, white + [34] + Spelling(lat) + Spelling(lon))
    ensures Lat(u, 0) == Wrap32(TenthsOf(lat)) && Lon(u, 0) == Wrap32(TenthsOf(lon))
    ensures -0x8000_0000 <= TenthsOf(lat) < 0x8000_0000 ==> Signed32(Lat(u, 0)) == TenthsOf(lat)
    ensures -0x8000_0000 <= TenthsOf(lon) < 0x8000_0000 ==> Signed32(Lon(u, 0)) == TenthsOf(lon)
  {
    CoordinatesRead(u, v, white, lat, lon);
    if -0x8000_0000 <= TenthsOf(lat) < 0x8000_0000 {
      SignedRoundTrip(TenthsOf(lat));
    }
    if -0x8000_0000 <= TenthsOf(lon) < 0x8000_0000 {
      SignedRoundTrip(TenthsOf(lon));
    }
  }

  /** A magnitude: quote, letter M, and a point with digits behind it may each be missing. */
  datatype Magnitude = Magnitude(quoted: bool, letter: bool, units: seq<byte>, fraction: Option<seq<byte>>)

  predicate ValidMagnitude(m: Magnitude) {
    m.units != [] && AllDigits(m.units) && (m.fraction.Some? ==> AllDigits(m.fraction.value))
  }

  function MagLead(m: Magnitude): (s: seq<byte>) {
    (if m.quoted then [QUOTE] else []) + (if m.letter then [77] else [])
  }

  function MagDigits(m: Magnitude): (s: seq<byte>) {
    m.units + (if m.fraction.Some? then [46] + m.fraction.value else [])
  }

  /** The first digit, and the one after it or, behind the point, after that. */
  function MagTaken(m: Magnitude): (r: (byte, byte))
    requires ValidMagnitude(m)
    ensures r.0 <= 9 && r.1 <= 9
  {
    (m.units[0] - 48,
     if |m.units| > 1 then m.units[1] - 48
     else if m.fraction.Some? && m.fraction.value != [] then m.fraction.value[0] - 48
     else 0)
  }

  /** The magnitude in tenths, further places cut off. */
  function MagTenths(m: Magnitude): (n: nat)
    requires ValidMagnitude(m)
  {
    10 * Value(m.units) + if m.fraction.Some? && m.fraction.value != [] then m.fraction.value[0] - 48 else 0
  }

  /** The byte at e, if there is one, cannot be part of a number. */
  predicate NumberEnds(u: seq<byte>, e: nat) {
    e < |u| ==> !IsDigit(u[e]) && u[e] != 46
  }

  /** The lead of a magnitude stands at a, its digits stand from d to e, and its number ends there. */
  predicate MagAt(u: seq<byte>, m: Magnitude, a: nat, d: nat, e: nat) {
    && ValidMagnitude(m) && d == a + |MagLead(m)| && e == d + |MagDigits(m)|
    && At(u, a, MagLead(m)) && At(u, d, MagDigits(m)) && NumberEnds(u, e)
  }

  lemma MagParsed(u: seq<byte>, v: nat, white: seq<byte>, m: Magnitude, a: nat, d: nat, e: nat)
    requires FieldAt(u, 0, KEY_MAG) == Some(v) && AllWhite(white) && At(u, v, white) && a == v + |white|
    requires MagAt(u, m, a, d, e)
    ensures (Units(u, 0), Tenth(u, 0)) == MagTaken(m)
  {
    AtByte(u, d, MagDigits(m), 0);
    MagLeadSkipped(u, v, white, m, a, d);
    TenthRead(u, d, m);
  }

  lemma MagLeadSkipped(u: seq<byte>, v: nat, white: seq<byte>, m: Magnitude, a: nat, d: nat)
    requires AllWhite(white) && At(u, v, white) && a == v + |white| && At(u, a, MagLead(m)) && d == a + |MagLead(m)|
    requires ValidMagnitude(m) && d < |u| && u[d] == m.units[0]
    ensures MagStart(u, v) == d
  {
    if m.quoted {
      AtByte(u, a, MagLead(m), 0);
    }
    if m.letter {
      AtByte(u, a, MagLead(m), |MagLead(m)| - 1);
    }
    SkipsWhite(u, v, white);
  }

  lemma TenthRead(u: seq<byte>, j: nat, m: Magnitude)
    requires At(u, j, MagDigits(m)) && ValidMagnitude(m) && NumberEnds(u, j + |MagDigits(m)|)
    ensures DigitAt(u, j) == Some(MagTaken(m).0) && OrZero(MagTenthAt(u, j + 1)) == MagTaken(m).1
  {
    var x := MagDigits(m);
    AtByte(u, j, x, 0);
    if |x| > 1 {
      AtByte(u, j, x, 1);
    }
    if |x| > 2 {
      AtByte(u, j, x, 2);
    }
  }

  lemma {:induction false} LeadingDigits(s: seq<byte>)
    requires AllDigits(s) && |s| > 1
    ensures Value(s) >= 10 * (s[0] - 48) + (s[1] - 48)
    decreases |s|
  {
    var init := s[..|s| - 1];
    if |s| == 2 {
      assert init == [s[0]] && Value([]) == 0;
      assert Value(init) == s[0] - 48 by {
        assert init[..0] == [];
      }
    } else {
      LeadingDigits(init);
    }
  }

  /** What is taken of a magnitude is the magnitude exactly when it is below ten. */
  lemma MagTakenIff(m: Magnitude)
    requires ValidMagnitude(m) && Canonical(m.units)
    ensures 10 * MagTaken(m).0 + MagTaken(m).1 == MagTenths(m) <==> Value(m.units) < 10
  {
    if |m.units| > 1 {
      LeadingDigits(m.units);
    } else {
      assert m.units[..0] == [] && Value([]) == 0;
    }
  }

  /** An intensity: one byte, in quotes or not. */
  lemma MaxiParsed(u: seq<byte>, v: nat, white: seq<byte>, quoted: bool, c: byte)
    requires FieldAt(u, 0, KEY_MAXI) == Some(v) && AllWhite(white) && c > 32 && c != QUOTE
    requires At(u, v, white + ((if quoted then [QUOTE] else []) + [c]))
    ensures Intensity(u, 0) == c
  {
    var x := (if quoted then [QUOTE] else []) + [c];
    AtSplits(u, v, white, x);
    AtByte(u, v + |white|, x, 0);
    AtByte(u, v + |white|, x, |x| - 1);
    SkipsWhite(u, v, white);
  }

  // ---- from the feed to the slots ----

  function NthBody(xs: Items, k: nat): (p: Pieces)
    requires k < Length(xs)
  {
    if k == 0 then xs.body else NthBody(xs.rest, k - 1)
  }

  lemma {:induction false} BodyStands(t: seq<byte>, i: nat, xs: Items, after: nat, n: nat, k: nat)
    requires ItemsAt(t, i, xs, after) && k < Min(Length(xs), n)
    ensures k < Count(Bodies(xs, i, n, NoMore))
    ensures var o := Nth(Bodies(xs, i, n, NoMore), k);
      o.start <= o.end <= |t| && t[o.start..o.end] == PiecesText(NthBody(xs, k))
    decreases xs
  {
    BodiesCounted(xs, i, n);
    if k > 0 {
      BodyStands(t, EndOf(xs, i) + 1, xs.rest, after, n - 1, k - 1);
    }
  }

  lemma ObjectSpan(pre: seq<byte>, xs: Items, sep: seq<byte>, post: seq<byte>, k: nat, t: seq<byte>, os: Objects)
    returns (o: Objects)
    requires NoBracket(pre) && ValidItems(xs) && Separator(sep) && k < Min(Length(xs), MAX_ENTRIES)
    requires t == Feed(pre, xs, sep + ([CLOSE_BRACKET] + post)) && os == FeedObjects(t)
    ensures Within(t, os) && k < Count(os) <= MAX_ENTRIES && o == Nth(os, k)
    ensures o.start <= o.end <= |t| && t[o.start..o.end] == PiecesText(NthBody(xs, k))
  {
    var first, after := FeedParts(pre, xs, sep + ([CLOSE_BRACKET] + post));
    ClosedFeedParsed(pre, xs, sep, post);
    BodyStands(t, first, xs, after, MAX_ENTRIES, k);
    ScanWithin(t, ArrayStart(t, 0), 0);
    o := Nth(os, k);
  }

  /** Slot k of a closed feed holds the entry of object k, as made from the inside of that object alone. */
  lemma SlotHoldsObject(pre: seq<byte>, xs: Items, sep: seq<byte>, post: seq<byte>, t: seq<byte>, m: seq<byte>, k: nat)
    requires NoBracket(pre) && ValidItems(xs) && Separator(sep) && t == Feed(pre, xs, sep + ([CLOSE_BRACKET] + post))
    requires k < Min(Length(xs), MAX_ENTRIES) && SlotAddress(MAX_ENTRIES) <= |m|
    ensures SlotIn(Filled(m, t, FeedObjects(t), 0), k) == Layout(EntryOf(PiecesText(NthBody(xs, k)), 0))
  {
    var os := FeedObjects(t);
    var o := ObjectSpan(pre, xs, sep, post, k, t, os);
    SlotFromSpan(m, t, os, k, o, PiecesText(NthBody(xs, k)));
  }

  lemma SlotFromSpan(m: seq<byte>, t: seq<byte>, os: Objects, k: nat, o: Objects, body: seq<byte>)
    requires Within(t, os) && k < Count(os) <= MAX_ENTRIES && SlotAddress(MAX_ENTRIES) <= |m| && o == Nth(os, k)
    requires o.start <= o.end <= |t| && t[o.start..o.end] == body
    ensures SlotIn(Filled(m, t, os, 0), k) == Layout(EntryOf(body, 0))
  {
    SlotIsOwn(t, o.start, o.end, body);
    SlotFilled(m, t, os, k, o, Layout(EntryOf(body, 0)));
  }

  lemma SlotIsOwn(t: seq<byte>, start: nat, end: nat, body: seq<byte>)
    requires start <= end <= |t| && t[start..end] == body
    ensures SlotOf(t, start, end) == Layout(EntryOf(body, 0))
  {
    OwnSpanOnly(t, start, end);
  }
}
