/** One parsed entry of the earthquake feed: its 84-byte slot, whose length stores overlap their neighbours. */
module FeedSlots {
  import opened Bytes
  import opened Decimal
  import opened FeedText

  const SLOT := 84
  const AT_LEN := 25
  const MAG_UNITS := 26
  const MAG_TENTH := 27
  const NAME := 28
  const NAME_LEN := 58
  const LAT := 59
  const LON := 63
  const MAXI := 67

  /** Room for the strings. */
  const AT_MAX := 25
  const NAME_MAX := 30

  const KEY_AT: seq<byte> := [97, 116]
  const KEY_MAG: seq<byte> := [109, 97, 103]
  const KEY_ANM: seq<byte> := [97, 110, 109]
  const KEY_COD: seq<byte> := [99, 111, 100]
  const KEY_MAXI: seq<byte> := [109, 97, 120, 105]

  lemma KeyTexts()
    ensures KEY_AT == Ascii("at") && KEY_MAG == Ascii("mag") && KEY_ANM == Ascii("anm") && KEY_COD == Ascii("cod")
    ensures KEY_MAXI == Ascii("maxi")
  {
  }

  datatype Entry = Entry(at: seq<byte>, magUnits: byte, magTenth: byte, name: seq<byte>, lat: u32, lon: u32, maxi: byte)

  predicate ValidEntry(e: Entry) {
    |e.at| <= AT_MAX && |e.name| <= NAME_MAX
  }

  const BLANK := Entry([], 0, 0, [], 0, 0, 0)

  /** Byte k of the slot that holds e. */
  function ByteOf(e: Entry, k: nat): (b: byte)
    requires ValidEntry(e)
  {
    if k < AT_LEN then (if k < |e.at| then e.at[k] else 0)
    else if k == AT_LEN then |e.at|
    else if k == MAG_UNITS then e.magUnits
    else if k == MAG_TENTH then e.magTenth
    else if k < NAME_LEN then (if k - NAME < |e.name| then e.name[k - NAME] else 0)
    else if k == NAME_LEN then |e.name|
    else if k < LON then LE32(e.lat)[k - LAT]
    else if k < MAXI then LE32(e.lon)[k - LON]
    else if k == MAXI then e.maxi
    else 0
  }

  function Layout(e: Entry): (s: seq<byte>)
    requires ValidEntry(e)
    ensures |s| == SLOT && forall k :: 0 <= k < SLOT ==> s[k] == ByteOf(e, k)
  {
    seq(SLOT, k requires 0 <= k < SLOT => ByteOf(e, k))
  }

  // ---- the stores, one by one ----

  lemma BlankIsZero()
    ensures Layout(BLANK) == Zeros(SLOT)
  {
  }

  lemma SmallWord(n: nat)
    requires n < 256
    ensures LE32(n) == [n, 0, 0, 0]
  {
  }

  /** The word that holds the length of `at` clears the next three bytes, which are written only later. */
  lemma AtStored(a: seq<byte>)
    ensures StringStored(Layout(BLANK), a, 0, AT_MAX, AT_LEN) == Layout(BLANK.(at := Cut(a, AT_MAX)))
  {
    SmallWord(|Cut(a, AT_MAX)|);
  }

  lemma MagStored(e: Entry, units: byte, tenth: byte)
    requires ValidEntry(e)
    ensures Layout(e)[MAG_UNITS := units] == Layout(e.(magUnits := units))
    ensures Layout(e)[MAG_TENTH := tenth] == Layout(e.(magTenth := tenth))
  {
  }

  /** The word that holds the length of the name clears three bytes of the latitude, which is written only later. */
  lemma NameStored(e: Entry, a: seq<byte>)
    requires ValidEntry(e) && e.name == [] && e.lat == 0
    ensures StringStored(Layout(e), a, NAME, NAME_MAX, NAME_LEN) == Layout(e.(name := Cut(a, NAME_MAX)))
  {
    SmallWord(|Cut(a, NAME_MAX)|);
  }

  lemma CodStored(e: Entry, lat: Option<u32>, lon: Option<u32>)
    requires ValidEntry(e) && e.lat == 0 && e.lon == 0
    ensures Stored(Stored(Layout(e), LAT, lat), LON, lon)
      == Layout(e.(lat := WordOrZero(lat), lon := WordOrZero(lon)))
  {
  }

  lemma MaxiStored(e: Entry, b: byte)
    requires ValidEntry(e)
    ensures Layout(e)[MAXI := b] == Layout(e.(maxi := b))
  {
  }

  /** A slot tells its entry: the readers of the page find every field where they look for it. */
  lemma SlotReads(e: Entry, s: seq<byte>)
    requires ValidEntry(e) && s == Layout(e)
    ensures s[25] == |e.at| && s[..|e.at|] == e.at && s[58] == |e.name| && s[28..28 + |e.name|] == e.name
    ensures s[26] == e.magUnits && s[27] == e.magTenth && s[67] == e.maxi
    ensures U32At(s, 59) == e.lat && U32At(s, 63) == e.lon
  {
    assert s[LAT..LAT + 4] == LE32(e.lat) && s[LON..LON + 4] == LE32(e.lon);
    U32Slice(s, LAT);
    U32Slice(s, LON);
    LE32RoundTrip(e.lat);
    LE32RoundTrip(e.lon);
  }

  // ---- what the object from s to the end of t says ----

  /** Where the string body of a field starts, if the field is there and holds a string. */
  function BodyStart(t: seq<byte>, s: nat, key: seq<byte>): (j: Option<nat>) {
    var f := FieldAt(t, s, key);
    if f.None? then None else StringStart(t, f.value)
  }

  function StringField(t: seq<byte>, s: nat, key: seq<byte>, max: nat): (a: seq<byte>)
    ensures |a| <= max
  {
    var j := BodyStart(t, s, key);
    if j.None? then [] else Cut(StringBytes(t, j.value), max)
  }

  /** Past white space, one quote and one letter M, each if present. */
  function MagStart(t: seq<byte>, f: nat): (j: nat) {
    var a := SkipWs(t, f);
    var b := if a < |t| && t[a] == QUOTE then a + 1 else a;
    if b < |t| && t[b] == 77 then b + 1 else b
  }

  function DigitAt(t: seq<byte>, j: nat): (d: Option<byte>) {
    if j < |t| && IsDigit(t[j]) then Some(t[j] - 48) else None
  }

  function MagTenthAt(t: seq<byte>, j: nat): (d: Option<byte>) {
    DigitAt(t, if j < |t| && t[j] == 46 then j + 1 else j)
  }

  function OrZero(d: Option<byte>): (b: byte) {
    if d.Some? then d.value else 0
  }

  function Units(t: seq<byte>, s: nat): (b: byte) {
    var f := FieldAt(t, s, KEY_MAG);
    if f.None? then 0 else OrZero(DigitAt(t, MagStart(t, f.value)))
  }

  function Tenth(t: seq<byte>, s: nat): (b: byte) {
    var f := FieldAt(t, s, KEY_MAG);
    if f.None? || DigitAt(t, MagStart(t, f.value)).None? then 0
    else OrZero(MagTenthAt(t, MagStart(t, f.value) + 1))
  }

  function WordOrZero(w: Option<u32>): (r: u32) {
    if w.Some? then w.value else 0
  }

  function Lat(t: seq<byte>, s: nat): (w: u32) {
    var f := FieldAt(t, s, KEY_COD);
    if f.None? then 0 else WordOrZero(Latitude(t, f.value).word)
  }

  function Lon(t: seq<byte>, s: nat): (w: u32) {
    var f := FieldAt(t, s, KEY_COD);
    if f.None? then 0 else WordOrZero(Longitude(t, f.value).word)
  }

  /** The first byte of the value, inside its quote. */
  function ValueByte(t: seq<byte>, f: nat): (b: Option<byte>) {
    var a := SkipWs(t, f);
    var j := if a < |t| && t[a] == QUOTE then a + 1 else a;
    if j < |t| then Some(t[j]) else None
  }

  function Intensity(t: seq<byte>, s: nat): (b: byte) {
    var f := FieldAt(t, s, KEY_MAXI);
    if f.None? then 0 else OrZero(ValueByte(t, f.value))
  }

  function EntryOf(t: seq<byte>, s: nat): (e: Entry)
    ensures ValidEntry(e)
  {
    Entry(StringField(t, s, KEY_AT, AT_MAX), Units(t, s), Tenth(t, s), StringField(t, s, KEY_ANM, NAME_MAX),
          Lat(t, s), Lon(t, s), Intensity(t, s))
  }

  // ---- filling a slot in memory ----

  /** Memory m0 with the slot at `entry` holding e. */
  predicate Holds(m0: seq<byte>, m: seq<byte>, entry: nat, e: Entry) {
    entry + SLOT <= |m0| && ValidEntry(e) && m == Splice(m0, entry, Layout(e))
  }

  lemma SpliceNested(m: seq<byte>, at: nat, s: seq<byte>, off: nat, x: seq<byte>)
    requires at + |s| <= |m| && off + |x| <= |s|
    ensures Splice(Splice(m, at, s), at + off, x) == Splice(m, at, Splice(s, off, x))
  {
  }

  lemma StringNested(m: seq<byte>, at: nat, s: seq<byte>, a: seq<byte>, out: nat, max: nat, outLen: nat)
    requires at + |s| <= |m| && out + max <= |s| && outLen + 4 <= |s| && max < TWO32
    ensures StringStored(Splice(m, at, s), a, at + out, max, at + outLen)
        == Splice(m, at, StringStored(s, a, out, max, outLen))
  {
    SpliceNested(m, at, s, out, Cut(a, max));
    SpliceNested(m, at, Splice(s, out, Cut(a, max)), outLen, LE32(|Cut(a, max)|));
  }

  lemma StoredNested(m: seq<byte>, at: nat, s: seq<byte>, off: nat, v: Option<u32>)
    requires at + |s| <= |m| && off + 4 <= |s|
    ensures Stored(Splice(m, at, s), at + off, v) == Splice(m, at, Stored(s, off, v))
  {
    if v.Some? {
      SpliceNested(m, at, s, off, LE32(v.value));
    }
  }

  lemma ByteNested(m: seq<byte>, at: nat, s: seq<byte>, off: nat, b: byte)
    requires at + |s| <= |m| && off < |s|
    ensures Splice(m, at, s)[at + off := b] == Splice(m, at, s[off := b])
  {
  }

  /** The slot lies outside the text. */
  predicate Apart(base: nat, end: nat, entry: nat) {
    Outside(base, end, entry, SLOT)
  }

  lemma TextUnderSlot(m0: seq<byte>, m: seq<byte>, entry: nat, e: Entry, base: nat, end: nat)
    requires Holds(m0, m, entry, e) && base + end <= |m0| && Apart(base, end, entry)
    ensures m[base..base + end] == m0[base..base + end]
  {
    SpliceFrame(m0, entry, Layout(e), base, base + end);
  }

  /** Decode a string field into up to max bytes at `out`, its length at `outLen`. */
  method ParseString(mem: array<byte>, base: nat, i: nat, end: nat, key: seq<byte>, out: nat, max: nat, outLen: nat)
    requires base + end <= mem.Length && out + max <= mem.Length && outLen + 4 <= mem.Length && max < TWO32
    requires Outside(base, end, out, max)
    modifies mem
    ensures var t := old(mem[base..base + end]);
      mem[..] == ValueStored(old(mem[..]), BodyStart(t, i, key), t, out, max, outLen)
  {
    var fi := FindField(mem, base, i, end, key);
    if fi != -1 {
      var tmp := ReadStrVal(mem, base, fi, end, out, max, outLen);
    }
  }

  lemma AtStep(m0: seq<byte>, m1: seq<byte>, m2: seq<byte>, entry: nat, t: seq<byte>, i: nat)
    requires Holds(m0, m1, entry, BLANK)
    requires m2 == ValueStored(m1, BodyStart(t, i, KEY_AT), t, entry, AT_MAX, entry + AT_LEN)
    ensures Holds(m0, m2, entry, BLANK.(at := StringField(t, i, KEY_AT, AT_MAX)))
  {
    var j := BodyStart(t, i, KEY_AT);
    if j.Some? {
      var a := StringBytes(t, j.value);
      StringNested(m0, entry, Layout(BLANK), a, 0, AT_MAX, AT_LEN);
      AtStored(a);
    }
  }

  lemma NameStep(m0: seq<byte>, m1: seq<byte>, m2: seq<byte>, entry: nat, e: Entry, t: seq<byte>, i: nat)
    requires Holds(m0, m1, entry, e) && e.name == [] && e.lat == 0
    requires m2 == ValueStored(m1, BodyStart(t, i, KEY_ANM), t, entry + NAME, NAME_MAX, entry + NAME_LEN)
    ensures Holds(m0, m2, entry, e.(name := StringField(t, i, KEY_ANM, NAME_MAX)))
  {
    var j := BodyStart(t, i, KEY_ANM);
    if j.Some? {
      var a := StringBytes(t, j.value);
      StringNested(m0, entry, Layout(e), a, NAME, NAME_MAX, NAME_LEN);
      NameStored(e, a);
    }
  }

  method ParseAt(mem: array<byte>, base: nat, i: nat, end: nat, entry: nat, ghost m0: seq<byte>)
    requires base + end <= mem.Length && Holds(m0, mem[..], entry, BLANK) && Apart(base, end, entry)
    modifies mem
    ensures Holds(m0, mem[..], entry, BLANK.(at := StringField(old(mem[base..base + end]), i, KEY_AT, AT_MAX)))
  {
    ParseString(mem, base, i, end, KEY_AT, entry, AT_MAX, entry + AT_LEN);
    AtStep(m0, old(mem[..]), mem[..], entry, old(mem[base..base + end]), i);
  }

  /** Store one byte of the slot. */
  method PutSlotByte(mem: array<byte>, entry: nat, off: nat, b: byte, ghost m0: seq<byte>, ghost e: Entry)
    requires Holds(m0, mem[..], entry, e) && off < SLOT
    modifies mem
    ensures mem[..] == Splice(m0, entry, Layout(e)[off := b])
  {
    ByteNested(m0, entry, Layout(e), off, b);
    mem[entry + off] := b;
  }

  method SkipMag(mem: array<byte>, base: nat, f: nat, end: nat) returns (j: nat)
    requires base + end <= mem.Length
    ensures j == MagStart(mem[base..base + end], f)
  {
    j := SkipWhite(mem, base, f, end);
    if j < end && mem[base + j] == QUOTE {
      j := j + 1;
    }
    if j < end && mem[base + j] == 77 {
      j := j + 1;
    }
  }

  /** The two digits of a magnitude. */
  method ReadMag(mem: array<byte>, base: nat, f: nat, end: nat) returns (units: Option<byte>, tenth: Option<byte>)
    requires base + end <= mem.Length
    ensures var t := mem[base..base + end];
      && units == DigitAt(t, MagStart(t, f))
      && tenth == if units.Some? then MagTenthAt(t, MagStart(t, f) + 1) else None
  {
    units, tenth := None, None;
    var j := SkipMag(mem, base, f, end);
    if j < end && IsDigit(mem[base + j]) {
      units := Some(mem[base + j] - 48);
      j := j + 1;
      if j < end && mem[base + j] == 46 {
        j := j + 1;
      }
      if j < end && IsDigit(mem[base + j]) {
        tenth := Some(mem[base + j] - 48);
      }
    }
  }

  method ParseMag(mem: array<byte>, base: nat, i: nat, end: nat, entry: nat, ghost m0: seq<byte>, ghost e: Entry)
    requires base + end <= mem.Length && Holds(m0, mem[..], entry, e) && Apart(base, end, entry)
    requires e.magUnits == 0 && e.magTenth == 0
    modifies mem
    ensures var t := old(mem[base..base + end]);
      Holds(m0, mem[..], entry, e.(magUnits := Units(t, i), magTenth := Tenth(t, i)))
  {
    var fi := FindField(mem, base, i, end, KEY_MAG);
    if fi == -1 {
      return;
    }
    var units, tenth := ReadMag(mem, base, fi, end);
    assert Units(mem[base..base + end], i) == OrZero(units) && Tenth(mem[base..base + end], i) == OrZero(tenth);
    PutMag(mem, entry, units, tenth, m0, e);
  }

  method PutMag(mem: array<byte>, entry: nat, units: Option<byte>, tenth: Option<byte>, ghost m0: seq<byte>,
      ghost e: Entry)
    requires Holds(m0, mem[..], entry, e) && e.magUnits == 0 && e.magTenth == 0 && (units.None? ==> tenth.None?)
    modifies mem
    ensures Holds(m0, mem[..], entry, e.(magUnits := OrZero(units), magTenth := OrZero(tenth)))
  {
    if units.Some? {
      MagStored(e, units.value, 0);
      PutSlotByte(mem, entry, MAG_UNITS, units.value, m0, e);
      if tenth.Some? {
        MagStored(e.(magUnits := units.value), 0, tenth.value);
        PutSlotByte(mem, entry, MAG_TENTH, tenth.value, m0, e.(magUnits := units.value));
      }
    }
  }

  method ParseName(mem: array<byte>, base: nat, i: nat, end: nat, entry: nat, ghost m0: seq<byte>, ghost e: Entry)
    requires base + end <= mem.Length && Holds(m0, mem[..], entry, e) && Apart(base, end, entry)
    requires e.name == [] && e.lat == 0
    modifies mem
    ensures Holds(m0, mem[..], entry, e.(name := StringField(old(mem[base..base + end]), i, KEY_ANM, NAME_MAX)))
  {
    ParseString(mem, base, i, end, KEY_ANM, entry + NAME, NAME_MAX, entry + NAME_LEN);
    NameStep(m0, old(mem[..]), mem[..], entry, e, old(mem[base..base + end]), i);
  }

  lemma CodStep(m0: seq<byte>, m1: seq<byte>, m2: seq<byte>, entry: nat, e: Entry, t: seq<byte>, i: nat, f: nat)
    requires Holds(m0, m1, entry, e) && e.lat == 0 && e.lon == 0 && FieldAt(t, i, KEY_COD) == Some(f)
    requires m2 == Stored(Stored(m1, entry + LAT, Latitude(t, f).word), entry + LON, Longitude(t, f).word)
    ensures Holds(m0, m2, entry, e.(lat := Lat(t, i), lon := Lon(t, i)))
  {
    var lat, lon := Latitude(t, f).word, Longitude(t, f).word;
    StoredNested(m0, entry, Layout(e), LAT, lat);
    StoredNested(m0, entry, Stored(Layout(e), LAT, lat), LON, lon);
    CodStored(e, lat, lon);
  }

  method ParseCodField(mem: array<byte>, base: nat, i: nat, end: nat, entry: nat, ghost m0: seq<byte>, ghost e: Entry)
    requires base + end <= mem.Length && Holds(m0, mem[..], entry, e) && Apart(base, end, entry)
    requires e.lat == 0 && e.lon == 0
    modifies mem
    ensures var t := old(mem[base..base + end]);
      Holds(m0, mem[..], entry, e.(lat := Lat(t, i), lon := Lon(t, i)))
  {
    var fi := FindField(mem, base, i, end, KEY_COD);
    if fi != -1 {
      var tmp := ParseCod(mem, base, fi, end, entry + LAT, entry + LON);
      CodStep(m0, old(mem[..]), mem[..], entry, e, old(mem[base..base + end]), i, fi);
    }
  }

  /** The first byte of the value at f. */
  method ReadValueByte(mem: array<byte>, base: nat, f: nat, end: nat) returns (b: Option<byte>)
    requires base + end <= mem.Length
    ensures b == ValueByte(mem[base..base + end], f)
  {
    var j := SkipWhite(mem, base, f, end);
    if j < end {
      if mem[base + j] == QUOTE {
        j := j + 1;
      }
      if j < end {
        return Some(mem[base + j]);
      }
    }
    b := None;
  }

  method ParseMaxi(mem: array<byte>, base: nat, i: nat, end: nat, entry: nat, ghost m0: seq<byte>, ghost e: Entry)
    requires base + end <= mem.Length && Holds(m0, mem[..], entry, e) && Apart(base, end, entry) && e.maxi == 0
    modifies mem
    ensures Holds(m0, mem[..], entry, e.(maxi := Intensity(old(mem[base..base + end]), i)))
  {
    var fi := FindField(mem, base, i, end, KEY_MAXI);
    if fi == -1 {
      return;
    }
    var b := ReadValueByte(mem, base, fi, end);
    if b.Some? {
      MaxiStored(e, b.value);
      PutSlotByte(mem, entry, MAXI, b.value, m0, e);
    }
  }

  /** Fill the slot at `entry` from the object between i and end. */
  method ParseEntry(mem: array<byte>, base: nat, i: nat, end: nat, entry: nat)
    requires base + end <= mem.Length && entry + SLOT <= mem.Length && Apart(base, end, entry)
    modifies mem
    ensures mem[..] == Splice(old(mem[..]), entry, Layout(EntryOf(old(mem[base..base + end]), i)))
  {
    ghost var m0, t := mem[..], mem[base..base + end];
    PutBytes(mem, entry, Zeros(SLOT));
    BlankIsZero();
    SameText(mem, m0, entry, BLANK, base, end);
    ParseAt(mem, base, i, end, entry, m0);
    ghost var e1 := BLANK.(at := StringField(t, i, KEY_AT, AT_MAX));
    SameText(mem, m0, entry, e1, base, end);
    ParseMag(mem, base, i, end, entry, m0, e1);
    ghost var e2 := e1.(magUnits := Units(t, i), magTenth := Tenth(t, i));
    SameText(mem, m0, entry, e2, base, end);
    ParseName(mem, base, i, end, entry, m0, e2);
    ghost var e3 := e2.(name := StringField(t, i, KEY_ANM, NAME_MAX));
    SameText(mem, m0, entry, e3, base, end);
    ParseCodField(mem, base, i, end, entry, m0, e3);
    ghost var e4 := e3.(lat := Lat(t, i), lon := Lon(t, i));
    SameText(mem, m0, entry, e4, base, end);
    ParseMaxi(mem, base, i, end, entry, m0, e4);
  }

  lemma SameText(mem: array<byte>, m0: seq<byte>, entry: nat, e: Entry, base: nat, end: nat)
    requires Holds(m0, mem[..], entry, e) && base + end <= |m0| && Apart(base, end, entry)
    ensures mem[base..base + end] == m0[base..base + end]
  {
    TextUnderSlot(m0, mem[..], entry, e, base, end);
    assert mem[base..base + end] == mem[..][base..base + end];
  }
}
