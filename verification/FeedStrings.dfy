/** What the string decoder makes of JSON strings (section 7 of RFC 8259), and where it falls short. */
module FeedStrings {
  import opened Bytes
  import opened FeedText
  import Json
  import Utf8

  /** A character of a string as it is written: itself in UTF-8, a \uXXXX escape, or a two-character escape. */
  datatype Char = Raw(code: nat) | Escaped(hex: seq<byte>) | Short(letter: byte)

  predicate IsHex(c: byte) {
    Json.HexDigit(c).Some?
  }

  /** The nibble the decoder makes of a byte: the value of a digit, in either case, and zero of anything else. */
  lemma NibIsDigit(c: byte)
    ensures HexNib(c) == match Json.HexDigit(c) case Some(n) => n case None => 0
  {
  }

  function HexValue(hex: seq<byte>): (v: nat)
    requires |hex| == 4 && forall i :: 0 <= i < 4 ==> IsHex(hex[i])
    ensures v < 0x1_0000
  {
    0x1000 * Json.Digit(hex[0]) + 0x100 * Json.Digit(hex[1]) + 0x10 * Json.Digit(hex[2]) + Json.Digit(hex[3])
  }

  /** The control characters that have a two-character escape: b, f, n, r and t. */
  predicate ControlLetter(letter: byte) {
    letter in {98, 102, 110, 114, 116}
  }

  predicate ValidChar(c: Char) {
    match c
    case Raw(code) => Utf8.Scalar(code) && code != 34 && code != 92
    case Escaped(hex) => |hex| == 4 && forall i :: 0 <= i < 4 ==> IsHex(hex[i])
    case Short(letter) => letter in {34, 92, 47} || ControlLetter(letter)
  }

  predicate ValidChars(cs: seq<Char>) {
    forall i :: 0 <= i < |cs| ==> ValidChar(cs[i])
  }

  function Written(c: Char): (s: seq<byte>)
    requires ValidChar(c)
  {
    match c
    case Raw(code) => Utf8.Encode(code)
    case Escaped(hex) => [92, 117] + hex
    case Short(letter) => [92, letter]
  }

  function Text(cs: seq<Char>): (s: seq<byte>)
    requires ValidChars(cs)
  {
    if cs == [] then [] else Written(cs[0]) + Text(cs[1..])
  }

  /** The code point (or lone surrogate) that the standard gives to a character as written. */
  function Meaning(c: Char): (code: nat)
    requires ValidChar(c)
    ensures code < 0x11_0000
  {
    match c
    case Raw(code) => code
    case Escaped(hex) => HexValue(hex)
    case Short(98) => 8
    case Short(102) => 12
    case Short(110) => 10
    case Short(114) => 13
    case Short(116) => 9
    case Short(letter) => letter
  }

  function Meanings(cs: seq<Char>): (codes: seq<nat>)
    requires ValidChars(cs)
    ensures |codes| == |cs| && forall i :: 0 <= i < |cs| ==> codes[i] == Meaning(cs[i])
  {
    seq(|cs|, i requires 0 <= i < |cs| => Meaning(cs[i]))
  }

  /** What the decoder takes it for: two-character escapes stand for their second character. */
  function Taken(c: Char): (code: nat)
    requires ValidChar(c)
    ensures code < 0x11_0000
  {
    if c.Short? then c.letter else Meaning(c)
  }

  function AllTaken(cs: seq<Char>): (codes: seq<nat>)
    requires ValidChars(cs)
    ensures |codes| == |cs| && forall i :: 0 <= i < |cs| ==> codes[i] == Taken(cs[i])
  {
    seq(|cs|, i requires 0 <= i < |cs| => Taken(cs[i]))
  }

  /** The string body at i decodes to `bytes` and stops at `end`. */
  predicate Reads(t: seq<byte>, i: nat, bytes: seq<byte>, end: nat) {
    StringBytes(t, i) == bytes && StringEnd(t, i) == end
  }

  /** Multi-byte characters contain neither quotes nor backslashes. */
  lemma {:induction false} RawReads(t: seq<byte>, i: nat, s: seq<byte>, j: nat, rest: seq<byte>, end: nat)
    requires At(t, i, s) && (forall k :: 0 <= k < |s| ==> s[k] != QUOTE && s[k] != BACKSLASH) && j == i + |s|
    requires Reads(t, j, rest, end)
    ensures Reads(t, i, s + rest, end)
    decreases |s|
  {
    if s == [] {
      assert s + rest == rest;
    } else {
      AtByte(t, i, s, 0);
      assert s == [s[0]] + s[1..];
      AtSplits(t, i, [s[0]], s[1..]);
      RawReads(t, i + 1, s[1..], j, rest, end);
      assert [s[0]] + (s[1..] + rest) == s + rest;
    }
  }

  lemma EscapedReads(t: seq<byte>, i: nat, hex: seq<byte>, rest: seq<byte>, end: nat)
    requires |hex| == 4 && (forall k :: 0 <= k < 4 ==> IsHex(hex[k])) && At(t, i, [92, 117] + hex)
    requires Reads(t, i + 6, rest, end)
    ensures Reads(t, i, Utf8.Encode(HexValue(hex)) + rest, end)
  {
    AtSplits(t, i, [92, 117], hex);
    AtByte(t, i, [92, 117], 0);
    AtByte(t, i, [92, 117], 1);
    AtByte(t, i + 2, hex, 0);
    AtByte(t, i + 2, hex, 1);
    AtByte(t, i + 2, hex, 2);
    AtByte(t, i + 2, hex, 3);
    NibIsDigit(hex[0]);
    NibIsDigit(hex[1]);
    NibIsDigit(hex[2]);
    NibIsDigit(hex[3]);
    assert CodeAt(t, i + 2) == HexValue(hex);
  }

  lemma ShortReads(t: seq<byte>, i: nat, letter: byte, rest: seq<byte>, end: nat)
    requires letter != LETTER_U && At(t, i, [92, letter]) && Reads(t, i + 2, rest, end)
    ensures Reads(t, i, [letter] + rest, end)
  {
    AtByte(t, i, [92, letter], 0);
    AtByte(t, i, [92, letter], 1);
  }

  lemma CharReads(t: seq<byte>, i: nat, c: Char, j: nat, rest: seq<byte>, end: nat)
    requires ValidChar(c) && At(t, i, Written(c)) && j == i + |Written(c)| && Reads(t, j, rest, end)
    ensures Reads(t, i, Utf8.Encode(Taken(c)) + rest, end)
  {
    match c {
      case Raw(code) => RawReads(t, i, Written(c), j, rest, end);
      case Escaped(hex) => EscapedReads(t, i, hex, rest, end);
      case Short(letter) =>
        assert Utf8.Encode(letter) == [letter];
        ShortReads(t, i, letter, rest, end);
    }
  }

  lemma TakenStep(cs: seq<Char>)
    requires cs != [] && ValidChars(cs)
    ensures Utf8.Encoded(AllTaken(cs)) == Utf8.Encode(Taken(cs[0])) + Utf8.Encoded(AllTaken(cs[1..]))
  {
    assert AllTaken(cs)[1..] == AllTaken(cs[1..]);
  }

  lemma OneCharReads(t: seq<byte>, i: nat, cs: seq<Char>, next: nat, end: nat)
    requires ValidChars(cs) && cs != [] && At(t, i, Written(cs[0])) && next == i + |Written(cs[0])|
    requires Reads(t, next, Utf8.Encoded(AllTaken(cs[1..])), end)
    ensures Reads(t, i, Utf8.Encoded(AllTaken(cs)), end)
  {
    CharReads(t, i, cs[0], next, Utf8.Encoded(AllTaken(cs[1..])), end);
    TakenStep(cs);
  }

  lemma TextSplits(t: seq<byte>, i: nat, cs: seq<Char>, next: nat)
    requires ValidChars(cs) && cs != [] && At(t, i, Text(cs)) && next == i + |Written(cs[0])|
    ensures At(t, i, Written(cs[0])) && At(t, next, Text(cs[1..])) && next + |Text(cs[1..])| == i + |Text(cs)|
  {
    AtSplits(t, i, Written(cs[0]), Text(cs[1..]));
  }

  /** Every string is decoded into the UTF-8 of the code points taken, up to its closing quote. */
  lemma {:induction false} StringReads(t: seq<byte>, i: nat, cs: seq<Char>, end: nat)
    requires ValidChars(cs) && At(t, i, Text(cs)) && end == i + |Text(cs)| && end < |t| && t[end] == QUOTE
    ensures Reads(t, i, Utf8.Encoded(AllTaken(cs)), end)
    decreases |cs|
  {
    if cs == [] {
      assert AllTaken(cs) == [];
    } else {
      var next := i + |Written(cs[0])|;
      TextSplits(t, i, cs, next);
      StringReads(t, next, cs[1..], end);
      OneCharReads(t, i, cs, next, end);
    }
  }

  /** The decoded bytes are valid UTF-8 exactly when no escape spells a surrogate. */
  lemma ValidIff(t: seq<byte>, i: nat, cs: seq<Char>, end: nat)
    requires ValidChars(cs) && At(t, i, Text(cs)) && end == i + |Text(cs)| && end < |t| && t[end] == QUOTE
    ensures Utf8.Valid(StringBytes(t, i)) <==>
        forall k :: 0 <= k < |cs| && cs[k].Escaped? ==> Utf8.Scalar(HexValue(cs[k].hex))
  {
    StringReads(t, i, cs, end);
    var taken := AllTaken(cs);
    Utf8.EncodedDecodes(taken);
    assert forall k :: 0 <= k < |cs| && !cs[k].Escaped? ==> Utf8.Scalar(taken[k]);
    assert forall k :: 0 <= k < |cs| && cs[k].Escaped? ==> taken[k] == HexValue(cs[k].hex);
  }

  /** As many of them as a field holds are valid exactly when no character before the cut is a surrogate or is cut. */
  lemma StoredValidIff(t: seq<byte>, i: nat, cs: seq<Char>, end: nat, max: nat)
    requires ValidChars(cs) && At(t, i, Text(cs)) && end == i + |Text(cs)| && end < |t| && t[end] == QUOTE
    ensures Utf8.Valid(Cut(StringBytes(t, i), max)) <==> Utf8.CutWhole(AllTaken(cs), max)
  {
    StringReads(t, i, cs, end);
    Utf8.CutValidIff(AllTaken(cs), max);
  }

  /**
   * The decoded bytes are text that says what the standard says exactly when the string has neither a control escape
   * such as backslash n nor an escape for a surrogate.
   */
  lemma UnderstoodIff(t: seq<byte>, i: nat, cs: seq<Char>, end: nat)
    requires ValidChars(cs) && At(t, i, Text(cs)) && end == i + |Text(cs)| && end < |t| && t[end] == QUOTE
    ensures var b := StringBytes(t, i);
      Utf8.Valid(b) && Utf8.Decode(b) == Meanings(cs) <==> forall k :: 0 <= k < |cs| ==> Agreed(cs[k])
  {
    ValidIff(t, i, cs, end);
    StringReads(t, i, cs, end);
    var taken, meant := AllTaken(cs), Meanings(cs);
    Utf8.EncodedDecodes(taken);
    assert forall k :: 0 <= k < |cs| ==> (taken[k] == meant[k] <==> !(cs[k].Short? && ControlLetter(cs[k].letter)));
    assert taken == meant <==> forall k :: 0 <= k < |cs| ==> taken[k] == meant[k];
  }

  /** A character of which decoder and standard make the same. */
  predicate Agreed(c: Char)
    requires ValidChar(c)
  {
    match c
    case Raw(_) => true
    case Escaped(hex) => Utf8.Scalar(HexValue(hex))
    case Short(letter) => !ControlLetter(letter)
  }
}
