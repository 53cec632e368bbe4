/** JSON arrays of strings: how they are read (sections 5 and 7 of RFC 8259) and how the applications print them. */
module Json {
  import opened Bytes
  import Utf8

  const QUOTE: byte := 34
  const COMMA: byte := 44
  const BACKSLASH: byte := 92
  const OPEN: byte := 91
  const CLOSE: byte := 93

  // ---- reading ----

  /** What a two-character escape stands for, if it is one. */
  function ShortEscape(c: byte): (r: Option<byte>) {
    if c in {34, 92, 47} then Some(c)
    else if c == 98 then Some(8)
    else if c == 102 then Some(12)
    else if c == 110 then Some(10)
    else if c == 114 then Some(13)
    else if c == 116 then Some(9)
    else None
  }

  function HexDigit(c: byte): (n: Option<nat>)
    ensures n.Some? ==> n.value < 16
  {
    if 48 <= c <= 57 then Some(c as nat - 48)
    else if 65 <= c <= 70 then Some(c as nat - 55)
    else if 97 <= c <= 102 then Some(c as nat - 87)
    else None
  }

  /** The sixteen digits in either case have their place in the row as their value, and nothing else is a digit. */
  lemma HexTable(c: byte)
    ensures forall k :: 0 <= k < 16 && (c == Ascii("0123456789abcdef")[k] || c == Ascii("0123456789ABCDEF")[k]) ==>
        HexDigit(c) == Some(k)
    ensures HexDigit(c).Some? ==>
      exists k :: 0 <= k < 16 && (c == Ascii("0123456789abcdef")[k] || c == Ascii("0123456789ABCDEF")[k])
  {
    HexTexts();
    if HexDigit(c).Some? {
      var k := HexDigit(c).value;
      assert c == Ascii("0123456789abcdef")[k] || c == Ascii("0123456789ABCDEF")[k];
    }
  }

  lemma HexTexts()
    ensures Ascii("0123456789abcdef") == [48, 49, 50, 51, 52, 53, 54, 55, 56, 57, 97, 98, 99, 100, 101, 102]
    ensures Ascii("0123456789ABCDEF") == [48, 49, 50, 51, 52, 53, 54, 55, 56, 57, 65, 66, 67, 68, 69, 70]
  {
  }

  /** The code unit of a \u escape whose digits start at i. */
  function CodeUnit(t: seq<byte>, i: nat): (c: Option<u16>) {
    if i + 4 > |t| then None
    else if HexDigit(t[i]).None? || HexDigit(t[i + 1]).None? then None
    else if HexDigit(t[i + 2]).None? || HexDigit(t[i + 3]).None? then None
    else Some(0x1000 * Digit(t[i]) + 0x100 * Digit(t[i + 1]) + 0x10 * Digit(t[i + 2]) + Digit(t[i + 3]))
  }

  function Digit(c: byte): (n: nat)
    ensures n < 16
  {
    if HexDigit(c).Some? then HexDigit(c).value else 0
  }

  datatype Str = BadStr | Str(bytes: seq<byte>, end: nat)

  function Prepended(s: seq<byte>, r: Str): (q: Str) {
    if r.BadStr? then BadStr else Str(s + r.bytes, r.end)
  }

  /** The string whose body starts at i, and the index after its closing quote. */
  function StrAt(t: seq<byte>, i: nat): (r: Str)
    decreases |t| - i
  {
    if i >= |t| || t[i] < 32 then BadStr
    else if t[i] == QUOTE then Str([], i + 1)
    else if t[i] != BACKSLASH then Prepended([t[i]], StrAt(t, i + 1))
    else if i + 1 >= |t| then BadStr
    else if ShortEscape(t[i + 1]).Some? then Prepended([ShortEscape(t[i + 1]).value], StrAt(t, i + 2))
    else if t[i + 1] == 117 && CodeUnit(t, i + 2).Some? then
      Prepended(Utf8.Encode(CodeUnit(t, i + 2).value), StrAt(t, i + 6))
    else BadStr
  }

  datatype Strs = BadStrs | Strs(items: seq<seq<byte>>, end: nat)

  /** The rest of an array from the string at i on. */
  function StrsAt(t: seq<byte>, i: nat): (r: Strs)
    decreases |t| - i
  {
    if i >= |t| || t[i] != QUOTE then BadStrs
    else
      var s := StrAt(t, i + 1);
      if s.BadStr? || s.end >= |t| || s.end <= i then BadStrs
      else if t[s.end] == CLOSE then Strs([s.bytes], s.end + 1)
      else if t[s.end] != COMMA then BadStrs
      else
        var r := StrsAt(t, s.end + 1);
        if r.BadStrs? then BadStrs else Strs([s.bytes] + r.items, r.end)
  }

  /** The array of strings at i, written without white space. */
  function ArrayAt(t: seq<byte>, i: nat): (r: Strs) {
    if i + 1 >= |t| || t[i] != OPEN then BadStrs
    else if t[i + 1] == CLOSE then Strs([], i + 2)
    else StrsAt(t, i + 1)
  }

  // ---- what reading takes ----

  /** A string that stands for itself between quotes. */
  predicate Plain(s: seq<byte>) {
    forall i :: 0 <= i < |s| ==> s[i] >= 32 && s[i] != QUOTE && s[i] != BACKSLASH
  }

  predicate AllPlain(ss: seq<seq<byte>>) {
    forall i :: 0 <= i < |ss| ==> Plain(ss[i])
  }

  /** No control character between lo and hi. */
  predicate Printable(t: seq<byte>, lo: nat, hi: nat) {
    hi <= |t| && forall k :: lo <= k < hi ==> t[k] >= 32
  }

  /** A string takes no fewer bytes than it has, and just as many only if it is plain. */
  lemma {:induction false} StrTakes(t: seq<byte>, i: nat)
    requires StrAt(t, i).Str?
    ensures var s := StrAt(t, i);
      Printable(t, i, s.end) && i + |s.bytes| + 1 <= s.end && (s.end == i + |s.bytes| + 1 ==> Plain(s.bytes))
    decreases |t| - i
  {
    if t[i] != QUOTE {
      var n := if t[i] != BACKSLASH then 1 else if ShortEscape(t[i + 1]).Some? then 2 else 6;
      StrTakes(t, i + n);
      if n == 6 {
        UnitEncoded(t, i + 2);
      }
    }
  }

  lemma UnitEncoded(t: seq<byte>, i: nat)
    requires CodeUnit(t, i).Some?
    ensures |Utf8.Encode(CodeUnit(t, i).value)| <= 3 && Printable(t, i, i + 4)
  {
  }

  /** Bytes of the strings with their quotes and what separates them. */
  function Weight(ss: seq<seq<byte>>): (n: nat) {
    if ss == [] then 0 else |ss[0]| + 3 + Weight(ss[1..])
  }

  /** The strings come from the bytes between lo and hi: no fewer than theirs, and more unless they are plain. */
  predicate Covers(t: seq<byte>, lo: nat, hi: nat, ss: seq<seq<byte>>) {
    Printable(t, lo, hi) && lo + Weight(ss) <= hi && (hi == lo + Weight(ss) ==> AllPlain(ss))
  }

  lemma OneCovers(t: seq<byte>, i: nat)
    requires i < |t| && t[i] == QUOTE && StrAt(t, i + 1).Str?
    requires StrAt(t, i + 1).end < |t| && t[StrAt(t, i + 1).end] >= 32
    ensures Covers(t, i, StrAt(t, i + 1).end + 1, [StrAt(t, i + 1).bytes])
  {
    StrTakes(t, i + 1);
    assert [StrAt(t, i + 1).bytes][1..] == [];
  }

  lemma BothCover(t: seq<byte>, lo: nat, mid: nat, hi: nat, s: seq<byte>, ss: seq<seq<byte>>)
    requires Covers(t, lo, mid, [s]) && Covers(t, mid, hi, ss)
    ensures Covers(t, lo, hi, [s] + ss)
  {
    assert ([s] + ss)[1..] == ss && [s][1..] == [];
    assert [s][0] == s;
  }

  lemma {:induction false} StrsTake(t: seq<byte>, i: nat)
    requires StrsAt(t, i).Strs?
    ensures Covers(t, i, StrsAt(t, i).end, StrsAt(t, i).items)
    decreases |t| - i
  {
    var s := StrAt(t, i + 1);
    OneCovers(t, i);
    if t[s.end] == COMMA {
      var r := StrsAt(t, s.end + 1);
      StrsTake(t, s.end + 1);
      BothCover(t, i, s.end + 1, r.end, s.bytes, r.items);
    }
  }

  // ---- printing ----

  /** One byte as it is printed: quotes and backslashes escaped, control characters dropped. */
  function EscapedByte(b: byte): (s: seq<byte>)
    ensures |s| <= 2
  {
    if b == QUOTE || b == BACKSLASH then [BACKSLASH, b] else if b >= 32 then [b] else []
  }

  function Escaped(m: seq<byte>): (s: seq<byte>)
    ensures |s| <= 2 * |m|
  {
    if m == [] then [] else Escaped(m[..|m| - 1]) + EscapedByte(m[|m| - 1])
  }

  /** m without its control characters. */
  function Clean(m: seq<byte>): (s: seq<byte>) {
    if m == [] then [] else Clean(m[..|m| - 1]) + if m[|m| - 1] >= 32 then [m[|m| - 1]] else []
  }

  function AllClean(ms: seq<seq<byte>>): (cs: seq<seq<byte>>)
    ensures |cs| == |ms| && forall i :: 0 <= i < |ms| ==> cs[i] == Clean(ms[i])
  {
    seq(|ms|, i requires 0 <= i < |ms| => Clean(ms[i]))
  }

  function Quoted(m: seq<byte>): (s: seq<byte>)
    ensures |s| <= 2 * |m| + 2
  {
    [QUOTE] + Escaped(m) + [QUOTE]
  }

  /** The messages quoted, with commas between them. */
  function Listed(ms: seq<seq<byte>>): (s: seq<byte>) {
    if ms == [] then []
    else if |ms| == 1 then Quoted(ms[0])
    else Listed(ms[..|ms| - 1]) + [COMMA] + Quoted(ms[|ms| - 1])
  }

  function ArrayText(ms: seq<seq<byte>>): (s: seq<byte>) {
    [OPEN] + Listed(ms) + [CLOSE]
  }

  // ---- what is printed is read back ----

  lemma PrependedTwice(a: seq<byte>, b: seq<byte>, r: Str)
    ensures Prepended(a, Prepended(b, r)) == Prepended(a + b, r)
    ensures Prepended([], r) == r
  {
    if r.Str? {
      Assoc(a, b, r.bytes);
      assert [] + r.bytes == r.bytes;
    }
  }

  lemma {:induction false} EscapedReads(t: seq<byte>, i: nat, m: seq<byte>, j: nat, rest: Str)
    requires At(t, i, Escaped(m)) && j == i + |Escaped(m)| && StrAt(t, j) == rest
    ensures StrAt(t, i) == Prepended(Clean(m), rest)
    decreases |m|
  {
    if m == [] {
      PrependedTwice([], [], rest);
    } else {
      var init, b := m[..|m| - 1], m[|m| - 1];
      var mid := i + |Escaped(init)|;
      var kept := if b >= 32 then [b] else [];
      AtSplits(t, i, Escaped(init), EscapedByte(b));
      ByteReads(t, mid, b, j, rest);
      PrependedTwice(Clean(init), kept, rest);
      EscapedReads(t, i, init, mid, Prepended(kept, rest));
    }
  }

  lemma ByteReads(t: seq<byte>, i: nat, b: byte, j: nat, rest: Str)
    requires At(t, i, EscapedByte(b)) && j == i + |EscapedByte(b)| && StrAt(t, j) == rest
    ensures StrAt(t, i) == Prepended(if b >= 32 then [b] else [], rest)
  {
    PrependedTwice([], [], rest);
    if b >= 32 {
      AtByte(t, i, EscapedByte(b), 0);
      if b == QUOTE || b == BACKSLASH {
        AtByte(t, i, EscapedByte(b), 1);
      }
    }
  }

  lemma QuotedReads(t: seq<byte>, i: nat, m: seq<byte>, j: nat)
    requires At(t, i, Quoted(m)) && j == i + |Quoted(m)|
    ensures i < |t| && t[i] == QUOTE && StrAt(t, i + 1) == Str(Clean(m), j)
  {
    AtSplits(t, i, [QUOTE] + Escaped(m), [QUOTE]);
    AtSplits(t, i, [QUOTE], Escaped(m));
    AtByte(t, i, [QUOTE], 0);
    AtByte(t, j - 1, [QUOTE], 0);
    EscapedReads(t, i + 1, m, j - 1, Str([], j));
    assert Clean(m) + [] == Clean(m);
  }

  /** The same list, taken from its front. */
  lemma {:induction false} ListedFront(ms: seq<seq<byte>>)
    requires |ms| > 1
    ensures Listed(ms) == Quoted(ms[0]) + ([COMMA] + Listed(ms[1..]))
    decreases |ms|
  {
    var n := |ms| - 1;
    var init, rest := ms[..n], ms[1..];
    assert init[0] == ms[0] && rest[n - 1] == ms[n];
    if n == 1 {
      Assoc(Quoted(ms[0]), [COMMA], Quoted(ms[1]));
    } else {
      ListedFront(init);
      assert init[1..] == rest[..n - 1];
      FrontAndBack(Quoted(ms[0]), [COMMA], Listed(init[1..]), Quoted(ms[n]));
    }
  }

  lemma FrontAndBack(a: seq<byte>, sep: seq<byte>, middle: seq<byte>, b: seq<byte>)
    ensures a + (sep + middle) + sep + b == a + (sep + (middle + sep + b))
  {
  }

  lemma OneOfMany(t: seq<byte>, i: nat, m: seq<byte>, k: nat, rest: seq<seq<byte>>, end: nat)
    requires At(t, i, Quoted(m)) && k == i + |Quoted(m)| && k < |t| && t[k] == COMMA
    requires StrsAt(t, k + 1) == Strs(rest, end)
    ensures StrsAt(t, i) == Strs([Clean(m)] + rest, end)
  {
    QuotedReads(t, i, m, k);
  }

  lemma LastOne(t: seq<byte>, i: nat, m: seq<byte>, k: nat)
    requires At(t, i, Quoted(m)) && k == i + |Quoted(m)| && k < |t| && t[k] == CLOSE
    ensures StrsAt(t, i) == Strs([Clean(m)], k + 1)
  {
    QuotedReads(t, i, m, k);
  }

  /** The quoted messages stand in t from i on, commas between them and a bracket after the last, at j. */
  predicate ListAt(t: seq<byte>, i: nat, ms: seq<seq<byte>>, j: nat)
    decreases |ms|
  {
    && ms != [] && At(t, i, Quoted(ms[0]))
    && var k := i + |Quoted(ms[0])|;
      k < |t| && if |ms| == 1 then t[k] == CLOSE && k == j else t[k] == COMMA && ListAt(t, k + 1, ms[1..], j)
  }

  lemma {:induction false} ListStands(t: seq<byte>, i: nat, ms: seq<seq<byte>>, j: nat)
    requires ms != [] && At(t, i, Listed(ms)) && j == i + |Listed(ms)| && j < |t| && t[j] == CLOSE
    ensures ListAt(t, i, ms, j)
    decreases |ms|
  {
    if |ms| > 1 {
      var k := FrontOfList(t, i, ms, j);
      ListStands(t, k + 1, ms[1..], j);
    }
  }

  lemma {:induction false} ListReads(t: seq<byte>, i: nat, ms: seq<seq<byte>>, j: nat)
    requires ListAt(t, i, ms, j)
    ensures StrsAt(t, i) == Strs(AllClean(ms), j + 1)
    decreases |ms|
  {
    var k := i + |Quoted(ms[0])|;
    if |ms| == 1 {
      LastOne(t, i, ms[0], j);
      assert AllClean(ms) == [Clean(ms[0])];
    } else {
      ListReads(t, k + 1, ms[1..], j);
      OneOfMany(t, i, ms[0], k, AllClean(ms[1..]), j + 1);
      CleanFront(ms);
    }
  }

  lemma CleanFront(ms: seq<seq<byte>>)
    requires ms != []
    ensures AllClean(ms) == [Clean(ms[0])] + AllClean(ms[1..])
  {
  }

  lemma FrontOfList(t: seq<byte>, i: nat, ms: seq<seq<byte>>, j: nat) returns (k: nat)
    requires |ms| > 1 && At(t, i, Listed(ms)) && j == i + |Listed(ms)|
    ensures k == i + |Quoted(ms[0])| && At(t, i, Quoted(ms[0])) && k < |t| && t[k] == COMMA
    ensures At(t, k + 1, Listed(ms[1..])) && j == k + 1 + |Listed(ms[1..])|
  {
    ListedFront(ms);
    k := FrontParts(t, i, Quoted(ms[0]), Listed(ms[1..]));
  }

  lemma FrontParts(t: seq<byte>, i: nat, first: seq<byte>, rest: seq<byte>) returns (k: nat)
    requires At(t, i, first + ([COMMA] + rest))
    ensures k == i + |first| && At(t, i, first) && k < |t| && t[k] == COMMA && At(t, k + 1, rest)
    ensures |first + ([COMMA] + rest)| == |first| + 1 + |rest|
  {
    k := i + |first|;
    AtSplits(t, i, first, [COMMA] + rest);
    AtSplits(t, k, [COMMA], rest);
    AtByte(t, k, [COMMA], 0);
  }

  lemma Bracketed(t: seq<byte>, i: nat, inner: seq<byte>, j: nat)
    requires At(t, i, [OPEN] + inner + [CLOSE]) && j == i + 1 + |inner|
    ensures j < |t| && t[i] == OPEN && At(t, i + 1, inner) && t[j] == CLOSE && (inner != [] ==> t[i + 1] == inner[0])
  {
    AtSplits(t, i, [OPEN] + inner, [CLOSE]);
    AtSplits(t, i, [OPEN], inner);
    AtByte(t, i, [OPEN], 0);
    AtByte(t, j, [CLOSE], 0);
    if inner != [] {
      AtByte(t, i + 1, inner, 0);
    }
  }

  /** A printed array is read back as the messages without their control characters, in order. */
  lemma ArrayReads(t: seq<byte>, i: nat, ms: seq<seq<byte>>, j: nat)
    requires At(t, i, ArrayText(ms)) && j == i + |ArrayText(ms)|
    ensures ArrayAt(t, i) == Strs(AllClean(ms), j)
  {
    Bracketed(t, i, Listed(ms), j - 1);
    if ms != [] {
      ListStarts(ms);
      ListReadsAt(t, i + 1, ms, j - 1);
    } else {
      assert AllClean(ms) == [];
    }
  }

  lemma ListReadsAt(t: seq<byte>, i: nat, ms: seq<seq<byte>>, j: nat)
    requires ms != [] && At(t, i, Listed(ms)) && j == i + |Listed(ms)| && j < |t| && t[j] == CLOSE
    ensures StrsAt(t, i) == Strs(AllClean(ms), j + 1)
  {
    ListStands(t, i, ms, j);
    ListReads(t, i, ms, j);
  }

  lemma {:induction false} ListStarts(ms: seq<seq<byte>>)
    requires ms != []
    ensures Listed(ms) != [] && Listed(ms)[0] == QUOTE
    decreases |ms|
  {
    if |ms| > 1 {
      ListStarts(ms[..|ms| - 1]);
    }
  }
}
