/** Well-formed UTF-8 as section 4 of RFC 3629 defines it: what a Rust `&str` may hold. */
module Utf8 {
  import opened Bytes

  predicate Tail(b: byte) {
    0x80 <= b <= 0xBF
  }

  /** Length of the well-formed character at the start of s, 0 when there is none. */
  function CharLen(s: seq<byte>): (n: nat)
    ensures n <= |s| && n <= 4
  {
    if |s| >= 1 && s[0] <= 0x7F then 1
    else if |s| >= 2 && 0xC2 <= s[0] <= 0xDF && Tail(s[1]) then 2
    else if |s| >= 3 && Tail(s[1]) && Tail(s[2]) && (
      || (s[0] == 0xE0 && 0xA0 <= s[1])
      || 0xE1 <= s[0] <= 0xEC
      || (s[0] == 0xED && s[1] <= 0x9F)
      || 0xEE <= s[0] <= 0xEF) then 3
    else if |s| >= 4 && Tail(s[1]) && Tail(s[2]) && Tail(s[3]) && (
      || (s[0] == 0xF0 && 0x90 <= s[1])
      || 0xF1 <= s[0] <= 0xF3
      || (s[0] == 0xF4 && s[1] <= 0x8F)) then 4
    else 0
  }

  predicate Valid(s: seq<byte>) {
    s == [] || (CharLen(s) > 0 && Valid(s[CharLen(s)..]))
  }

  lemma {:induction false} AsciiBefore(a: seq<byte>, s: seq<byte>)
    requires (forall i :: 0 <= i < |a| ==> a[i] < 0x80) && Valid(s)
    ensures Valid(a + s)
    decreases |a|
  {
    if a == [] {
      assert a + s == s;
    } else {
      assert (a + s)[1..] == a[1..] + s;
      AsciiBefore(a[1..], s);
    }
  }

  lemma AsciiValid(a: seq<byte>)
    requires forall i :: 0 <= i < |a| ==> a[i] < 0x80
    ensures Valid(a)
  {
    AsciiBefore(a, []);
    assert a + [] == a;
  }

  // ---- code points (section 3 of RFC 3629) ----

  /** A Unicode scalar value: any code point but a surrogate. */
  predicate Scalar(c: nat) {
    c < 0xD800 || 0xE000 <= c < 0x11_0000
  }

  /** The bits of a code point spread over its octets. */
  function Encode(c: nat): (s: seq<byte>)
    requires c < 0x11_0000
    ensures 1 <= |s| <= 4
  {
    if c < 0x80 then [c]
    else if c < 0x800 then [0xC0 + c / 0x40, 0x80 + c % 0x40]
    else if c < 0x1_0000 then [0xE0 + c / 0x1000, 0x80 + c / 0x40 % 0x40, 0x80 + c % 0x40]
    else [0xF0 + c / 0x4_0000, 0x80 + c / 0x1000 % 0x40, 0x80 + c / 0x40 % 0x40, 0x80 + c % 0x40]
  }

  /** The code point that the first character of s carries. */
  function CodePoint(s: seq<byte>): (c: nat)
    requires CharLen(s) > 0
  {
    var n := CharLen(s);
    if n == 1 then s[0]
    else if n == 2 then 0x40 * (s[0] as int - 0xC0) + Low(s[1])
    else if n == 3 then 0x1000 * (s[0] as int - 0xE0) + 0x40 * Low(s[1]) + Low(s[2])
    else 0x4_0000 * (s[0] as int - 0xF0) + 0x1000 * Low(s[1]) + 0x40 * Low(s[2]) + Low(s[3])
  }

  /** The six bits a trailing octet carries. */
  function Low(b: byte): (n: int) {
    b as int - 0x80
  }

  function Decode(s: seq<byte>): (cs: seq<nat>)
    requires Valid(s)
  {
    if s == [] then [] else [CodePoint(s)] + Decode(s[CharLen(s)..])
  }

  predicate CodePoints(cs: seq<nat>) {
    forall i :: 0 <= i < |cs| ==> cs[i] < 0x11_0000
  }

  predicate Scalars(cs: seq<nat>) {
    forall i :: 0 <= i < |cs| ==> Scalar(cs[i])
  }

  function Encoded(cs: seq<nat>): (s: seq<byte>)
    requires CodePoints(cs)
  {
    if cs == [] then [] else Encode(cs[0]) + Encoded(cs[1..])
  }

  lemma LowBits(c: nat)
    requires c < 0x11_0000
    ensures c == c / 0x40 * 0x40 + c % 0x40 && c / 0x40 == c / 0x1000 * 0x40 + c / 0x40 % 0x40
    ensures c / 0x1000 == c / 0x4_0000 * 0x40 + c / 0x1000 % 0x40
  {
  }

  /** A code point is read back from its octets exactly when it is no surrogate; those encode to nothing valid. */
  lemma EncodeReads(c: nat, rest: seq<byte>)
    requires c < 0x11_0000
    ensures CharLen(Encode(c) + rest) == if Scalar(c) then |Encode(c)| else 0
    ensures Scalar(c) ==> CodePoint(Encode(c) + rest) == c
  {
    LowBits(c);
    var s := Encode(c) + rest;
    assert forall i :: 0 <= i < |Encode(c)| ==> s[i] == Encode(c)[i];
  }

  /** Text without surrogates, and only such text, encodes to valid UTF-8, from which it is read back. */
  lemma {:induction false} EncodedDecodes(cs: seq<nat>)
    requires CodePoints(cs)
    ensures Valid(Encoded(cs)) <==> Scalars(cs)
    ensures Scalars(cs) ==> Decode(Encoded(cs)) == cs
    decreases |cs|
  {
    if cs != [] {
      var rest := Encoded(cs[1..]);
      EncodeReads(cs[0], rest);
      EncodedDecodes(cs[1..]);
      assert (Encode(cs[0]) + rest)[|Encode(cs[0])|..] == rest;
      assert cs == [cs[0]] + cs[1..];
      assert Scalars(cs) <==> Scalar(cs[0]) && Scalars(cs[1..]) by {
        assert forall i :: 1 <= i < |cs| ==> cs[i] == cs[1..][i - 1];
        assert forall i :: 0 <= i < |cs| - 1 ==> cs[1..][i] == cs[i + 1];
      }
    }
  }

  lemma SixBits(high: int, low: int)
    requires 0 <= high && 0 <= low < 0x40
    ensures (0x40 * high + low) / 0x40 == high && (0x40 * high + low) % 0x40 == low
  {
  }

  lemma TwoOctets(s: seq<byte>)
    requires CharLen(s) == 2
    ensures Scalar(CodePoint(s)) && Encode(CodePoint(s)) == s[..2]
  {
    SixBits(s[0] as int - 0xC0, Low(s[1]));
  }

  lemma ThreeOctets(s: seq<byte>)
    requires CharLen(s) == 3
    ensures Scalar(CodePoint(s)) && Encode(CodePoint(s)) == s[..3]
  {
    var a, b, c := s[0] as int - 0xE0, Low(s[1]), Low(s[2]);
    SixBits(a, b);
    SixBits(0x40 * a + b, c);
    assert CodePoint(s) / 0x1000 == CodePoint(s) / 0x40 / 0x40;
  }

  lemma FourOctets(s: seq<byte>)
    requires CharLen(s) == 4
    ensures Scalar(CodePoint(s)) && Encode(CodePoint(s)) == s[..4]
  {
    var a, b, c, d := s[0] as int - 0xF0, Low(s[1]), Low(s[2]), Low(s[3]);
    SixBits(a, b);
    SixBits(0x40 * a + b, c);
    SixBits(0x40 * (0x40 * a + b) + c, d);
    assert CodePoint(s) / 0x1000 == CodePoint(s) / 0x40 / 0x40;
    assert CodePoint(s) / 0x4_0000 == CodePoint(s) / 0x40 / 0x40 / 0x40;
  }

  /** The first character of a text is that of a scalar value, spelled the one way there is. */
  lemma CharEncoded(s: seq<byte>, n: nat)
    requires n == CharLen(s) > 0
    ensures Scalar(CodePoint(s)) && Encode(CodePoint(s)) == s[..n]
  {
    if n == 2 {
      TwoOctets(s);
    } else if n == 3 {
      ThreeOctets(s);
    } else if n == 4 {
      FourOctets(s);
    }
  }

  lemma FirstAndRest(c: nat, cs: seq<nat>, s: seq<byte>, n: nat)
    requires c < 0x11_0000 && n <= |s| && Encode(c) == s[..n] && CodePoints(cs) && Encoded(cs) == s[n..]
    ensures CodePoints([c] + cs) && Encoded([c] + cs) == s
  {
    assert ([c] + cs)[1..] == cs && s == s[..n] + s[n..];
  }

  /** Valid UTF-8 is the encoding of the scalar values it decodes to, and of no others. */
  lemma {:induction false} DecodedEncodes(s: seq<byte>)
    requires Valid(s)
    ensures Scalars(Decode(s)) && Encoded(Decode(s)) == s
    decreases |s|
  {
    if s != [] {
      var n := CharLen(s);
      CharEncoded(s, n);
      DecodedEncodes(s[n..]);
      FirstAndRest(CodePoint(s), Decode(s[n..]), s, n);
    }
  }

  // ---- text cut to a size ----

  /** The cut falls between two characters or behind the last, and none before it is a surrogate. */
  ghost predicate CutWhole(cs: seq<nat>, max: nat)
    requires CodePoints(cs)
  {
    exists k :: 0 <= k <= |cs| && |Encoded(cs[..k])| == Min(max, |Encoded(cs)|) && Scalars(cs[..k])
  }

  /** A character that is cut is none. */
  lemma PartIsNoChar(c: nat, n: nat)
    requires c < 0x11_0000 && 0 < n < |Encode(c)|
    ensures !Valid(Encode(c)[..n])
  {
  }

  lemma OneMoreEncoded(cs: seq<nat>, k: nat)
    requires CodePoints(cs) && 0 < k <= |cs|
    ensures Encoded(cs[..k]) == Encode(cs[0]) + Encoded(cs[1..][..k - 1])
    ensures Scalars(cs[..k]) <==> Scalar(cs[0]) && Scalars(cs[1..][..k - 1])
  {
    assert cs[..k][1..] == cs[1..][..k - 1];
    assert cs[..k] == [cs[0]] + cs[1..][..k - 1];
    assert forall i :: 1 <= i < k ==> cs[..k][i] == cs[1..][..k - 1][i - 1];
  }

  lemma WholeBehind(cs: seq<nat>, max: nat)
    requires CodePoints(cs) && cs != [] && max >= |Encode(cs[0])|
    ensures CutWhole(cs, max) <==> Scalar(cs[0]) && CutWhole(cs[1..], max - |Encode(cs[0])|)
  {
    var rest, n := cs[1..], |Encode(cs[0])|;
    if CutWhole(cs, max) {
      var k :| 0 <= k <= |cs| && |Encoded(cs[..k])| == Min(max, |Encoded(cs)|) && Scalars(cs[..k]);
      assert k > 0 by {
        assert cs[..0] == [];
      }
      OneMoreEncoded(cs, k);
      assert |Encoded(rest[..k - 1])| == Min(max - n, |Encoded(rest)|);
    }
    if Scalar(cs[0]) && CutWhole(rest, max - n) {
      var k :| 0 <= k <= |rest| && |Encoded(rest[..k])| == Min(max - n, |Encoded(rest)|) && Scalars(rest[..k]);
      OneMoreEncoded(cs, k + 1);
    }
  }

  lemma CutInside(cs: seq<nat>, max: nat)
    requires CodePoints(cs) && cs != [] && 0 < max < |Encode(cs[0])|
    ensures !CutWhole(cs, max)
  {
    forall k | 0 <= k <= |cs| ensures |Encoded(cs[..k])| != max {
      if k == 0 {
        assert cs[..0] == [];
      } else {
        OneMoreEncoded(cs, k);
      }
    }
  }

  /** Encoded text cut to a size is valid exactly when no character before the cut is a surrogate and none is cut. */
  lemma {:induction false} CutValidIff(cs: seq<nat>, max: nat)
    requires CodePoints(cs)
    ensures Valid(Cut(Encoded(cs), max)) <==> CutWhole(cs, max)
    decreases |cs|
  {
    if cs == [] || max == 0 {
      assert Cut(Encoded(cs), max) == [] && cs[..0] == [];
    } else {
      var c, rest := Encode(cs[0]), Encoded(cs[1..]);
      if max < |c| {
        assert Cut(c + rest, max) == c[..max];
        PartIsNoChar(cs[0], max);
        CutInside(cs, max);
      } else {
        var tail := Cut(rest, max - |c|);
        assert Cut(c + rest, max) == c + tail && (c + tail)[|c|..] == tail;
        EncodeReads(cs[0], tail);
        WholeBehind(cs, max);
        CutValidIff(cs[1..], max - |c|);
      }
    }
  }
}
