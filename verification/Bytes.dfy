/** Bytes, little-endian words, and in-place replacement inside a byte sequence. */
module Bytes {

  datatype Option<+T> = None | Some(value: T)

  type byte = b: int | 0 <= b < 256
  type u16 = x: int | 0 <= x < 0x1_0000
  type u32 = x: int | 0 <= x < 0x1_0000_0000

  const TWO16 := 0x1_0000
  const TWO32 := 0x1_0000_0000
  const TWO64 := 0x1_0000_0000_0000_0000

  function Min(a: nat, b: nat): (r: nat) {
    if a <= b then a else b
  }

  /** s cut to at most n bytes. */
  function Cut(s: seq<byte>, n: nat): (r: seq<byte>)
    ensures |r| == Min(|s|, n)
  {
    s[..Min(|s|, n)]
  }

  /** The index of the first c in s, its length if there is none. */
  function IndexOf(s: seq<byte>, c: byte): (i: nat)
    ensures i <= |s| && (i < |s| ==> s[i] == c) && forall k :: 0 <= k < i ==> s[k] != c
  {
    if s == [] || s[0] == c then 0 else 1 + IndexOf(s[1..], c)
  }

  lemma IndexIs(s: seq<byte>, c: byte, i: nat)
    requires i <= |s| && (i < |s| ==> s[i] == c) && forall k :: 0 <= k < i ==> s[k] != c
    ensures IndexOf(s, c) == i
  {
  }

  /** Unsigned 32-bit wrap-around. */
  function Wrap32(x: int): (r: u32) {
    x % TWO32
  }

  function LE32(v: u32): (s: seq<byte>)
    ensures |s| == 4
  {
    [v % 256, v / 256 % 256, v / 256 / 256 % 256, v / 256 / 256 / 256]
  }

  function U32At(s: seq<byte>, at: nat): (v: u32)
    requires at + 4 <= |s|
  {
    s[at] as int + 0x100 * s[at + 1] as int + 0x1_0000 * s[at + 2] as int + 0x100_0000 * s[at + 3] as int
  }

  function LE16(v: u16): (s: seq<byte>)
    ensures |s| == 2
  {
    [v % 256, v / 256]
  }

  function U16At(s: seq<byte>, at: nat): (v: u16)
    requires at + 2 <= |s|
  {
    s[at] as int + 0x100 * s[at + 1] as int
  }

  lemma LE32RoundTrip(v: u32)
    ensures U32At(LE32(v), 0) == v
  {
    var q := v / 256;
    var r := q / 256;
    assert v == 256 * q + v % 256 && q == 256 * r + q % 256 && r == 256 * (r / 256) + r % 256;
  }

  /** s with the bytes from `at` on replaced by x. */
  function Splice(s: seq<byte>, at: nat, x: seq<byte>): (r: seq<byte>)
    requires at + |x| <= |s|
    ensures |r| == |s|
    ensures forall k :: 0 <= k < |s| ==> r[k] == if at <= k < at + |x| then x[k - at] else s[k]
  {
    s[..at] + x + s[at + |x|..]
  }

  lemma SpliceFrame(s: seq<byte>, at: nat, x: seq<byte>, lo: nat, hi: nat)
    requires at + |x| <= |s| && lo <= hi <= |s|
    requires hi <= at || at + |x| <= lo
    ensures Splice(s, at, x)[lo..hi] == s[lo..hi]
  {
  }

  lemma SpliceHit(s: seq<byte>, at: nat, x: seq<byte>)
    requires at + |x| <= |s|
    ensures Splice(s, at, x)[at..at + |x|] == x
  {
  }

  lemma SubSlice(m: seq<byte>, lo: nat, hi: nat, a: nat, b: nat)
    requires lo <= hi <= |m| && a <= b <= hi - lo
    ensures m[lo..hi][a..b] == m[lo + a..lo + b]
  {
    var s, x, y := m[lo..hi], m[lo..hi][a..b], m[lo + a..lo + b];
    assert |x| == |y|;
    forall k | 0 <= k < |x| ensures x[k] == y[k] {
      assert x[k] == s[a + k] == m[lo + (a + k)] == y[k];
    }
  }

  lemma U32Stored(s: seq<byte>, at: nat, v: u32)
    requires at + 4 <= |s|
    ensures U32At(Splice(s, at, LE32(v)), at) == v
  {
    var w := LE32(v);
    LE32RoundTrip(v);
    assert Splice(s, at, w)[at..at + 4] == w;
    U32Slice(Splice(s, at, w), at);
  }

  lemma U32Slice(s: seq<byte>, at: nat)
    requires at + 4 <= |s|
    ensures U32At(s, at) == U32At(s[at..at + 4], 0)
  {
  }

  lemma LE16RoundTrip(v: u16)
    ensures U16At(LE16(v), 0) == v
  {
  }

  lemma U16Stored(s: seq<byte>, at: nat, v: u16)
    requires at + 2 <= |s|
    ensures U16At(Splice(s, at, LE16(v)), at) == v
  {
    LE16RoundTrip(v);
  }

  function LE64(v: nat): (s: seq<byte>)
    requires v < TWO64
    ensures |s| == 8
  {
    LE32(v % TWO32) + LE32(v / TWO32)
  }

  function U64At(s: seq<byte>, at: nat): (v: nat)
    requires at + 8 <= |s|
  {
    U32At(s, at) + TWO32 * U32At(s, at + 4)
  }

  lemma Assoc<T>(a: seq<T>, b: seq<T>, c: seq<T>)
    ensures a + b + c == a + (b + c)
  {
  }

  /** The bytes s stand in t at i. */
  predicate At(t: seq<byte>, i: nat, s: seq<byte>) {
    i + |s| <= |t| && t[i..i + |s|] == s
  }

  lemma AtSplits(t: seq<byte>, i: nat, a: seq<byte>, b: seq<byte>)
    requires At(t, i, a + b)
    ensures At(t, i, a) && At(t, i + |a|, b)
  {
    var w := t[i..i + |a + b|];
    assert t[i..i + |a|] == w[..|a|] == a;
    assert t[i + |a|..i + |a| + |b|] == w[|a|..] == b;
  }

  lemma AtJoins(t: seq<byte>, i: nat, a: seq<byte>, b: seq<byte>)
    requires At(t, i, a) && At(t, i + |a|, b)
    ensures At(t, i, a + b)
  {
    assert t[i..i + |a + b|] == t[i..i + |a|] + t[i + |a|..i + |a| + |b|];
  }

  lemma AtBehind(a: seq<byte>, b: seq<byte>, q: nat, x: seq<byte>)
    ensures At(a + b, |a| + q, x) <==> At(b, q, x)
  {
    if q + |x| <= |b| {
      assert (a + b)[|a| + q..|a| + q + |x|] == b[q..q + |x|];
    }
  }

  lemma AtByte(t: seq<byte>, i: nat, a: seq<byte>, k: nat)
    requires At(t, i, a) && k < |a|
    ensures i + k < |t| && t[i + k] == a[k]
  {
    assert t[i..i + |a|][k] == t[i + k];
  }

  /** Words read where they stand. */
  lemma U64Reads(s: seq<byte>, at: nat, v: nat)
    requires v < TWO64 && At(s, at, LE64(v))
    ensures U64At(s, at) == v
  {
    AtSplits(s, at, LE32(v % TWO32), LE32(v / TWO32));
    U32Reads(s, at, v % TWO32);
    U32Reads(s, at + 4, v / TWO32);
  }

  lemma U32Reads(s: seq<byte>, at: nat, v: u32)
    requires At(s, at, LE32(v))
    ensures U32At(s, at) == v
  {
    U32Slice(s, at);
    LE32RoundTrip(v);
  }

  lemma U16Reads(s: seq<byte>, at: nat, v: u16)
    requires At(s, at, LE16(v))
    ensures U16At(s, at) == v
  {
    AtByte(s, at, LE16(v), 0);
    AtByte(s, at, LE16(v), 1);
  }

  /** A word is spelled by the bytes it is read from. */
  lemma LE32Reads(s: seq<byte>, at: nat)
    requires at + 4 <= |s|
    ensures s[at..at + 4] == LE32(U32At(s, at))
  {
    Quotient(s[at + 2], s[at + 3]);
    var high: nat := s[at + 2] as int + 256 * s[at + 3] as int;
    Quotient(s[at + 1], high);
    Quotient(s[at], s[at + 1] as int + 256 * high);
  }

  lemma Quotient(low: byte, high: nat)
    ensures (low as int + 256 * high) % 256 == low && (low as int + 256 * high) / 256 == high
  {
  }

  /** A text in ASCII; any other character is a question mark. */
  function Ascii(s: string): (b: seq<byte>)
    ensures |b| == |s|
  {
    seq(|s|, i requires 0 <= i < |s| => if s[i] < 128 as char then s[i] as int else 63)
  }

  function Zeros(n: nat): (s: seq<byte>)
    ensures |s| == n && forall k :: 0 <= k < n ==> s[k] == 0
  {
    seq(n, _ => 0)
  }

  /** Store a little-endian word in a byte array. */
  method PutU32(a: array<byte>, at: nat, v: u32)
    requires at + 4 <= a.Length
    modifies a
    ensures a[..] == Splice(old(a[..]), at, LE32(v))
  {
    var w := LE32(v);
    a[at], a[at + 1], a[at + 2], a[at + 3] := w[0], w[1], w[2], w[3];
  }

  method PutU16(a: array<byte>, at: nat, v: u16)
    requires at + 2 <= a.Length
    modifies a
    ensures a[..] == Splice(old(a[..]), at, LE16(v))
  {
    a[at], a[at + 1] := LE16(v)[0], LE16(v)[1];
  }

  /** Copy a byte sequence into a byte array. */
  method PutBytes(a: array<byte>, at: nat, x: seq<byte>)
    requires at + |x| <= a.Length
    modifies a
    ensures a[..] == Splice(old(a[..]), at, x)
  {
    forall k | 0 <= k < |x| {
      a[at + k] := x[k];
    }
  }
}
