/** Decimal numbers in linear memory: the printer with its in-place reversal, and the parser of signed tenths. */
module Decimal {
  import opened Bytes

  predicate IsDigit(c: byte) {
    48 <= c <= 57
  }

  predicate AllDigits(s: seq<byte>) {
    forall i :: 0 <= i < |s| ==> IsDigit(s[i])
  }

  /** The number a string of digits spells. */
  function Value(s: seq<byte>): (v: nat)
    requires AllDigits(s)
  {
    if s == [] then 0 else 10 * Value(s[..|s| - 1]) + (s[|s| - 1] - 48)
  }

  /** The usual way to write a number: digits, none of them a needless leading zero. */
  predicate Canonical(s: seq<byte>) {
    s != [] && AllDigits(s) && (s[0] == 48 ==> |s| == 1)
  }

  // ---- printing ----

  function Digits(v: nat): (s: seq<byte>)
    ensures s != [] && AllDigits(s)
  {
    (if v < 10 then [] else Digits(v / 10)) + [48 + v % 10]
  }

  lemma {:induction false} DigitsCanonical(v: nat)
    ensures Canonical(Digits(v)) && Value(Digits(v)) == v
    ensures v > 0 ==> Digits(v)[0] != 48
  {
    var s := Digits(v);
    if v >= 10 {
      DigitsCanonical(v / 10);
      assert s[..|s| - 1] == Digits(v / 10);
      assert s[0] == Digits(v / 10)[0];
    } else {
      assert s == [48 + v] && s[..0] == [];
    }
  }

  /** There is only one canonical way to write a number. */
  lemma {:induction false} CanonicalIsDigits(s: seq<byte>)
    requires Canonical(s)
    ensures s == Digits(Value(s))
    decreases |s|
  {
    var init, last := s[..|s| - 1], s[|s| - 1];
    if |s| == 1 {
      assert init == [] && s == [last];
    } else {
      assert init[0] == s[0];
      CanonicalIsDigits(init);
      PositiveValue(init);
      assert s == init + [last];
    }
  }

  lemma {:induction false} PositiveValue(s: seq<byte>)
    requires s != [] && AllDigits(s) && s[0] != 48
    ensures Value(s) > 0
    decreases |s|
  {
    if |s| > 1 {
      PositiveValue(s[..|s| - 1]);
    }
  }

  lemma {:induction false} DigitsLength(v: nat, n: nat)
    requires n > 0 && v < Pow10(n)
    ensures |Digits(v)| <= n
    decreases n
  {
    if v >= 10 {
      DigitsLength(v / 10, n - 1);
    }
  }

  function Pow10(n: nat): (p: nat) {
    if n == 0 then 1 else 10 * Pow10(n - 1)
  }

  /** Ten places are enough for a 32-bit number. */
  lemma U32Digits(v: u32)
    ensures |Digits(v)| <= 10
  {
    assert Pow10(10) == 100_0000_0000 by {
      assert Pow10(4) == 10000 && Pow10(7) == 1000_0000;
    }
    DigitsLength(v, 10);
  }

  /** v without its last k digits. */
  function Shifted(v: nat, k: nat): (r: nat)
    ensures r <= v
  {
    if k == 0 then v else Shifted(v / 10, k - 1)
  }

  /** The k-th digit of v from the right. */
  function Place(v: nat, k: nat): (c: byte) {
    48 + Shifted(v, k) % 10
  }

  lemma {:induction false} ShiftedNext(v: nat, k: nat)
    ensures Shifted(v, k + 1) == Shifted(v, k) / 10
    decreases k
  {
    if k > 0 {
      ShiftedNext(v / 10, k - 1);
    }
  }

  lemma {:induction false} DigitsArePlaces(v: nat, k: nat)
    requires k < |Digits(v)|
    ensures Digits(v)[|Digits(v)| - 1 - k] == Place(v, k)
    ensures Shifted(v, k) / 10 == 0 <==> k == |Digits(v)| - 1
    decreases k
  {
    if k > 0 {
      DigitsArePlaces(v / 10, k - 1);
    }
  }

  /** Write v in decimal at p; the address after it. */
  method WriteU32Dec(mem: array<byte>, p: nat, v: u32) returns (r: nat)
    requires p + |Digits(v)| <= mem.Length
    modifies mem
    ensures r == p + |Digits(v)| && mem[..] == Splice(old(mem[..]), p, Digits(v))
  {
    r := WriteBackwards(mem, p, v);
    Reverse(mem, p, r);
    forall k | p <= k < r ensures mem[k] == Digits(v)[k - p] {
      DigitsArePlaces(v, r - 1 - k);
    }
  }

  method WriteBackwards(mem: array<byte>, p: nat, v: u32) returns (r: nat)
    requires p + |Digits(v)| <= mem.Length
    modifies mem
    ensures r == p + |Digits(v)|
    ensures forall k :: p <= k < r ==> mem[k] == Place(v, k - p)
    ensures forall k :: 0 <= k < mem.Length && !(p <= k < r) ==> mem[k] == old(mem[k])
  {
    r := p;
    var rest: u32 := v;
    while true
      invariant p <= r < p + |Digits(v)| && rest == Shifted(v, r - p)
      invariant forall k :: p <= k < r ==> mem[k] == Place(v, k - p)
      invariant forall k :: 0 <= k < mem.Length && !(p <= k < r) ==> mem[k] == old(mem[k])
      decreases rest
    {
      DigitsArePlaces(v, r - p);
      ShiftedNext(v, r - p);
      mem[r] := 48 + rest % 10;
      r, rest := r + 1, rest / 10;
      if rest == 0 {
        break;
      }
    }
  }

  /** The reversal in place of the bytes from lo on, hi excluded. */
  method Reverse(mem: array<byte>, lo: nat, hi: nat)
    requires lo < hi <= mem.Length
    modifies mem
    ensures forall k :: lo <= k < hi ==> mem[k] == old(mem[lo + hi - 1 - k])
    ensures forall k :: 0 <= k < mem.Length && !(lo <= k < hi) ==> mem[k] == old(mem[k])
  {
    var front, back := lo, hi - 1;
    while front < back
      invariant lo <= front <= back + 1 && front + back == lo + hi - 1
      invariant forall k :: lo <= k < front || back < k < hi ==> mem[k] == old(mem[lo + hi - 1 - k])
      invariant forall k :: front <= k <= back ==> mem[k] == old(mem[k])
      invariant forall k :: 0 <= k < mem.Length && !(lo <= k < hi) ==> mem[k] == old(mem[k])
    {
      mem[front], mem[back] := mem[back], mem[front];
      front, back := front + 1, back - 1;
    }
  }

  // ---- parsing ----

  /** Where the run of digits from i on ends. */
  function DigitsEnd(t: seq<byte>, i: nat): (r: nat)
    requires i <= |t|
    ensures i <= r <= |t| && AllDigits(t[i..r]) && (r < |t| ==> !IsDigit(t[r]))
    decreases |t| - i
  {
    if i < |t| && IsDigit(t[i]) then DigitsEnd(t, i + 1) else i
  }

  /** Where the number after an optional sign starts, and the sign. */
  function SignAt(t: seq<byte>, i: nat): (r: (int, nat))
    requires i < |t|
    ensures i <= r.1 <= |t|
  {
    if t[i] == 43 then (1, i + 1) else if t[i] == 45 then (-1, i + 1) else (1, i)
  }

  /** The digit after a point at i, if there is one; and the index after what was taken. */
  function FractionAt(t: seq<byte>, i: nat): (r: (nat, nat))
    requires i <= |t|
    ensures r.0 <= 9 && i <= r.1 <= |t|
  {
    if i < |t| && t[i] == 46 then
      if i + 1 < |t| && IsDigit(t[i + 1]) then (t[i + 1] - 48, i + 2) else (0, i + 1)
    else (0, i)
  }

  /** Multiplication by a sign. */
  function Times(sign: int, v: int): (r: int) {
    if sign < 0 then -v else v
  }

  /** A number as the parser finds it: sign, units, tenth, and the index after it. */
  datatype Found = Found(sign: int, units: nat, tenth: nat, end: nat)

  function FoundAt(t: seq<byte>, i: nat): (f: Found)
    requires i < |t|
    ensures i <= f.end <= |t|
  {
    var (sign, start) := SignAt(t, i);
    var point := DigitsEnd(t, start);
    var (tenth, end) := FractionAt(t, point);
    Found(sign, Value(t[start..point]), tenth, end)
  }

  /** The tenths found, as a 32-bit two's complement word. */
  function Word(f: Found): (w: u32) {
    Wrap32(Times(f.sign, 10 * f.units + f.tenth))
  }

  /** What a parser yields: a word if there is a number, and the index after it. */
  datatype Reading = Reading(word: Option<u32>, end: nat)

  function Tenths(t: seq<byte>, i: nat): (r: Reading)
    ensures i <= r.end && (i <= |t| ==> r.end <= |t|)
  {
    if i >= |t| then Reading(None, i) else Reading(Some(Word(FoundAt(t, i))), FoundAt(t, i).end)
  }

  /** A 32-bit word read as a signed number. */
  function Signed32(w: u32): (v: int) {
    if w < 0x8000_0000 then w else w - TWO32
  }

  lemma SignedRoundTrip(v: int)
    requires -0x8000_0000 <= v < 0x8000_0000
    ensures Signed32(Wrap32(v)) == v
  {
  }

  /** A decimal number with one place. */
  datatype Decimal = Decimal(sign: Sign, units: seq<byte>, tenth: byte)
  datatype Sign = Plus | Minus | Unsigned

  predicate ValidDecimal(d: Decimal) {
    AllDigits(d.units) && IsDigit(d.tenth)
  }

  function SignMark(s: Sign): (m: seq<byte>) {
    match s case Plus => [43] case Minus => [45] case Unsigned => []
  }

  function Spelling(d: Decimal): (s: seq<byte>)
    ensures s != []
  {
    SignMark(d.sign) + d.units + [46, d.tenth]
  }

  function TenthsOf(d: Decimal): (v: int)
    requires ValidDecimal(d)
  {
    Times(if d.sign.Minus? then -1 else 1, 10 * Value(d.units) + (d.tenth - 48))
  }

  lemma {:induction false} RunEnds(t: seq<byte>, i: nat, end: nat)
    requires i <= end <= |t| && AllDigits(t[i..end]) && (end < |t| ==> !IsDigit(t[end]))
    ensures DigitsEnd(t, i) == end
    decreases end - i
  {
    if i < end {
      assert t[i..end][0] == t[i] && t[i + 1..end] == t[i..end][1..];
      RunEnds(t, i + 1, end);
    }
  }

  lemma ValueGrows(t: seq<byte>, lo: nat, hi: nat)
    requires lo <= hi < |t| && AllDigits(t[lo..hi]) && IsDigit(t[hi])
    ensures AllDigits(t[lo..hi + 1]) && Value(t[lo..hi + 1]) == 10 * Value(t[lo..hi]) + (t[hi] - 48)
  {
    assert t[lo..hi + 1] == t[lo..hi] + [t[hi]];
    assert t[lo..hi + 1][..hi - lo] == t[lo..hi];
  }

  /** Wrapping before multiplying by ten and adding a digit makes no difference after wrapping. */
  lemma WrapStep(v: nat, d: nat)
    ensures Wrap32(Wrap32(Wrap32(v) * 10) + d) == Wrap32(10 * v + d)
  {
    var q, r := v / TWO32, v % TWO32;
    assert v == q * TWO32 + r;
    WrapAdds(r * 10, d);
    WrapMultiple(10 * r + d, 10 * q);
  }

  lemma WrapMultiple(a: int, k: int)
    ensures Wrap32(a + k * TWO32) == Wrap32(a)
  {
    var x, y := a % TWO32, (a + k * TWO32) % TWO32;
    var qa, qb := a / TWO32, (a + k * TWO32) / TWO32;
    assert y - x == (k + qa - qb) * TWO32;
  }

  lemma WrapAdds(a: int, b: int)
    ensures Wrap32(Wrap32(a) + b) == Wrap32(a + b)
  {
    WrapMultiple(Wrap32(a) + b, a / TWO32);
  }

  lemma SignRead(t: seq<byte>, i: nat, d: Decimal)
    requires ValidDecimal(d) && At(t, i, SignMark(d.sign)) && At(t, i + |SignMark(d.sign)|, d.units)
    requires i + |SignMark(d.sign)| + |d.units| < |t| && t[i + |SignMark(d.sign)| + |d.units|] == 46
    ensures SignAt(t, i) == (if d.sign.Minus? then -1 else 1, i + |SignMark(d.sign)|)
  {
    if d.sign.Unsigned? {
      if d.units != [] {
        AtByte(t, i, d.units, 0);
      }
    } else {
      AtByte(t, i, SignMark(d.sign), 0);
    }
  }

  /** The parser reads back any number with one place, modulo 2^32, and stops right after its last digit. */
  lemma TenthsRead(t: seq<byte>, i: nat, d: Decimal)
    requires ValidDecimal(d) && At(t, i, Spelling(d))
    ensures Tenths(t, i) == Reading(Some(Wrap32(TenthsOf(d))), i + |Spelling(d)|)
  {
    FoundReads(t, i, d);
    WordOf(d, FoundAt(t, i));
  }

  lemma WordOf(d: Decimal, f: Found)
    requires ValidDecimal(d)
    requires f.sign == (if d.sign.Minus? then -1 else 1) && f.units == Value(d.units) && f.tenth == d.tenth as int - 48
    ensures Word(f) == Wrap32(TenthsOf(d))
  {
  }

  lemma FoundReads(t: seq<byte>, i: nat, d: Decimal)
    requires ValidDecimal(d) && At(t, i, Spelling(d))
    ensures FoundAt(t, i) == Found(if d.sign.Minus? then -1 else 1, Value(d.units), d.tenth - 48, i + |Spelling(d)|)
  {
    var n := |SignMark(d.sign)|;
    var point := i + n + |d.units|;
    PartsOf(t, i, d);
    SignRead(t, i, d);
    RunEnds(t, i + n, point);
  }

  lemma PartsOf(t: seq<byte>, i: nat, d: Decimal)
    requires At(t, i, Spelling(d))
    ensures var point := i + |SignMark(d.sign)| + |d.units|;
      && At(t, i, SignMark(d.sign)) && At(t, i + |SignMark(d.sign)|, d.units)
      && point + 1 < |t| && t[point] == 46 && t[point + 1] == d.tenth && |Spelling(d)| == point + 2 - i
  {
    var point := i + |SignMark(d.sign)| + |d.units|;
    AtSplits(t, i, SignMark(d.sign) + d.units, [46, d.tenth]);
    AtSplits(t, i, SignMark(d.sign), d.units);
    AtByte(t, point, [46, d.tenth], 0);
    AtByte(t, point, [46, d.tenth], 1);
  }

  /** The word as it is computed, wrapping after every operation. */
  lemma WordWrapped(f: Found)
    ensures Wrap32(Times(f.sign, Wrap32(Wrap32(Wrap32(f.units) * 10) + f.tenth))) == Word(f)
    ensures f.tenth == 0 ==> Wrap32(Times(f.sign, Wrap32(Wrap32(f.units) * 10))) == Word(f)
  {
    WrapStep(f.units, f.tenth);
    WrapStep(f.units, 0);
    WrapSigned(f.sign, 10 * f.units + f.tenth);
  }

  lemma WrapSigned(sign: int, v: nat)
    ensures Wrap32(Times(sign, Wrap32(v))) == Wrap32(Times(sign, v))
  {
    var q := v / TWO32;
    assert v == q * TWO32 + Wrap32(v);
    WrapMultiple(0 - Wrap32(v) as int, -q);
  }

  /** m with v stored at `at`, if there is a v. */
  function Stored(m: seq<byte>, at: nat, v: Option<u32>): (r: seq<byte>)
    requires at + 4 <= |m|
    ensures |r| == |m|
  {
    if v.Some? then Splice(m, at, LE32(v.value)) else m
  }

  lemma StoredFrame(m: seq<byte>, at: nat, v: Option<u32>, lo: nat, hi: nat)
    requires at + 4 <= |m| && lo <= hi <= |m| && (hi <= at || at + 4 <= lo)
    ensures Stored(m, at, v)[lo..hi] == m[lo..hi]
  {
    if v.Some? {
      SpliceFrame(m, at, LE32(v.value), lo, hi);
    }
  }

  method StoreWord(mem: array<byte>, at: nat, word: u32)
    requires at + 4 <= mem.Length
    modifies mem
    ensures mem[..] == Stored(old(mem[..]), at, Some(word))
  {
    PutU32(mem, at, word);
  }

  /** The len bytes at `at` lie outside the text of `end` bytes at base. */
  predicate Outside(base: nat, end: nat, at: nat, len: nat) {
    at + len <= base || base + end <= at
  }

  method ParseSignedTenths(mem: array<byte>, base: nat, i: nat, end: nat, outPtr: nat) returns (r: nat)
    requires base + end <= mem.Length && outPtr + 4 <= mem.Length && Outside(base, end, outPtr, 4)
    modifies mem
    ensures var v := Tenths(old(mem[base..base + end]), i);
      r == v.end && mem[..] == Stored(old(mem[..]), outPtr, v.word)
  {
    r := i;
    if r >= end {
      return;
    }
    var word;
    word, r := ReadTenths(mem, base, i, end);
    StoreWord(mem, outPtr, word);
  }

  /** The digits from i on as a number modulo 2^32, and where they end. */
  method ReadUnits(mem: array<byte>, base: nat, i: nat, end: nat) returns (val: u32, r: nat)
    requires base + end <= mem.Length && i <= end
    ensures var t := mem[base..base + end];
      r == DigitsEnd(t, i) && val == Wrap32(Value(t[i..r]))
  {
    ghost var t := mem[base..base + end];
    val, r := 0, i;
    while r < end
      invariant i <= r <= end && AllDigits(t[i..r]) && val == Wrap32(Value(t[i..r]))
    {
      var c := mem[base + r];
      if c < 48 {
        break;
      }
      if c > 57 {
        break;
      }
      var digit: nat := c as int - 48;
      ValueGrows(t, i, r);
      WrapStep(Value(t[i..r]), digit);
      val := Wrap32(Wrap32(val as int * 10) + digit);
      r := r + 1;
    }
    RunEnds(t, i, r);
  }

  /** A point and a digit, each if present; the digit is added. */
  method AddFraction(mem: array<byte>, base: nat, point: nat, end: nat, tens: u32) returns (tenths: u32, r: nat)
    requires base + end <= mem.Length && point <= end
    ensures var f := FractionAt(mem[base..base + end], point); r == f.1 && tenths == Wrap32(tens + f.0)
  {
    tenths, r := tens, point;
    if r < end && mem[base + r] == 46 {
      r := r + 1;
      if r < end {
        var c := mem[base + r];
        if IsDigit(c) {
          tenths := Wrap32(tenths + (c - 48));
          r := r + 1;
        }
      }
    }
  }

  method ReadSign(mem: array<byte>, base: nat, i: nat, end: nat) returns (sign: int, r: nat)
    requires base + end <= mem.Length && i < end
    ensures (sign, r) == SignAt(mem[base..base + end], i)
  {
    sign, r := 1, i;
    var c := mem[base + r];
    if c == 43 {
      r := r + 1;
    } else if c == 45 {
      sign, r := -1, r + 1;
    }
  }

  /** The parts of a number make its reading, wrapped as they are read. */
  lemma PartsRead(t: seq<byte>, i: nat, start: nat, point: nat, val: u32, tenths: u32)
    requires i < |t| && start == SignAt(t, i).1 && point == DigitsEnd(t, start) && val == Wrap32(Value(t[start..point]))
    requires tenths == Wrap32(Wrap32(val as int * 10) + FractionAt(t, point).0)
    ensures Tenths(t, i) == Reading(Some(Wrap32(Times(SignAt(t, i).0, tenths))), FractionAt(t, point).1)
  {
    WordWrapped(FoundAt(t, i));
  }

  method ReadTenths(mem: array<byte>, base: nat, i: nat, end: nat) returns (word: u32, r: nat)
    requires base + end <= mem.Length && i < end
    ensures Tenths(mem[base..base + end], i) == Reading(Some(word), r)
  {
    var sign, start := ReadSign(mem, base, i, end);
    var val, point := ReadUnits(mem, base, start, end);
    var tenths;
    tenths, r := AddFraction(mem, base, point, end, Wrap32(val as int * 10));
    PartsRead(mem[base..base + end], i, start, point, val, tenths);
    word := Wrap32(Times(sign, tenths));
  }

  /** Index of the first byte above the space, from i on. */
  function SkipWs(t: seq<byte>, i: nat): (r: nat)
    ensures i <= r && (i <= |t| ==> r <= |t|)
    decreases |t| - i
  {
    if i < |t| && t[i] <= 32 then SkipWs(t, i + 1) else i
  }

  method SkipWhite(mem: array<byte>, base: nat, i: nat, end: nat) returns (r: nat)
    requires base + end <= mem.Length
    ensures r == SkipWs(mem[base..base + end], i)
  {
    r := i;
    while r < end && mem[base + r] <= 32
      invariant SkipWs(mem[base..base + end], r) == SkipWs(mem[base..base + end], i)
    {
      r := r + 1;
    }
  }

  /** Where the first number of a coordinate pair starts: after white space and an opening quote. */
  function CodStart(t: seq<byte>, i: nat): (r: nat)
    ensures i <= r
  {
    var j := SkipWs(t, i);
    if j < |t| && t[j] == 34 then j + 1 else j
  }

  /** Latitude and longitude as read one after the other. */
  function Latitude(t: seq<byte>, i: nat): (r: Reading) {
    if SkipWs(t, i) >= |t| then Reading(None, SkipWs(t, i)) else Tenths(t, CodStart(t, i))
  }

  function Longitude(t: seq<byte>, i: nat): (r: Reading) {
    if SkipWs(t, i) >= |t| then Reading(None, SkipWs(t, i)) else Tenths(t, Latitude(t, i).end)
  }

  lemma PairByParts(t: seq<byte>, i: nat, lat: Option<u32>, j: nat)
    requires SkipWs(t, i) < |t| && Tenths(t, CodStart(t, i)) == Reading(lat, j)
    ensures Latitude(t, i) == Reading(lat, j) && Longitude(t, i) == Tenths(t, j)
  {
  }

  method ParseCod(mem: array<byte>, base: nat, i: nat, end: nat, latPtr: nat, lonPtr: nat) returns (r: nat)
    requires base + end <= mem.Length && latPtr + 4 <= mem.Length && lonPtr + 4 <= mem.Length
    requires Outside(base, end, latPtr, 4) && Outside(base, end, lonPtr, 4)
    modifies mem
    ensures var t := old(mem[base..base + end]);
      && r == Longitude(t, i).end
      && mem[..] == Stored(Stored(old(mem[..]), latPtr, Latitude(t, i).word), lonPtr, Longitude(t, i).word)
  {
    ghost var t := mem[base..base + end];
    r := SkipWhite(mem, base, i, end);
    if r >= end {
      return;
    }
    if mem[base + r] == 34 {
      r := r + 1;
    }
    PairByParts(t, i, Tenths(t, r).word, Tenths(t, r).end);
    r := ParsePair(mem, base, r, end, latPtr, lonPtr);
  }

  method ParsePair(mem: array<byte>, base: nat, i: nat, end: nat, latPtr: nat, lonPtr: nat) returns (r: nat)
    requires base + end <= mem.Length && latPtr + 4 <= mem.Length && lonPtr + 4 <= mem.Length
    requires Outside(base, end, latPtr, 4) && Outside(base, end, lonPtr, 4)
    modifies mem
    ensures var t := old(mem[base..base + end]);
      var lat := Tenths(t, i);
      var lon := Tenths(t, lat.end);
      r == lon.end && mem[..] == Stored(Stored(old(mem[..]), latPtr, lat.word), lonPtr, lon.word)
  {
    ghost var m, t := mem[..], mem[base..base + end];
    ghost var lat := Tenths(t, i);
    r := ParseSignedTenths(mem, base, i, end, latPtr);
    ghost var m1 := mem[..];
    assert m1 == Stored(m, latPtr, lat.word);
    StoredFrame(m, latPtr, lat.word, base, base + end);
    assert mem[base..base + end] == m1[base..base + end] == m[base..base + end] == t;
    ghost var lon := Tenths(t, r);
    r := ParseSignedTenths(mem, base, r, end, lonPtr);
    assert mem[..] == Stored(m1, lonPtr, lon.word);
  }

  predicate AllWhite(s: seq<byte>) {
    forall i :: 0 <= i < |s| ==> s[i] <= 32
  }

  lemma {:induction false} SkipsWhite(t: seq<byte>, i: nat, white: seq<byte>)
    requires AllWhite(white) && At(t, i, white) && i + |white| < |t| && t[i + |white|] > 32
    ensures SkipWs(t, i) == i + |white|
    decreases |white|
  {
    if white != [] {
      assert t[i] == white[0] && t[i + 1..i + |white|] == white[1..];
      SkipsWhite(t, i + 1, white[1..]);
    }
  }

  lemma CodStarts(t: seq<byte>, i: nat, white: seq<byte>)
    requires AllWhite(white) && At(t, i, white + [34])
    ensures SkipWs(t, i) < |t| && CodStart(t, i) == i + |white| + 1
  {
    AtSplits(t, i, white, [34]);
    AtByte(t, i + |white|, [34], 0);
    SkipsWhite(t, i, white);
  }

  lemma PairSplits(t: seq<byte>, i: nat, white: seq<byte>, a: seq<byte>, b: seq<byte>) returns (start: nat, mid: nat)
    requires At(t, i, white + [34] + a + b)
    ensures start == i + |white| + 1 && mid == start + |a|
    ensures At(t, i, white + [34]) && At(t, start, a) && At(t, mid, b)
  {
    start, mid := i + |white| + 1, i + |white| + 1 + |a|;
    AtSplits(t, i, white + [34] + a, b);
    AtSplits(t, i, white + [34], a);
  }

  /** Both coordinates of a quoted pair come back, and whatever follows them (an altitude, a solidus) is left alone. */
  lemma CoordinatesRead(t: seq<byte>, i: nat, white: seq<byte>, lat: Decimal, lon: Decimal)
    requires ValidDecimal(lat) && ValidDecimal(lon) && AllWhite(white)
    requires At(t, i, white + [34] + Spelling(lat) + Spelling(lon))
    ensures Latitude(t, i).word == Some(Wrap32(TenthsOf(lat))) && Longitude(t, i).word == Some(Wrap32(TenthsOf(lon)))
    ensures Longitude(t, i).end == i + |white| + 1 + |Spelling(lat)| + |Spelling(lon)|
  {
    var start, mid := PairSplits(t, i, white, Spelling(lat), Spelling(lon));
    CodStarts(t, i, white);
    TenthsRead(t, start, lat);
    TenthsRead(t, mid, lon);
    PairByParts(t, i, Some(Wrap32(TenthsOf(lat))), mid);
  }
}
