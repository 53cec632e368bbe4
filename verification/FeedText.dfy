/** Reading the earthquake feed's JSON text in linear memory: finding a field, decoding a string. */
module FeedText {
  import opened Bytes
  import opened Decimal
  import Utf8

  const QUOTE: byte := 34
  const BACKSLASH: byte := 92
  const LETTER_U: byte := 117

  // ---- finding a field ----

  function Quoted(key: seq<byte>): (s: seq<byte>) {
    [QUOTE] + key + [QUOTE]
  }

  /** The index after the colon of the first quoted key at or after i. */
  function FieldAt(t: seq<byte>, i: nat, key: seq<byte>): (r: Option<nat>)
    decreases |t| - i
  {
    if i >= |t| then None
    else if At(t, i, Quoted(key)) then Some(i + |key| + 3)
    else FieldAt(t, i + 1, key)
  }

  /** A field is found exactly where its quoted key first occurs, and not found exactly when it never occurs. */
  lemma {:induction false} FieldIsFirst(t: seq<byte>, i: nat, key: seq<byte>, p: nat)
    requires i <= p && forall q :: i <= q < p ==> !At(t, q, Quoted(key))
    ensures FieldAt(t, i, key) == Some(p + |key| + 3) <==> At(t, p, Quoted(key))
    ensures p >= |t| ==> FieldAt(t, i, key) == None
    decreases p - i
  {
    if i < p && i < |t| {
      FieldIsFirst(t, i + 1, key, p);
    } else if i == p < |t| {
      LaterField(t, i + 1, key);
    }
  }

  lemma {:induction false} LaterField(t: seq<byte>, i: nat, key: seq<byte>)
    ensures FieldAt(t, i, key).Some? ==> FieldAt(t, i, key).value >= i + |key| + 3
    decreases |t| - i
  {
    if i < |t| {
      LaterField(t, i + 1, key);
    }
  }

  /** The inner loop of the search: whether the key's bytes stand at j0 before the end. */
  method KeyMatches(mem: array<byte>, base: nat, at: nat, end: nat, key: seq<byte>) returns (ok: bool)
    requires base + end <= mem.Length && at <= end
    ensures ok == At(mem[base..base + end], at, key)
  {
    ghost var t := mem[base..base + end];
    var j := 0;
    ok := true;
    while j < |key|
      invariant j <= |key| && (j > 0 ==> at + j <= end)
      invariant forall k :: 0 <= k < j ==> t[at + k] == key[k]
    {
      if at + j >= end {
        return false;
      }
      if mem[base + at + j] != key[j] {
        assert t[at + j] != key[j];
        if At(t, at, key) {
          AtByte(t, at, key, j);
        }
        return false;
      }
      j := j + 1;
    }
    assert t[at..at + |key|] == key;
  }

  /** The index after the colon, or -1. */
  method FindField(mem: array<byte>, base: nat, start: nat, end: nat, key: seq<byte>) returns (r: int)
    requires base + end <= mem.Length
    ensures var f := FieldAt(mem[base..base + end], start, key);
      r == if f.Some? then f.value else -1
  {
    ghost var t := mem[base..base + end];
    var i := start;
    while i < end
      invariant FieldAt(t, i, key) == FieldAt(t, start, key)
    {
      if mem[base + i] == QUOTE {
        var ok := KeyMatches(mem, base, i + 1, end, key);
        if ok && i + 1 + |key| < end && mem[base + i + 1 + |key|] == QUOTE {
          QuotedAt(t, i, key);
          return i + |key| + 3;
        }
      }
      if At(t, i, Quoted(key)) {
        QuotedParts(t, i, key);
      }
      i := i + 1;
    }
    r := -1;
  }

  lemma QuotedParts(t: seq<byte>, i: nat, key: seq<byte>)
    requires At(t, i, Quoted(key))
    ensures t[i] == QUOTE && At(t, i + 1, key) && i + 1 + |key| < |t| && t[i + 1 + |key|] == QUOTE
  {
    AtSplits(t, i, [QUOTE] + key, [QUOTE]);
    AtSplits(t, i, [QUOTE], key);
    AtByte(t, i, [QUOTE], 0);
    AtByte(t, i + 1 + |key|, [QUOTE], 0);
  }

  lemma QuotedAt(t: seq<byte>, i: nat, key: seq<byte>)
    requires i < |t| && t[i] == QUOTE && At(t, i + 1, key) && i + 1 + |key| < |t| && t[i + 1 + |key|] == QUOTE
    ensures At(t, i, Quoted(key))
  {
    assert At(t, i, [QUOTE]) && At(t, i + 1 + |key|, [QUOTE]);
    AtJoins(t, i, [QUOTE], key);
    AtJoins(t, i, [QUOTE] + key, [QUOTE]);
  }

  // ---- decoding a string ----

  /** An ASCII hexadecimal digit; anything else counts as zero. */
  function HexNib(c: byte): (n: nat)
    ensures n < 16
  {
    if 48 <= c <= 57 then c - 48 else if 65 <= c <= 70 then c - 55 else if 97 <= c <= 102 then c - 87 else 0
  }

  /** The digit at i, zero beyond the end. */
  function NibAt(t: seq<byte>, i: nat): (n: nat)
    ensures n < 16
  {
    if i < |t| then HexNib(t[i]) else 0
  }

  /** The code unit that four hexadecimal digits at i spell. */
  function CodeAt(t: seq<byte>, i: nat): (c: u16) {
    0x1000 * NibAt(t, i) + 0x100 * NibAt(t, i + 1) + 0x10 * NibAt(t, i + 2) + NibAt(t, i + 3)
  }

  /** The string ends here: at a quote, or with the text itself, perhaps inside an escape. */
  predicate Stops(t: seq<byte>, i: nat) {
    i >= |t| || t[i] == QUOTE || (t[i] == BACKSLASH && i + 1 >= |t|)
  }

  /** What the character or escape at i stands for. */
  function Piece(t: seq<byte>, i: nat): (s: seq<byte>)
    requires !Stops(t, i)
  {
    if t[i] != BACKSLASH then [t[i]]
    else if t[i + 1] == LETTER_U then Utf8.Encode(CodeAt(t, i + 2))
    else [t[i + 1]]
  }

  function Next(t: seq<byte>, i: nat): (j: nat)
    requires !Stops(t, i)
    ensures j > i
  {
    if t[i] != BACKSLASH then i + 1 else if t[i + 1] == LETTER_U then i + 6 else i + 2
  }

  /** The bytes a string body at i stands for. */
  function StringBytes(t: seq<byte>, i: nat): (s: seq<byte>)
    decreases |t| - i
  {
    if Stops(t, i) then [] else Piece(t, i) + StringBytes(t, Next(t, i))
  }

  /** Where the body at i stops. */
  function StringEnd(t: seq<byte>, i: nat): (j: nat)
    ensures j >= i
    decreases |t| - i
  {
    if Stops(t, i) then (if i < |t| && t[i] == BACKSLASH then i + 1 else i) else StringEnd(t, Next(t, i))
  }

  /** The index of the opening quote after white space, if a string starts there. */
  function StringStart(t: seq<byte>, i: nat): (r: Option<nat>) {
    var j := SkipWs(t, i);
    if j < |t| && t[j] == QUOTE then Some(j + 1) else None
  }

  /** m is m0 with as much of `done` at `out` as fits into max bytes. */
  predicate Emitted(m0: seq<byte>, m: seq<byte>, out: nat, max: nat, done: seq<byte>) {
    out + max <= |m0| && m == Splice(m0, out, Cut(done, max))
  }

  /** Store one byte if there is room. */
  method Emit(mem: array<byte>, out: nat, max: nat, n: nat, c: byte, ghost m0: seq<byte>, ghost done: seq<byte>)
    returns (n': nat)
    requires Emitted(m0, mem[..], out, max, done) && n == |Cut(done, max)|
    modifies mem
    ensures Emitted(m0, mem[..], out, max, done + [c]) && n' == |Cut(done + [c], max)|
    ensures forall k :: 0 <= k < mem.Length && !(out <= k < out + max) ==> mem[k] == old(mem[k])
  {
    n' := n;
    if n < max {
      mem[out + n] := c;
      n' := n + 1;
    }
  }

  /** Store the octets of a code point, as far as there is room. */
  method EmitCode(mem: array<byte>, out: nat, max: nat, n: nat, cp: u16, ghost m0: seq<byte>, ghost done: seq<byte>)
    returns (n': nat)
    requires Emitted(m0, mem[..], out, max, done) && n == |Cut(done, max)|
    modifies mem
    ensures Emitted(m0, mem[..], out, max, done + Utf8.Encode(cp)) && n' == |Cut(done + Utf8.Encode(cp), max)|
    ensures forall k :: 0 <= k < mem.Length && !(out <= k < out + max) ==> mem[k] == old(mem[k])
  {
    if cp < 0x80 {
      n' := Emit(mem, out, max, n, cp, m0, done);
    } else if cp < 0x800 {
      var a: byte, b: byte := 0xC0 + cp / 0x40, 0x80 + cp % 0x40;
      n' := Emit(mem, out, max, n, a, m0, done);
      n' := Emit(mem, out, max, n', b, m0, done + [a]);
      assert done + [a] + [b] == done + Utf8.Encode(cp);
    } else {
      var a: byte, b: byte, c: byte := 0xE0 + cp / 0x1000, 0x80 + cp / 0x40 % 0x40, 0x80 + cp % 0x40;
      n' := Emit(mem, out, max, n, a, m0, done);
      n' := Emit(mem, out, max, n', b, m0, done + [a]);
      n' := Emit(mem, out, max, n', c, m0, done + [a] + [b]);
      assert done + [a] + [b] + [c] == done + Utf8.Encode(cp);
    }
  }

  /** The four digits after i, and the index of the last one. */
  method ReadHex(mem: array<byte>, base: nat, i: nat, end: nat) returns (cp: u16, r: nat)
    requires base + end <= mem.Length
    ensures cp == CodeAt(mem[base..base + end], i + 1) && r == i + 4
  {
    var value: nat;
    value, r := 0, i + 1;
    if r < end {
      value := 0x1000 * HexNib(mem[base + r]);
    }
    r := r + 1;
    if r < end {
      value := value + 0x100 * HexNib(mem[base + r]);
    }
    r := r + 1;
    if r < end {
      value := value + 0x10 * HexNib(mem[base + r]);
    }
    r := r + 1;
    if r < end {
      value := value + HexNib(mem[base + r]);
    }
    cp := value;
  }

  lemma PieceStep(t: seq<byte>, i: nat, done: seq<byte>)
    requires !Stops(t, i)
    ensures done + StringBytes(t, i) == done + Piece(t, i) + StringBytes(t, Next(t, i))
    ensures StringEnd(t, i) == StringEnd(t, Next(t, i))
  {
  }

  /** One character or escape at i: a byte to copy or a code point to encode; and the index after it. */
  method ReadUnit(mem: array<byte>, base: nat, i: nat, end: nat) returns (isCode: bool, c: byte, cp: u16, j: nat)
    requires base + end <= mem.Length && !Stops(mem[base..base + end], i)
    ensures var t := mem[base..base + end];
      j == Next(t, i) && Piece(t, i) == if isCode then Utf8.Encode(cp) else [c]
  {
    isCode, cp := false, 0;
    c, j := mem[base + i], i;
    if c == BACKSLASH {
      j := j + 1;
      c := mem[base + j];
      if c == LETTER_U {
        isCode := true;
        cp, j := ReadHex(mem, base, j, end);
      }
    }
    j := j + 1;
  }

  /** Decode one character or escape of the body at i into memory. */
  method ReadPiece(mem: array<byte>, base: nat, i: nat, end: nat, out: nat, max: nat, n: nat, ghost m0: seq<byte>,
      ghost done: seq<byte>) returns (n': nat, j: nat)
    requires base + end <= mem.Length && !Stops(mem[base..base + end], i)
    requires Emitted(m0, mem[..], out, max, done) && n == |Cut(done, max)| && Outside(base, end, out, max)
    modifies mem
    ensures var t := old(mem[base..base + end]);
      && j == Next(t, i) && mem[base..base + end] == t
      && Emitted(m0, mem[..], out, max, done + Piece(t, i)) && n' == |Cut(done + Piece(t, i), max)|
  {
    var isCode, c, cp;
    isCode, c, cp, j := ReadUnit(mem, base, i, end);
    if isCode {
      n' := EmitCode(mem, out, max, n, cp, m0, done);
    } else {
      n' := Emit(mem, out, max, n, c, m0, done);
    }
  }

  /** The body of a string: as many of its bytes as fit, how many that is, and where the body stops. */
  method ReadBody(mem: array<byte>, base: nat, start: nat, end: nat, out: nat, max: nat) returns (n: nat, i: nat)
    requires base + end <= mem.Length && out + max <= mem.Length && Outside(base, end, out, max)
    modifies mem
    ensures var t := old(mem[base..base + end]);
      && i == StringEnd(t, start) && Emitted(old(mem[..]), mem[..], out, max, StringBytes(t, start))
          && n == |Cut(StringBytes(t, start), max)|
  {
    ghost var m0, t, done: seq<byte> := mem[..], mem[base..base + end], [];
    n, i := 0, start;
    while i < end
      invariant mem[base..base + end] == t && Emitted(m0, mem[..], out, max, done) && n == |Cut(done, max)|
      invariant done + StringBytes(t, i) == StringBytes(t, start) && StringEnd(t, i) == StringEnd(t, start)
    {
      if mem[base + i] == QUOTE {
        break;
      }
      if mem[base + i] == BACKSLASH && i + 1 >= end {
        assert Stops(t, i);
        i := i + 1;
        break;
      }
      PieceStep(t, i, done);
      ghost var longer := done + Piece(t, i);
      n, i := ReadPiece(mem, base, i, end, out, max, n, m0, done);
      done := longer;
    }
    assert done + [] == done;
  }

  /** Memory after a string value has been read into max bytes at out, its length stored as a word at outLen. */
  function StringStored(m: seq<byte>, s: seq<byte>, out: nat, max: nat, outLen: nat): (r: seq<byte>)
    requires out + max <= |m| && outLen + 4 <= |m| && max < TWO32
    ensures |r| == |m|
  {
    Splice(Splice(m, out, Cut(s, max)), outLen, LE32(|Cut(s, max)|))
  }

  /** The same for the string body of t at s, if there is one. */
  function ValueStored(m: seq<byte>, s: Option<nat>, t: seq<byte>, out: nat, max: nat, outLen: nat): (r: seq<byte>)
    requires out + max <= |m| && outLen + 4 <= |m| && max < TWO32
    ensures |r| == |m|
  {
    if s.None? then m else StringStored(m, StringBytes(t, s.value), out, max, outLen)
  }

  /** Decode the string value at i; the index after its closing quote, or -1 when there is no string. */
  method ReadStrVal(mem: array<byte>, base: nat, i: nat, end: nat, out: nat, maxOut: nat, outLenPtr: nat)
    returns (r: int)
    requires base + end <= mem.Length && out + maxOut <= mem.Length && outLenPtr + 4 <= mem.Length
    requires maxOut < TWO32 && Outside(base, end, out, maxOut)
    modifies mem
    ensures var t := old(mem[base..base + end]);
      var s := StringStart(t, i);
      && r == (if s.None? then -1 else StringEnd(t, s.value) + 1)
      && mem[..] == ValueStored(old(mem[..]), s, t, out, maxOut, outLenPtr)
  {
    var j := SkipWhite(mem, base, i, end);
    if j >= end {
      return -1;
    }
    if mem[base + j] != QUOTE {
      return -1;
    }
    r := ReadString(mem, base, j + 1, end, out, maxOut, outLenPtr);
  }

  /** Decode the string body at i and store its length; the index after its closing quote. */
  method ReadString(mem: array<byte>, base: nat, i: nat, end: nat, out: nat, maxOut: nat,
      outLenPtr: nat) returns (r: nat)
    requires base + end <= mem.Length && out + maxOut <= mem.Length && outLenPtr + 4 <= mem.Length
    requires maxOut < TWO32 && Outside(base, end, out, maxOut)
    modifies mem
    ensures var t := old(mem[base..base + end]);
      r == StringEnd(t, i) + 1 && mem[..] == StringStored(old(mem[..]), StringBytes(t, i), out, maxOut, outLenPtr)
  {
    var n, j := ReadBody(mem, base, i, end, out, maxOut);
    PutU32(mem, outLenPtr, n);
    r := j + 1;
  }
}
