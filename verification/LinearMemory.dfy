/** Linear memory as the WebAssembly applications use it: bulk copies, and a response written from address 0 on. */
module LinearMemory {
  import opened Bytes

  /** The copy instruction: the source is read before anything is written, even where the two overlap. */
  method MemoryCopy(mem: array<byte>, d: nat, s: nat, n: nat)
    requires d + n <= mem.Length && s + n <= mem.Length
    modifies mem
    ensures mem[..] == Splice(old(mem[..]), d, old(mem[s..s + n]))
  {
    PutBytes(mem, d, mem[s..s + n]);
  }

  /** m is m0 with the text written over its front. */
  predicate Written(m0: seq<byte>, m: seq<byte>, text: seq<byte>) {
    |text| <= |m0| && m == text + m0[|text|..]
  }

  lemma WrittenMore(m0: seq<byte>, m: seq<byte>, text: seq<byte>, more: seq<byte>)
    requires Written(m0, m, text) && |text| + |more| <= |m0|
    ensures Written(m0, Splice(m, |text|, more), text + more)
  {
    var r := Splice(m, |text|, more);
    assert |r| == |m0|;
    forall k | 0 <= k < |m0| ensures r[k] == (text + more + m0[|text| + |more|..])[k] {
    }
  }

  /** Append one byte to what has been written; the new write pointer. */
  method PutByte(mem: array<byte>, p: nat, b: byte, ghost m0: seq<byte>, ghost text: seq<byte>) returns (q: nat)
    requires Written(m0, mem[..], text) && p == |text| < mem.Length
    modifies mem
    ensures Written(m0, mem[..], text + [b]) && q == p + 1
  {
    WrittenMore(m0, mem[..], text, [b]);
    assert Splice(mem[..], p, [b]) == mem[..][p := b];
    mem[p] := b;
    q := p + 1;
  }

  /** Append a copy of n bytes that have not been written over. */
  method CopyOut(mem: array<byte>, p: nat, s: nat, n: nat, ghost m0: seq<byte>, ghost text: seq<byte>) returns (q: nat)
    requires Written(m0, mem[..], text) && p == |text| && p + n <= s && s + n <= mem.Length
    modifies mem
    ensures Written(m0, mem[..], text + m0[s..s + n]) && q == p + n
  {
    ghost var x := m0[s..s + n];
    WrittenMore(m0, mem[..], text, x);
    assert mem[s..s + n] == mem[..][s..s + n] == x;
    MemoryCopy(mem, p, s, n);
    q := p + n;
  }

  lemma WrittenWord(m0: seq<byte>, m: seq<byte>, text: seq<byte>, at: nat)
    requires Written(m0, m, text) && |text| <= at && at + 4 <= |m0|
    ensures U32At(m, at) == U32At(m0, at)
  {
  }
}
