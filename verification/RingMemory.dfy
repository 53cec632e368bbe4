/** The bytes of queue memory and of a buffer area, decoded field by field, and the stores both sides make there. */
module RingMemory {
  import opened Bytes
  import opened Virtqueue
  import RxRing
  import TxRing

  // ---- the fields of queue memory ----

  function AvailIdxOf(mem: seq<byte>, qs: nat): (r: nat)
    requires |mem| == QueueMemSize(qs)
  {
    LayoutIsSound(qs);
    U16At(mem, AvailOffset(qs) + 2)
  }

  function AvailOf(mem: seq<byte>, qs: nat): (r: seq<nat>)
    requires |mem| == QueueMemSize(qs)
    ensures |r| == qs
  {
    LayoutIsSound(qs);
    seq(qs, i requires 0 <= i < qs => U16At(mem, AvailOffset(qs) + 4 + 2 * i))
  }

  function UsedIdxOf(mem: seq<byte>, qs: nat): (r: nat)
    requires |mem| == QueueMemSize(qs)
  {
    LayoutIsSound(qs);
    U16At(mem, UsedOffset(qs) + 2)
  }

  function UsedOf(mem: seq<byte>, qs: nat): (r: seq<RxRing.Used>)
    requires |mem| == QueueMemSize(qs)
    ensures |r| == qs
  {
    LayoutIsSound(qs);
    seq(qs, i requires 0 <= i < qs =>
        RxRing.Used(U32At(mem, UsedOffset(qs) + 4 + 8 * i), U32At(mem, UsedOffset(qs) + 8 + 8 * i)))
  }

  /** A descriptor as it is stored. */
  datatype RawDesc = RawDesc(addr: nat, len: nat, flags: nat, next: nat) {
    predicate Valid() { addr < TWO64 && len < TWO32 && flags < TWO16 && next < TWO16 }
  }

  function DescAt(mem: seq<byte>, i: nat): (d: RawDesc)
    requires 16 * i + 16 <= |mem|
  {
    RawDesc(U64At(mem, 16 * i), U32At(mem, 16 * i + 8), U16At(mem, 16 * i + 12), U16At(mem, 16 * i + 14))
  }

  function DescOf(mem: seq<byte>, qs: nat): (r: seq<RawDesc>)
    requires |mem| == QueueMemSize(qs)
    ensures |r| == qs
  {
    LayoutIsSound(qs);
    seq(qs, i requires 0 <= i < qs => DescAt(mem, i))
  }

  /** The sixteen bytes of a descriptor. */
  function DescBytes(d: RawDesc): (b: seq<byte>)
    requires d.Valid()
    ensures |b| == 16
  {
    LE64(d.addr) + (LE32(d.len) + (LE16(d.flags) + LE16(d.next)))
  }

  lemma DescReads(mem: seq<byte>, i: nat, d: RawDesc)
    requires d.Valid() && At(mem, 16 * i, DescBytes(d))
    ensures 16 * i + 16 <= |mem| && DescAt(mem, i) == d
  {
    var at, tail := 16 * i, LE16(d.flags) + LE16(d.next);
    AtSplits(mem, at, LE64(d.addr), LE32(d.len) + tail);
    AtSplits(mem, at + 8, LE32(d.len), tail);
    AtSplits(mem, at + 12, LE16(d.flags), LE16(d.next));
    U64Reads(mem, at, d.addr);
    U32Reads(mem, at + 8, d.len);
    U16Reads(mem, at + 12, d.flags);
    U16Reads(mem, at + 14, d.next);
  }

  /**
   * The buffer that holds an address, and what a device reads there: nothing, if the flags let it write or send it on.
   */
  function Holder(d: RawDesc, size: nat): (r: TxRing.Desc) {
    TxRing.Desc(if size == 0 then 0 else d.addr / size, if d.flags == 0 then d.len else 0)
  }

  function Holders(ds: seq<RawDesc>, size: nat): (r: seq<TxRing.Desc>)
    ensures |r| == |ds| && forall i :: 0 <= i < |ds| ==> r[i] == Holder(ds[i], size)
  {
    seq(|ds|, i requires 0 <= i < |ds| => Holder(ds[i], size))
  }

  lemma HoldersUpdated(ds: seq<RawDesc>, size: nat, i: nat, buf: nat, len: nat)
    requires i < |ds| && size > 0
    ensures Holders(ds[i := RawDesc(buf * size, len, 0, 0)], size) == Holders(ds, size)[i := TxRing.Desc(buf, len)]
  {
    Exact(buf, size);
  }

  lemma Exact(k: nat, size: nat)
    requires size > 0
    ensures k * size / size == k
  {
    ModUnique(k * size, size, k, 0);
    var q := k * size / size;
    assert k * size == size * q + k * size % size;
    if q != k {
      MulMono(size, Min(q, k) + 1, if q > k then q else k);
    }
  }

  /** Buffer i of n lies in the area. */
  lemma BufInside(i: nat, n: nat, size: nat)
    requires i < n
    ensures i * size + size <= n * size
  {
    MulMono(size, i + 1, n);
  }

  function BufsOf(area: seq<byte>, n: nat, size: nat): (r: seq<seq<byte>>)
    requires |area| == n * size
    ensures |r| == n && forall i :: 0 <= i < n ==> |r[i]| == size
  {
    seq(n, i requires 0 <= i < n => BufOf(area, n, size, i))
  }

  function BufOf(area: seq<byte>, n: nat, size: nat, i: nat): (b: seq<byte>)
    requires |area| == n * size && i < n
    ensures |b| == size
  {
    BufInside(i, n, size);
    area[i * size..i * size + size]
  }

  function RxMemory(mem: seq<byte>, bufs: seq<byte>, c: Config): (s: RxRing.Shared)
    requires |mem| == QueueMemSize(c.qs) && |bufs| == c.n * c.size
  {
    RxRing.Shared(AvailOf(mem, c.qs), AvailIdxOf(mem, c.qs), UsedOf(mem, c.qs), UsedIdxOf(mem, c.qs),
        BufsOf(bufs, c.n, c.size))
  }

  function TxMemory(mem: seq<byte>, bufs: seq<byte>, c: Config): (s: TxRing.Shared)
    requires |mem| == QueueMemSize(c.qs) && |bufs| == c.n * c.size
  {
    TxRing.Shared(Holders(DescOf(mem, c.qs), c.size), AvailOf(mem, c.qs), AvailIdxOf(mem, c.qs),
        BufsOf(bufs, c.n, c.size))
  }

  // ---- stores into queue memory, one field at a time ----

  /** The part of queue memory below the used ring does not reach it. */
  lemma UsedKept(mem: seq<byte>, qs: nat, at: nat, x: seq<byte>)
    requires |mem| == QueueMemSize(qs) && at + |x| <= UsedOffset(qs)
    ensures at + |x| <= |mem|
    ensures UsedOf(Splice(mem, at, x), qs) == UsedOf(mem, qs) && UsedIdxOf(Splice(mem, at, x), qs) == UsedIdxOf(mem, qs)
  {
    LayoutIsSound(qs);
  }

  lemma DescKept(mem: seq<byte>, qs: nat, at: nat, x: seq<byte>)
    requires |mem| == QueueMemSize(qs) && AvailOffset(qs) <= at && at + |x| <= |mem|
    ensures DescOf(Splice(mem, at, x), qs) == DescOf(mem, qs)
  {
    LayoutIsSound(qs);
  }

  lemma AvailKept(mem: seq<byte>, qs: nat, at: nat, x: seq<byte>)
    requires |mem| == QueueMemSize(qs) && at + |x| <= AvailOffset(qs)
    ensures at + |x| <= |mem|
    ensures AvailOf(Splice(mem, at, x), qs) == AvailOf(mem, qs)
    ensures AvailIdxOf(Splice(mem, at, x), qs) == AvailIdxOf(mem, qs)
  {
    LayoutIsSound(qs);
  }

  lemma AvailEntryStored(mem: seq<byte>, qs: nat, i: nat, v: u16)
    requires |mem| == QueueMemSize(qs) && i < qs
    ensures AvailOffset(qs) + 6 + 2 * i <= |mem|
    ensures var r := Splice(mem, AvailOffset(qs) + 4 + 2 * i, LE16(v));
      && AvailOf(r, qs) == AvailOf(mem, qs)[i := v] && AvailIdxOf(r, qs) == AvailIdxOf(mem, qs)
      && UsedOf(r, qs) == UsedOf(mem, qs) && UsedIdxOf(r, qs) == UsedIdxOf(mem, qs) && DescOf(r, qs) == DescOf(mem, qs)
  {
    LayoutIsSound(qs);
    var at := AvailOffset(qs) + 4 + 2 * i;
    UsedKept(mem, qs, at, LE16(v));
    DescKept(mem, qs, at, LE16(v));
    EntryUpdated(mem, qs, i, v);
  }

  lemma EntryUpdated(mem: seq<byte>, qs: nat, i: nat, v: u16)
    requires |mem| == QueueMemSize(qs) && i < qs && AvailOffset(qs) + 6 + 2 * i <= |mem|
    ensures var r := Splice(mem, AvailOffset(qs) + 4 + 2 * i, LE16(v));
      AvailOf(r, qs) == AvailOf(mem, qs)[i := v] && AvailIdxOf(r, qs) == AvailIdxOf(mem, qs)
  {
    LayoutIsSound(qs);
    U16Stored(mem, AvailOffset(qs) + 4 + 2 * i, v);
  }

  lemma AvailIdxStored(mem: seq<byte>, qs: nat, v: u16)
    requires |mem| == QueueMemSize(qs)
    ensures AvailOffset(qs) + 4 <= |mem|
    ensures var r := Splice(mem, AvailOffset(qs) + 2, LE16(v));
      && AvailOf(r, qs) == AvailOf(mem, qs) && AvailIdxOf(r, qs) == v
      && UsedOf(r, qs) == UsedOf(mem, qs) && UsedIdxOf(r, qs) == UsedIdxOf(mem, qs) && DescOf(r, qs) == DescOf(mem, qs)
  {
    LayoutIsSound(qs);
    var at := AvailOffset(qs) + 2;
    UsedKept(mem, qs, at, LE16(v));
    DescKept(mem, qs, at, LE16(v));
    U16Stored(mem, at, v);
  }

  lemma DescStored(mem: seq<byte>, qs: nat, i: nat, d: RawDesc)
    requires |mem| == QueueMemSize(qs) && i < qs && d.Valid()
    ensures 16 * i + 16 <= |mem|
    ensures var r := Splice(mem, 16 * i, DescBytes(d));
      && DescOf(r, qs) == DescOf(mem, qs)[i := d]
      && AvailOf(r, qs) == AvailOf(mem, qs) && AvailIdxOf(r, qs) == AvailIdxOf(mem, qs)
      && UsedOf(r, qs) == UsedOf(mem, qs) && UsedIdxOf(r, qs) == UsedIdxOf(mem, qs)
  {
    LayoutIsSound(qs);
    UsedKept(mem, qs, 16 * i, DescBytes(d));
    AvailKept(mem, qs, 16 * i, DescBytes(d));
    DescUpdated(mem, qs, i, d);
  }

  lemma DescUpdated(mem: seq<byte>, qs: nat, i: nat, d: RawDesc)
    requires |mem| == QueueMemSize(qs) && i < qs && d.Valid() && 16 * i + 16 <= |mem|
    ensures DescOf(Splice(mem, 16 * i, DescBytes(d)), qs) == DescOf(mem, qs)[i := d]
  {
    LayoutIsSound(qs);
    var r := Splice(mem, 16 * i, DescBytes(d));
    SpliceHit(mem, 16 * i, DescBytes(d));
    forall j | 0 <= j < qs ensures DescAt(r, j) == if j == i then d else DescAt(mem, j) {
      if j == i {
        DescReads(r, i, d);
      } else {
        SpliceFrame(mem, 16 * i, DescBytes(d), 16 * j, 16 * j + 16);
        SameDesc(mem, r, j);
      }
    }
  }

  lemma SameDesc(a: seq<byte>, b: seq<byte>, j: nat)
    requires |a| == |b| && 16 * j + 16 <= |a| && a[16 * j..16 * j + 16] == b[16 * j..16 * j + 16]
    ensures DescAt(a, j) == DescAt(b, j)
  {
    forall k | 16 * j <= k < 16 * j + 16 ensures a[k] == b[k] {
      assert a[16 * j..16 * j + 16][k - 16 * j] == b[16 * j..16 * j + 16][k - 16 * j];
    }
  }

  /** Buffers do not overlap. */
  lemma BufsApart(i: nat, j: nat, size: nat)
    requires i != j
    ensures i * size + size <= j * size || j * size + size <= i * size
  {
    if i < j {
      MulMono(size, i + 1, j);
    } else {
      MulMono(size, j + 1, i);
    }
  }

  /** Bytes stored at the front of buffer i change that buffer only. */
  lemma BufStored(area: seq<byte>, n: nat, size: nat, i: nat, at: nat, pkt: seq<byte>)
    requires |area| == n * size && i < n && |pkt| <= size && at == i * size
    ensures at + |pkt| <= |area|
    ensures BufsOf(Splice(area, at, pkt), n, size)
        == BufsOf(area, n, size)[i := pkt + BufsOf(area, n, size)[i][|pkt|..]]
  {
    BufInside(i, n, size);
    var r := Splice(area, at, pkt);
    forall j | 0 <= j < n
      ensures BufOf(r, n, size, j) == if j == i then pkt + BufOf(area, n, size, i)[|pkt|..] else BufOf(area, n, size, j)
    {
      if j == i {
        FrontStored(area, at, pkt, size);
      } else {
        BufInside(j, n, size);
        BufsApart(i, j, size);
        SpliceFrame(area, at, pkt, j * size, j * size + size);
      }
    }
  }

  lemma FrontStored(area: seq<byte>, at: nat, pkt: seq<byte>, size: nat)
    requires |pkt| <= size && at + size <= |area|
    ensures Splice(area, at, pkt)[at..at + size] == pkt + area[at..at + size][|pkt|..]
  {
  }

  // ---- memory as it is allocated ----

  function NoHeads(qs: nat): (r: seq<nat>)
    ensures |r| == qs && forall i :: 0 <= i < qs ==> r[i] == 0
  {
    seq(qs, _ => 0)
  }

  lemma ZeroRing(qs: nat)
    ensures var m := Zeros(QueueMemSize(qs));
      AvailOf(m, qs) == NoHeads(qs) && AvailIdxOf(m, qs) == 0 && UsedIdxOf(m, qs) == 0
  {
    LayoutIsSound(qs);
  }

  // ---- the stores as methods ----

  method StoreAvail(mem: array<byte>, qs: nat, i: nat, v: u16)
    requires mem.Length == QueueMemSize(qs) && i < qs
    modifies mem
    ensures AvailOf(mem[..], qs) == AvailOf(old(mem[..]), qs)[i := v]
    ensures AvailIdxOf(mem[..], qs) == AvailIdxOf(old(mem[..]), qs)
    ensures UsedOf(mem[..], qs) == UsedOf(old(mem[..]), qs) && UsedIdxOf(mem[..], qs) == UsedIdxOf(old(mem[..]), qs)
    ensures DescOf(mem[..], qs) == DescOf(old(mem[..]), qs)
  {
    AvailEntryStored(mem[..], qs, i, v);
    PutU16(mem, AvailOffset(qs) + 4 + 2 * i, v);
  }

  method StoreAvailIdx(mem: array<byte>, qs: nat, v: u16)
    requires mem.Length == QueueMemSize(qs)
    modifies mem
    ensures AvailOf(mem[..], qs) == AvailOf(old(mem[..]), qs) && AvailIdxOf(mem[..], qs) == v
    ensures UsedOf(mem[..], qs) == UsedOf(old(mem[..]), qs) && UsedIdxOf(mem[..], qs) == UsedIdxOf(old(mem[..]), qs)
    ensures DescOf(mem[..], qs) == DescOf(old(mem[..]), qs)
  {
    AvailIdxStored(mem[..], qs, v);
    PutU16(mem, AvailOffset(qs) + 2, v);
  }

  method DescWrite(mem: array<byte>, qs: nat, i: nat, addr: u32, len: u32, flags: u16)
    requires mem.Length == QueueMemSize(qs) && i < qs
    modifies mem
    ensures AvailOf(mem[..], qs) == AvailOf(old(mem[..]), qs) && AvailIdxOf(mem[..], qs) == AvailIdxOf(old(mem[..]), qs)
    ensures UsedOf(mem[..], qs) == UsedOf(old(mem[..]), qs) && UsedIdxOf(mem[..], qs) == UsedIdxOf(old(mem[..]), qs)
    ensures DescOf(mem[..], qs) == DescOf(old(mem[..]), qs)[i := RawDesc(addr, len, flags, 0)]
  {
    DescStored(mem[..], qs, i, RawDesc(addr, len, flags, 0));
    PutBytes(mem, i * 16, DescBytes(RawDesc(addr, len, flags, 0)));
  }

  /** What the device stores: a used entry, the used index. */
  lemma UsedEntryStored(mem: seq<byte>, qs: nat, i: nat, id: u32, len: u32)
    requires |mem| == QueueMemSize(qs) && i < qs
    ensures UsedOffset(qs) + 12 + 8 * i <= |mem|
    ensures var r := Splice(mem, UsedOffset(qs) + 4 + 8 * i, LE32(id) + LE32(len));
      && UsedOf(r, qs) == UsedOf(mem, qs)[i := RxRing.Used(id, len)] && UsedIdxOf(r, qs) == UsedIdxOf(mem, qs)
      && AvailOf(r, qs) == AvailOf(mem, qs) && AvailIdxOf(r, qs) == AvailIdxOf(mem, qs)
          && DescOf(r, qs) == DescOf(mem, qs)
  {
    LayoutIsSound(qs);
    var at, x := UsedOffset(qs) + 4 + 8 * i, LE32(id) + LE32(len);
    AvailUnderUsed(mem, qs, at, x);
    PairReads(id, len);
    UsedUpdated(mem, qs, i, at, x);
  }

  lemma PairReads(a: u32, b: u32)
    ensures var x := LE32(a) + LE32(b); U32At(x, 0) == a && U32At(x, 4) == b
  {
    var x := LE32(a) + LE32(b);
    assert x[0..4] == LE32(a) && x[4..8] == LE32(b);
    U32Slice(x, 0);
    U32Slice(x, 4);
    LE32RoundTrip(a);
    LE32RoundTrip(b);
  }

  /** A store that misses entry j leaves it. */
  lemma UsedEntryKept(mem: seq<byte>, qs: nat, at: nat, x: seq<byte>, j: nat, p: nat)
    requires |mem| == QueueMemSize(qs) && j < qs && p == UsedOffset(qs) + 4 + 8 * j && at + |x| <= |mem|
    requires at + |x| <= p || p + 8 <= at
    ensures UsedOf(Splice(mem, at, x), qs)[j] == UsedOf(mem, qs)[j]
  {
    LayoutIsSound(qs);
    var r := Splice(mem, at, x);
    assert forall k :: p <= k < p + 8 ==> r[k] == mem[k];
  }

  lemma UsedEntryHit(mem: seq<byte>, qs: nat, j: nat, p: nat, x: seq<byte>)
    requires |mem| == QueueMemSize(qs) && j < qs && p == UsedOffset(qs) + 4 + 8 * j && |x| == 8 && p + 8 <= |mem|
    ensures UsedOf(Splice(mem, p, x), qs)[j] == RxRing.Used(U32At(x, 0), U32At(x, 4))
  {
    LayoutIsSound(qs);
    var r := Splice(mem, p, x);
    assert forall k :: 0 <= k < 8 ==> r[p + k] == x[k];
  }

  lemma UsedUpdated(mem: seq<byte>, qs: nat, i: nat, at: nat, x: seq<byte>)
    requires |mem| == QueueMemSize(qs) && i < qs && at == UsedOffset(qs) + 4 + 8 * i && |x| == 8 && at + 8 <= |mem|
    ensures var r := Splice(mem, at, x);
      UsedOf(r, qs) == UsedOf(mem, qs)[i := RxRing.Used(U32At(x, 0), U32At(x, 4))]
          && UsedIdxOf(r, qs) == UsedIdxOf(mem, qs)
  {
    var u, v := UsedOf(Splice(mem, at, x), qs), UsedOf(mem, qs)[i := RxRing.Used(U32At(x, 0), U32At(x, 4))];
    forall j | 0 <= j < qs ensures u[j] == v[j] {
      if j == i {
        UsedEntryHit(mem, qs, i, at, x);
      } else {
        UsedEntryKept(mem, qs, at, x, j, UsedOffset(qs) + 4 + 8 * j);
      }
    }
    UsedIdxKept(mem, qs, at, x);
  }

  lemma UsedIdxKept(mem: seq<byte>, qs: nat, at: nat, x: seq<byte>)
    requires |mem| == QueueMemSize(qs) && UsedOffset(qs) + 4 <= at && at + |x| <= |mem|
    ensures UsedIdxOf(Splice(mem, at, x), qs) == UsedIdxOf(mem, qs)
  {
    LayoutIsSound(qs);
  }

  /** The used ring does not reach below itself. */
  lemma AvailUnderUsed(mem: seq<byte>, qs: nat, at: nat, x: seq<byte>)
    requires |mem| == QueueMemSize(qs) && UsedOffset(qs) <= at && at + |x| <= |mem|
    ensures var r := Splice(mem, at, x);
      AvailOf(r, qs) == AvailOf(mem, qs) && AvailIdxOf(r, qs) == AvailIdxOf(mem, qs) && DescOf(r, qs) == DescOf(mem, qs)
  {
    LayoutIsSound(qs);
  }

  lemma UsedIdxStored(mem: seq<byte>, qs: nat, v: u16)
    requires |mem| == QueueMemSize(qs)
    ensures UsedOffset(qs) + 4 <= |mem|
    ensures var r := Splice(mem, UsedOffset(qs) + 2, LE16(v));
      && UsedOf(r, qs) == UsedOf(mem, qs) && UsedIdxOf(r, qs) == v
      && AvailOf(r, qs) == AvailOf(mem, qs) && AvailIdxOf(r, qs) == AvailIdxOf(mem, qs)
          && DescOf(r, qs) == DescOf(mem, qs)
  {
    LayoutIsSound(qs);
    var at := UsedOffset(qs) + 2;
    AvailUnderUsed(mem, qs, at, LE16(v));
    U16Stored(mem, at, v);
    var u, w := UsedOf(Splice(mem, at, LE16(v)), qs), UsedOf(mem, qs);
    forall j | 0 <= j < qs ensures u[j] == w[j] {
      UsedEntryKept(mem, qs, at, LE16(v), j, UsedOffset(qs) + 4 + 8 * j);
    }
  }

  method StoreUsed(mem: array<byte>, qs: nat, i: nat, id: u32, len: u32)
    requires mem.Length == QueueMemSize(qs) && i < qs
    modifies mem
    ensures AvailOf(mem[..], qs) == AvailOf(old(mem[..]), qs) && AvailIdxOf(mem[..], qs) == AvailIdxOf(old(mem[..]), qs)
    ensures UsedOf(mem[..], qs) == UsedOf(old(mem[..]), qs)[i := RxRing.Used(id, len)]
    ensures UsedIdxOf(mem[..], qs) == UsedIdxOf(old(mem[..]), qs) && DescOf(mem[..], qs) == DescOf(old(mem[..]), qs)
  {
    UsedEntryStored(mem[..], qs, i, id, len);
    PutBytes(mem, UsedOffset(qs) + 4 + 8 * i, LE32(id) + LE32(len));
  }

  method StoreUsedIdx(mem: array<byte>, qs: nat, v: u16)
    requires mem.Length == QueueMemSize(qs)
    modifies mem
    ensures AvailOf(mem[..], qs) == AvailOf(old(mem[..]), qs) && AvailIdxOf(mem[..], qs) == AvailIdxOf(old(mem[..]), qs)
    ensures UsedOf(mem[..], qs) == UsedOf(old(mem[..]), qs) && UsedIdxOf(mem[..], qs) == v
    ensures DescOf(mem[..], qs) == DescOf(old(mem[..]), qs)
  {
    UsedIdxStored(mem[..], qs, v);
    PutU16(mem, UsedOffset(qs) + 2, v);
  }

  /** Copy bytes to the front of buffer i. */
  method StoreBuf(area: array<byte>, n: nat, size: nat, i: nat, pkt: seq<byte>)
    requires area.Length == n * size && i < n && |pkt| <= size
    modifies area
    ensures BufsOf(area[..], n, size)
        == BufsOf(old(area[..]), n, size)[i := pkt + BufsOf(old(area[..]), n, size)[i][|pkt|..]]
  {
    BufStored(area[..], n, size, i, i * size, pkt);
    PutBytes(area, i * size, pkt);
  }
}
