/** Split virtqueue layout and ring arithmetic shared by the three drivers (section 2.6 of VIRTIO 1.1). */
module Virtqueue {
  import opened Bytes

  const PAGE := 4096

  /** Round up to a whole page. */
  function PageUp(x: nat): (r: nat) {
    (x + PAGE - 1) / PAGE * PAGE
  }

  function AvailOffset(qs: nat): (r: nat) {
    qs * 16
  }

  function UsedOffset(qs: nat): (r: nat) {
    PageUp(AvailOffset(qs) + 6 + 2 * qs)
  }

  function QueueMemSize(qs: nat): (r: nat) {
    PageUp(UsedOffset(qs) + 6 + 8 * qs)
  }

  /**
   * For every queue size the descriptor table, the available ring and the used ring follow one another
   * without overlap, the used ring is page aligned, and all lie inside the memory allocated for them,
   * which is less than two pages larger than needed.
   */
  lemma LayoutIsSound(qs: nat)
    ensures 16 * qs == AvailOffset(qs)
    ensures AvailOffset(qs) + 6 + 2 * qs <= UsedOffset(qs) < AvailOffset(qs) + 6 + 2 * qs + PAGE
    ensures UsedOffset(qs) % PAGE == 0 && QueueMemSize(qs) % PAGE == 0
    ensures UsedOffset(qs) + 6 + 8 * qs <= QueueMemSize(qs) < UsedOffset(qs) + 6 + 8 * qs + PAGE
  {
  }

  /** No used ring starts in the first page, which is all that the vsock event queue is given. */
  lemma EventQueueOverruns(qs: nat)
    ensures UsedOffset(qs) >= PAGE && UsedOffset(2) == PAGE && QueueMemSize(2) == 2 * PAGE
  {
  }

  /** A queue of `qs` entries of which the driver backs `n` with buffers of `size` bytes. */
  datatype Config = Config(qs: nat, n: nat, size: nat) {
    predicate Valid() {
      0 < n <= qs <= 0x8000 && RingSlot(TWO16, qs) == 0 && size < TWO32
    }
  }

  /** The ring slot of a counter: its remainder by the queue size, by repeated subtraction. */
  function RingSlot(count: nat, qs: nat): (r: nat)
    requires qs > 0
    ensures r < qs
  {
    if count < qs then count else RingSlot(count - qs, qs)
  }

  lemma {:induction false} SlotIsRemainder(count: nat, qs: nat)
    requires qs > 0
    ensures RingSlot(count, qs) == count % qs
  {
    if count >= qs {
      SlotIsRemainder(count - qs, qs);
      AddMod(count - qs, qs);
    }
  }

  lemma AddMod(x: nat, q: nat)
    requires q > 0
    ensures (x + q) % q == x % q
  {
    var d, m := x / q, x % q;
    assert x + q == q * (d + 1) + m;
    ModUnique(x + q, q, d + 1, m);
  }

  lemma ModUnique(x: nat, q: nat, d: nat, m: nat)
    requires q > 0 && m < q && x == q * d + m
    ensures x % q == m
  {
    var d', m' := x / q, x % q;
    assert x == q * d' + m';
    if d' > d {
      MulMono(q, d + 1, d');
    } else if d' < d {
      MulMono(q, d' + 1, d);
    }
  }

  lemma MulMono(q: nat, a: nat, b: nat)
    requires a <= b
    ensures q * a <= q * b && q * (b - a) == q * b - q * a
  {
  }

  /** A 16-bit counter selects the ring slot its unbounded value would. */
  lemma {:induction false} WrappedSlot(count: nat, qs: nat)
    requires qs > 0 && RingSlot(TWO16, qs) == 0
    ensures RingSlot(count % TWO16, qs) == RingSlot(count, qs)
  {
    if count >= TWO16 {
      WrapsBack(count);
      WrappedSlot(count - TWO16, qs);
      SlotSkips(count - TWO16, TWO16, qs);
    }
  }

  lemma WrapsBack(count: nat)
    requires count >= TWO16
    ensures (count - TWO16) % TWO16 == count % TWO16
  {
  }

  /** A step that is a multiple of the queue size leads back to the same slot. */
  lemma {:induction false} SlotSkips(count: nat, step: nat, qs: nat)
    requires qs > 0 && RingSlot(step, qs) == 0
    ensures RingSlot(count + step, qs) == RingSlot(count, qs)
    decreases step
  {
    if step >= qs {
      SlotSkips(count, step - qs, qs);
    }
  }

  /** Counters less than q apart select different slots. */
  lemma DistinctSlots(a: nat, b: nat, q: nat)
    requires q > 0 && a < b < a + q
    ensures RingSlot(a, q) != RingSlot(b, q)
  {
    if a >= q {
      DistinctSlots(a - q, b - q, q);
    }
  }

  /** Advancing a 16-bit counter advances the count it stands for. */
  lemma Advance(x: nat, k: nat)
    ensures (x % TWO16 + k) % TWO16 == (x + k) % TWO16
  {
    var q, r := x / 0x1_0000, x % 0x1_0000;
    assert x + k == r + k + 0x1_0000 * q;
  }

  /** Equal 16-bit counters whose true values are less than 2^16 apart are the same. */
  lemma SameCount(a: nat, b: nat)
    requires a <= b < a + TWO16 && a % TWO16 == b % TWO16
    ensures a == b
  {
  }

  /** The entries of a ring that counters lo to hi - 1 select. */
  function Window<T>(ring: seq<T>, lo: nat, hi: nat): (w: seq<T>)
    requires |ring| > 0 && lo <= hi
    ensures |w| == hi - lo
  {
    seq(hi - lo, k requires 0 <= k < hi - lo => ring[RingSlot(lo + k, |ring|)])
  }

  lemma WindowPop<T>(ring: seq<T>, lo: nat, hi: nat)
    requires |ring| > 0 && lo < hi
    ensures Window(ring, lo, hi) == [ring[RingSlot(lo, |ring|)]] + Window(ring, lo + 1, hi)
  {
  }

  function Range(n: nat): (s: seq<nat>)
    ensures |s| == n
  {
    seq(n, i => i)
  }

  lemma {:induction false} RangeOnce(n: nat, k: nat)
    ensures multiset(Range(n))[k] == if k < n then 1 else 0
  {
    if n > 0 {
      RangeOnce(n - 1, k);
      assert Range(n) == Range(n - 1) + [n - 1];
    }
  }
}
