/**
 * The block driver: one three-descriptor chain at a time, always the same three descriptors, then polling
 * until the used index moves. Driver and device steps interleave; a call may give up.
 */
module BlkRequest {
  import opened Bytes
  import opened Virtqueue
  import opened Directory

  datatype Req = In(lba: nat) | Out(lba: nat, data: Sector)

  /** Bus addresses of a call's request header, data buffer and status byte. */
  datatype Place = Place(hdr: nat, buf: nat, sts: nat) {
    predicate Valid() { hdr < TWO64 && buf < TWO64 && sts < TWO64 }
  }

  /** The memory the chain of the last call points at: request header, data buffer, status byte. */
  datatype Chain = Chain(req: Req, data: Sector, sts: byte)

  /** One finished call: what was asked, what it reported, what a read left in the buffer. */
  datatype Entry = Entry(req: Req, ok: bool, data: Sector)

  /** A used entry: which offer it answers, which call had filled the chain when the device followed it, status. */
  datatype Completion = Completion(offer: nat, call: nat, sts: byte)

  datatype Blk = Blk(
    avail: seq<nat>, availIdx: nat, nextAvail: nat, usedIdx: nat, lastUsed: nat, chain: Chain,
    waiting: bool, polls: nat,                           // inside a call, and how often it may still poll
    taken: nat, serving: Option<Req>, disk: Disk,        // the device
    started: nat, consumed: nat, served: nat, timeouts: nat, log: seq<Entry>,
    places: seq<Place>,                                  // where the memory of each call is
    followed: nat, serves: seq<Completion>,              // the call whose chain is being served; all used entries
    begun: nat, took: seq<Option<nat>>)                  // used entries when the call began; which one each call took

  datatype Step = Start(req: Req, data: Sector, limit: nat, place: Place) | Poll | Take | Serve(fails: bool)

  predicate Shape(s: Blk) {
    && 0 < |s.avail| <= 0x8000 && RingSlot(TWO16, |s.avail|) == 0
    && |s.places| == s.started && (s.serving.Some? ==> s.followed < s.started)
  }

  predicate Enabled(s: Blk, step: Step) {
    match step
    case Start(req, data, limit, _) => !s.waiting && limit > 0 && (req.Out? ==> req.data == data)
    case Poll => s.waiting
    case Take => s.serving.None? && s.availIdx != s.taken % TWO16 && s.started > 0
    case Serve(_) => s.serving.Some? && s.taken > 0
  }

  /** `do_io` up to the notification: fill in the chain, offer descriptor 0, advance the index. */
  function DoStart(s: Blk, req: Req, data: Sector, limit: nat, place: Place): (r: Blk)
    requires Shape(s)
  {
    var next := (s.nextAvail + 1) % TWO16;
    s.(chain := Chain(req, data, 0), avail := s.avail[RingSlot(s.nextAvail, |s.avail|) := 0],
       nextAvail := next, availIdx := next,
       waiting := true, polls := limit, started := s.started + 1, places := s.places + [place], begun := s.served)
  }

  /** One look at the used index; the last one that finds nothing gives up. */
  function DoPoll(s: Blk): (r: Blk)
    requires s.waiting
  {
    if s.usedIdx != s.lastUsed then
      s.(lastUsed := (s.lastUsed + 1) % TWO16, consumed := s.consumed + 1, waiting := false,
         log := s.log + [Entry(s.chain.req, s.chain.sts == 0, s.chain.data)], took := s.took + [Some(s.consumed)])
    else if s.polls <= 1 then
      s.(waiting := false, timeouts := s.timeouts + 1, log := s.log + [Entry(s.chain.req, false, s.chain.data)],
         took := s.took + [None])
    else s.(polls := s.polls - 1)
  }

  /** The request the memory of a chain spells: the data of a write is what the buffer holds. */
  function Spelled(c: Chain): (r: Req) {
    if c.req.Out? then Out(c.req.lba, c.data) else c.req
  }

  /** The device follows the chain at the offered head. */
  function DoTake(s: Blk): (r: Blk)
    requires Shape(s) && s.started > 0
  {
    s.(taken := s.taken + 1, followed := s.started - 1,
       serving := if s.avail[RingSlot(s.taken, |s.avail|)] == 0 then Some(Spelled(s.chain)) else None)
  }

  /** What a request does to the disk and to the buffer, and the status it gets. */
  function Served(d: Disk, req: Req, data: Sector, fails: bool): (r: (Disk, Sector, byte)) {
    if fails || req.lba >= |d| then (d, data, 1)
    else match req
      case In(lba) => (d, d[lba], 0)
      case Out(lba, x) => (d[lba := x], data, 0)
  }

  /**
   * The device does the request and writes data and status where the chain it followed points, which is the memory of
   * the last call if it is that call's chain or has the same addresses.
   */
  function DoServe(s: Blk, fails: bool): (r: Blk)
    requires Shape(s) && s.serving.Some? && s.taken > 0
  {
    var (d, data, sts) := Served(s.disk, s.serving.value, s.chain.data, fails);
    var here, there := s.places[s.started - 1], s.places[s.followed];
    var chain := s.chain.(data := if there.buf == here.buf then data else s.chain.data,
                          sts := if there.sts == here.sts then sts else s.chain.sts);
    s.(disk := d, chain := chain, serving := None, served := s.served + 1,
       usedIdx := (s.served + 1) % TWO16, serves := s.serves + [Completion(s.taken - 1, s.followed, sts)])
  }

  function Apply(s: Blk, step: Step): (r: Blk)
    requires Shape(s) && Enabled(s, step)
  {
    match step
    case Start(req, data, limit, place) => DoStart(s, req, data, limit, place)
    case Poll => DoPoll(s)
    case Take => DoTake(s)
    case Serve(fails) => DoServe(s, fails)
  }

  /** The finished calls in order are a serial execution from d0 to d1: each call got its own answer. */
  ghost predicate Serial(d0: Disk, log: seq<Entry>, d1: Disk)
    decreases |log|
  {
    if log == [] then d1 == d0
    else
      var e, before := log[|log| - 1], log[..|log| - 1];
      exists d, data, fails :: Serial(d0, before, d)
          && Served(d, e.req, data, fails) == (d1, e.data, if e.ok then 0 else 1)
  }

  /** Counters against their unbounded values, whatever happened. */
  predicate Counters(s: Blk) {
    && Shape(s)
    && s.availIdx == s.nextAvail == s.started % TWO16
    && s.usedIdx == s.served % TWO16 && s.lastUsed == s.consumed % TWO16
    && s.taken == s.served + (if s.serving.Some? then 1 else 0) && s.taken <= s.started
    && s.started == s.consumed + s.timeouts + (if s.waiting then 1 else 0)
    && s.consumed <= s.served
    && (forall i :: 0 <= i < |s.avail| && i < s.started ==> s.avail[i] == 0)
  }

  /** While no call timed out at most one request is under way, and it is the one in the chain. */
  ghost predicate InStep(d0: Disk, s: Blk) {
    if !s.waiting then s.started == s.served && Serial(d0, s.log, s.disk)
    else if s.served < s.started then
      Serial(d0, s.log, s.disk) && Spelled(s.chain) == s.chain.req
          && (s.serving.Some? ==> s.serving.value == s.chain.req && s.followed == s.started - 1)
    else Serial(d0, s.log + [Entry(s.chain.req, s.chain.sts == 0, s.chain.data)], s.disk)
  }

  ghost predicate Inv(d0: Disk, s: Blk) {
    Counters(s) && s.timeouts == 0 && InStep(d0, s)
  }

  lemma StartKeepsInv(d0: Disk, s: Blk, req: Req, data: Sector, limit: nat, place: Place)
    requires Inv(d0, s) && Enabled(s, Start(req, data, limit, place))
    ensures Inv(d0, DoStart(s, req, data, limit, place))
  {
    StartKeepsCounters(s, req, data, limit, place);
  }

  lemma PollKeepsInv(d0: Disk, s: Blk)
    requires Inv(d0, s) && s.waiting && (s.usedIdx != s.lastUsed || s.polls > 1)
    ensures Inv(d0, DoPoll(s))
  {
    Advance(s.consumed, 1);
  }

  lemma TakeKeepsInv(d0: Disk, s: Blk)
    requires Inv(d0, s) && Enabled(s, Take)
    ensures Inv(d0, DoTake(s))
  {
    SlotAtMost(s.taken, |s.avail|);
  }

  lemma ServeKeepsInv(d0: Disk, s: Blk, fails: bool)
    requires Inv(d0, s) && s.serving.Some?
    ensures Inv(d0, DoServe(s, fails))
  {
    var t := DoServe(s, fails);
    SerialAppends(d0, s.log, s.disk, Entry(t.chain.req, t.chain.sts == 0, t.chain.data), s.chain.data, fails, t.disk);
  }

  lemma SerialAppends(d0: Disk, log: seq<Entry>, d: Disk, e: Entry, data: Sector, fails: bool, d1: Disk)
    requires Serial(d0, log, d) && Served(d, e.req, data, fails) == (d1, e.data, if e.ok then 0 else 1)
    ensures Serial(d0, log + [e], d1)
  {
    var l := log + [e];
    assert l[..|l| - 1] == log && l[|l| - 1] == e;
  }

  /** What one call says of the disk before and after it. */
  predicate Answered(d: Disk, e: Entry, d1: Disk) {
    if !e.ok then d1 == d
    else e.req.lba < |d| && (if e.req.In? then e.data == d[e.req.lba] && d1 == d else d1 == d[e.req.lba := e.req.data])
  }

  lemma {:induction false} SerialUnique(d0: Disk, log: seq<Entry>, a: Disk, b: Disk)
    requires Serial(d0, log, a) && Serial(d0, log, b)
    ensures a == b
    decreases |log|
  {
    if log != [] {
      var e, before := log[|log| - 1], log[..|log| - 1];
      var d, x, f :| Serial(d0, before, d) && Served(d, e.req, x, f) == (a, e.data, if e.ok then 0 else 1);
      var d', x', f' :| Serial(d0, before, d') && Served(d', e.req, x', f') == (b, e.data, if e.ok then 0 else 1);
      SerialUnique(d0, before, d, d');
    }
  }

  /** The last call of a serial execution read or wrote its sector, or reported failure and left the disk alone. */
  lemma LastAnswered(d0: Disk, log: seq<Entry>, e: Entry, d: Disk, d1: Disk)
    requires Serial(d0, log, d) && Serial(d0, log + [e], d1)
    ensures Answered(d, e, d1)
  {
    var l := log + [e];
    assert l[..|l| - 1] == log && l[|l| - 1] == e;
    var d', x, f :| Serial(d0, log, d') && Served(d', e.req, x, f) == (d1, e.data, if e.ok then 0 else 1);
    SerialUnique(d0, log, d, d');
  }

  /** The ring is filled from its start. */
  lemma SlotFilled(k: nat, qs: nat)
    requires qs > 0
    ensures k < qs ==> RingSlot(k, qs) == k
  {
  }

  lemma {:induction false} SlotAtMost(k: nat, qs: nat)
    requires qs > 0
    ensures RingSlot(k, qs) <= k
  {
    if k >= qs {
      SlotAtMost(k - qs, qs);
    }
  }

  /** Every step of the run is enabled where it happens. */
  predicate Runs(s: Blk, steps: seq<Step>)
    decreases |steps|
  {
    Shape(s) && (steps == [] || (Enabled(s, steps[0]) && Runs(Apply(s, steps[0]), steps[1..])))
  }

  function After(s: Blk, steps: seq<Step>): (r: Blk)
    requires Runs(s, steps)
    decreases |steps|
  {
    if steps == [] then s else After(Apply(s, steps[0]), steps[1..])
  }

  lemma {:induction false} RunsJoin(s: Blk, a: seq<Step>, b: seq<Step>)
    requires Runs(s, a) && Runs(After(s, a), b)
    ensures Runs(s, a + b) && After(s, a + b) == After(After(s, a), b)
    decreases |a|
  {
    if a == [] {
      assert a + b == b;
    } else {
      assert (a + b)[1..] == a[1..] + b;
      RunsJoin(Apply(s, a[0]), a[1..], b);
    }
  }

  lemma OneStep(s: Blk, step: Step)
    requires Shape(s) && Enabled(s, step)
    ensures Runs(s, [step]) && After(s, [step]) == Apply(s, step)
  {
    assert [step][1..] == [];
    assert Runs(Apply(s, step), []);
  }

  /** A run and one more step. */
  lemma RunGrows(s: Blk, steps: seq<Step>, step: Step)
    requires Runs(s, steps) && Shape(After(s, steps)) && Enabled(After(s, steps), step)
    ensures Runs(s, steps + [step]) && After(s, steps + [step]) == Apply(After(s, steps), step)
  {
    OneStep(After(s, steps), step);
    RunsJoin(s, steps, [step]);
  }

  lemma {:induction false} TimeoutsStay(s: Blk, steps: seq<Step>)
    requires Runs(s, steps)
    ensures s.timeouts <= After(s, steps).timeouts
    decreases |steps|
  {
    if steps != [] {
      TimeoutsStay(Apply(s, steps[0]), steps[1..]);
    }
  }

  lemma {:induction false} RunKeepsInv(d0: Disk, s: Blk, steps: seq<Step>)
    requires Inv(d0, s) && Runs(s, steps) && After(s, steps).timeouts == 0
    ensures Inv(d0, After(s, steps))
    decreases |steps|
  {
    if steps != [] {
      TimeoutsStay(Apply(s, steps[0]), steps[1..]);
      match steps[0] {
        case Start(req, data, limit, place) => StartKeepsInv(d0, s, req, data, limit, place);
        case Poll => PollKeepsInv(d0, s);
        case Take => TakeKeepsInv(d0, s);
        case Serve(fails) => ServeKeepsInv(d0, s, fails);
      }
      RunKeepsInv(d0, Apply(s, steps[0]), steps[1..]);
    }
  }

  function Init(avail: seq<nat>, chain: Chain, d: Disk): (s: Blk) {
    Blk(avail, 0, 0, 0, 0, chain, false, 0, 0, None, d, 0, 0, 0, 0, [], [], 0, [], 0, [])
  }

  /**
   * In every interleaving without a timeout: between calls the two driver counters agree, nothing is under
   * way, and the calls made so far are a serial execution on the disk, each with its own status and data.
   */
  lemma CallsAreSerial(avail: seq<nat>, chain: Chain, d: Disk, steps: seq<Step>)
    requires Runs(Init(avail, chain, d), steps) && After(Init(avail, chain, d), steps).timeouts == 0
    ensures var s := After(Init(avail, chain, d), steps);
      !s.waiting ==> s.nextAvail == s.lastUsed && s.serving.None? && Serial(d, s.log, s.disk)
  {
    var s0 := Init(avail, chain, d);
    assert Serial(d, [], d);
    RunKeepsInv(d, s0, steps);
  }

  // ---- reachable states ----

  /** Some interleaving leads from a driver that has made no call, with disk d0, to s. */
  ghost predicate Reached(d0: Disk, s: Blk) {
    exists avail, chain, steps :: Runs(Init(avail, chain, d0), steps) && After(Init(avail, chain, d0), steps) == s
  }

  lemma InitReached(avail: seq<nat>, chain: Chain, d0: Disk)
    requires Shape(Init(avail, chain, d0))
    ensures Reached(d0, Init(avail, chain, d0))
  {
    assert Runs(Init(avail, chain, d0), []) && After(Init(avail, chain, d0), []) == Init(avail, chain, d0);
  }

  lemma StepReached(d0: Disk, s: Blk, step: Step)
    requires Reached(d0, s) && Shape(s) && Enabled(s, step)
    ensures Reached(d0, Apply(s, step))
  {
    var avail, chain, steps :| Runs(Init(avail, chain, d0), steps) && After(Init(avail, chain, d0), steps) == s;
    RunGrows(Init(avail, chain, d0), steps, step);
  }

  /** Between calls in such a state, if no call gave up: nothing is under way and the calls made are serial. */
  lemma ReachedSerial(d0: Disk, s: Blk)
    requires Reached(d0, s) && s.timeouts == 0 && !s.waiting
    ensures s.nextAvail == s.lastUsed && s.serving.None? && Serial(d0, s.log, s.disk)
  {
    var avail, chain, steps :| Runs(Init(avail, chain, d0), steps) && After(Init(avail, chain, d0), steps) == s;
    CallsAreSerial(avail, chain, d0, steps);
  }

  /** A call that adds an entry to such a run has done to the disk what the entry says. */
  lemma CallAnswered(d0: Disk, was: Blk, steps: seq<Step>, e: Entry)
    requires Reached(d0, was) && !was.waiting && Runs(was, steps)
    requires var now := After(was, steps);
      Reached(d0, now) && !now.waiting && now.timeouts == 0 && now.log == was.log + [e]
    ensures var now := After(was, steps);
      now.nextAvail == now.lastUsed && now.serving == None && Serial(d0, now.log, now.disk)
      && Answered(was.disk, e, now.disk)
  {
    TimeoutsStay(was, steps);
    ReachedSerial(d0, was);
    ReachedSerial(d0, After(was, steps));
    LastAnswered(d0, was.log, e, was.disk, After(was, steps).disk);
  }

  // ---- with timeouts ----

  /** How many calls gave up. */
  function GaveUp(took: seq<Option<nat>>): (n: nat)
    ensures n <= |took|
    decreases |took|
  {
    if took == [] then 0 else GaveUp(took[..|took| - 1]) + if took[|took| - 1].None? then 1 else 0
  }

  lemma GaveUpMore(took: seq<Option<nat>>, x: Option<nat>)
    ensures GaveUp(took + [x]) == GaveUp(took) + if x.None? then 1 else 0
  {
    assert (took + [x])[..|took|] == took;
  }

  lemma {:induction false} GaveUpNone(took: seq<Option<nat>>)
    ensures GaveUp(took) == 0 <==> forall i :: 0 <= i < |took| ==> took[i].Some?
    decreases |took|
  {
    if took != [] {
      GaveUpNone(took[..|took| - 1]);
    }
  }

  /** Used entries answer the offers in their order, with a chain filled no earlier than the offer. */
  predicate ServedInOrder(s: Blk) {
    && |s.serves| == s.served
    && (forall j :: 0 <= j < s.served ==> s.serves[j].offer == j && j <= s.serves[j].call < s.started)
    && (s.serving.Some? ==> s.taken - 1 <= s.followed < s.started)
  }

  /** Every call that did not give up took the used entry with its number less the calls before it that did. */
  predicate Numbered(took: seq<Option<nat>>, served: nat) {
    forall c :: 0 <= c < |took| && took[c].Some? ==> took[c].value == c - GaveUp(took[..c]) < served
  }

  lemma NumberedMore(took: seq<Option<nat>>, x: Option<nat>, served: nat)
    requires Numbered(took, served) && (x.Some? ==> x.value == |took| - GaveUp(took) < served)
    ensures Numbered(took + [x], served)
  {
    var t := took + [x];
    forall c | 0 <= c < |t| && t[c].Some? ensures t[c].value == c - GaveUp(t[..c]) < served {
      assert t[..c] == took[..c];
      assert took[..|took|] == took;
    }
  }

  predicate TakenOrder(took: seq<Option<nat>>, consumed: nat, timeouts: nat, served: nat) {
    |took| == consumed + timeouts && GaveUp(took) == timeouts && Numbered(took, served)
  }

  lemma OneMoreTaken(took: seq<Option<nat>>, consumed: nat, timeouts: nat, served: nat)
    requires TakenOrder(took, consumed, timeouts, served) && consumed < served
    ensures TakenOrder(took + [Some(consumed)], consumed + 1, timeouts, served)
  {
    GaveUpMore(took, Some(consumed));
    NumberedMore(took, Some(consumed), served);
  }

  lemma OneMoreGivenUp(took: seq<Option<nat>>, consumed: nat, timeouts: nat, served: nat)
    requires TakenOrder(took, consumed, timeouts, served)
    ensures TakenOrder(took + [None], consumed, timeouts + 1, served)
  {
    GaveUpMore(took, None);
    NumberedMore(took, None, served);
  }

  lemma OneMoreServed(took: seq<Option<nat>>, consumed: nat, timeouts: nat, served: nat)
    requires TakenOrder(took, consumed, timeouts, served)
    ensures TakenOrder(took, consumed, timeouts, served + 1)
  {
  }

  predicate TookInOrder(s: Blk) {
    |s.took| == |s.log| && TakenOrder(s.took, s.consumed, s.timeouts, s.served)
  }

  /** What the last of these entries that wrote its status at this address wrote, or success. */
  function LastStatus(serves: seq<Completion>, places: seq<Place>, at: nat): (sts: byte)
    decreases |serves|
  {
    if serves == [] then 0
    else
      var last := serves[|serves| - 1];
      if last.call < |places| && places[last.call].sts == at then last.sts
      else LastStatus(serves[..|serves| - 1], places, at)
  }

  lemma StatusMore(serves: seq<Completion>, places: seq<Place>, at: nat, c: Completion)
    ensures LastStatus(serves + [c], places, at) ==
            if c.call < |places| && places[c.call].sts == at then c.sts else LastStatus(serves, places, at)
  {
    assert (serves + [c])[..|serves|] == serves;
  }

  /** The last status these entries give to requests from the chain of this call, or success. */
  function StatusOf(serves: seq<Completion>, call: nat): (sts: byte)
    decreases |serves|
  {
    if serves == [] then 0
    else if serves[|serves| - 1].call == call then serves[|serves| - 1].sts
    else StatusOf(serves[..|serves| - 1], call)
  }

  predicate OwnBytes(places: seq<Place>) {
    forall i, j :: 0 <= i < j < |places| ==> places[i].sts != places[j].sts
  }

  lemma {:induction false} OwnStatus(serves: seq<Completion>, places: seq<Place>, call: nat)
    requires OwnBytes(places) && call < |places| && forall i :: 0 <= i < |serves| ==> serves[i].call < |places|
    ensures LastStatus(serves, places, places[call].sts) == StatusOf(serves, call)
    decreases |serves|
  {
    if serves != [] {
      OwnStatus(serves[..|serves| - 1], places, call);
    }
  }

  /** The status byte is what was last written there since the call began, success if nothing was. */
  predicate StatusOfLast(s: Blk) {
    s.waiting ==>
      && s.begun <= s.served == |s.serves| && |s.places| == s.started > 0
      && (s.timeouts == 0 ==> s.begun == s.started - 1)
      && s.chain.sts == LastStatus(s.serves[s.begun..], s.places, s.places[s.started - 1].sts)
  }

  predicate Tracked(s: Blk) {
    Counters(s) && ServedInOrder(s) && TookInOrder(s) && StatusOfLast(s)
  }

  lemma StepKeepsCounters(s: Blk, step: Step)
    requires Counters(s) && Enabled(s, step) && s.timeouts < TWO16 - 1
    ensures Counters(Apply(s, step))
  {
    match step
    case Start(req, data, limit, place) => StartKeepsCounters(s, req, data, limit, place);
    case Poll => Advance(s.consumed, 1);
    case Take => SlotAtMost(s.taken, |s.avail|);
    case Serve(_) =>
  }

  lemma StartKeepsCounters(s: Blk, req: Req, data: Sector, limit: nat, place: Place)
    requires Counters(s) && !s.waiting
    ensures Counters(DoStart(s, req, data, limit, place))
  {
    Advance(s.started, 1);
    WrappedSlot(s.started, |s.avail|);
    SlotFilled(s.started, |s.avail|);
  }

  /** While fewer than 2^16 entries are outstanding a look tells whether there is one. */
  lemma LookTells(s: Blk)
    requires Counters(s) && s.waiting && s.timeouts < TWO16 - 1 && s.usedIdx != s.lastUsed
    ensures s.consumed < s.served
  {
  }

  lemma StepKeepsTook(s: Blk, step: Step)
    requires Counters(s) && TookInOrder(s) && Enabled(s, step) && s.timeouts < TWO16 - 1
    ensures TookInOrder(Apply(s, step))
  {
    match step
    case Poll =>
      if s.usedIdx != s.lastUsed {
        LookTells(s);
        OneMoreTaken(s.took, s.consumed, s.timeouts, s.served);
      } else {
        OneMoreGivenUp(s.took, s.consumed, s.timeouts, s.served);
      }
    case Serve(_) => OneMoreServed(s.took, s.consumed, s.timeouts, s.served);
    case _ =>
  }

  lemma StepKeepsServed(s: Blk, step: Step)
    requires Counters(s) && ServedInOrder(s) && Enabled(s, step)
    ensures ServedInOrder(Apply(s, step))
  {
  }

  lemma StepKeepsStatus(s: Blk, step: Step)
    requires Counters(s) && ServedInOrder(s) && StatusOfLast(s) && Enabled(s, step)
    ensures StatusOfLast(Apply(s, step))
  {
    match step
    case Serve(fails) =>
      if s.waiting {
        var c := DoServe(s, fails).serves[s.served];
        assert DoServe(s, fails).serves[s.begun..] == s.serves[s.begun..] + [c];
        StatusMore(s.serves[s.begun..], s.places, s.places[s.started - 1].sts, c);
      }
    case _ =>
  }

  lemma StepKeepsTracked(s: Blk, step: Step)
    requires Tracked(s) && Enabled(s, step) && s.timeouts < TWO16 - 1
    ensures Tracked(Apply(s, step))
  {
    StepKeepsCounters(s, step);
    StepKeepsTook(s, step);
    StepKeepsServed(s, step);
    StepKeepsStatus(s, step);
  }

  lemma {:induction false} RunKeepsTracked(s: Blk, steps: seq<Step>)
    requires Tracked(s) && Runs(s, steps) && After(s, steps).timeouts < TWO16 - 1
    ensures Tracked(After(s, steps))
    decreases |steps|
  {
    if steps != [] {
      TimeoutsStay(s, steps);
      TimeoutsStay(Apply(s, steps[0]), steps[1..]);
      StepKeepsTracked(s, steps[0]);
      RunKeepsTracked(Apply(s, steps[0]), steps[1..]);
    }
  }

  /**
   * In every run in which fewer than 2^16 - 1 calls gave up: used entry j answers offer j, and the call of number c,
   * if it did not give up, took entry c less the calls before it that did, which is its own exactly when there
   * was none.
   */
  lemma CompletionsTaken(avail: seq<nat>, chain: Chain, d: Disk, steps: seq<Step>, c: nat)
    requires Runs(Init(avail, chain, d), steps) && After(Init(avail, chain, d), steps).timeouts < TWO16 - 1
    requires c < |After(Init(avail, chain, d), steps).took|
    ensures var s := After(Init(avail, chain, d), steps);
      |s.took| == |s.log| && (s.took[c].Some? ==>
        && s.took[c].value == c - GaveUp(s.took[..c]) < |s.serves| && s.serves[s.took[c].value].offer == s.took[c].value
        && (s.took[c].value == c <==> forall i :: 0 <= i < c ==> s.took[i].Some?))
  {
    var s := After(Init(avail, chain, d), steps);
    RunKeepsTracked(Init(avail, chain, d), steps);
    GaveUpNone(s.took[..c]);
    assert forall i :: 0 <= i < c ==> s.took[..c][i] == s.took[i];
  }

  /**
   * What a poll reports in such a run: success, unless the last that was written to the call's status byte since it
   * began says otherwise. While no call has given up that is the status of its own request; and if no two calls have
   * the same status byte it is the last status a request from the call's own chain got.
   */
  lemma StatusReported(avail: seq<nat>, chain: Chain, d: Disk, steps: seq<Step>)
    requires Runs(Init(avail, chain, d), steps) && After(Init(avail, chain, d), steps).timeouts < TWO16 - 1
    ensures var s := After(Init(avail, chain, d), steps);
      s.waiting && s.usedIdx != s.lastUsed ==>
        && s.consumed < |s.serves| && s.begun <= |s.serves| && |s.places| == |s.log| + 1
        && DoPoll(s).took == s.took + [Some(s.consumed)]
        && DoPoll(s).log[|s.log|].ok == (LastStatus(s.serves[s.begun..], s.places, s.places[|s.log|].sts) == 0)
        && (s.timeouts == 0 ==>
              s.serves[s.consumed].call == |s.log| && DoPoll(s).log[|s.log|].ok == (s.serves[s.consumed].sts == 0))
        && (OwnBytes(s.places) ==> DoPoll(s).log[|s.log|].ok == (StatusOf(s.serves[s.begun..], |s.log|) == 0))
  {
    var s := After(Init(avail, chain, d), steps);
    RunKeepsTracked(Init(avail, chain, d), steps);
    if s.waiting && s.usedIdx != s.lastUsed {
      if s.timeouts == 0 {
        OnlyEntry(s.serves[s.begun..], s.places, s.started - 1);
      }
      if OwnBytes(s.places) {
        OwnStatus(s.serves[s.begun..], s.places, |s.log|);
      }
    }
  }

  lemma OnlyEntry(serves: seq<Completion>, places: seq<Place>, call: nat)
    requires call < |places| && |serves| == 1 && serves[0].call == call
    ensures LastStatus(serves, places, places[call].sts) == serves[0].sts
  {
  }

  // ---- a late completion ----

  function Polls(n: nat): (steps: seq<Step>)
    ensures |steps| == n
  {
    if n == 0 then [] else [Poll] + Polls(n - 1)
  }

  /** Polling in vain until the call gives up. */
  lemma {:induction false} PollsInVain(s: Blk)
    requires Shape(s) && s.waiting && s.usedIdx == s.lastUsed && s.polls > 0
    ensures Runs(s, Polls(s.polls))
    ensures After(s, Polls(s.polls)) == s.(polls := 1, waiting := false, timeouts := s.timeouts + 1,
      log := s.log + [Entry(s.chain.req, false, s.chain.data)], took := s.took + [None])
    decreases s.polls
  {
    var t := DoPoll(s);
    assert Polls(s.polls)[1..] == Polls(s.polls - 1);
    if s.polls > 1 {
      PollsInVain(t);
    } else {
      assert Runs(t, []);
    }
  }

  /** A read gives up after `limit` polls. */
  function FirstRun(x: Sector, limit: nat, p: Place): (steps: seq<Step>) {
    [Start(In(0), x, limit, p)] + Polls(limit)
  }

  /** It is served late, and a second read into a buffer that holds y polls once. */
  function ServedBetween(y: Sector, limit: nat, q: Place, fails: bool): (steps: seq<Step>) {
    [Take] + [Serve(fails)] + [Start(In(0), y, limit, q)] + [Poll]
  }

  /** It is taken late, and served while the second read is under way. */
  function ServedDuring(y: Sector, limit: nat, q: Place, fails: bool): (steps: seq<Step>) {
    [Take] + [Start(In(0), y, limit, q)] + [Serve(fails)] + [Poll]
  }

  /**
   * For every queue, every limit on polls and wherever the buffers are: after a call has given up, the next read can
   * report success with whatever its buffer held, before the device has seen it, and even when the device failed the
   * first.
   */
  lemma LateCompletionMisleads(avail: seq<nat>, d: Disk, x: Sector, y: Sector, limit: nat, p: Place, q: Place,
      fails: bool)
    requires 0 < |avail| <= 0x8000 && RingSlot(TWO16, |avail|) == 0 && limit > 0
    ensures var s0 := Init(avail, Chain(In(0), x, 0), d);
      var steps := FirstRun(x, limit, p) + ServedBetween(y, limit, q, fails);
      && Runs(s0, steps)
      && var t := After(s0, steps);
         t.log == [Entry(In(0), false, x), Entry(In(0), true, y)] && t.took == [None, Some(0)] && t.taken == 1
             && t.started == 2
  {
    var s0 := Init(avail, Chain(In(0), x, 0), d);
    var s2 := FirstGivesUp(avail, d, x, limit, p);
    BetweenRuns(s2, x, y, limit, q, fails);
    RunsJoin(s0, FirstRun(x, limit, p), ServedBetween(y, limit, q, fails));
  }

  /** A failure of the late request while the next is under way is reported exactly when both use one status byte. */
  lemma LateFailureSeenIff(avail: seq<nat>, d: Disk, x: Sector, y: Sector, limit: nat, p: Place, q: Place)
    requires 0 < |avail| <= 0x8000 && RingSlot(TWO16, |avail|) == 0 && limit > 0
    ensures var s0 := Init(avail, Chain(In(0), x, 0), d);
      var steps := FirstRun(x, limit, p) + ServedDuring(y, limit, q, true);
      && Runs(s0, steps)
      && var t := After(s0, steps);
         t.log == [Entry(In(0), false, x), Entry(In(0), p.sts != q.sts, y)] && t.took == [None, Some(0)]
             && t.taken == 1 && t.started == 2
  {
    var s0 := Init(avail, Chain(In(0), x, 0), d);
    var s2 := FirstGivesUp(avail, d, x, limit, p);
    DuringRuns(s2, x, y, limit, p, q);
    RunsJoin(s0, FirstRun(x, limit, p), ServedDuring(y, limit, q, true));
  }

  /** The first call has given up, and nothing has been taken. */
  predicate GivenUp(s: Blk, x: Sector, p: Place) {
    && Shape(s) && !s.waiting && s.log == [Entry(In(0), false, x)] && s.took == [None] && s.chain.req == In(0)
    && s.taken == s.consumed == s.served == 0 && s.usedIdx == s.lastUsed == 0 && s.serving.None?
    && s.started == s.nextAvail == s.availIdx == 1 && s.avail[RingSlot(0, |s.avail|)] == 0 && s.places == [p]
  }

  lemma FirstGivesUp(avail: seq<nat>, d: Disk, x: Sector, limit: nat, p: Place) returns (s: Blk)
    requires 0 < |avail| <= 0x8000 && RingSlot(TWO16, |avail|) == 0 && limit > 0
    ensures var s0, steps := Init(avail, Chain(In(0), x, 0), d), FirstRun(x, limit, p);
      Runs(s0, steps) && After(s0, steps) == s
    ensures GivenUp(s, x, p)
  {
    var s0 := Init(avail, Chain(In(0), x, 0), d);
    var s1 := DoStart(s0, In(0), x, limit, p);
    OneStep(s0, Start(In(0), x, limit, p));
    PollsInVain(s1);
    RunsJoin(s0, [Start(In(0), x, limit, p)], Polls(limit));
    s := After(s1, Polls(limit));
  }

  lemma BetweenRuns(s: Blk, x: Sector, y: Sector, limit: nat, q: Place, fails: bool)
    requires s.places != [] && GivenUp(s, x, s.places[0]) && limit > 0
    ensures Runs(s, ServedBetween(y, limit, q, fails))
    ensures var t := After(s, ServedBetween(y, limit, q, fails));
      t.log == [Entry(In(0), false, x), Entry(In(0), true, y)] && t.took == [None, Some(0)] && t.taken == 1
          && t.started == 2
  {
    OneStep(s, Take);
    RunGrows(s, [Take], Serve(fails));
    RunGrows(s, [Take] + [Serve(fails)], Start(In(0), y, limit, q));
    RunGrows(s, [Take] + [Serve(fails)] + [Start(In(0), y, limit, q)], Poll);
  }

  lemma DuringRuns(s: Blk, x: Sector, y: Sector, limit: nat, p: Place, q: Place)
    requires GivenUp(s, x, p) && limit > 0
    ensures Runs(s, ServedDuring(y, limit, q, true))
    ensures var t := After(s, ServedDuring(y, limit, q, true));
      t.log == [Entry(In(0), false, x), Entry(In(0), p.sts != q.sts, y)] && t.took == [None, Some(0)]
          && t.taken == 1 && t.started == 2
  {
    OneStep(s, Take);
    RunGrows(s, [Take], Start(In(0), y, limit, q));
    RunGrows(s, [Take] + [Start(In(0), y, limit, q)], Serve(true));
    RunGrows(s, [Take] + [Start(In(0), y, limit, q)] + [Serve(true)], Poll);
  }
}
