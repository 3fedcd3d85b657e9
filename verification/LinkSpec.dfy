/** The link simulator's arithmetic and decisions as functions: clock comparisons on times that are not
    normalised, what happens to a packet, when it is due, and which queued packets leave. */
module LinkSpec {
  import opened Options
  import opened HeapSpec
  import opened Packets

  const SECOND: int := 1_000_000
  const MIN_PKT_LEN: nat := 12

  datatype Timeval = Timeval(sec: int, usec: int)

  function Micros(t: Timeval): int {
    t.sec * SECOND + t.usec
  }

  /** What the clock returns. */
  predicate Normal(t: Timeval) {
    0 <= t.usec < SECOND
  }

  /** timeval_cmp: left > right, seconds first. */
  predicate After(left: Timeval, right: Timeval) {
    if left.sec == right.sec then left.usec > right.usec else left.sec > right.sec
  }

  /** timeval_diff: a - b; the borrow is not added back when the seconds reach zero. */
  function Diff(a: Timeval, b: Timeval): Timeval {
    var sec, usec := a.sec - b.sec, a.usec - b.usec;
    if usec < 0 then
      if sec - 1 != 0 then Timeval(sec - 1, usec + SECOND) else Timeval(0, usec)
    else Timeval(sec, usec)
  }

  datatype Slot = Slot(ts: Timeval, direction: int, buf: seq<bv8>)

  /** pkt_slot_cmp. */
  predicate SlotAfter(a: Slot, b: Slot) {
    After(a.ts, b.ts)
  }

  lemma SlotAfterIsOrder()
    ensures StrictWeakOrder(SlotAfter)
  {
  }

  // ---------- What happens to a packet ----------

  type u32 = x: int | 0 <= x < 0x1_0000_0000

  /** The options: a delay and jitter in milliseconds, and percentages. */
  datatype Config = Config(delay: u32, jitter: u32, errRate: u32, cutRate: u32, lossRate: u32)

  /** The random numbers drawn for one packet. */
  datatype Rolls = Rolls(loss: nat, cut: nat, err: nat, index: nat, sign: nat, extra: nat)

  /** The first half of simulate_link: nothing if the packet is dropped, or how it is changed. */
  function Fate(cfg: Config, rolls: Rolls, len: nat): Option<Effect>
    requires len > 0
  {
    if cfg.lossRate != 0 && rolls.loss < cfg.lossRate then None
    else if cfg.cutRate != 0 && rolls.cut < cfg.cutRate && len > MIN_PKT_LEN then Some(Truncated)
    else if cfg.errRate != 0 && rolls.err < cfg.errRate then Some(Inverted(rolls.index % len))
    else Some(Intact)
  }

  /** Whatever simulate_link does to a packet is one of the effects the protocol is proved against. */
  lemma FateIsPossible(cfg: Config, rolls: Rolls, w: seq<bv8>)
    requires |w| >= MIN_PKT_LEN
    ensures var fate := Fate(cfg, rolls, |w|);
            fate.Some? ==> Possible(w, fate.value) && |Apply(w, fate.value)| >= MIN_PKT_LEN
  {
  }

  /** The delay asked for, with the jitter that the random numbers choose. */
  function JitteredDelay(cfg: Config, rolls: Rolls): int {
    if cfg.jitter == 0 then cfg.delay
    else if rolls.sign > 49 then cfg.delay + rolls.extra % cfg.jitter
    else cfg.delay - rolls.extra % cfg.jitter
  }

  /** The delay applied, in milliseconds; the unsigned arithmetic wraps before the cap. */
  function AppliedDelay(cfg: Config, rolls: Rolls): (d: nat)
    ensures d < 10000
  {
    JitteredDelay(cfg, rolls) % 0x1_0000_0000 % 10000
  }

  /** What the options must satisfy for the arithmetic neither to wrap nor to reach the cap. */
  predicate DelayFits(cfg: Config) {
    cfg.delay < 10000 && (cfg.jitter == 0 || (cfg.jitter <= cfg.delay + 1 && cfg.delay + cfg.jitter <= 10000))
  }

  lemma AppliedInRange(cfg: Config, rolls: Rolls)
    ensures AppliedDelay(cfg, rolls) == JitteredDelay(cfg, rolls) <==> 0 <= JitteredDelay(cfg, rolls) < 10000
  {
  }

  lemma JitterInRange(cfg: Config, rolls: Rolls)
    requires DelayFits(cfg)
    ensures 0 <= JitteredDelay(cfg, rolls) < 10000
    ensures cfg.jitter == 0 ==> JitteredDelay(cfg, rolls) == cfg.delay
    ensures cfg.jitter > 0 ==> cfg.delay - cfg.jitter < JitteredDelay(cfg, rolls) < cfg.delay + cfg.jitter
  {
    if cfg.jitter > 0 {
      assert 0 <= rolls.extra % cfg.jitter < cfg.jitter;
    }
  }

  /** The random numbers that add, or take away, as much as the jitter allows. */
  function Extreme(cfg: Config, sign: nat): Rolls {
    Rolls(0, 0, 0, 0, sign, if cfg.jitter == 0 then 0 else cfg.jitter - 1)
  }

  lemma ExtremeDelays(cfg: Config)
    requires cfg.jitter > 0
    ensures JitteredDelay(cfg, Extreme(cfg, 99)) == cfg.delay + (cfg.jitter - 1)
    ensures JitteredDelay(cfg, Extreme(cfg, 0)) == cfg.delay - (cfg.jitter - 1)
  {
    SmallRemainder(cfg.jitter - 1, cfg.jitter);
  }

  lemma SmallRemainder(m: nat, n: nat)
    requires m < n
    ensures m % n == m
  {
  }

  /** The delay applied is the one asked for give or take the jitter, whatever the random numbers, if and
      only if the options fit. (Without a delay nothing is computed: the packet is sent at once.) */
  lemma DelayExactly(cfg: Config)
    requires cfg.delay > 0
    ensures (forall rolls :: AppliedDelay(cfg, rolls) == JitteredDelay(cfg, rolls)) <==> DelayFits(cfg)
  {
    if DelayFits(cfg) {
      forall rolls
        ensures AppliedDelay(cfg, rolls) == JitteredDelay(cfg, rolls)
      {
        JitterInRange(cfg, rolls);
        AppliedInRange(cfg, rolls);
      }
    } else {
      AppliedInRange(cfg, Extreme(cfg, 99));
      AppliedInRange(cfg, Extreme(cfg, 0));
      if cfg.jitter > 0 {
        ExtremeDelays(cfg);
      }
    }
  }

  /** Then it differs from the delay asked for by less than the jitter. */
  lemma DelayWithinJitter(cfg: Config, rolls: Rolls)
    requires DelayFits(cfg)
    ensures cfg.jitter == 0 ==> AppliedDelay(cfg, rolls) == cfg.delay
    ensures cfg.jitter > 0 ==> cfg.delay - cfg.jitter < AppliedDelay(cfg, rolls) < cfg.delay + cfg.jitter
  {
    JitterInRange(cfg, rolls);
    AppliedInRange(cfg, rolls);
  }

  /** A jitter above the delay can make it wrap: 4 ms less than a delay of 1 ms becomes 7293 ms. */
  lemma DelayWraps()
    ensures AppliedDelay(Config(1, 10, 0, 0, 0), Rolls(0, 0, 0, 0, 0, 4)) == 7293
  {
    assert 4 % 10 == 4;
  }

  /** When a packet that arrives at time clock is due. */
  function DueTime(clock: Timeval, d: nat): Timeval {
    Timeval(clock.sec + d / 1000, clock.usec + d % 1000 * 1000)
  }

  /** A due time is exactly d milliseconds after the clock, but its microseconds may exceed a second. */
  lemma DueTimeExact(clock: Timeval, d: nat)
    requires Normal(clock)
    ensures Micros(DueTime(clock, d)) == Micros(clock) + 1000 * d
    ensures 0 <= DueTime(clock, d).usec <= 1998999
  {
  }

  // ---------- Which packets leave ----------

  datatype Outcome = Sent | Busy | Failed

  /** deliver_delayed_pkt on the heap h at time clock, where the outcome of the n-th write is
      writes(n): the heap left, the packets sent in order, and whether the simulator goes on. */
  function Deliver(h: seq<Slot>, clock: Timeval, writes: nat -> Outcome, n: nat): (seq<Slot>, seq<Slot>, bool)
    decreases |h|
  {
    if h == [] || !After(clock, h[0].ts) then (h, [], true)
    else
      match writes(n)
      case Busy => (h, [], true)
      case Failed => (h, [], false)
      case Sent =>
        var (h1, sent, ok) := Deliver(Pop(SlotAfter, h), clock, writes, n + 1);
        (h1, [h[0]] + sent, ok)
  }

  /** No packet sent is due after one that follows it, and none is due after one that stays. */
  ghost predicate InOrder(sent: seq<Slot>, left: seq<Slot>) {
    && Nondecreasing(SlotAfter, sent)
    && forall x, y :: x in sent && y in left ==> !SlotAfter(x, y)
  }

  /** Some packet of h has expired. */
  predicate Expired(h: seq<Slot>, clock: Timeval) {
    exists y :: y in h && After(clock, y.ts)
  }

  /** Deliveries are in order of due time, only of expired packets; none is lost or duplicated, also
      when a write must be retried. */
  lemma {:induction false} DeliverExact(h: seq<Slot>, clock: Timeval, writes: nat -> Outcome, n: nat)
    requires Heap(SlotAfter, h)
    ensures var (h1, sent, ok) := Deliver(h, clock, writes, n);
            && Heap(SlotAfter, h1)
            && multiset(h) == multiset(sent) + multiset(h1)
            && (forall x :: x in sent ==> After(clock, x.ts))
            && InOrder(sent, h1)
    decreases |h|
  {
    SlotAfterIsOrder();
    if h == [] {
    } else if After(clock, h[0].ts) && writes(n) == Sent {
      PopHeap(SlotAfter, h);
      DeliverExact(Pop(SlotAfter, h), clock, writes, n + 1);
      var (h1, sent, ok) := Deliver(Pop(SlotAfter, h), clock, writes, n + 1);
      FirstInOrder(h, sent, h1);
    } else {
      RootBelowAll(h);
    }
  }

  /** Every write succeeds up to the first that does not, if there is one: an expired packet stays exactly
      then, and the simulator stops exactly if that failure is fatal. So if every write attempted
      succeeds, only unexpired packets stay. */
  lemma {:induction false} DeliverOutcome(h: seq<Slot>, clock: Timeval, writes: nat -> Outcome, n: nat)
    requires Heap(SlotAfter, h)
    ensures var (h1, sent, ok) := Deliver(h, clock, writes, n);
            && |sent| + |h1| == |h|
            && (forall k :: n <= k < n + |sent| ==> writes(k) == Sent)
            && (Expired(h1, clock) ==> writes(n + |sent|) != Sent)
            && (!ok <==> Expired(h1, clock) && writes(n + |sent|) == Failed)
    decreases |h|
  {
    SlotAfterIsOrder();
    if h != [] && After(clock, h[0].ts) && writes(n) == Sent {
      PopHeap(SlotAfter, h);
      DeliverOutcome(Pop(SlotAfter, h), clock, writes, n + 1);
    } else if h != [] {
      ExpiredAtRoot(h, clock);
    }
  }

  /** The root is the packet that expires first. */
  lemma ExpiredAtRoot(h: seq<Slot>, clock: Timeval)
    requires Heap(SlotAfter, h) && h != []
    ensures Expired(h, clock) <==> After(clock, h[0].ts)
  {
    RootBelowAll(h);
    assert h[0] in h;
  }

  lemma AllWritesSucceed(h: seq<Slot>, clock: Timeval, writes: nat -> Outcome, n: nat)
    requires Heap(SlotAfter, h) && forall k :: n <= k < n + |h| ==> writes(k) == Sent
    ensures var (h1, sent, ok) := Deliver(h, clock, writes, n); ok && !Expired(h1, clock)
  {
    DeliverOutcome(h, clock, writes, n);
  }

  lemma RootBelowAll(h: seq<Slot>)
    requires Heap(SlotAfter, h) && h != []
    ensures forall y :: y in h ==> !SlotAfter(h[0], y)
  {
    SlotAfterIsOrder();
    PopHeap(SlotAfter, h);
  }

  lemma TakenAndLeft(all: multiset<Slot>, x: Slot, taken: multiset<Slot>, left: multiset<Slot>)
    requires x in all && all - multiset{x} == taken + left
    ensures all == (multiset{x} + taken) + left
  {
    assert all == multiset{x} + (all - multiset{x});
  }

  lemma FirstInOrder(h: seq<Slot>, sent: seq<Slot>, h1: seq<Slot>)
    requires Heap(SlotAfter, h) && h != [] && InOrder(sent, h1)
    requires multiset(h) - multiset{h[0]} == multiset(sent) + multiset(h1)
    ensures InOrder([h[0]] + sent, h1)
    ensures multiset(h) == multiset([h[0]] + sent) + multiset(h1)
  {
    RootBelowAll(h);
    assert h[0] in multiset(h);
    assert multiset([h[0]] + sent) == multiset{h[0]} + multiset(sent);
    TakenAndLeft(multiset(h), h[0], multiset(sent), multiset(h1));
    forall y | y in multiset(sent) || y in multiset(h1)
      ensures !SlotAfter(h[0], y)
    {
      assert (multiset(h) - multiset{h[0]})[y] == multiset(sent)[y] + multiset(h1)[y] > 0;
      assert y in multiset(h);
    }
    PrependLeast(SlotAfter, h[0], sent);
  }

  // ---------- How early a packet can leave ----------

  /** The comparison against a due time with microseconds below a second is exact; above, the packet
      counts as due from the next full second on, which is early by the excess. */
  lemma LeavesExactly(clock: Timeval, ts: Timeval)
    requires Normal(clock) && 0 <= ts.usec <= 1998999
    ensures After(clock, ts) <==>
            if ts.usec < SECOND then Micros(clock) > Micros(ts) else Micros(clock) >= Micros(ts) - (ts.usec - SECOND)
  {
  }

  /** Every packet sent is either past its due time or early by at most 998999 microseconds. */
  lemma EarlyAtMost(h: seq<Slot>, clock: Timeval, writes: nat -> Outcome, n: nat)
    requires Heap(SlotAfter, h) && Normal(clock)
    requires forall x :: x in h ==> 0 <= x.ts.usec <= 1998999
    ensures forall x :: x in Deliver(h, clock, writes, n).1 ==>
              && Micros(x.ts) - Micros(clock) <= 998999
              && (x.ts.usec < SECOND ==> Micros(clock) > Micros(x.ts))
  {
    var sent := Deliver(h, clock, writes, n).1;
    DeliverExact(h, clock, writes, n);
    forall x | x in sent
      ensures Micros(x.ts) - Micros(clock) <= 998999 && (x.ts.usec < SECOND ==> Micros(clock) > Micros(x.ts))
    {
      assert x in multiset(sent);
      assert x in multiset(h);
      LeavesExactly(clock, x.ts);
    }
  }

  /** The bound is met: a packet delayed by 999 ms, received at 0.999999 s, leaves at 1.000000 s. */
  lemma EarlyBoundIsMet()
    ensures var received, clock := Timeval(0, 999999), Timeval(1, 0);
            var ts := DueTime(received, 999);
            After(clock, ts) && Micros(ts) - Micros(clock) == 998999
  {
  }

  // ---------- How long to wait ----------

  /** get_queue_timeout on the earliest due time. */
  function Timeout(ts: Timeval, clock: Timeval): Timeval {
    var t := Diff(ts, clock);
    if t.sec < 0 || (t.sec == 0 && t.usec <= 0) then Timeval(0, 1000) else t
  }

  /** The wait is cut to one millisecond although time is left. */
  predicate CutShort(ts: Timeval, clock: Timeval) {
    ts.sec < clock.sec || (ts.sec == clock.sec + 1 && ts.usec < clock.usec)
  }

  /** The wait is positive and at most the larger of one millisecond and the time left. It is the time
      left exactly, or one millisecond: when nothing is left, when less than a second is left across a
      second boundary, because of the missing borrow, and when the due second has passed but not its
      excess microseconds. Its seconds and microseconds are not negative, and it is normalised whenever the
      due time is. */
  lemma TimeoutExact(ts: Timeval, clock: Timeval)
    requires Normal(clock) && 0 <= ts.usec <= 1998999
    ensures var left, wait := Micros(ts) - Micros(clock), Micros(Timeout(ts, clock));
            && wait > 0
            && (wait <= 1000 || wait <= left)
            && wait == if left <= 0 || CutShort(ts, clock) then 1000 else left
    ensures var t := Timeout(ts, clock);
            t.sec >= 0 && 0 <= t.usec <= 1998999 && (ts.usec < 1_000_000 ==> t.usec < 1_000_000)
  {
  }
}
