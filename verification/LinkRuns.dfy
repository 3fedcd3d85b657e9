/** The delayed delivery over whole runs of the simulator: packets are queued as they arrive, and
    leave when the clock is read. */
module LinkRuns {
  import opened HeapSpec
  import opened LinkSpec

  /** A packet that arrives at a time and is delayed by d milliseconds, or a call of
      deliver_delayed_pkt at a time with the outcomes of its writes. */
  datatype Event =
    | Arrival(clock: Timeval, d: nat, direction: int, buf: seq<bv8>)
    | Delivery(clock: Timeval, writes: nat -> Outcome)

  /** A packet that was sent, and when. */
  datatype Departure = Departure(slot: Slot, clock: Timeval)

  ghost predicate Clocked(evs: seq<Event>) {
    forall i :: 0 <= i < |evs| ==> Normal(evs[i].clock)
  }

  function Enqueued(evs: seq<Event>): seq<Slot>
    decreases |evs|
  {
    if evs == [] then []
    else (if evs[0].Arrival? then [SlotOf(evs[0])] else []) + Enqueued(evs[1..])
  }

  function SlotOf(ev: Event): Slot
    requires ev.Arrival?
  {
    Slot(DueTime(ev.clock, ev.d), ev.direction, ev.buf)
  }

  function Departures(sent: seq<Slot>, clock: Timeval): (ds: seq<Departure>)
    ensures |ds| == |sent| && forall i :: 0 <= i < |sent| ==> ds[i] == Departure(sent[i], clock)
  {
    seq(|sent|, i requires 0 <= i < |sent| => Departure(sent[i], clock))
  }

  function Slots(ds: seq<Departure>): (ss: seq<Slot>)
    ensures |ss| == |ds| && forall i :: 0 <= i < |ds| ==> ss[i] == ds[i].slot
  {
    seq(|ds|, i requires 0 <= i < |ds| => ds[i].slot)
  }

  /** The queue after the events, and what was sent. */
  function Run(h: seq<Slot>, evs: seq<Event>): (seq<Slot>, seq<Departure>)
    decreases |evs|
  {
    if evs == [] then (h, [])
    else
      match evs[0]
      case Arrival(clock, d, direction, buf) => Run(Push(SlotAfter, h, SlotOf(evs[0])), evs[1..])
      case Delivery(clock, writes) =>
        var (h1, sent, _) := Deliver(h, clock, writes, 0);
        var (h2, rest) := Run(h1, evs[1..]);
        (h2, Departures(sent, clock) + rest)
  }

  /** What holds of the queue at every moment. */
  ghost predicate Queue(h: seq<Slot>) {
    Heap(SlotAfter, h) && forall x :: x in h ==> 0 <= x.ts.usec <= 1998999
  }

  lemma PushKeeps(h: seq<Slot>, ev: Event)
    requires Queue(h) && ev.Arrival? && Normal(ev.clock)
    ensures var h1 := Push(SlotAfter, h, SlotOf(ev));
            Queue(h1) && multiset(h1) == multiset(h) + multiset{SlotOf(ev)}
  {
    SlotAfterIsOrder();
    PushHeap(SlotAfter, h, SlotOf(ev));
    DueTimeExact(ev.clock, ev.d);
    var h1 := Push(SlotAfter, h, SlotOf(ev));
    forall x | x in h1
      ensures 0 <= x.ts.usec <= 1998999
    {
      assert x in multiset(h1);
    }
  }

  ghost predicate OnTime(d: Departure) {
    Micros(d.slot.ts) - Micros(d.clock) <= 998999 && (d.slot.ts.usec < SECOND ==> Micros(d.clock) > Micros(d.slot.ts))
  }

  lemma DeliverKeeps(h: seq<Slot>, clock: Timeval, writes: nat -> Outcome)
    requires Queue(h) && Normal(clock)
    ensures var (h1, sent, _) := Deliver(h, clock, writes, 0);
            && Queue(h1)
            && multiset(h) == multiset(sent) + multiset(h1)
            && forall d :: d in Departures(sent, clock) ==> OnTime(d)
  {
    var (h1, sent, _) := Deliver(h, clock, writes, 0);
    DeliverExact(h, clock, writes, 0);
    EarlyAtMost(h, clock, writes, 0);
    forall x | x in h1
      ensures 0 <= x.ts.usec <= 1998999
    {
      assert x in multiset(h1);
      assert x in multiset(h);
    }
  }

  /** What a run guarantees: the queue stays in order, nothing is lost or duplicated, and nothing leaves
      too early. */
  ghost predicate Accounted(h: seq<Slot>, evs: seq<Event>, h1: seq<Slot>, ds: seq<Departure>) {
    && Queue(h1)
    && multiset(h) + multiset(Enqueued(evs)) == multiset(Slots(ds)) + multiset(h1)
    && forall d :: d in ds ==> OnTime(d)
  }

  lemma ArrivalAccounted(h: seq<Slot>, evs: seq<Event>, h1: seq<Slot>, ds: seq<Departure>)
    requires evs != [] && evs[0].Arrival? && Normal(evs[0].clock) && Queue(h)
    requires Accounted(Push(SlotAfter, h, SlotOf(evs[0])), evs[1..], h1, ds)
    ensures Accounted(h, evs, h1, ds)
  {
    var slot, more := SlotOf(evs[0]), Enqueued(evs[1..]);
    PushKeeps(h, evs[0]);
    assert Enqueued(evs) == [slot] + more;
    assert multiset([slot] + more) == multiset{slot} + multiset(more);
    assert multiset(h) + (multiset{slot} + multiset(more)) == (multiset(h) + multiset{slot}) + multiset(more);
  }

  lemma Balance(h: multiset<Slot>, sent: multiset<Slot>, h1: multiset<Slot>, queued: multiset<Slot>,
                later: multiset<Slot>, h2: multiset<Slot>)
    requires h == sent + h1 && h1 + queued == later + h2
    ensures h + queued == (sent + later) + h2
  {
    assert h + queued == sent + (h1 + queued);
  }

  lemma SlotsLeft(sent: seq<Slot>, clock: Timeval, rest: seq<Departure>)
    ensures Slots(Departures(sent, clock) + rest) == sent + Slots(rest)
  {
  }

  lemma DeliveryAccounted(h: seq<Slot>, evs: seq<Event>, h2: seq<Slot>, rest: seq<Departure>)
    requires evs != [] && evs[0].Delivery? && Normal(evs[0].clock) && Queue(h)
    requires Accounted(Deliver(h, evs[0].clock, evs[0].writes, 0).0, evs[1..], h2, rest)
    ensures Accounted(h, evs, h2, Departures(Deliver(h, evs[0].clock, evs[0].writes, 0).1, evs[0].clock) + rest)
  {
    var clock := evs[0].clock;
    var (h1, sent, _) := Deliver(h, clock, evs[0].writes, 0);
    DeliverKeeps(h, clock, evs[0].writes);
    var more := Enqueued(evs[1..]);
    assert Enqueued(evs) == more;
    SlotsLeft(sent, clock, rest);
    assert multiset(sent + Slots(rest)) == multiset(sent) + multiset(Slots(rest));
    Balance(multiset(h), multiset(sent), multiset(h1), multiset(more), multiset(Slots(rest)), multiset(h2));
  }

  /** Over every run with a normalised clock, whatever writes fail: every packet that was queued has
      either been sent, once, or is still queued; and none was sent more than 998999 microseconds
      before it was due, or before it was due at all if its microseconds stay below a second. */
  lemma {:induction false} NothingLostOrEarly(h: seq<Slot>, evs: seq<Event>)
    requires Queue(h) && Clocked(evs)
    ensures Accounted(h, evs, Run(h, evs).0, Run(h, evs).1)
    decreases |evs|
  {
    if evs != [] {
      assert Clocked(evs[1..]) by {
        assert forall i :: 0 <= i < |evs| - 1 ==> evs[1..][i] == evs[i + 1];
      }
      if evs[0].Arrival? {
        var h1 := Push(SlotAfter, h, SlotOf(evs[0]));
        PushKeeps(h, evs[0]);
        NothingLostOrEarly(h1, evs[1..]);
        ArrivalAccounted(h, evs, Run(h1, evs[1..]).0, Run(h1, evs[1..]).1);
      } else {
        var h1 := Deliver(h, evs[0].clock, evs[0].writes, 0).0;
        DeliverKeeps(h, evs[0].clock, evs[0].writes);
        NothingLostOrEarly(h1, evs[1..]);
        DeliveryAccounted(h, evs, Run(h1, evs[1..]).0, Run(h1, evs[1..]).1);
      }
    } else {
      assert multiset(Slots([])) == multiset{};
    }
  }
}
