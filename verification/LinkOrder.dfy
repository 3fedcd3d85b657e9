/** When the link simulator is a first-in-first-out channel: with a constant delay packets leave in the
    order in which they arrived. */
module LinkOrder {
  import opened HeapSpec
  import opened LinkSpec
  import opened LinkRuns

  /** Each slot is due after those before it. */
  ghost predicate Increasing(q: seq<Slot>) {
    forall i, j :: 0 <= i < j < |q| ==> SlotAfter(q[j], q[i])
  }

  /** The earliest of increasing slots is the first one. */
  lemma RootIsFirst(h: seq<Slot>, q: seq<Slot>)
    requires Heap(SlotAfter, h) && h != [] && multiset(h) == multiset(q) && Increasing(q)
    ensures q != [] && h[0] == q[0]
  {
    assert h[0] in multiset(q);
    var j :| 0 <= j < |q| && q[j] == h[0];
    assert q[0] in multiset(h);
    RootBelowAll(h);
  }

  lemma FirstRemoved(h: seq<Slot>, q: seq<Slot>)
    requires Heap(SlotAfter, h) && h != [] && multiset(h) == multiset(q) && Increasing(q)
    ensures q != [] && h[0] == q[0] && Increasing(q[1..])
    ensures Heap(SlotAfter, Pop(SlotAfter, h)) && multiset(Pop(SlotAfter, h)) == multiset(q[1..])
  {
    RootIsFirst(h, q);
    SlotAfterIsOrder();
    PopHeap(SlotAfter, h);
    assert q == [q[0]] + q[1..];
  }

  /** A delivery sends the first slots, in order. */
  lemma {:induction false} DeliversFirst(h: seq<Slot>, q: seq<Slot>, clock: Timeval, writes: nat -> Outcome, n: nat)
    requires Heap(SlotAfter, h) && multiset(h) == multiset(q) && Increasing(q)
    ensures var (h1, sent, _) := Deliver(h, clock, writes, n);
            sent <= q && Heap(SlotAfter, h1) && multiset(h1) == multiset(q[|sent|..])
    decreases |h|
  {
    if h != [] && After(clock, h[0].ts) && writes(n) == Sent {
      FirstRemoved(h, q);
      DeliversFirst(Pop(SlotAfter, h), q[1..], clock, writes, n + 1);
      var (h1, sent, _) := Deliver(Pop(SlotAfter, h), clock, writes, n + 1);
      OneMoreSent(q, sent);
    } else {
      assert q[0..] == q;
    }
  }

  lemma OneMoreSent(q: seq<Slot>, sent: seq<Slot>)
    requires q != [] && sent <= q[1..]
    ensures [q[0]] + sent <= q && q[1..][|sent|..] == q[|sent| + 1..]
  {
    assert q == [q[0]] + q[1..];
  }

  /** What is sent in the run, from a queue that holds q, is q and the arrivals from the front on, in
      order; the queue is left with the others. */
  ghost predicate InTurn(h: seq<Slot>, q: seq<Slot>, evs: seq<Event>) {
    var (h1, ds) := Run(h, evs);
    var all := q + Enqueued(evs);
    Slots(ds) <= all && multiset(h1) == multiset(all[|ds|..])
  }

  lemma {:induction false} RunInTurn(h: seq<Slot>, q: seq<Slot>, evs: seq<Event>)
    requires Heap(SlotAfter, h) && multiset(h) == multiset(q) && Increasing(q + Enqueued(evs))
    ensures InTurn(h, q, evs)
    decreases |evs|
  {
    if evs == [] {
      assert q + Enqueued(evs) == q;
      assert q[0..] == q;
    } else if evs[0].Arrival? {
      ArrivalInTurn(h, q, evs);
    } else {
      DeliveryInTurn(h, q, evs);
    }
  }

  lemma {:induction false} ArrivalInTurn(h: seq<Slot>, q: seq<Slot>, evs: seq<Event>)
    requires Heap(SlotAfter, h) && multiset(h) == multiset(q) && Increasing(q + Enqueued(evs))
    requires evs != [] && evs[0].Arrival?
    ensures InTurn(h, q, evs)
    decreases |evs|, 0
  {
    var slot, more := SlotOf(evs[0]), Enqueued(evs[1..]);
    SlotAfterIsOrder();
    PushHeap(SlotAfter, h, slot);
    assert Enqueued(evs) == [slot] + more;
    assert q + ([slot] + more) == (q + [slot]) + more;
    RunInTurn(Push(SlotAfter, h, slot), q + [slot], evs[1..]);
  }

  lemma {:induction false} DeliveryInTurn(h: seq<Slot>, q: seq<Slot>, evs: seq<Event>)
    requires Heap(SlotAfter, h) && multiset(h) == multiset(q) && Increasing(q + Enqueued(evs))
    requires evs != [] && evs[0].Delivery?
    ensures InTurn(h, q, evs)
    decreases |evs|, 0
  {
    var more := Enqueued(evs[1..]);
    assert Enqueued(evs) == more;
    IncreasingPart(q, more, 0);
    DeliversFirst(h, q, evs[0].clock, evs[0].writes, 0);
    var (h1, sent, _) := Deliver(h, evs[0].clock, evs[0].writes, 0);
    IncreasingPart(q, more, |sent|);
    RunInTurn(h1, q[|sent|..], evs[1..]);
    SentThenRest(q, more, sent, evs[0].clock, Run(h1, evs[1..]).1);
  }

  lemma IncreasingPart(q: seq<Slot>, more: seq<Slot>, k: nat)
    requires Increasing(q + more) && k <= |q|
    ensures Increasing(q) && Increasing(q[k..] + more)
  {
    assert forall i :: 0 <= i < |q| ==> q[i] == (q + more)[i];
    assert forall i :: 0 <= i < |q[k..] + more| ==> (q[k..] + more)[i] == (q + more)[i + k];
  }

  lemma SentThenRest(q: seq<Slot>, more: seq<Slot>, sent: seq<Slot>, clock: Timeval, rest: seq<Departure>)
    requires sent <= q && Slots(rest) <= q[|sent|..] + more
    ensures var ds := Departures(sent, clock) + rest;
            Slots(ds) <= q + more && (q + more)[|ds|..] == (q[|sent|..] + more)[|rest|..]
  {
    SlotsLeft(sent, clock, rest);
    assert q + more == sent + (q[|sent|..] + more);
  }

  // ---------- A constant delay ----------

  /** All packets are delayed by d milliseconds, and each arrives later than those before it. */
  ghost predicate ConstantDelay(evs: seq<Event>, d: nat) {
    && (forall i :: 0 <= i < |evs| && evs[i].Arrival? ==> Normal(evs[i].clock) && evs[i].d == d)
    && (forall i, j :: 0 <= i < j < |evs| && evs[i].Arrival? && evs[j].Arrival? ==>
          Micros(evs[i].clock) < Micros(evs[j].clock))
  }

  /** The same delay keeps later times later, although the due times are not normalised. */
  lemma DueLater(a: Timeval, b: Timeval, d: nat)
    requires Normal(a) && Normal(b) && Micros(a) < Micros(b)
    ensures After(DueTime(b, d), DueTime(a, d))
  {
  }

  lemma {:induction false} ArrivalsIncrease(evs: seq<Event>, d: nat)
    requires ConstantDelay(evs, d)
    ensures Increasing(Enqueued(evs))
    ensures forall x :: x in Enqueued(evs) ==> exists i :: 0 <= i < |evs| && evs[i].Arrival? && x == SlotOf(evs[i])
    decreases |evs|
  {
    if evs != [] {
      assert forall i :: 0 <= i < |evs| - 1 ==> evs[1..][i] == evs[i + 1];
      ArrivalsIncrease(evs[1..], d);
      var more := Enqueued(evs[1..]);
      forall x | x in more
        ensures exists i :: 1 <= i < |evs| && evs[i].Arrival? && x == SlotOf(evs[i])
      {
        var i :| 0 <= i < |evs[1..]| && evs[1..][i].Arrival? && x == SlotOf(evs[1..][i]);
        assert evs[i + 1].Arrival?;
      }
      if evs[0].Arrival? {
        forall x | x in more
          ensures SlotAfter(x, SlotOf(evs[0]))
        {
          var i :| 1 <= i < |evs| && evs[i].Arrival? && x == SlotOf(evs[i]);
          DueLater(evs[0].clock, evs[i].clock, d);
        }
      }
    }
  }

  /** With a constant delay, and packets that arrive at different times, what has been sent is at every
      moment the packets that arrived first, in the order in which they arrived, and what is queued is the
      others: the simulator is a first-in-first-out channel. */
  lemma ConstantDelayIsFifo(evs: seq<Event>, d: nat)
    requires ConstantDelay(evs, d)
    ensures var (h, ds) := Run([], evs);
            Slots(ds) <= Enqueued(evs) && multiset(h) == multiset(Enqueued(evs)[|ds|..])
  {
    ArrivalsIncrease(evs, d);
    assert [] + Enqueued(evs) == Enqueued(evs);
    RunInTurn([], [], evs);
  }
}
