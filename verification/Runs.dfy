/** Runs of the protocol put together and taken apart, and what no run undoes. */
module Runs {
  import opened Packets
  import opened ListSpec
  import opened ReceiverSpec
  import opened Protocol
  import Fifo
  import RI = ReceiverInvariant

  /** A receive buffer after p arrived unharmed, padded with zeros. */
  function Clean(p: Packet): (buf: seq<bv8>)
    requires Sendable(p)
    ensures Arrives(p, Intact, buf)
  {
    Wire(p) + seq(528 - |Wire(p)|, _ => 0 as bv8)
  }

  lemma Appended<T>(a: seq<T>, b: seq<T>)
    ensures a == [] ==> a + b == b
    ensures a != [] ==> (a + b)[0] == a[0] && (a + b)[1..] == a[1..] + b
  {
  }

  lemma {:induction false} RunAppend(s: State, a: seq<Event>, b: seq<Event>, bounds: Bounds)
    requires Legal(s, a, bounds) && Legal(Run(s, a, bounds), b, bounds)
    ensures Legal(s, a + b, bounds) && Run(s, a + b, bounds) == Run(Run(s, a, bounds), b, bounds)
    decreases |a|
  {
    Appended(a, b);
    if a != [] {
      RunAppend(Next(s, a[0]), a[1..], b, bounds);
    }
  }

  /** evs is a run from s to t. */
  predicate Leads(s: State, evs: seq<Event>, t: State, bounds: Bounds := SAFE) {
    Legal(s, evs, bounds) && Run(s, evs, bounds) == t
  }

  lemma Single(s: State, ev: Event, t: State, bounds: Bounds := SAFE)
    requires Enabled(s, ev, bounds) && t == Next(s, ev)
    ensures Leads(s, [ev], t, bounds)
  {
    assert [ev][1..] == [];
  }

  lemma Chain(s: State, a: seq<Event>, t: State, b: seq<Event>, u: State, bounds: Bounds := SAFE)
    requires Leads(s, a, t, bounds) && Leads(t, b, u, bounds)
    ensures Leads(s, a + b, u, bounds)
  {
    RunAppend(s, a, b, bounds);
  }

  /** A run over a link with tighter bounds is a run over one with looser bounds. */
  lemma {:induction false} Loosen(s: State, evs: seq<Event>, tight: Bounds, loose: Bounds)
    requires tight.data <= loose.data && tight.acks <= loose.acks && Legal(s, evs, tight)
    ensures Legal(s, evs, loose) && Run(s, evs, loose) == Run(s, evs, tight)
    decreases |evs|
  {
    if evs != [] {
      Loosen(Next(s, evs[0]), evs[1..], tight, loose);
    }
  }

  // ---------- Nothing is undone ----------

  lemma OutputGrows(r: ReceiverState, d: Decoded)
    requires RI.Inv(r)
    ensures r.out <= ReceiverSpec.Turn(r, d).0.out
  {
    if d.Ok? {
      OutputGrowsInWindow(r.(lastTimestamp := d.packet.timestamp), d.packet);
    }
  }

  lemma OutputGrowsInWindow(r: ReceiverState, p: Packet)
    requires RI.Inv(r)
    ensures r.out <= ReceiveInWindow(r, p).0.out
  {
    InsertNonempty(r.list, p);
    WriteRunExact(r.(list := Insert(r.list, p)));
  }

  /** t is later than s: no acknowledgement, no byte written, no chunk read and no packet sent is
      taken back. */
  predicate Later(s: State, t: State) {
    && Base(s) <= Base(t)
    && s.rcv.out <= t.rcv.out
    && s.chunks <= t.chunks
    && s.data <= t.data
    && s.acks <= t.acks
  }

  lemma NothingUndone(s: State, ev: Event)
    requires Inv(s) && Enabled(s, ev)
    ensures Later(s, Next(s, ev))
  {
    Fifo.NextSends(s, ev);
    if ev.ReceiverHears? {
      OutputGrows(s.rcv, DecodePacket(ev.buf));
    } else if OfSender(ev) {
      Fifo.SenderBase(s, ev);
    }
  }

  /** Over every run. */
  lemma {:induction false} RunIsLater(s: State, evs: seq<Event>)
    requires Inv(s) && Legal(s, evs)
    ensures Inv(Run(s, evs)) && Later(s, Run(s, evs))
    decreases |evs|
  {
    if evs != [] {
      StepKeepsInv(s, evs[0]);
      NothingUndone(s, evs[0]);
      RunIsLater(Next(s, evs[0]), evs[1..]);
    }
  }
}
