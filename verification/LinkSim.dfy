/** The delayed delivery of link_sim.c: the queue of delayed packets, the cached clock and the packets
    written out, proved against LinkSpec. Random numbers and the outcomes of writes are passed in. */
module LinkSim {
  import opened Options
  import opened HeapSpec
  import opened Packets
  import opened LinkSpec
  import MinQueue
  import LinkRuns
  import Faults

  class LinkSim {
    const queue: MinQueue.MinQueue<Slot>
    const config: Config
    var lastClock: Timeval
    /** The packets written out, with the direction. */
    var written: seq<(seq<bv8>, int)>

    ghost predicate Valid()
      reads this, queue
    {
      queue.Valid() && queue.cmp == SlotAfter
    }

    ghost function Queued(): seq<Slot>
      requires Valid()
      reads this, queue, queue.e
    {
      queue.Contents()
    }

    constructor (config: Config, clock: Timeval)
      ensures Valid() && fresh(queue) && fresh(queue.e) && this.config == config && lastClock == clock
      ensures Queued() == [] && written == []
    {
      this.config := config;
      lastClock := clock;
      written := [];
      queue := new MinQueue.MinQueue(SlotAfter);
    }

    /** update_time. */
    method UpdateTime(clock: Timeval)
      modifies this`lastClock
      ensures lastClock == clock
    {
      lastClock := clock;
    }

    static ghost function Written(sent: seq<Slot>): (w: seq<(seq<bv8>, int)>)
      ensures |w| == |sent|
    {
      seq(|sent|, i requires 0 <= i < |sent| => (sent[i].buf, sent[i].direction))
    }

    /** deliver_delayed_pkt; writes gives the outcomes of its calls of write_out. */
    method DeliverDelayed(writes: nat -> Outcome) returns (ok: bool)
      requires Valid()
      modifies this`written, queue, queue.e
      ensures Valid() && queue.e == old(queue.e)
      ensures var (h, sent, go) := Deliver(old(Queued()), lastClock, writes, 0);
              Queued() == h && written == old(written) + Written(sent) && ok == go
    {
      ghost var goal := Deliver(Queued(), lastClock, writes, 0);
      ghost var out := [];
      var n := 0;
      Start(Queued(), lastClock, writes);
      var p := queue.Peek();
      while p.Some? && After(lastClock, p.value.ts)
        invariant Valid() && queue.e == old(queue.e)
        invariant p == if Queued() == [] then None else Some(Queued()[0])
        invariant Goes(Queued(), lastClock, writes, n, out, goal)
        invariant written == old(written) + Written(out)
        decreases queue.size
      {
        GoesNext(Queued(), lastClock, writes, n, out, goal);
        if writes(n) != Sent {
          return writes(n) == Busy;
        }
        written := written + [(p.value.buf, p.value.direction)];
        out := out + [p.value];
        var _ := queue.Pop();
        p := queue.Peek();
        n := n + 1;
      }
      GoesNext(Queued(), lastClock, writes, n, out, goal);
      return true;
    }

    /** The loop of deliver_delayed_pkt, from heap h with out already sent, ends in goal. */
    static ghost predicate Goes(h: seq<Slot>, clock: Timeval, writes: nat -> Outcome, n: nat, out: seq<Slot>,
                                goal: (seq<Slot>, seq<Slot>, bool))
    {
      var (h1, sent, ok) := Deliver(h, clock, writes, n); goal == (h1, out + sent, ok)
    }

    static lemma Start(h: seq<Slot>, clock: Timeval, writes: nat -> Outcome)
      ensures Goes(h, clock, writes, 0, [], Deliver(h, clock, writes, 0))
    {
      assert [] + Deliver(h, clock, writes, 0).1 == Deliver(h, clock, writes, 0).1;
    }

    static lemma GoesNext(h: seq<Slot>, clock: Timeval, writes: nat -> Outcome, n: nat, out: seq<Slot>,
                          goal: (seq<Slot>, seq<Slot>, bool))
      requires Goes(h, clock, writes, n, out, goal)
      ensures if h == [] || !After(clock, h[0].ts) then goal == (h, out, true)
              else if writes(n) == Sent then Goes(Pop(SlotAfter, h), clock, writes, n + 1, out + [h[0]], goal)
              else goal == (h, out, writes(n) == Busy)
    {
      assert out + [] == out;
      if h != [] && After(clock, h[0].ts) && writes(n) == Sent {
        var more := Deliver(Pop(SlotAfter, h), clock, writes, n + 1).1;
        assert out + ([h[0]] + more) == (out + [h[0]]) + more;
      }
    }

    /** simulate_link on the len bytes of a packet at the start of buf. */
    method Simulate(buf: array<bv8>, len: nat, direction: int, rolls: Rolls, write: Outcome) returns (ok: bool)
      requires Valid() && MIN_PKT_LEN <= len <= buf.Length && buf as object != queue.e
      modifies this`written, queue, queue.e, buf
      ensures Valid() && (queue.e == old(queue.e) || fresh(queue.e))
      ensures var w := old(buf[..len]);
              match Fate(config, rolls, len)
              case None => Queued() == old(Queued()) && written == old(written) && ok
              case Some(e) =>
                if config.delay == 0 then
                  && Queued() == old(Queued()) && ok == (write == Sent)
                  && written == old(written) + if ok then [(Apply(w, e), direction)] else []
                else
                  && written == old(written) && ok
                  && Queued() == Push(SlotAfter, old(Queued()),
                                      Slot(DueTime(lastClock, AppliedDelay(config, rolls)), direction, Apply(w, e)))
    {
      if config.lossRate != 0 && rolls.loss < config.lossRate {
        return true;
      }
      var n := Change(buf, len, rolls);
      if config.delay != 0 {
        Delay(buf[..n], direction, rolls);
        return true;
      }
      if write != Sent {
        return false;
      }
      written := written + [(buf[..n], direction)];
      return true;
    }

    /** The part of simulate_link that queues the packet for later. */
    method Delay(packet: seq<bv8>, direction: int, rolls: Rolls)
      requires Valid()
      modifies queue, queue.e
      ensures Valid() && (queue.e == old(queue.e) || fresh(queue.e))
      ensures Queued() == Push(SlotAfter, old(Queued()),
                               Slot(DueTime(lastClock, AppliedDelay(config, rolls)), direction, packet))
    {
      var d := AppliedDelay(config, rolls);
      var slot := Slot(Timeval(lastClock.sec + d / 1000, lastClock.usec + d % 1000 * 1000), direction, packet);
      var _ := queue.Push(slot);
    }

    /** The part of simulate_link that cuts or damages the packet in the buffer. */
    method Change(buf: array<bv8>, len: nat, rolls: Rolls) returns (n: nat)
      requires MIN_PKT_LEN <= len <= buf.Length
      requires Fate(config, rolls, len).Some?
      modifies buf
      ensures n <= buf.Length && buf[..n] == Apply(old(buf[..len]), Fate(config, rolls, len).value)
    {
      n := len;
      if config.cutRate != 0 && rolls.cut < config.cutRate && len > MIN_PKT_LEN {
        n := MIN_PKT_LEN;
        buf[0] := buf[0] | 0x20;
        assert buf[..n] == Faults.Truncate(old(buf[..len]));
      } else if config.errRate != 0 && rolls.err < config.errRate {
        var idx := rolls.index % len;
        buf[idx] := !buf[idx];
        assert buf[..n] == Faults.Invert(old(buf[..len]), idx);
      }
    }

    /** What a turn of the loop does to the queue: delayed packets are delivered, then, unless that failed
        for good, a packet that was received is queued, if it is neither dropped nor sent at once. */
    static function TurnEvents(h: seq<Slot>, config: Config, clock: Timeval, writes: nat -> Outcome,
                               w: seq<bv8>, ready: bool, direction: int, rolls: Rolls): seq<LinkRuns.Event>
      requires |w| >= MIN_PKT_LEN
    {
      var fate := Fate(config, rolls, |w|);
      [LinkRuns.Delivery(clock, writes)] +
      if Deliver(h, clock, writes, 0).2 && ready && fate.Some? && config.delay != 0
      then [LinkRuns.Arrival(clock, AppliedDelay(config, rolls), direction, Apply(w, fate.value))]
      else []
    }

    /** What is sent of a packet that is not delayed. */
    static function AtOnce(config: Config, w: seq<bv8>, direction: int, rolls: Rolls): seq<(seq<bv8>, int)>
      requires |w| >= MIN_PKT_LEN
    {
      var fate := Fate(config, rolls, |w|);
      if fate.Some? && config.delay == 0 then [(Apply(w, fate.value), direction)] else []
    }

    /** One turn of the loop of proxy_loop, once select has returned: ready tells whether a packet was
        received, into the first len bytes of buf. */
    method Turn(clock: Timeval, writes: nat -> Outcome, ready: bool, buf: array<bv8>, len: nat, direction: int,
                rolls: Rolls, write: Outcome)
      returns (ok: bool)
      requires Valid() && MIN_PKT_LEN <= len <= buf.Length && buf as object != queue.e
      modifies this`lastClock, this`written, queue, queue.e, buf
      ensures Valid() && (queue.e == old(queue.e) || fresh(queue.e)) && lastClock == clock
      ensures Queued() == LinkRuns.Run(old(Queued()), TurnEvents(old(Queued()), config, clock, writes,
                                                                 old(buf[..len]), ready, direction, rolls)).0
      ensures var (_, sent, go) := Deliver(old(Queued()), clock, writes, 0);
              var w := old(buf[..len]);
              && written == old(written) + Written(sent) +
                            (if go && ready && write == Sent then AtOnce(config, w, direction, rolls) else [])
              && (ok <==> go && (ready && AtOnce(config, w, direction, rolls) != [] ==> write == Sent))
    {
      ghost var h, w := Queued(), buf[..len];
      UpdateTime(clock);
      ok := DeliverDelayed(writes);
      ghost var h1 := Queued();
      if ok && ready {
        ok := Simulate(buf, len, direction, rolls, write);
      }
      TurnRun(h, h1, TurnEvents(h, config, clock, writes, w, ready, direction, rolls), clock, writes);
    }

    static lemma TurnRun(h: seq<Slot>, h1: seq<Slot>, evs: seq<LinkRuns.Event>, clock: Timeval, writes: nat -> Outcome)
      requires 1 <= |evs| <= 2 && evs[0] == LinkRuns.Delivery(clock, writes) && h1 == Deliver(h, clock, writes, 0).0
      requires |evs| == 2 ==> evs[1].Arrival?
      ensures LinkRuns.Run(h, evs).0 == if |evs| == 1 then h1 else Push(SlotAfter, h1, LinkRuns.SlotOf(evs[1]))
    {
      assert evs[1..] == if |evs| == 1 then [] else [evs[1]];
      if |evs| == 2 {
        assert evs[1..][1..] == [];
      }
    }

    /** get_queue_timeout; None stands for the null pointer that means no time limit. */
    method GetQueueTimeout() returns (timeout: Option<Timeval>)
      requires Valid()
      ensures timeout == if Queued() == [] then None else Some(Timeout(Queued()[0].ts, lastClock))
    {
      var p := queue.Peek();
      if p.None? {
        return None;
      }
      var t := Diff(p.value.ts, lastClock);
      if t.sec < 0 || (t.sec == 0 && t.usec <= 0) {
        t := Timeval(0, 1000);
      }
      return Some(t);
    }
  }
}
