/** What the sender does over whole runs: how much it reads before it hears from the receiver, what its
    packets look like, which window it works with, and how long it waits before it sends one again. */
module SenderRuns {
  import opened Options
  import opened Packets
  import opened SeqNumbers
  import opened SenderSpec
  import opened Protocol
  import opened Runs
  import Fifo
  import SenderExact
  import Turns

  // ---------- The packets and the windows ----------

  /** In every run, every data packet is a plain one with window 0, numbered with the low eight bits of the
      number of its chunk, or the empty one that follows the last chunk. */
  lemma DataOnTheWire(input: seq<bv8>, evs: seq<Event>, m: Msg)
    requires Legal(Init(input), evs) && m in Run(Init(input), evs).data
    ensures var s := Run(Init(input), evs);
            && m.num <= |s.chunks|
            && m.pkt == Packet(DATA, false, 0, m.num % 256, m.pkt.timestamp,
                               if m.num < |s.chunks| then s.chunks[m.num] else [])
            && (m.num == |s.chunks| ==> !s.snd.running && s.rest == [])
  {
    ReachableInv(input, evs);
  }

  /** The sender works with the window of the last packet that it could read, be it an acknowledgement or
      a NACK. */
  lemma WindowHeard(s: State, ev: Event)
    requires Inv(s) && Enabled(s, ev) && OfSender(ev)
    ensures Next(s, ev).snd.window ==
            if ev.SenderHears? && ev.e == Intact then ev.m.pkt.window else s.snd.window
  {
    if ev.SenderHears? {
      EnabledIsHearable(s, ev.m, ev.e, ev.buf, ev.now);
      WindowAfterTurn(s.snd, AckReady(DecodePacket(ev.buf)), ev.now);
      SenderExact.HeardExactly(s.snd, DecodePacket(ev.buf));
      assert AckOk(ev.m, Expected(s));
    } else if ev.SenderReads? {
      WindowAfterTurn(s.snd, FileReady(s.rest[..ev.n]), ev.now);
    } else {
      WindowAfterTurn(s.snd, Nothing, ev.now);
    }
  }

  lemma WindowAfterTurn(s: SenderState, ready: Ready, now: bv32)
    ensures SenderSpec.Turn(s, ready, now).0.window == Handle(s, ready, now).0.window
    ensures !ready.AckReady? ==> SenderSpec.Turn(s, ready, now).0.window == s.window
  {
  }

  /** Nothing was heard from the receiver, and at most one chunk was read. */
  ghost predicate OneAtMost(s: State) {
    s.snd.window == 1 && Base(s) == 0 && |s.chunks| <= 1
  }

  lemma StaysOneAtMost(s: State, ev: Event)
    requires Inv(s) && Enabled(s, ev) && OneAtMost(s) && !ev.SenderHears?
    ensures OneAtMost(Next(s, ev))
  {
    if OfSender(ev) {
      Fifo.SenderBase(s, ev);
      WindowHeard(s, ev);
    }
  }

  lemma {:induction false} RunStaysOneAtMost(s: State, evs: seq<Event>)
    requires Inv(s) && Legal(s, evs) && OneAtMost(s) && forall i :: 0 <= i < |evs| ==> !evs[i].SenderHears?
    ensures OneAtMost(Run(s, evs))
    decreases |evs|
  {
    if evs != [] {
      StepKeepsInv(s, evs[0]);
      StaysOneAtMost(s, evs[0]);
      RunStaysOneAtMost(Next(s, evs[0]), evs[1..]);
    }
  }

  /** Before it hears from the receiver the sender reads at most one chunk. */
  lemma StartsWithOne(input: seq<bv8>, evs: seq<Event>)
    requires Legal(Init(input), evs) && forall i :: 0 <= i < |evs| ==> !evs[i].SenderHears?
    ensures |Run(Init(input), evs).chunks| <= 1
  {
    InitInv(input);
    RunStaysOneAtMost(Init(input), evs);
  }

  // ---------- Two seconds ----------

  /** Chunk n is acknowledged, or it was last sent at time t. */
  ghost predicate SentAt(s: State, n: nat, t: bv32) {
    n < Base(s) || (n - Base(s) < |s.snd.list| && s.snd.list[n - Base(s)].timestamp == t)
  }

  /** Nothing numbered n was sent on the way from s to t. */
  ghost predicate NotSent(s: State, t: State, n: nat) {
    s.data <= t.data && forall m :: m in t.data[|s.data|..] ==> m.num != n
  }

  /** On the way from s to u chunk n was not sent, and it is still true that it was last sent at t. */
  ghost predicate Waits(s: State, u: State, n: nat, t: bv32) {
    SentAt(u, n, t) && NotSent(s, u, n)
  }

  lemma NotSentTwice(s: State, t: State, u: State, n: nat)
    requires NotSent(s, t, n) && NotSent(t, u, n)
    ensures NotSent(s, u, n)
  {
    assert u.data[|s.data|..] == t.data[|s.data|..] + u.data[|t.data|..];
  }

  /** Just after it was sent, check_timeout does not send it. */
  lemma FinishWaits(s: State, now: bv32, n: nat, t: bv32)
    requires Inv(s) && s.snd.running && Base(s) <= n && SentAt(s, n, t) && SenderExact.JustAfter(now, t)
    ensures Waits(s, Finished(s, now), n, t)
  {
    var i := n - Base(s);
    IsConsecutive(s);
    Fifo.FinishedBase(s, now);
    StampStays(s.snd, Base(s), now, i);
    NothingNumbered(s, now, i);
  }

  lemma IsConsecutive(s: State)
    requires SenderOk(s) && ChunksOk(s.chunks)
    ensures Consecutive(s.snd.list, Base(s)) && |s.snd.list| <= 31
  {
  }

  lemma StampStays(s: SenderState, base: nat, now: bv32, i: nat)
    requires Consecutive(s.list, base) && |s.list| <= 31 && i < |s.list|
    requires SenderExact.JustAfter(now, s.list[i].timestamp)
    ensures var t := Finish(s, now).0; i < |t.list| && t.list[i].timestamp == s.list[i].timestamp
  {
    SenderExact.SentAfterTwoSeconds(s, base, now);
  }

  lemma NothingNumbered(s: State, now: bv32, i: nat)
    requires Consecutive(s.snd.list, Base(s)) && |s.snd.list| <= 31 && i < |s.snd.list|
    requires SenderExact.JustAfter(now, s.snd.list[i].timestamp)
    requires Base(Finished(s, now)) == Base(s)
    ensures NotSent(s, Finished(s, now), Base(s) + i)
  {
    var sent := Finish(s.snd, now).1;
    forall p | p in sent
      ensures NumberFrom(Base(s), p.seqnum) != Base(s) + i
    {
      NotAmongSent(s.snd, Base(s), now, p, i);
    }
    OtherNumbers(s.data, Base(s), sent, Base(s) + i);
    assert Finished(s, now).data == s.data + Number(Base(s), sent);
  }

  lemma OtherNumbers(data: seq<Msg>, low: nat, sent: seq<Packet>, n: nat)
    requires forall p :: p in sent ==> NumberFrom(low, p.seqnum) != n
    ensures forall m :: m in (data + Number(low, sent))[|data|..] ==> m.num != n
  {
  }

  lemma NotAmongSent(s: SenderState, base: nat, now: bv32, p: Packet, i: nat)
    requires Consecutive(s.list, base) && |s.list| <= 31 && i < |s.list|
    requires p in Finish(s, now).1 && SenderExact.JustAfter(now, s.list[i].timestamp)
    ensures NumberFrom(base, p.seqnum) != base + i
  {
    ResentExactly(s, base, now);
    var j := PlaceOf(s.list, Fitting(s), now, p);
    SenderExact.TwoSeconds(s.list[j], now);
    NumberFromLow(base, base + j);
  }

  lemma PlaceOf(list: seq<Packet>, k: nat, now: bv32, p: Packet) returns (j: nat)
    requires k <= |list| && IsRenewed(p, list, k, now)
    ensures j < k && TimedOut(list[j], now) && p.seqnum == list[j].seqnum
  {
    j :| 0 <= j < k && TimedOut(list[j], now) && p == list[j].(timestamp := now);
  }

  lemma FinishWaitsAll(s: State, now: bv32, n: nat, t: bv32)
    requires Inv(s) && s.snd.running && SentAt(s, n, t) && SenderExact.JustAfter(now, t)
    ensures Waits(s, Finished(s, now), n, t)
  {
    if Base(s) <= n {
      FinishWaits(s, now, n, t);
    } else {
      FinishKeepsInv(s, now);
      Fifo.FinishedBase(s, now);
      FinishSendsFromBase(s, now);
    }
  }

  lemma FinishSendsFromBase(s: State, now: bv32)
    requires Base(Finished(s, now)) == Base(s)
    ensures s.data <= Finished(s, now).data
    ensures forall m :: m in Finished(s, now).data[|s.data|..] ==> m.num >= Base(s)
  {
  }

  /** Neither does the sender when it hears an acknowledgement, */
  lemma HearingWaits(s: State, m: Msg, e: Effect, d: Decoded, now: bv32, n: nat, t: bv32)
    requires Inv(s) && Hearable(s, m, e, d) && SentAt(s, n, t)
    ensures Waits(s, Handled(s, AckReady(d), now), n, t)
  {
    AckHandled(s, m, e, d, now);
    AckKeepsInv(s, m, e, d, now);
    Dropped(s, Handled(s, AckReady(d), now), Covered(s, m, e), n, t);
  }

  lemma Dropped(s: State, h: State, j: nat, n: nat, t: bv32)
    requires j <= |s.snd.list| && h.snd.list == s.snd.list[j..] && Base(h) == Base(s) + j && SentAt(s, n, t)
    requires h.data == s.data + []
    ensures Waits(s, h, n, t)
  {
  }

  /** or reads the input. */
  lemma ReadingWaits(s: State, k: nat, now: bv32, n: nat, t: bv32)
    requires Inv(s) && Enabled(s, SenderReads(k, now)) && SentAt(s, n, t)
    ensures Waits(s, Handled(Read(s, k), FileReady(s.rest[..k]), now), n, t)
  {
    var h := Handled(Read(s, k), FileReady(s.rest[..k]), now);
    if !Reads(s.snd) {
      NothingRead(s, s.rest[..k], now);
    } else {
      SenderExact.ReadRespectsWindow(s.snd, s.rest[..k], now);
      Fifo.HandledBase(s, k, now);
      var sent := Handle(s.snd, FileReady(s.rest[..k]), now).1;
      Appended(s, h, sent, n, t);
    }
  }

  lemma Appended(s: State, h: State, sent: seq<Packet>, n: nat, t: bv32)
    requires SenderOk(s) && h.snd.list == s.snd.list + sent && |sent| <= 1 && Base(h) == Base(s) && SentAt(s, n, t)
    requires h.data == s.data + Number(Base(s), sent)
    requires sent == [] || sent[0].seqnum == s.snd.seqnum
    ensures Waits(s, h, n, t)
  {
    if sent != [] {
      NumberFromLow(Base(s), |s.chunks|);
      assert h.data[|s.data|..] == [Msg(|s.chunks|, sent[0])];
    }
  }

  // ---------- Whole turns ----------

  lemma TurnWaits(s: State, r: State, ready: Ready, now: bv32, n: nat, t: bv32)
    requires var h := Handled(r, ready, now); Inv(h) && h.snd.running && Waits(s, h, n, t)
    requires SenderExact.JustAfter(now, t)
    ensures Waits(s, SenderTurn(r, ready, now), n, t)
  {
    var h := Handled(r, ready, now);
    TurnIsHandleThenFinish(r, ready, now);
    FinishWaitsAll(h, now, n, t);
    NotSentTwice(s, h, Finished(h, now), n);
  }

  lemma StepWaits(s: State, ev: Event, n: nat, t: bv32)
    requires Inv(s) && Enabled(s, ev) && SentAt(s, n, t) && (OfSender(ev) ==> SenderExact.JustAfter(ev.now, t))
    ensures Waits(s, Next(s, ev), n, t)
  {
    match ev
    case SenderIdle(now) =>
      IdleTurnWaits(s, now, n, t);
    case SenderReads(k, now) =>
      ReadingTurnWaits(s, k, now, n, t);
    case SenderHears(m, e, buf, now) =>
      EnabledIsHearable(s, m, e, buf, now);
      HearingTurnWaits(s, m, e, DecodePacket(buf), now, n, t);
    case _ =>
      ReceiverTurnWaits(s, ev, n, t);
  }

  lemma ReadingTurnWaits(s: State, k: nat, now: bv32, n: nat, t: bv32)
    requires Inv(s) && Enabled(s, SenderReads(k, now)) && SentAt(s, n, t) && SenderExact.JustAfter(now, t)
    ensures Waits(s, SenderTurn(Read(s, k), FileReady(s.rest[..k]), now), n, t)
  {
    ReadHandled(s, k, now);
    ReadingWaits(s, k, now, n, t);
    TurnWaits(s, Read(s, k), FileReady(s.rest[..k]), now, n, t);
  }

  lemma ReceiverTurnWaits(s: State, ev: Event, n: nat, t: bv32)
    requires CanHappen(s, ev) && !OfSender(ev) && SentAt(s, n, t)
    ensures Waits(s, Next(s, ev), n, t)
  {
    ReceiverLeavesSender(s, ev);
    SameSenderWaits(s, Next(s, ev), n, t);
  }

  lemma ReceiverLeavesSender(s: State, ev: Event)
    requires CanHappen(s, ev) && !OfSender(ev)
    ensures var u := Next(s, ev); u.data == s.data && u.snd == s.snd && u.chunks == s.chunks
  {
  }

  lemma SameSenderWaits(s: State, u: State, n: nat, t: bv32)
    requires u.data == s.data && u.snd == s.snd && u.chunks == s.chunks && SentAt(s, n, t)
    ensures Waits(s, u, n, t)
  {
  }

  lemma IdleTurnWaits(s: State, now: bv32, n: nat, t: bv32)
    requires Inv(s) && s.snd.running && SentAt(s, n, t) && SenderExact.JustAfter(now, t)
    ensures Waits(s, SenderTurn(s, Nothing, now), n, t)
  {
    assert s.data + Number(Base(s), []) == s.data;
    assert Handled(s, Nothing, now) == s;
    TurnWaits(s, s, Nothing, now, n, t);
  }

  lemma HearingTurnWaits(s: State, m: Msg, e: Effect, d: Decoded, now: bv32, n: nat, t: bv32)
    requires Inv(s) && Hearable(s, m, e, d) && SentAt(s, n, t) && SenderExact.JustAfter(now, t)
    ensures Waits(s, SenderTurn(s, AckReady(d), now), n, t)
  {
    HearingWaits(s, m, e, d, now, n, t);
    AckKeepsInv(s, m, e, d, now);
    TurnWaits(s, s, AckReady(d), now, n, t);
  }

  /** A chunk sent at time t is not sent again as long as the clock shows t or t + 1, whatever happens in
      the meantime. */
  lemma {:induction false} NotAgainForTwoSeconds(s: State, evs: seq<Event>, n: nat, t: bv32)
    requires Inv(s) && Legal(s, evs) && SentAt(s, n, t)
    requires forall i :: 0 <= i < |evs| && OfSender(evs[i]) ==> SenderExact.JustAfter(evs[i].now, t)
    ensures NotSent(s, Run(s, evs), n)
    decreases |evs|
  {
    if evs != [] {
      StepWaits(s, evs[0], n, t);
      StepKeepsInv(s, evs[0]);
      assert forall i :: 0 <= i < |evs| - 1 ==> evs[1..][i] == evs[i + 1];
      NotAgainForTwoSeconds(Next(s, evs[0]), evs[1..], n, t);
      NotSentTwice(s, Next(s, evs[0]), Run(s, evs), n);
    }
  }
}
