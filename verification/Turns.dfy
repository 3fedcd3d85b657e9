/** What the sender's turns put on the channel first, and when they put the final packet there. */
module Turns {
  import opened Options
  import opened Packets
  import opened SeqNumbers
  import opened SenderSpec
  import opened Protocol
  import Fifo

  /** The turn in which the sender sends first the packet numbered n. */
  predicate SendsFirst(s: State, t: State, n: nat) {
    |s.data| < |t.data| && t.data[|s.data|].num == n
  }

  lemma FirstSent(s: State, t: State, low: nat, sent: seq<Packet>, n: nat)
    requires sent != [] && sent[0].seqnum == Low8(n) && low <= n < low + 256
    requires t.data == s.data + Number(low, sent)
    ensures SendsFirst(s, t, n)
  {
    NumberFromLow(low, n);
    assert t.data[|s.data|] == Number(low, sent)[0];
  }

  lemma TurnResendsHead(s: SenderState, now: bv32)
    requires s.running && s.list != [] && s.window >= 1 && TimedOut(s.list[0], now)
    requires forall p :: p in s.list ==> p.payload != []
    ensures var (t, sent) := SenderSpec.Turn(s, Nothing, now);
            && t == s.(list := t.list) && |t.list| == |s.list|
            && sent != [] && sent[0] == s.list[0].(timestamp := now)
  {
    TimeoutsKeep(s, now);
    HeadResent(s, now);
  }

  /** The turn in which the timed-out head is sent again. */
  lemma HeadSent(s: State, now: bv32)
    requires Inv(s) && s.snd.running && s.snd.list != [] && TimedOut(s.snd.list[0], now)
    ensures var t := Next(s, SenderIdle(now));
            && Inv(t) && t == s.(snd := s.snd.(list := t.snd.list), data := t.data)
            && Base(t) == Base(s) && SendsFirst(s, t, Base(s))
  {
    var t := Next(s, SenderIdle(now));
    StepKeepsInv(s, SenderIdle(now));
    TurnResendsHead(s.snd, now);
    FirstSent(s, t, Base(s), SenderSpec.Turn(s.snd, Nothing, now).1, Base(s));
  }

  /** The turn in which a chunk is read into the empty list. */
  lemma ChunkRead(s: State, n: nat, now: bv32)
    requires Inv(s) && s.snd.list == [] && s.snd.fin.None? && n > 0 && Enabled(s, SenderReads(n, now))
    ensures var t := Next(s, SenderReads(n, now));
            && Inv(t) && t.snd.running && |t.snd.list| == 1 && Base(t) == Base(s) == |s.chunks|
            && t == s.(snd := t.snd, data := t.data, chunks := s.chunks + [s.rest[..n]], rest := s.rest[n..])
            && t.snd.fin == None && SendsFirst(s, t, |s.chunks|)
  {
    var t := Next(s, SenderReads(n, now));
    StepKeepsInv(s, SenderReads(n, now));
    Fifo.ReadBase(s, n, now);
    TurnReads(s.snd, s.rest[..n], now);
    ReadSends(s, n, now);
  }

  lemma ReadSends(s: State, n: nat, now: bv32)
    requires SenderOk(s) && s.snd.list == [] && s.snd.fin.None? && n > 0 && Enabled(s, SenderReads(n, now))
    requires Base(Next(s, SenderReads(n, now))) == |s.chunks|
    ensures SendsFirst(s, Next(s, SenderReads(n, now)), |s.chunks|)
  {
    var t := Next(s, SenderReads(n, now));
    var sent := SenderSpec.Turn(s.snd, FileReady(s.rest[..n]), now).1;
    TurnReads(s.snd, s.rest[..n], now);
    FirstSent(s, t, |s.chunks|, sent, |s.chunks|);
  }

  lemma TurnReads(s: SenderState, chunk: seq<bv8>, now: bv32)
    requires s.running && s.list == [] && s.window >= 1 && s.fin == None && chunk != []
    ensures var (t, sent) := SenderSpec.Turn(s, FileReady(chunk), now);
            && t.running && |t.list| == 1 && t.fin == None
            && sent != [] && sent[0].seqnum == s.seqnum
  {
    var s1 := Handle(s, FileReady(chunk), now).0;
    TimeoutsKeep(s1, now);
  }

  // ---------- The last turn ----------

  /** If the sender stops in a turn, that turn sends the final packet last. */
  lemma StopSendsFinal(s: State, ev: Event)
    requires Inv(s) && Enabled(s, ev) && OfSender(ev) && !Next(s, ev).snd.running
    ensures EndsWithFinal(s, Next(s, ev))
  {
    match ev
    case SenderIdle(now) =>
      IdleStops(s, now);
    case SenderReads(n, now) =>
      ReadHandled(s, n, now);
      StopsAfter(Read(s, n), FileReady(s.rest[..n]), now);
    case SenderHears(m, e, buf, now) =>
      EnabledIsHearable(s, m, e, buf, now);
      HearingStops(s, m, e, DecodePacket(buf), now);
  }

  /** The last packet sent on the way from s to t is the final one. */
  predicate EndsWithFinal(s: State, t: State) {
    |s.data| < |t.data| && t.data[|t.data| - 1].num == |t.chunks| && IsFinal(t.data[|t.data| - 1].pkt, |t.chunks|)
  }

  lemma IdleStops(s: State, now: bv32)
    requires Inv(s) && s.snd.running && !SenderTurn(s, Nothing, now).snd.running
    ensures EndsWithFinal(s, SenderTurn(s, Nothing, now))
  {
    assert s.data + Number(Base(s), []) == s.data;
    assert Handled(s, Nothing, now) == s;
    StopsAfter(s, Nothing, now);
  }

  lemma HearingStops(s: State, m: Msg, e: Effect, d: Decoded, now: bv32)
    requires Inv(s) && Hearable(s, m, e, d) && !SenderTurn(s, AckReady(d), now).snd.running
    ensures EndsWithFinal(s, SenderTurn(s, AckReady(d), now))
  {
    AckKeepsInv(s, m, e, d, now);
    StopsAfter(s, AckReady(d), now);
  }

  lemma StopsAfter(s: State, ready: Ready, now: bv32)
    requires var h := Handled(s, ready, now); h.snd.running && Inv(h)
    requires !SenderTurn(s, ready, now).snd.running
    ensures EndsWithFinal(s, SenderTurn(s, ready, now))
  {
    TurnIsHandleThenFinish(s, ready, now);
    FinishStops(Handled(s, ready, now), now);
  }

  lemma FinishStops(s: State, now: bv32)
    requires Inv(s) && s.snd.running && !Finished(s, now).snd.running
    ensures EndsWithFinal(s, Finished(s, now))
  {
    if s.snd.fin.Some? && s.snd.list == [] {
      var p := s.snd.fin.value.(timestamp := now);
      NumberFromLow(|s.chunks|, |s.chunks|);
      assert Number(|s.chunks|, [p]) == [Msg(|s.chunks|, p)];
    } else {
      TimeoutsKeepInv(s, now);
    }
  }

  /** The sender stops at once when everything is acknowledged and the end of the input is read. */
  lemma LastTurn(s: State, now: bv32)
    requires Inv(s) && s.snd.running && s.snd.list == [] && s.snd.fin.Some?
    ensures !Next(s, SenderIdle(now)).snd.running
  {
  }

  /** Also when it is read in this turn. */
  lemma EndRead(s: State, now: bv32)
    requires s.snd.running && s.snd.list == [] && s.snd.window >= 1 && s.snd.fin.None? && s.rest == []
    ensures Enabled(s, SenderReads(0, now))
    ensures var t := Next(s, SenderReads(0, now));
            !t.snd.running && t.chunks == s.chunks && t.rest == [] && t.rcv == s.rcv
  {
  }
}
