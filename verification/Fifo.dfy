/** The same machine over first-in-first-out channels that only lose and damage packets: the bound on
    staleness that the general link is asked for holds of itself. */
module Fifo {
  import opened Packets
  import opened SeqNumbers
  import opened SenderSpec
  import opened ReceiverSpec
  import opened Protocol
  import Safety
  import RI = ReceiverInvariant

  /** The general state, with the packets in flight in each direction, oldest first. */
  datatype FState = FState(s: State, dataQ: seq<Msg>, ackQ: seq<Msg>)

  function FInit(input: seq<bv8>): FState {
    FState(Init(input), [], [])
  }

  /** A turn of a program, on the oldest packet in flight if it is one that hears a packet, or the loss
      of a packet at any place in a channel. */
  datatype FEvent =
    | FIdle(now: bv32)
    | FReads(n: nat, now: bv32)
    | FSenderHears(e: Effect, buf: seq<bv8>, now: bv32)
    | FReceiverHears(e: Effect, buf: seq<bv8>)
    | FReceiverGivesUp
    | LoseData(i: nat)
    | LoseAck(i: nat)

  predicate IsLoss(ev: FEvent) {
    ev.LoseData? || ev.LoseAck?
  }

  /** The event of the general machine. */
  function General(f: FState, ev: FEvent): Event
    requires !IsLoss(ev)
    requires ev.FSenderHears? ==> f.ackQ != []
    requires ev.FReceiverHears? ==> f.dataQ != []
  {
    match ev
    case FIdle(now) => SenderIdle(now)
    case FReads(n, now) => SenderReads(n, now)
    case FSenderHears(e, buf, now) => SenderHears(f.ackQ[0], e, buf, now)
    case FReceiverHears(e, buf) => ReceiverHears(f.dataQ[0], e, buf)
    case FReceiverGivesUp => ReceiverGivesUp
  }

  /** Nothing is asked about staleness. */
  predicate FEnabled(f: FState, ev: FEvent) {
    if ev.LoseData? then ev.i < |f.dataQ|
    else if ev.LoseAck? then ev.i < |f.ackQ|
    else
      && (ev.FSenderHears? ==> f.ackQ != [])
      && (ev.FReceiverHears? ==> f.dataQ != [])
      && CanHappen(f.s, General(f, ev))
  }

  function Without(q: seq<Msg>, i: nat): seq<Msg>
    requires i < |q|
  {
    q[..i] + q[i + 1..]
  }

  lemma NextSends(s: State, ev: Event)
    requires CanHappen(s, ev)
    ensures s.data <= Next(s, ev).data && s.acks <= Next(s, ev).acks
  {
  }

  function FNext(f: FState, ev: FEvent): FState
    requires FEnabled(f, ev)
  {
    if ev.LoseData? then f.(dataQ := Without(f.dataQ, ev.i))
    else if ev.LoseAck? then f.(ackQ := Without(f.ackQ, ev.i))
    else
      NextSends(f.s, General(f, ev));
      var t := Next(f.s, General(f, ev));
      FState(t,
             (if ev.FReceiverHears? then f.dataQ[1..] else f.dataQ) + t.data[|f.s.data|..],
             (if ev.FSenderHears? then f.ackQ[1..] else f.ackQ) + t.acks[|f.s.acks|..])
  }

  predicate FLegal(f: FState, evs: seq<FEvent>)
    decreases |evs|
  {
    evs == [] || (FEnabled(f, evs[0]) && FLegal(FNext(f, evs[0]), evs[1..]))
  }

  function FRun(f: FState, evs: seq<FEvent>): FState
    requires FLegal(f, evs)
    decreases |evs|
  {
    if evs == [] then f else FRun(FNext(f, evs[0]), evs[1..])
  }

  // ---------- The invariant of the channels ----------

  /** No number that the receiver has written or holds exceeds bound. */
  ghost predicate Below(r: ReceiverState, bound: int) {
    |r.out| <= bound + 1 && ListBelow(r.list, |r.out|, bound)
  }

  ghost predicate ListBelow(list: seq<Packet>, expected: nat, bound: int) {
    forall p :: p in list ==> NumberFrom(expected, p.seqnum) <= bound
  }

  /** Whatever is known to the receiver, or will be when the packets before m have arrived, is at most
      30 ahead of m. */
  ghost predicate DataQOk(f: FState) {
    && (forall m :: m in f.dataQ ==> m in f.s.data && Below(f.s.rcv, m.num + 30))
    && (forall i, j :: 0 <= i < j < |f.dataQ| ==> f.dataQ[i].num <= f.dataQ[j].num + 30)
  }

  /** Acknowledgements in flight are in order and none is behind the sender. */
  ghost predicate AckQOk(f: FState) {
    && (forall m :: m in f.ackQ ==> m in f.s.acks && (m.pkt.ptype == ACK ==> Base(f.s) <= m.num))
    && Rising(f.ackQ)
  }

  ghost predicate Rising(q: seq<Msg>) {
    forall i, j :: 0 <= i < j < |q| && q[i].pkt.ptype == ACK && q[j].pkt.ptype == ACK ==> q[i].num <= q[j].num
  }

  ghost predicate FInv(f: FState) {
    Inv(f.s) && DataQOk(f) && AckQOk(f)
  }

  lemma FInitInv(input: seq<bv8>)
    ensures FInv(FInit(input))
  {
    InitInv(input);
  }

  /** In a first-in-first-out channel every delivered packet is fresh. */
  lemma FifoIsFresh(f: FState, ev: FEvent)
    requires FInv(f) && FEnabled(f, ev) && !IsLoss(ev)
    ensures Enabled(f.s, General(f, ev))
  {
    if ev.FReceiverHears? {
      assert f.dataQ[0] in f.dataQ;
    } else if ev.FSenderHears? {
      assert f.ackQ[0] in f.ackQ;
    }
  }

  // ---------- Loss ----------

  lemma WithoutMembers(q: seq<Msg>, i: nat)
    requires i < |q|
    ensures forall m :: m in Without(q, i) ==> m in q
    ensures forall j :: 0 <= j < |q| - 1 ==> Without(q, i)[j] == q[if j < i then j else j + 1]
  {
  }

  lemma LossKeepsFInv(f: FState, ev: FEvent)
    requires FInv(f) && FEnabled(f, ev) && IsLoss(ev)
    ensures FInv(FNext(f, ev))
  {
    if ev.LoseData? {
      WithoutMembers(f.dataQ, ev.i);
    } else {
      WithoutMembers(f.ackQ, ev.i);
    }
  }

  // ---------- Turns of the sender ----------

  /** The base moves as far as the packet heard covers, and not at all otherwise. */
  lemma SenderBase(s: State, ev: Event)
    requires Inv(s) && Enabled(s, ev) && OfSender(ev)
    ensures Base(Next(s, ev)) == Base(s) + if ev.SenderHears? then Covered(s, ev.m, ev.e) else 0
  {
    match ev
    case SenderIdle(now) =>
      FinishKeepsLength(s.snd, now);
    case SenderReads(n, now) =>
      ReadBase(s, n, now);
    case SenderHears(m, e, buf, now) =>
      EnabledIsHearable(s, m, e, buf, now);
      HearingKeepsInv(s, m, e, DecodePacket(buf), now);
  }

  lemma ReadBase(s: State, n: nat, now: bv32)
    requires Inv(s) && Enabled(s, SenderReads(n, now))
    ensures Base(Next(s, SenderReads(n, now))) == Base(s)
  {
    var t := Handled(Read(s, n), FileReady(s.rest[..n]), now);
    ReadHandled(s, n, now);
    TurnIsHandleThenFinish(Read(s, n), FileReady(s.rest[..n]), now);
    HandledBase(s, n, now);
    FinishedBase(t, now);
  }

  lemma HandledBase(s: State, n: nat, now: bv32)
    requires SenderOk(s) && Enabled(s, SenderReads(n, now))
    ensures Base(Handled(Read(s, n), FileReady(s.rest[..n]), now)) == Base(s)
  {
  }

  lemma FinishedBase(s: State, now: bv32)
    requires SenderOk(s) && ChunksOk(s.chunks)
    ensures Base(Finished(s, now)) == Base(s)
  {
    FinishKeepsLength(s.snd, now);
  }

  /** What the sender sends in a turn is numbered from its new base on. */
  lemma SentFromBase(s: State, ev: Event)
    requires Inv(s) && Enabled(s, ev) && OfSender(ev)
    ensures var t := Next(s, ev);
            && t.rcv == s.rcv && t.acks == s.acks
            && s.data <= t.data
            && forall m :: m in t.data[|s.data|..] ==> m in t.data && Base(t) <= m.num <= Base(t) + 30
  {
    var t := Next(s, ev);
    StepKeepsInv(s, ev);
    forall m | m in t.data[|s.data|..]
      ensures m in t.data && Base(t) <= m.num <= Base(t) + 30
    {
      assert m in t.data;
      SentNumber(s, ev, m);
    }
  }

  lemma SentNumber(s: State, ev: Event, m: Msg)
    requires CanHappen(s, ev) && OfSender(ev)
    requires s.data <= Next(s, ev).data && m in Next(s, ev).data[|s.data|..]
    ensures Base(Next(s, ev)) <= m.num
  {
  }

  lemma SenderKeepsDataQ(f: FState, ev: FEvent)
    requires FInv(f) && FEnabled(f, ev) && (ev.FIdle? || ev.FReads? || ev.FSenderHears?)
    ensures DataQOk(FNext(f, ev))
  {
    var g := General(f, ev);
    FifoIsFresh(f, ev);
    SentFromBase(f.s, g);
    StepKeepsInv(f.s, g);
    QueueGrows(f.s, f.dataQ, Next(f.s, g), Next(f.s, g).data[|f.s.data|..]);
  }

  /** New packets go to the end of a queue whose packets are all known. */
  lemma QueueGrows(s: State, q: seq<Msg>, t: State, sent: seq<Msg>)
    requires Inv(t) && t.rcv == s.rcv && s.data <= t.data
    requires forall m :: m in q ==> m in s.data && Below(s.rcv, m.num + 30)
    requires forall i, j :: 0 <= i < j < |q| ==> q[i].num <= q[j].num + 30
    requires forall m :: m in sent ==> m in t.data && Base(t) <= m.num
    ensures DataQOk(FState(t, q + sent, []))
  {
    var all := q + sent;
    forall m | m in t.data
      ensures m.num <= Base(t) + 31
    {
      assert IsChunk(m.pkt, t.chunks, m.num) || m.num == |t.chunks|;
    }
  }

  lemma SenderKeepsAckQ(f: FState, ev: FEvent)
    requires FInv(f) && FEnabled(f, ev) && (ev.FIdle? || ev.FReads? || ev.FSenderHears?)
    ensures AckQOk(FNext(f, ev))
  {
    var g := General(f, ev);
    var t := Next(f.s, g);
    FifoIsFresh(f, ev);
    SentFromBase(f.s, g);
    SenderBase(f.s, g);
    AcksRemain(f, if ev.FSenderHears? then 1 else 0, t, if ev.FSenderHears? then ev.e else Intact);
    assert t.acks[|f.s.acks|..] == [];
  }

  /** The first k acknowledgements leave the queue; what the one that left covers is not ahead of the
      others. */
  lemma AcksRemain(f: FState, k: nat, t: State, e: Effect)
    requires FInv(f) && k <= |f.ackQ| && k <= 1 && t.acks == f.s.acks
    requires Base(t) == Base(f.s) + if k == 1 then Covered(f.s, f.ackQ[0], e) else 0
    ensures AckQOk(FState(t, [], f.ackQ[k..] + []))
  {
    var q := f.ackQ[k..];
    assert q + [] == q;
    forall m | m in q && m.pkt.ptype == ACK
      ensures Base(t) <= m.num
    {
      var j :| k <= j < |f.ackQ| && f.ackQ[j] == m;
      assert f.ackQ[j] in f.ackQ;
    }
  }

  // ---------- Turns of the receiver ----------

  /** If nothing known to the receiver exceeds bound, and what arrives does not either, then nothing
      known afterwards does. */
  lemma RunBelow(s: State, r: ReceiverState, bound: int)
    requires Inv(s) && s.rcv.running && Expected(s) <= |s.chunks|
    requires r == s.rcv.(list := r.list, lastTimestamp := r.lastTimestamp)
    requires RI.Sorted(r.list, s.rcv.waited) && ListOk(r.list, s.chunks, Expected(s))
    requires Expected(s) <= bound + 1
    requires ListBelow(r.list, Expected(s), bound)
    ensures Below(WriteRun(r).0, bound)
  {
    var k := RunLength(r.list, r.waited);
    WriteRunIsDone(r);
    WrittenBelow(s, r.list, k, bound);
    RunDoneBelow(r, WriteRun(r).0, k, bound);
  }

  lemma RunDoneBelow(r: ReceiverState, r1: ReceiverState, k: nat, bound: int)
    requires RunDone(r, r1, k) && |r.out| + k <= bound + 1
    requires RI.Sorted(r.list, Low8(|r.out|)) && ListBelow(r.list, |r.out|, bound)
    ensures Below(r1, bound)
  {
    RestBelow(r.list, |r.out|, k, bound);
  }

  lemma WrittenBelow(s: State, list: seq<Packet>, k: nat, bound: int)
    requires Inv(s) && RI.Sorted(list, s.rcv.waited) && ListOk(list, s.chunks, Expected(s))
    requires k == RunLength(list, s.rcv.waited) && Expected(s) <= bound + 1
    requires ListBelow(list, Expected(s), bound)
    ensures Expected(s) + k <= bound + 1
  {
    if k > 0 {
      LastOfRun(list, Expected(s));
      assert list[k - 1] in list;
    }
  }

  lemma LastOfRun(list: seq<Packet>, expected: nat)
    requires RI.Sorted(list, Low8(expected)) && RunLength(list, Low8(expected)) > 0
    ensures var k := RunLength(list, Low8(expected)); NumberFrom(expected, list[k - 1].seqnum) == expected + k - 1
  {
    var k := RunLength(list, Low8(expected));
    RunIsMaximal(list, Low8(expected));
    RunOffset(list, Low8(expected), k - 1);
    AdvanceNumber(expected, k - 1);
    NumberFromLow(expected, expected + (k - 1));
  }

  lemma RestBelow(list: seq<Packet>, expected: nat, k: nat, bound: int)
    requires RI.Sorted(list, Low8(expected)) && k <= |list|
    requires ListBelow(list, expected, bound)
    ensures ListBelow(list[k..], expected + k, bound)
  {
    forall p | p in list[k..]
      ensures NumberFrom(expected + k, p.seqnum) <= bound
    {
      var i :| k <= i < |list| && list[i] == p;
      RI.OffsetAtLeastIndex(list, Low8(expected), i);
      NumberKept(expected, k, p.seqnum);
    }
  }

  lemma ChunkBelow(s: State, p: Packet, n: nat, bound: int)
    requires Inv(s) && s.rcv.running && IsChunk(p, s.chunks, n) && Expected(s) <= n + STALENESS
    requires Below(s.rcv, bound) && n <= bound
    ensures Below(ReceiverSpec.Receive(s.rcv, Ok(p)).0, bound)
  {
    if n < Expected(s) {
      StaleChunk(s, p, n);
    } else if InReceiverWindow(p.seqnum, s.rcv.waited, s.rcv.window) {
      var r := Inserted(s.rcv, p);
      ChunkInserted(s, p, n);
      InWindowCases(s.rcv, p);
      NumberFromLow(Expected(s), n);
      RI.AcceptedIsReachable(p.seqnum, s.rcv.waited, s.rcv.window);
      RI.InsertSorted(s.rcv.list, p, s.rcv.waited);
      RunBelow(s, r, bound);
    }
  }

  lemma ReceptionBelow(s: State, m: Msg, e: Effect, d: Decoded, bound: int)
    requires Inv(s) && Receivable(s, m, e, d)
    requires Below(s.rcv, bound) && m.num <= bound
    ensures Below(ReceiverSpec.Turn(s.rcv, d).0, bound)
  {
    if e == Intact {
      if IsChunk(m.pkt, s.chunks, m.num) {
        ChunkBelow(s, m.pkt, m.num, bound);
      } else if Expected(s) == |s.chunks| {
        FinalReceived(s, m.pkt);
      } else {
        FinalRepeated(s, m.pkt);
      }
    }
  }

  /** Acknowledgements sent in one turn are in order and not below the expected number. */
  lemma RepliesRise(s: State, m: Msg, e: Effect, d: Decoded)
    requires Inv(s) && Receivable(s, m, e, d)
    ensures var q := Number(Expected(s), ReceiverSpec.Turn(s.rcv, d).1);
            Rising(q) && forall a :: a in q ==> Expected(s) <= a.num
  {
    if e == Intact {
      if IsChunk(m.pkt, s.chunks, m.num) {
        ChunkRepliesRise(s, m.pkt, m.num);
      } else if Expected(s) == |s.chunks| {
        FinalReceived(s, m.pkt);
      } else {
        FinalRepeated(s, m.pkt);
      }
    }
  }

  lemma ChunkRepliesRise(s: State, p: Packet, n: nat)
    requires Inv(s) && s.rcv.running && IsChunk(p, s.chunks, n) && Expected(s) <= n + STALENESS
    ensures Rising(Number(Expected(s), ReceiverSpec.Receive(s.rcv, Ok(p)).1))
  {
    if n < Expected(s) {
      StaleChunk(s, p, n);
    } else if InReceiverWindow(p.seqnum, s.rcv.waited, s.rcv.window) {
      var r := Inserted(s.rcv, p);
      ChunkInserted(s, p, n);
      InWindowCases(s.rcv, p);
      RunIsChunks(r.list, s.chunks, Expected(s));
      RunAcksRise(s, r);
    }
  }

  lemma RunAcksRise(s: State, r: ReceiverState)
    requires r.waited == Low8(Expected(s)) && 1 <= r.window <= 31
    requires RunLength(r.list, r.waited) <= 33
    ensures Rising(Number(Expected(s), WriteRun(r).1))
  {
    var acks := WriteRun(r).1;
    var q := Number(Expected(s), acks);
    WriteRunAcks(r);
    forall j | 0 <= j < |q|
      ensures q[j].num == Expected(s) + j + 1
    {
      AdvanceNumber(Expected(s), j + 1);
      NumberFromLow(Expected(s), Expected(s) + j + 1);
    }
  }

  lemma ReceiverKeepsQueues(f: FState, ev: FEvent)
    requires FInv(f) && FEnabled(f, ev) && ev.FReceiverHears?
    ensures DataQOk(FNext(f, ev)) && AckQOk(FNext(f, ev))
  {
    var m := f.dataQ[0];
    assert m in f.dataQ;
    FifoIsFresh(f, ev);
    EnabledIsReceivable(f.s, m, ev.e, ev.buf);
    ReceptionKeepsQueues(f, ev.e, DecodePacket(ev.buf));
    ReceptionNext(f, ev);
  }

  lemma EnabledIsReceivable(s: State, m: Msg, e: Effect, buf: seq<bv8>)
    requires Inv(s) && Enabled(s, ReceiverHears(m, e, buf))
    ensures Receivable(s, m, e, DecodePacket(buf))
  {
    assert IsChunk(m.pkt, s.chunks, m.num) || IsFinal(m.pkt, m.num);
    ArrivalOutcome(m.pkt, e, buf);
  }

  lemma ReceptionNext(f: FState, ev: FEvent)
    requires FEnabled(f, ev) && ev.FReceiverHears?
    ensures var (rcv, sent) := ReceiverSpec.Turn(f.s.rcv, DecodePacket(ev.buf));
            FNext(f, ev) == FState(Answered(f.s, rcv, sent), f.dataQ[1..], f.ackQ + Number(Expected(f.s), sent))
  {
    var (rcv, sent) := ReceiverSpec.Turn(f.s.rcv, DecodePacket(ev.buf));
    var t := Answered(f.s, rcv, sent);
    HearingAnswers(f.s, f.dataQ[0], ev.e, ev.buf);
    NextSends(f.s, General(f, ev));
    NewInChannels(f.s, t, Number(Expected(f.s), sent));
    NextOfReception(f, ev, t, Number(Expected(f.s), sent));
  }

  lemma HearingAnswers(s: State, m: Msg, e: Effect, buf: seq<bv8>)
    requires CanHappen(s, ReceiverHears(m, e, buf))
    ensures var (rcv, sent) := ReceiverSpec.Turn(s.rcv, DecodePacket(buf));
            Next(s, ReceiverHears(m, e, buf)) == Answered(s, rcv, sent)
  {
  }

  lemma NextOfReception(f: FState, ev: FEvent, t: State, sent: seq<Msg>)
    requires FEnabled(f, ev) && ev.FReceiverHears? && t == Next(f.s, General(f, ev))
    requires f.s.data <= t.data && t.data[|f.s.data|..] == [] && f.s.acks <= t.acks && t.acks[|f.s.acks|..] == sent
    ensures FNext(f, ev) == FState(t, f.dataQ[1..], f.ackQ + sent)
  {
    assert f.dataQ[1..] + [] == f.dataQ[1..];
  }

  lemma NewInChannels(s: State, t: State, sent: seq<Msg>)
    requires t.data == s.data && t.acks == s.acks + sent
    ensures t.data[|s.data|..] == [] && t.acks[|s.acks|..] == sent
  {
  }

  lemma ReceptionKeepsQueues(f: FState, e: Effect, d: Decoded)
    requires FInv(f) && f.dataQ != [] && Receivable(f.s, f.dataQ[0], e, d)
    ensures var (rcv, sent) := ReceiverSpec.Turn(f.s.rcv, d);
            var g := FState(Answered(f.s, rcv, sent), f.dataQ[1..], f.ackQ + Number(Expected(f.s), sent));
            DataQOk(g) && AckQOk(g)
  {
    var (rcv, sent) := ReceiverSpec.Turn(f.s.rcv, d);
    var t := Answered(f.s, rcv, sent);
    forall m | m in f.dataQ[1..]
      ensures m in f.s.data && Below(t.rcv, m.num + 30)
    {
      var j :| 1 <= j < |f.dataQ| && f.dataQ[j] == m;
      ReceptionBelow(f.s, f.dataQ[0], e, d, m.num + 30);
    }
    RepliesRise(f.s, f.dataQ[0], e, d);
    AcksAppended(f, t, Number(Expected(f.s), sent));
  }

  lemma AcksAppended(f: FState, t: State, sent: seq<Msg>)
    requires FInv(f) && Base(t) == Base(f.s) && t.acks == f.s.acks + sent
    requires Rising(sent) && forall a :: a in sent ==> Expected(f.s) <= a.num
    ensures AckQOk(FState(t, [], f.ackQ + sent))
  {
    var q := f.ackQ + sent;
    forall i, j | 0 <= i < j < |q| && q[i].pkt.ptype == ACK && q[j].pkt.ptype == ACK
      ensures q[i].num <= q[j].num
    {
      if i < |f.ackQ| <= j {
        assert f.ackQ[i] in f.s.acks;
        assert sent[j - |f.ackQ|] in sent;
      }
    }
  }

  lemma GivingUpKeepsQueues(f: FState, ev: FEvent)
    requires FInv(f) && FEnabled(f, ev) && ev.FReceiverGivesUp?
    ensures DataQOk(FNext(f, ev)) && AckQOk(FNext(f, ev))
  {
    var t := Next(f.s, ReceiverGivesUp);
    assert f.s.acks + [] == f.s.acks;
    NewInChannels(f.s, t, []);
    assert f.dataQ + [] == f.dataQ && f.ackQ + [] == f.ackQ;
    QueuesKept(f, t);
  }

  lemma QueuesKept(f: FState, t: State)
    requires FInv(f) && t == f.s.(rcv := f.s.rcv.(list := []), gaveUp := true)
    ensures DataQOk(FState(t, f.dataQ, f.ackQ)) && AckQOk(FState(t, f.dataQ, f.ackQ))
  {
  }

  // ---------- Every run ----------

  lemma StepKeepsFInv(f: FState, ev: FEvent)
    requires FInv(f) && FEnabled(f, ev)
    ensures FInv(FNext(f, ev))
  {
    if IsLoss(ev) {
      LossKeepsFInv(f, ev);
    } else {
      FifoIsFresh(f, ev);
      StepKeepsInv(f.s, General(f, ev));
      if ev.FReceiverHears? {
        ReceiverKeepsQueues(f, ev);
      } else if ev.FReceiverGivesUp? {
        GivingUpKeepsQueues(f, ev);
      } else {
        SenderKeepsDataQ(f, ev);
        SenderKeepsAckQ(f, ev);
      }
    }
  }

  /** The run of the general machine that a run over the channels is. */
  function Project(f: FState, evs: seq<FEvent>): seq<Event>
    requires FLegal(f, evs)
    decreases |evs|
  {
    if evs == [] then []
    else if IsLoss(evs[0]) then Project(FNext(f, evs[0]), evs[1..])
    else [General(f, evs[0])] + Project(FNext(f, evs[0]), evs[1..])
  }

  /** Every run over lossy first-in-first-out channels, with no assumption about staleness, is a run of
      the general machine, with which it shares the states of the two programs. */
  lemma {:induction false} FifoRefines(f: FState, evs: seq<FEvent>)
    requires FInv(f) && FLegal(f, evs)
    ensures Legal(f.s, Project(f, evs)) && Run(f.s, Project(f, evs)) == FRun(f, evs).s
    ensures FInv(FRun(f, evs))
    decreases |evs|
  {
    if evs != [] {
      StepKeepsFInv(f, evs[0]);
      FifoRefines(FNext(f, evs[0]), evs[1..]);
      if !IsLoss(evs[0]) {
        FifoIsFresh(f, evs[0]);
        assert Project(f, evs)[1..] == Project(FNext(f, evs[0]), evs[1..]);
      }
    }
  }

  /** Over these channels the file written is always a prefix of the input, also after the receiver gave
      up, and it is all of the input once the end was reported or the sender has stopped. */
  lemma FifoSafety(input: seq<bv8>, evs: seq<FEvent>)
    requires FLegal(FInit(input), evs)
    ensures var s := FRun(FInit(input), evs).s;
            && Output(s) <= input
            && (!s.rcv.running || !s.snd.running ==> Output(s) == input)
  {
    FInitInv(input);
    FifoRefines(FInit(input), evs);
    var general := Project(FInit(input), evs);
    Safety.OutputIsPrefix(input, general);
    if !Run(Init(input), general).rcv.running {
      Safety.EndIsSound(input, general);
    }
    if !Run(Init(input), general).snd.running {
      Safety.SenderStopIsSound(input, general);
    }
  }

  /** How far behind or ahead packets in flight can be: data between 31 behind and 30 ahead of the
      expected number, acknowledgements between the base and 31 ahead of it. */
  lemma InFlightRanges(input: seq<bv8>, evs: seq<FEvent>)
    requires FLegal(FInit(input), evs)
    ensures var f := FRun(FInit(input), evs);
            && (forall m :: m in f.dataQ ==> Expected(f.s) - 31 <= m.num <= Expected(f.s) + 30)
            && (f.s.snd.running ==>
                  forall m :: m in f.ackQ && m.pkt.ptype == ACK ==> Base(f.s) <= m.num <= Base(f.s) + 31)
  {
    FInitInv(input);
    FifoRefines(FInit(input), evs);
    var f := FRun(FInit(input), evs);
    forall m | m in f.dataQ
      ensures Expected(f.s) - 31 <= m.num <= Expected(f.s) + 30
    {
      assert m in f.s.data;
      assert IsChunk(m.pkt, f.s.chunks, m.num) || (m.num == |f.s.chunks| && !f.s.snd.running);
    }
  }
}
