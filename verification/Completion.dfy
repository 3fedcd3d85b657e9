/** How a transfer over lossy first-in-first-out channels can still end: exactly when the final packet
    can be written, under a clock that moves as the sender's timer lets it, from an input that is always
    ready to be read. */
module Completion {
  import opened Options
  import opened Packets
  import opened SeqNumbers
  import opened SenderSpec
  import opened Protocol
  import opened Fifo
  import opened Progress
  import ReceiverSpec
  import Runs
  import Turns

  // ---------- Time ----------

  predicate HasTime(ev: FEvent) {
    ev.FIdle? || ev.FReads? || ev.FSenderHears?
  }

  /** The time of the sender's last turn. */
  function Tick(clock: bv32, ev: FEvent): bv32 {
    if HasTime(ev) then ev.now else clock
  }

  /** The sender's timer wakes it at the latest two seconds after its last turn: from one turn of the
      sender to the next the time stays or moves on by one or two seconds. */
  predicate InTime(clock: bv32, ev: FEvent) {
    SoonAfter(clock, Tick(clock, ev))
  }

  predicate SoonAfter(clock: bv32, now: bv32) {
    now - clock <= 2
  }

  predicate Timely(clock: bv32, evs: seq<FEvent>)
    decreases |evs|
  {
    evs == [] || (InTime(clock, evs[0]) && Timely(Tick(clock, evs[0]), evs[1..]))
  }

  function Clock(clock: bv32, evs: seq<FEvent>): bv32
    decreases |evs|
  {
    if evs == [] then clock else Clock(Tick(clock, evs[0]), evs[1..])
  }

  /** The input is a regular file, so that select always finds it readable: the sender does not idle
      until it has read the end of the input. */
  predicate Awake(f: FState, ev: FEvent) {
    ev.FIdle? ==> f.s.snd.fin.Some?
  }

  predicate Eager(f: FState, evs: seq<FEvent>)
    requires FLegal(f, evs)
    decreases |evs|
  {
    evs == [] || (Awake(f, evs[0]) && Eager(FNext(f, evs[0]), evs[1..]))
  }

  /** evs is a timely and eager run from f at time c to g at time d. */
  predicate FLeads(f: FState, c: bv32, evs: seq<FEvent>, g: FState, d: bv32) {
    FLegal(f, evs) && FRun(f, evs) == g && Eager(f, evs) && Timely(c, evs) && Clock(c, evs) == d
  }

  lemma {:induction false} TimelyAppend(c: bv32, a: seq<FEvent>, b: seq<FEvent>)
    requires Timely(c, a) && Timely(Clock(c, a), b)
    ensures Timely(c, a + b) && Clock(c, a + b) == Clock(Clock(c, a), b)
    decreases |a|
  {
    Runs.Appended(a, b);
    if a != [] {
      TimelyAppend(Tick(c, a[0]), a[1..], b);
    }
  }

  lemma {:induction false} FRunAppend(f: FState, a: seq<FEvent>, b: seq<FEvent>)
    requires FLegal(f, a) && FLegal(FRun(f, a), b)
    ensures FLegal(f, a + b) && FRun(f, a + b) == FRun(FRun(f, a), b)
    ensures Eager(f, a) && Eager(FRun(f, a), b) ==> Eager(f, a + b)
    decreases |a|
  {
    Runs.Appended(a, b);
    if a != [] {
      FRunAppend(FNext(f, a[0]), a[1..], b);
    }
  }

  lemma FChain(f: FState, c: bv32, a: seq<FEvent>, g: FState, d: bv32, b: seq<FEvent>, h: FState, e: bv32)
    requires FLeads(f, c, a, g, d) && FLeads(g, d, b, h, e)
    ensures FLeads(f, c, a + b, h, e)
  {
    FRunAppend(f, a, b);
    TimelyAppend(c, a, b);
  }

  lemma FSingleRun(f: FState, ev: FEvent)
    requires FEnabled(f, ev)
    ensures FLegal(f, [ev]) && FRun(f, [ev]) == FNext(f, ev)
    ensures Awake(f, ev) ==> Eager(f, [ev])
  {
    var evs := [ev];
    assert evs[1..] == [];
  }

  lemma SingleTime(c: bv32, ev: FEvent)
    requires InTime(c, ev)
    ensures Timely(c, [ev]) && Clock(c, [ev]) == Tick(c, ev)
  {
    var evs := [ev];
    assert evs[1..] == [];
  }

  lemma FSingle(f: FState, c: bv32, ev: FEvent)
    requires FEnabled(f, ev) && InTime(c, ev) && Awake(f, ev)
    ensures FLeads(f, c, [ev], FNext(f, ev), Tick(c, ev))
  {
    FSingleRun(f, ev);
    SingleTime(c, ev);
  }

  // ---------- Losses ----------

  lemma Sliced(q: seq<Msg>, k: nat)
    requires 0 < k <= |q|
    ensures q[1..][k - 1..] == q[k..] && Without(q, 0) == q[1..]
  {
  }

  lemma DropFirstData(f: FState, c: bv32)
    requires FInv(f) && f.dataQ != []
    ensures var g := f.(dataQ := f.dataQ[1..]); FLeads(f, c, [LoseData(0)], g, c) && FInv(g)
  {
    Sliced(f.dataQ, 1);
    StepKeepsFInv(f, LoseData(0));
    FSingle(f, c, LoseData(0));
  }

  lemma {:induction false} DropData(f: FState, c: bv32, k: nat) returns (evs: seq<FEvent>)
    requires FInv(f) && k <= |f.dataQ|
    ensures FLeads(f, c, evs, f.(dataQ := f.dataQ[k..]), c) && FInv(f.(dataQ := f.dataQ[k..]))
    decreases k
  {
    if k == 0 {
      assert f.dataQ[0..] == f.dataQ;
      return [];
    }
    Sliced(f.dataQ, k);
    var g := f.(dataQ := f.dataQ[1..]);
    DropFirstData(f, c);
    var more := DropData(g, c, k - 1);
    FChain(f, c, [LoseData(0)], g, c, more, f.(dataQ := f.dataQ[k..]), c);
    evs := [LoseData(0)] + more;
  }

  lemma DropFirstAck(f: FState, c: bv32)
    requires FInv(f) && f.ackQ != []
    ensures var g := f.(ackQ := f.ackQ[1..]); FLeads(f, c, [LoseAck(0)], g, c) && FInv(g)
  {
    Sliced(f.ackQ, 1);
    StepKeepsFInv(f, LoseAck(0));
    FSingle(f, c, LoseAck(0));
  }

  lemma {:induction false} DropAcks(f: FState, c: bv32, k: nat) returns (evs: seq<FEvent>)
    requires FInv(f) && k <= |f.ackQ|
    ensures FLeads(f, c, evs, f.(ackQ := f.ackQ[k..]), c) && FInv(f.(ackQ := f.ackQ[k..]))
    decreases k
  {
    if k == 0 {
      assert f.ackQ[0..] == f.ackQ;
      return [];
    }
    Sliced(f.ackQ, k);
    var g := f.(ackQ := f.ackQ[1..]);
    DropFirstAck(f, c);
    var more := DropAcks(g, c, k - 1);
    FChain(f, c, [LoseAck(0)], g, c, more, f.(ackQ := f.ackQ[k..]), c);
    evs := [LoseAck(0)] + more;
  }

  lemma DropAll(f: FState, c: bv32) returns (evs: seq<FEvent>)
    requires FInv(f)
    ensures FLeads(f, c, evs, FState(f.s, [], []), c) && FInv(FState(f.s, [], []))
  {
    var a := DropData(f, c, |f.dataQ|);
    var g := f.(dataQ := f.dataQ[|f.dataQ|..]);
    var b := DropAcks(g, c, |g.ackQ|);
    assert g.(ackQ := g.ackQ[|g.ackQ|..]) == FState(f.s, [], []);
    FChain(f, c, a, g, c, b, FState(f.s, [], []), c);
    evs := a + b;
  }

  // ---------- One chunk gets through ----------

  ghost predicate FinalInFlight(f: FState) {
    exists m :: m in f.dataQ && IsFinalMsg(f.s, m)
  }

  /** Both programs are at work. */
  ghost predicate Working(f: FState) {
    FInv(f) && f.s.snd.running && !f.s.gaveUp
  }

  /** If the sender has stopped, the final packet is on its way. */
  ghost predicate StoppedWell(f: FState) {
    FInv(f) && !f.s.gaveUp && (!f.s.snd.running ==> FinalInFlight(f))
  }

  /** Nothing was read of the input on the way from s to t. */
  predicate SameInput(s: State, t: State) {
    t.chunks == s.chunks && t.rest == s.rest && t.snd.fin == s.snd.fin
  }

  lemma ChunkSendable(s: State, m: Msg)
    requires Inv(s) && m in s.data && m.num < |s.chunks|
    ensures Sendable(m.pkt)
  {
  }

  /** The oldest packet arrives at the receiver. */
  lemma HeadArrives(f: FState) returns (ev: FEvent)
    requires Working(f) && f.ackQ == [] && f.dataQ != [] && f.dataQ[0].num == Base(f.s) < |f.s.chunks|
    ensures ev.FReceiverHears? && FEnabled(f, ev)
    ensures var g := FNext(f, ev);
            && FInv(g) && g.s == f.s.(rcv := g.s.rcv, acks := g.s.acks)
            && MoreAcked(g.s) && g.ackQ != [] && g.ackQ[|g.ackQ| - 1] == g.s.acks[|g.s.acks| - 1]
  {
    var m := f.dataQ[0];
    assert m in f.dataQ;
    ChunkSendable(f.s, m);
    ev := FReceiverHears(Intact, Runs.Clean(m.pkt));
    FifoIsFresh(f, ev);
    StepKeepsFInv(f, ev);
    HeadHeard(f.s, General(f, ev));
    NextSends(f.s, General(f, ev));
    LastOfGrown(f.s.acks, Next(f.s, General(f, ev)).acks);
  }

  lemma LastOfGrown(a: seq<Msg>, b: seq<Msg>)
    requires a <= b && |a| < |b|
    ensures var q := [] + b[|a|..]; q != [] && q[|q| - 1] == b[|b| - 1]
  {
  }

  lemma FinKept(s: SenderState, ready: Ready, now: bv32)
    requires !ready.FileReady?
    ensures SenderSpec.Turn(s, ready, now).0.fin == s.fin
  {
  }

  /** After a turn of the sender the final packet is in the channel if the sender has stopped. */
  lemma TurnStopsWell(f: FState, ev: FEvent)
    requires Working(f) && FEnabled(f, ev) && HasTime(ev)
    ensures StoppedWell(FNext(f, ev))
  {
    var g, t := FNext(f, ev), Next(f.s, General(f, ev));
    FifoIsFresh(f, ev);
    StepKeepsFInv(f, ev);
    NextSends(f.s, General(f, ev));
    if !t.snd.running {
      Turns.StopSendsFinal(f.s, General(f, ev));
      FinalInQueue(f.dataQ, f.s, t, g);
    }
  }

  lemma FinalInQueue(q: seq<Msg>, s: State, t: State, g: FState)
    requires s.data <= t.data && Turns.EndsWithFinal(s, t)
    requires g.s == t && g.dataQ == q + t.data[|s.data|..]
    ensures FinalInFlight(g)
  {
    var m := t.data[|t.data| - 1];
    assert m in t.data[|s.data|..];
    assert m in g.dataQ && IsFinalMsg(g.s, m);
  }

  /** The only acknowledgement in flight arrives at the sender. */
  lemma AnswerArrives(f: FState, c: bv32) returns (ev: FEvent)
    requires Working(f) && |f.ackQ| == 1 && f.ackQ[0].pkt.ptype == ACK && f.ackQ[0].num > Base(f.s)
    ensures ev.FSenderHears? && FEnabled(f, ev) && Tick(c, ev) == c
    ensures var g := FNext(f, ev); StoppedWell(g) && SameInput(f.s, g.s) && Base(g.s) > Base(f.s)
  {
    var m := f.ackQ[0];
    assert m in f.ackQ;
    assert AckOk(m, Expected(f.s)) && Sendable(m.pkt);
    ev := FSenderHears(Intact, Runs.Clean(m.pkt), c);
    FifoIsFresh(f, ev);
    AckHeard(f.s, General(f, ev));
    TurnStopsWell(f, ev);
    FinKept(f.s.snd, AckReady(DecodePacket(ev.buf)), c);
  }

  /** The oldest packet gets through, and of the answers to it only the last is not lost. */
  lemma DeliverHead(f: FState, c: bv32) returns (evs: seq<FEvent>, g: FState)
    requires Working(f) && f.ackQ == [] && f.dataQ != [] && f.dataQ[0].num == Base(f.s) < |f.s.chunks|
    ensures FLeads(f, c, evs, g, c)
    ensures Working(g) && SameInput(f.s, g.s) && Base(g.s) == Base(f.s)
    ensures |g.ackQ| == 1 && g.ackQ[0].pkt.ptype == ACK && g.ackQ[0].num > Base(g.s)
  {
    var a, h := OnlyHeadArrives(f, c);
    var drop;
    drop, g := KeepLastAck(h, c);
    FChain(f, c, [a], h, c, drop, g, c);
    AfterHead(f, h, g);
    evs := [a] + drop;
  }

  lemma OnlyHeadArrives(f: FState, c: bv32) returns (ev: FEvent, g: FState)
    requires Working(f) && f.ackQ == [] && f.dataQ != [] && f.dataQ[0].num == Base(f.s) < |f.s.chunks|
    ensures FLeads(f, c, [ev], g, c)
    ensures FInv(g) && g.s == f.s.(rcv := g.s.rcv, acks := g.s.acks)
    ensures MoreAcked(g.s) && g.ackQ != [] && g.ackQ[|g.ackQ| - 1] == g.s.acks[|g.s.acks| - 1]
  {
    ev := HeadArrives(f);
    g := FNext(f, ev);
    FSingle(f, c, ev);
  }

  lemma AfterHead(f: FState, h: FState, g: FState)
    requires Working(f) && h.s == f.s.(rcv := h.s.rcv, acks := h.s.acks) && MoreAcked(h.s)
    requires FInv(g) && g.s == h.s && h.ackQ != [] && g.ackQ == [h.ackQ[|h.ackQ| - 1]]
    requires h.ackQ[|h.ackQ| - 1] == h.s.acks[|h.s.acks| - 1]
    ensures Working(g) && SameInput(f.s, g.s) && Base(g.s) == Base(f.s)
    ensures g.ackQ[0].pkt.ptype == ACK && g.ackQ[0].num > Base(g.s)
  {
  }

  /** All acknowledgements in flight but the last are lost. */
  lemma KeepLastAck(f: FState, c: bv32) returns (evs: seq<FEvent>, g: FState)
    requires FInv(f) && f.ackQ != []
    ensures FLeads(f, c, evs, g, c) && FInv(g)
    ensures g == f.(ackQ := [f.ackQ[|f.ackQ| - 1]])
  {
    evs := DropAcks(f, c, |f.ackQ| - 1);
    g := f.(ackQ := f.ackQ[|f.ackQ| - 1..]);
  }

  /** The oldest packet and the answer to it get through. */
  lemma Deliver(f: FState, c: bv32) returns (evs: seq<FEvent>, g: FState)
    requires Working(f) && f.ackQ == [] && f.dataQ != [] && f.dataQ[0].num == Base(f.s) < |f.s.chunks|
    ensures FLeads(f, c, evs, g, c)
    ensures StoppedWell(g) && SameInput(f.s, g.s) && Base(g.s) > Base(f.s)
  {
    var a, h := DeliverHead(f, c);
    var b := AnswerArrives(h, c);
    g := FNext(h, b);
    FSingle(h, c, b);
    FChain(f, c, a, h, c, [b], g, c);
    evs := a + [b];
  }

  // ---------- The sender comes to its end ----------

  /** A time at which the packet has timed out, now or two seconds later. */
  function TimeFor(p: Packet, c: bv32): (now: bv32)
    ensures TimedOut(p, now) && SoonAfter(c, now)
  {
    if TimedOut(p, c) then c else c + RETRANSMISSION_TIMER
  }

  /** In a state with empty channels, what a turn of the sender sends is all there is. */
  lemma SentOnEmpty(s: State, ev: FEvent)
    requires FEnabled(FState(s, [], []), ev) && (ev.FIdle? || ev.FReads?)
    requires Next(s, General(FState(s, [], []), ev)).acks == s.acks
    ensures var g := FNext(FState(s, [], []), ev);
            && g.s == Next(s, General(FState(s, [], []), ev)) && g.ackQ == []
            && forall n :: Turns.SendsFirst(s, g.s, n) ==> g.dataQ != [] && g.dataQ[0].num == n
  {
    NextSends(s, General(FState(s, [], []), ev));
  }

  /** The window is full, or the end of the input was read. */
  predicate NothingToRead(s: State) {
    !Reads(s.snd)
  }

  /** The head times out, is sent again and gets through with the answer to it. */
  lemma Resend(f: FState, c: bv32) returns (evs: seq<FEvent>, g: FState, d: bv32)
    requires Working(f) && f.s.snd.list != [] && NothingToRead(f.s)
    ensures FLeads(f, c, evs, g, d)
    ensures StoppedWell(g) && SameInput(f.s, g.s) && Base(g.s) > Base(f.s)
  {
    var first, h;
    first, h, d := SendAgain(f, c);
    var more;
    more, g := Deliver(h, d);
    FChain(f, c, first, h, d, more, g, d);
    evs := first + more;
  }

  /** The head times out and is sent again, alone in the channels. */
  lemma SendAgain(f: FState, c: bv32) returns (evs: seq<FEvent>, g: FState, d: bv32)
    requires Working(f) && f.s.snd.list != [] && NothingToRead(f.s)
    ensures FLeads(f, c, evs, g, d)
    ensures Working(g) && SameInput(f.s, g.s) && Base(g.s) == Base(f.s) < |g.s.chunks|
    ensures g.ackQ == [] && g.dataQ != [] && g.dataQ[0].num == Base(g.s)
  {
    var drop := DropAll(f, c);
    var h := FState(f.s, [], []);
    d := TimeFor(f.s.snd.list[0], c);
    var ev := if f.s.snd.fin.Some? then FIdle(d) else FReads(PieceLength(f.s), d);
    HeadOnEmpty(f.s, d);
    if f.s.snd.fin.None? {
      ReadyIsIdle(f.s, d);
    }
    StepKeepsFInv(h, ev);
    g := FNext(h, ev);
    FSingle(h, c, ev);
    FChain(f, c, drop, h, c, [ev], g, d);
    evs := drop + [ev];
  }

  /** With no room to read, an input that is ready makes no difference. */
  lemma ReadyIsIdle(s: State, now: bv32)
    requires s.snd.running && NothingToRead(s)
    ensures var f, ev := FState(s, [], []), FReads(PieceLength(s), now);
            FEnabled(f, ev) && FNext(f, ev) == FNext(f, FIdle(now))
  {
    TurnWithoutRead(s.snd, s.rest[..PieceLength(s)], now);
  }

  lemma TurnWithoutRead(s: SenderState, chunk: seq<bv8>, now: bv32)
    requires !Reads(s)
    ensures SenderSpec.Turn(s, FileReady(chunk), now) == SenderSpec.Turn(s, Nothing, now)
  {
  }

  lemma HeadOnEmpty(s: State, now: bv32)
    requires Inv(s) && s.snd.running && s.snd.list != [] && TimedOut(s.snd.list[0], now)
    ensures var f, ev := FState(s, [], []), FIdle(now);
            && FEnabled(f, ev)
            && var g := FNext(f, ev);
               && g.s.snd.running && g.s.gaveUp == s.gaveUp && SameInput(s, g.s) && Base(g.s) == Base(s) < |s.chunks|
               && g.ackQ == [] && g.dataQ != [] && g.dataQ[0].num == Base(s)
  {
    Turns.HeadSent(s, now);
    SentOnEmpty(s, FIdle(now));
  }

  /** The next piece of the input. */
  function PieceLength(s: State): nat {
    if |s.rest| <= MAX_PAYLOAD_SIZE then |s.rest| else MAX_PAYLOAD_SIZE
  }

  lemma FinOfRead(s: SenderState, chunk: seq<bv8>, now: bv32)
    requires s.fin == None && |s.list| < s.window
    ensures SenderSpec.Turn(s, FileReady(chunk), now).0.fin.Some? <==> chunk == []
  {
  }

  /** The next piece of the input is read, or its end. */
  lemma ReadNext(f: FState, c: bv32) returns (ev: FEvent)
    requires Working(f) && !NothingToRead(f.s)
    ensures FEnabled(f, ev) && FLeads(f, c, [ev], FNext(f, ev), c)
    ensures var g := FNext(f, ev);
            && StoppedWell(g)
            && (f.s.rest != [] ==> |g.s.chunks| == |f.s.chunks| + 1 && g.s.rest == f.s.rest[PieceLength(f.s)..])
            && (f.s.rest != [] ==> g.s.snd.running && g.s.snd.fin.None?)
            && (f.s.rest == [] ==> g.s.chunks == f.s.chunks && g.s.rest == [] && g.s.snd.fin.Some?)
  {
    ev := FReads(PieceLength(f.s), c);
    PieceIsRead(f.s, c);
    TurnStopsWell(f, ev);
    FSingle(f, c, ev);
  }

  lemma PieceIsRead(s: State, now: bv32)
    requires s.snd.running && !NothingToRead(s)
    ensures var ev := SenderReads(PieceLength(s), now);
            && Enabled(s, ev)
            && var t := Next(s, ev);
               && (s.rest != [] ==> |t.chunks| == |s.chunks| + 1 && t.rest == s.rest[PieceLength(s)..])
               && (s.rest != [] ==> t.snd.fin.None?)
               && (s.rest == [] ==> t.chunks == s.chunks && t.rest == [] && t.snd.fin.Some?)
  {
    FinOfRead(s.snd, s.rest[..PieceLength(s)], now);
  }

  /** The number of reads that an input of n bytes takes, the last of which is the one that finds the
      end not counted. */
  function Pieces(n: nat): nat {
    (n + MAX_PAYLOAD_SIZE - 1) / MAX_PAYLOAD_SIZE
  }

  lemma PieceRead(n: nat)
    requires n > 0
    ensures n <= MAX_PAYLOAD_SIZE ==> Pieces(n) == 1 && Pieces(0) == 0
    ensures n > MAX_PAYLOAD_SIZE ==> Pieces(n) == 1 + Pieces(n - MAX_PAYLOAD_SIZE)
  {
  }

  /** What there is to send, read or not. */
  function Total(s: State): nat {
    |s.chunks| + Pieces(|s.rest|)
  }

  lemma ReadKeepsTotal(s: State, t: State)
    requires s.rest != [] && |t.chunks| == |s.chunks| + 1 && t.rest == s.rest[PieceLength(s)..]
    ensures Total(t) == Total(s) && |t.rest| < |s.rest|
  {
    PieceRead(|s.rest|);
  }

  lemma NothingLeft(s: State)
    requires Inv(s) && s.snd.fin.Some?
    ensures s.rest == [] && Total(s) == |s.chunks|
  {
    assert Pieces(0) == 0;
  }

  /** The whole input is sent and acknowledged, and the sender stops. */
  lemma {:induction false} FinishSending(f: FState, c: bv32) returns (evs: seq<FEvent>, g: FState, d: bv32)
    requires Working(f)
    ensures FLeads(f, c, evs, g, d)
    ensures StoppedWell(g) && !g.s.snd.running && |g.s.chunks| == Total(f.s)
    decreases |f.s.rest|, if f.s.snd.fin.None? then 1 else 0, |f.s.snd.list|
  {
    if NothingToRead(f.s) && f.s.snd.list == [] {
      evs, g := SendFinal(f, c);
      d := c;
    } else {
      var first, h, e := OneStep(f, c);
      if h.s.snd.running {
        var more;
        more, g, d := FinishSending(h, e);
        FChain(f, c, first, h, e, more, g, d);
        evs := first + more;
      } else {
        NothingLeft(h.s);
        evs, g, d := first, h, e;
      }
    }
  }

  /** In particular everything in the list is acknowledged. */
  lemma EmptyList(f: FState, c: bv32) returns (evs: seq<FEvent>, g: FState, d: bv32)
    requires Working(f)
    ensures FLeads(f, c, evs, g, d) && g.s.snd.list == [] && Base(g.s) >= |f.s.chunks|
  {
    evs, g, d := FinishSending(f, c);
  }

  /** t is nearer to the end of the transfer than s. */
  predicate Nearer(s: State, t: State) {
    || |t.rest| < |s.rest|
    || (t.rest == s.rest && s.snd.fin.None? && t.snd.fin.Some?)
    || (t.rest == s.rest && t.snd.fin == s.snd.fin && |t.snd.list| < |s.snd.list|)
  }

  /** The sender reads if it can; otherwise its oldest packet is sent again and gets through. */
  lemma OneStep(f: FState, c: bv32) returns (evs: seq<FEvent>, g: FState, d: bv32)
    requires Working(f) && !(NothingToRead(f.s) && f.s.snd.list == [])
    ensures FLeads(f, c, evs, g, d)
    ensures StoppedWell(g) && Nearer(f.s, g.s) && Total(g.s) == Total(f.s)
  {
    if NothingToRead(f.s) {
      evs, g, d := Resend(f, c);
    } else {
      var ev := ReadNext(f, c);
      evs, g, d := [ev], FNext(f, ev), c;
      if f.s.rest != [] {
        ReadKeepsTotal(f.s, g.s);
      }
    }
  }

  /** The turn in which the sender sends the final packet and stops. */
  lemma SendFinal(f: FState, c: bv32) returns (evs: seq<FEvent>, g: FState)
    requires Working(f) && f.s.snd.list == [] && NothingToRead(f.s)
    ensures FLeads(f, c, evs, g, c)
    ensures StoppedWell(g) && !g.s.snd.running && |g.s.chunks| == Total(f.s)
  {
    var ev := FIdle(c);
    Turns.LastTurn(f.s, c);
    g := FNext(f, ev);
    TurnStopsWell(f, ev);
    FSingle(f, c, ev);
    evs := [ev];
    NothingLeft(f.s);
  }

  // ---------- The final packet ----------

  /** The receiver has written the final packet, after all the chunks. */
  predicate FinalWritten(s: State) {
    Expected(s) == |s.chunks| + 1
  }

  /** The final packet can still be written: it was, or the receiver has not given up and the sender,
      which sends it once, has yet to send it or it is still on its way. */
  ghost predicate CanComplete(f: FState) {
    FinalWritten(f.s) || (!f.s.gaveUp && (f.s.snd.running || FinalInFlight(f)))
  }

  lemma FinalSendable(s: State, m: Msg)
    requires Inv(s) && m in s.data && IsFinalMsg(s, m)
    ensures Sendable(m.pkt) && !s.snd.running
  {
  }

  /** The final packet arrives. */
  lemma FinalArrives(f: FState) returns (ev: FEvent)
    requires FInv(f) && !f.s.gaveUp && !FinalWritten(f.s) && f.dataQ != [] && IsFinalMsg(f.s, f.dataQ[0])
    ensures ev.FReceiverHears? && FEnabled(f, ev)
    ensures var g := FNext(f, ev);
            FInv(g) && FinalWritten(g.s) && g.s.chunks == f.s.chunks && g.s.gaveUp == f.s.gaveUp
  {
    var m := f.dataQ[0];
    assert m in f.dataQ;
    FinalSendable(f.s, m);
    ev := FReceiverHears(Intact, Runs.Clean(m.pkt));
    StepKeepsFInv(f, ev);
    IntactOutcome(m.pkt, ev.buf);
    FinalReceived(f.s, m.pkt);
  }

  lemma Arrive(f: FState, c: bv32) returns (evs: seq<FEvent>, g: FState)
    requires FInv(f) && (FinalWritten(f.s) || (!f.s.gaveUp && FinalInFlight(f)))
    ensures FLeads(f, c, evs, g, c)
    ensures FInv(g) && FinalWritten(g.s) && g.s.chunks == f.s.chunks && g.s.gaveUp == f.s.gaveUp
  {
    if FinalWritten(f.s) {
      return [], f;
    }
    var i := FinalPlace(f);
    evs, g := ArriveFrom(f, c, i);
  }

  lemma ArriveFrom(f: FState, c: bv32, i: nat) returns (evs: seq<FEvent>, g: FState)
    requires FInv(f) && !f.s.gaveUp && !FinalWritten(f.s) && i < |f.dataQ| && IsFinalMsg(f.s, f.dataQ[i])
    ensures FLeads(f, c, evs, g, c)
    ensures FInv(g) && FinalWritten(g.s) && g.s.chunks == f.s.chunks && g.s.gaveUp == f.s.gaveUp
  {
    var drop := DropData(f, c, i);
    var h := f.(dataQ := f.dataQ[i..]);
    var last;
    last, g := ArriveFirst(h, c);
    FChain(f, c, drop, h, c, last, g, c);
    evs := drop + last;
  }

  lemma ArriveFirst(f: FState, c: bv32) returns (evs: seq<FEvent>, g: FState)
    requires FInv(f) && !f.s.gaveUp && !FinalWritten(f.s) && f.dataQ != [] && IsFinalMsg(f.s, f.dataQ[0])
    ensures FLeads(f, c, evs, g, c)
    ensures FInv(g) && FinalWritten(g.s) && g.s.chunks == f.s.chunks && g.s.gaveUp == f.s.gaveUp
  {
    var ev := FinalArrives(f);
    g := FNext(f, ev);
    FSingle(f, c, ev);
    evs := [ev];
  }

  lemma FinalPlace(f: FState) returns (i: nat)
    requires FinalInFlight(f)
    ensures i < |f.dataQ| && IsFinalMsg(f.s, f.dataQ[i])
  {
    var m :| m in f.dataQ && IsFinalMsg(f.s, m);
    i :| 0 <= i < |f.dataQ| && f.dataQ[i] == m;
  }

  /** If the final packet can still be written, some timely continuation writes it. */
  lemma Complete(f: FState, c: bv32) returns (evs: seq<FEvent>, g: FState, d: bv32)
    requires FInv(f) && CanComplete(f)
    ensures FLeads(f, c, evs, g, d)
    ensures FInv(g) && FinalWritten(g.s) && g.s.gaveUp == f.s.gaveUp
    ensures |g.s.chunks| == Total(f.s)
  {
    if f.s.snd.running {
      var a, h;
      a, h, d := FinishSending(f, c);
      var b;
      b, g := Arrive(h, d);
      FChain(f, c, a, h, d, b, g, d);
      evs := a + b;
    } else {
      d := c;
      evs, g := Arrive(f, c);
      NothingLeft(f.s);
    }
  }

  // ---------- When it is too late ----------

  lemma StaysIncomplete(f: FState, ev: FEvent)
    requires FInv(f) && FEnabled(f, ev) && !CanComplete(f)
    ensures !CanComplete(FNext(f, ev))
  {
    if IsLoss(ev) {
      LossKeepsIncomplete(f, ev);
    } else if HasTime(ev) {
      FifoIsFresh(f, ev);
      SentFromBase(f.s, General(f, ev));
      StepKeepsInv(f.s, General(f, ev));
    } else if ev.FReceiverHears? {
      HearingStaysIncomplete(f, ev);
    }
  }

  lemma LossKeepsIncomplete(f: FState, ev: FEvent)
    requires FInv(f) && FEnabled(f, ev) && !CanComplete(f) && IsLoss(ev)
    ensures !CanComplete(FNext(f, ev))
  {
    if ev.LoseData? {
      WithoutMembers(f.dataQ, ev.i);
    }
  }

  /** Only chunks that were written before are still in the channel. */
  lemma HearingStaysIncomplete(f: FState, ev: FEvent)
    requires FInv(f) && FEnabled(f, ev) && !CanComplete(f) && ev.FReceiverHears?
    ensures !CanComplete(FNext(f, ev))
  {
    OnlyChunksLeft(f);
    FifoIsFresh(f, ev);
    EnabledIsReceivable(f.s, f.dataQ[0], ev.e, ev.buf);
    ReceptionNext(f, ev);
    NothingNew(f.s, f.dataQ[0], ev.e, DecodePacket(ev.buf));
  }

  lemma OnlyChunksLeft(f: FState)
    requires FInv(f) && !CanComplete(f) && !f.s.gaveUp && f.dataQ != []
    ensures f.dataQ[0].num < |f.s.chunks| == Expected(f.s)
    ensures forall m :: m in f.dataQ[1..] ==> !IsFinalMsg(f.s, m)
  {
    assert f.dataQ[0] in f.dataQ && !IsFinalMsg(f.s, f.dataQ[0]);
    forall m | m in f.dataQ[1..]
      ensures !IsFinalMsg(f.s, m)
    {
      assert m in f.dataQ;
    }
  }

  lemma NothingNew(s: State, m: Msg, e: Effect, d: Decoded)
    requires Inv(s) && Receivable(s, m, e, d) && m.num < |s.chunks| == Expected(s)
    ensures ReceiverSpec.Turn(s.rcv, d).0.out == s.rcv.out
  {
    if e == Intact {
      StaleChunk(s, m.pkt, m.num);
    }
  }

  lemma {:induction false} NeverCompletes(f: FState, evs: seq<FEvent>)
    requires FInv(f) && !CanComplete(f) && FLegal(f, evs)
    ensures !FinalWritten(FRun(f, evs).s)
    decreases |evs|
  {
    if evs != [] {
      StaysIncomplete(f, evs[0]);
      StepKeepsFInv(f, evs[0]);
      NeverCompletes(FNext(f, evs[0]), evs[1..]);
    }
  }

  // ---------- The transfer ----------

  /** Some timely and eager continuation from time clock on writes the final packet. */
  ghost predicate Completes(f: FState, clock: bv32) {
    exists evs, g, d :: FLeads(f, clock, evs, g, d) && FinalWritten(g.s)
  }

  /** After every run, whatever the time: some continuation writes the final packet if and only if it was
      written already, or the receiver has not given up and the sender still runs or the final packet is
      still on its way. */
  lemma CompletionExactly(input: seq<bv8>, evs: seq<FEvent>, clock: bv32)
    requires FLegal(FInit(input), evs)
    ensures var f := FRun(FInit(input), evs); Completes(f, clock) <==> CanComplete(f)
  {
    var f := FRun(FInit(input), evs);
    FInitInv(input);
    FifoRefines(FInit(input), evs);
    if CanComplete(f) {
      var more, g, d := Complete(f, clock);
    } else if Completes(f, clock) {
      var more, g, d :| FLeads(f, clock, more, g, d) && FinalWritten(g.s);
      NeverCompletes(f, more);
    }
  }

  /** Once the final packet was written, the whole input is in the file, both programs have done their
      part, and the receiver knows it exactly when the number of chunks is not 255 modulo 256. */
  lemma WrittenMeans(input: seq<bv8>, evs: seq<FEvent>)
    requires FLegal(FInit(input), evs) && FinalWritten(FRun(FInit(input), evs).s)
    ensures var s := FRun(FInit(input), evs).s;
            Output(s) == input && !s.snd.running && (s.rcv.running <==> Low8(|s.chunks|) == 255)
  {
    FInitInv(input);
    FifoRefines(FInit(input), evs);
    FifoSafety(input, evs);
  }

  /** For every input of 255 pieces, or of 255 more than a multiple of 256, there is a run in which
      everything was written, the final packet included, and the receiver does not notice. */
  lemma EndCanBeMissed(input: seq<bv8>) returns (evs: seq<FEvent>)
    requires Low8(Pieces(|input|)) == 255
    ensures FLegal(FInit(input), evs)
    ensures var s := FRun(FInit(input), evs).s;
            FinalWritten(s) && Output(s) == input && !s.snd.running && s.rcv.running && !s.gaveUp
  {
    var g, d;
    FInitInv(input);
    CompletesFromStart(input);
    evs, g, d := Complete(FInit(input), 0);
    WrittenMeans(input, evs);
  }

  lemma CompletesFromStart(input: seq<bv8>)
    ensures var f := FInit(input);
            CanComplete(f) && !f.s.gaveUp && f.s.chunks == [] && f.s.rest == input
  {
  }

  /** The smallest such inputs. */
  lemma InputOf255Pieces(input: seq<bv8>)
    requires 254 * 512 < |input| <= 255 * 512
    ensures Pieces(|input|) == 255
  {
  }

  /** A run after which no continuation ends the transfer: the final packet of an empty file is lost. */
  lemma FinalCanBeLost()
    ensures var evs := [FReads(0, 0), LoseData(0)];
            FLegal(FInit([]), evs) && !CanComplete(FRun(FInit([]), evs))
  {
    var f := FInit([]);
    var a, b := FReads(0, 0), LoseData(0);
    OneFinal(f.s, 0);
    var g := FNext(f, a);
    OneInQueue(f, g);
    FSingleRun(f, a);
    FSingleRun(g, b);
    FRunAppend(f, [a], [b]);
    TwoEvents(a, b);
  }

  lemma TwoEvents(a: FEvent, b: FEvent)
    ensures [a] + [b] == [a, b]
  {
  }

  lemma OneInQueue(f: FState, g: FState)
    requires f == FInit([]) && g == FNext(f, FReads(0, 0)) && |g.s.data| == 1
    ensures |g.dataQ| == 1 && Without(g.dataQ, 0) == []
  {
  }

  /** Nothing but the final packet is sent when the sender stops at once. */
  lemma OneFinal(s: State, now: bv32)
    requires s == Init([])
    ensures Enabled(s, SenderReads(0, now))
    ensures var t := Next(s, SenderReads(0, now));
            |t.data| == 1 && t.acks == [] && t.rcv == s.rcv && t.chunks == [] && !t.snd.running
  {
    Turns.EndRead(s, now);
  }
}
