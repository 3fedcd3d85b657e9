/** The bound of 223 cannot be raised, for data or for acknowledgements: runs over a link that delivers
    one packet 224 behind, at the end of which the file is wrong. */
module Sharpness {
  import opened Options
  import opened Packets
  import opened SeqNumbers
  import opened ListSpec
  import opened SenderSpec
  import opened ReceiverSpec
  import opened Protocol
  import opened Progress
  import opened Runs
  import opened OneByOne
  import Staleness
  import Safety
  import Turns
  import Completion
  import RI = ReceiverInvariant

  // ---------- Acknowledgements ----------

  const LATE_ACKS := Bounds(0, STALENESS + 1)

  /** A chunk was read and not received, and the acknowledgement a is 224 behind it. */
  ghost predicate AckTooLate(s: State, a: Msg) {
    && Inv(s) && s.snd.running && |s.snd.list| == 1 && s.snd.fin == None && s.rest == []
    && Expected(s) < |s.chunks|
    && a in s.acks && a.pkt.ptype == ACK && Base(s) == a.num + 224 && Low8(a.num) < Low8(Base(s))
  }

  lemma AckDropsChunk(s: SenderState, p: Packet, base: nat)
    requires Consecutive(s.list, base) && |s.list| == 1 && s.fin == None && s.running
    requires p.ptype == ACK && IsReply(p) && 224 <= base && p.seqnum == Low8(base - 224) < Low8(base)
    ensures SenderSpec.Turn(s, AckReady(Ok(p)), 0).0 == s.(list := [], window := p.window)
  {
    Staleness.StaleAckRemoves(s.list, base, base - 224, false);
  }

  /** Nothing is left to send, although the receiver has not written everything. */
  predicate Deceived(s: State, t: State) {
    && t.snd.running && t.snd.list == [] && t.snd.fin == None && t.snd.window >= 1 && t.rest == []
    && t.rcv == s.rcv
  }

  lemma AckHandledTooLate(s: State, a: Msg)
    requires AckTooLate(s, a)
    ensures Deceived(s, SenderTurn(s, AckReady(Ok(a.pkt)), 0))
  {
    assert AckOk(a, Expected(s));
    assert Consecutive(s.snd.list, Base(s));
    AckDropsChunk(s.snd, a.pkt, Base(s));
  }

  lemma ReplySendable(s: State, a: Msg)
    requires Inv(s) && a in s.acks
    ensures Sendable(a.pkt)
  {
    assert AckOk(a, Expected(s));
  }

  lemma AckArrives(s: State, a: Msg) returns (ev: Event)
    requires s.snd.running && a in s.acks && Sendable(a.pkt) && Base(s) <= a.num + STALENESS + 1
    ensures Enabled(s, ev, LATE_ACKS) && Next(s, ev) == SenderTurn(s, AckReady(Ok(a.pkt)), 0)
  {
    ev := SenderHears(a, Intact, Clean(a.pkt), 0);
    IntactOutcome(a.pkt, ev.buf);
  }

  /** The sender takes it for an acknowledgement of that chunk. */
  lemma AckTaken(s: State, a: Msg) returns (ev: Event)
    requires AckTooLate(s, a)
    ensures Enabled(s, ev, LATE_ACKS) && Deceived(s, Next(s, ev))
  {
    ReplySendable(s, a);
    AckHandledTooLate(s, a);
    ev := AckArrives(s, a);
  }

  /** It then reads the end of the input, finds everything acknowledged, and stops. */
  lemma AckStopsSender(s: State, a: Msg) returns (evs: seq<Event>, t: State)
    requires AckTooLate(s, a)
    ensures Leads(s, evs, t, LATE_ACKS) && !t.snd.running && t.rcv == s.rcv
  {
    var ev := AckTaken(s, a);
    var u := Next(s, ev);
    var last := SenderReads(0, 0);
    Turns.EndRead(u, 0);
    t := Next(u, last);
    Single(s, ev, u, LATE_ACKS);
    Single(u, last, t, LATE_ACKS);
    Chain(s, [ev], u, [last], t, LATE_ACKS);
    evs := [ev] + [last];
  }

  lemma MissingChunk(s: State, input: seq<bv8>)
    requires Inv(s) && InputOk(s, input) && s.rest == [] && Expected(s) < |s.chunks|
    ensures Output(s) != input
  {
    Safety.OutputOfInv(s, input);
    var n := Expected(s);
    Safety.ConcatPrefix(s.chunks[..n + 1], s.chunks);
    assert s.chunks[..n + 1][..n] == s.chunks[..n];
    assert |Concat(s.chunks[..n + 1])| == |Concat(s.rcv.out)| + |s.chunks[n]|;
    assert Concat(s.chunks) + [] == Concat(s.chunks);
  }

  lemma AtStart(input: seq<bv8>)
    requires input != []
    ensures Quiet(Init(input)) && InputOk(Init(input), input) && Init(input).rest == input
  {
    InitInv(input);
  }

  lemma AckStays(s: State, t: State, n: nat)
    requires HasAck(s, n) && s.acks <= t.acks
    ensures HasAck(t, n)
  {
    var a :| a in s.acks && a.pkt.ptype == ACK && a.num == n;
    assert a in t.acks;
  }

  /** The first k chunks are acknowledged one by one; the packet of the first of them and its
      acknowledgement are on record. */
  lemma Start(input: seq<bv8>, k: nat) returns (evs: seq<Event>, s: State, m: Msg)
    requires 1 <= k <= Completion.Pieces(|input|)
    ensures Leads(Init(input), evs, s, TIGHT) && Passed(Init(input), s, k)
    ensures HasAck(s, 1) && m in s.data && m.num == 0
  {
    AtStart(input);
    var first, s1;
    first, s1, m := FirstTrip(input);
    var many;
    many, s := MakeTrips(s1, k - 1);
    AckStays(s1, s, 1);
    PassedMore(Init(input), first, s1, many, s, k - 1);
    evs := first + many;
  }

  lemma FirstTrip(input: seq<bv8>) returns (evs: seq<Event>, s: State, m: Msg)
    requires input != []
    ensures Leads(Init(input), evs, s, TIGHT) && Passed(Init(input), s, 1)
    ensures HasAck(s, 1) && m in s.data && m.num == 0
  {
    AtStart(input);
    var x, t, u;
    x, t, u, s := MakeTrip(Init(input));
    TripLeads(Init(input), x, t, u, s);
    evs, m := TripEvents(x), x.m;
  }

  lemma LastPiece(s: State)
    requires Completion.Pieces(|s.rest|) == 1
    ensures s.rest != [] && s.rest[Completion.PieceLength(s)..] == []
  {
  }

  /** The 226th chunk is read; the first acknowledgement is 224 behind it. */
  lemma ReadLast(s: State, a: Msg) returns (ev: Event, t: State)
    requires Quiet(s) && |s.chunks| == 225 && Completion.Pieces(|s.rest|) == 1
    requires a in s.acks && a.pkt.ptype == ACK && a.num == 1
    ensures Leads(s, [ev], t, TIGHT) && AckTooLate(t, a)
  {
    LastPiece(s);
    QuietMeans(s);
    var m;
    ev, m := ReadsChunk(s);
    t := Next(s, ev);
    Single(s, ev, t, TIGHT);
    TooLateNow(t, a);
  }

  lemma TooLateNow(s: State, a: Msg)
    requires Inv(s) && s.snd.running && |s.snd.list| == 1 && s.snd.fin == None && s.rest == []
    requires Base(s) == 225 == Expected(s) && |s.chunks| == 226
    requires a in s.acks && a.pkt.ptype == ACK && a.num == 1
    ensures AckTooLate(s, a)
  {
  }

  lemma ToLateAck(input: seq<bv8>) returns (evs: seq<Event>, s: State, a: Msg)
    requires Completion.Pieces(|input|) == 226
    ensures Leads(Init(input), evs, s, TIGHT) && AckTooLate(s, a)
  {
    var many, s2, m := Start(input, 225);
    a :| a in s2.acks && a.pkt.ptype == ACK && a.num == 1;
    var ev;
    ev, s := ReadLast(s2, a);
    Chain(Init(input), many, s2, [ev], s, TIGHT);
    evs := many + [ev];
  }

  /** For every input of 226 pieces there is a run in which one acknowledgement arrives 224 behind, and
      the sender stops although the last chunk is lost: the file is not the input. */
  lemma AckBoundIsSharp(input: seq<bv8>) returns (evs: seq<Event>)
    requires Completion.Pieces(|input|) == 226
    ensures Legal(Init(input), evs, LATE_ACKS)
    ensures var t := Run(Init(input), evs, LATE_ACKS); !t.snd.running && Output(t) != input
  {
    var a, s, m := ToLateAck(input);
    Loosen(Init(input), a, TIGHT, SAFE);
    ReachableInv(input, a);
    MissingChunk(s, input);
    Loosen(Init(input), a, TIGHT, LATE_ACKS);
    var b, t := AckStopsSender(s, m);
    Chain(Init(input), a, s, b, t, LATE_ACKS);
    evs := a + b;
  }

  // ---------- Data packets ----------

  const LATE_DATA := Bounds(STALENESS + 1, 0)

  /** s with one packet held that does not belong there. */
  function Tainted(s: State, q: Packet): State {
    s.(rcv := s.rcv.(list := [q]))
  }

  lemma SenderDoesNotSee(s: State, ev: Event, t: State, q: Packet)
    requires SenderStep(s, ev, t)
    ensures SenderStep(Tainted(s, q), ev, Tainted(t, q))
  {
    EnabledAnyway(s, ev, q);
    NextAnyway(s, ev, q);
  }

  lemma EnabledAnyway(s: State, ev: Event, q: Packet)
    requires OfSender(ev) && Enabled(s, ev, TIGHT)
    ensures Enabled(Tainted(s, q), ev, TIGHT)
  {
  }

  lemma NextAnyway(s: State, ev: Event, q: Packet)
    requires OfSender(ev) && CanHappen(s, ev) && CanHappen(Tainted(s, q), ev)
    ensures Next(Tainted(s, q), ev) == Tainted(Next(s, ev), q)
  {
    match ev
    case SenderIdle(now) =>
      TurnAnyway(s, Nothing, now, q);
    case SenderReads(n, now) =>
      TurnAnyway(Read(s, n), FileReady(s.rest[..n]), now, q);
    case SenderHears(m, e, buf, now) =>
      TurnAnyway(s, AckReady(DecodePacket(buf)), now, q);
  }

  lemma TurnAnyway(s: State, ready: Ready, now: bv32, q: Packet)
    ensures SenderTurn(Tainted(s, q), ready, now) == Tainted(SenderTurn(s, ready, now), q)
  {
  }

  /** A packet held across the wrap does not keep the awaited packet from being written; it stays held
      until it is itself the next. */
  lemma ReceiveWithHeld(r: ReceiverState, p: Packet, q: Packet)
    requires r.list == [] && IsAwaited(r, p)
    requires Reachable(r.waited, q.seqnum) && q.seqnum != r.waited && q.payload != []
    ensures Insert([q], p) == [p, q]
    ensures ReceiverSpec.Turn(r.(list := [q]), Ok(p)) ==
            WriteTwo(r.(lastTimestamp := p.timestamp, list := [p, q]))
  {
    assert RI.Buffered([q], r.waited);
    InsertedFirst([q], p, r.waited);
    assert [p] + [q] == [p, q];
    var i := r.(lastTimestamp := p.timestamp, list := [p, q]);
    OffsetOfNumbers(r.waited, r.waited);
    InReceiverWindowExactly(p.seqnum, r.waited, r.window);
    TwoWritten(i);
  }

  /** The receiver's turn on a list of two packets of which the first is the awaited one. */
  function WriteTwo(r: ReceiverState): (ReceiverState, seq<Packet>)
    requires |r.list| == 2
  {
    var w := Wrote(r, r.list[0]).(lastTimestamp := r.lastTimestamp, list := [r.list[1]]);
    var ack := Reply(w, w.waited, ACK);
    if r.list[1].seqnum != w.waited then (w, [ack])
    else
      var v := Wrote(w, r.list[1]).(lastTimestamp := r.lastTimestamp, list := []);
      (v, [ack] + [Reply(v, v.waited, ACK)])
  }

  lemma TwoWritten(r: ReceiverState)
    requires |r.list| == 2 && r.list[0].seqnum == r.waited && r.list[1].payload != []
    ensures var (r1, acks) := WriteTwo(r); WriteRun(r) == (r1, acks, 0)
  {
    var w := Written(r);
    var v := w.(window := WindowAdd(w.window));
    assert w.list == [r.list[1]];
    var ack := Reply(v, v.waited, ACK);
    if r.list[1].seqnum == v.waited {
      WriteOnly(v);
    } else {
      assert [ack] + [] == [ack];
    }
  }

  /** q comes neither now nor next. */
  predicate HeldBeyond(r: ReceiverState, q: Packet) {
    && r.list == [] && q.payload != []
    && Reachable(r.waited, q.seqnum) && q.seqnum != r.waited && q.seqnum != Advance(r.waited, 1)
  }

  lemma TaintedHears(s: State, x: Trip, t: State, q: Packet)
    requires ReceiverStep(s, x, t) && HeldBeyond(s.rcv, q)
    ensures Enabled(Tainted(s, q), Heard(x), TIGHT) && Next(Tainted(s, q), Heard(x)) == Tainted(t, q)
  {
    ReceiveWithHeld(s.rcv, x.m.pkt, q);
    ReceiveAlone(s.rcv, x.m.pkt);
  }

  lemma SameReceiver(s: State, x: Trip, t: State)
    requires SenderStep(s, x.read, t)
    ensures t.rcv == s.rcv
  {
  }

  lemma TaintedTrip(s: State, x: Trip, t: State, u: State, v: State, q: Packet)
    requires Makes(s, x, t, u, v) && HeldBeyond(s.rcv, q)
    ensures Leads(Tainted(s, q), TripEvents(x), Tainted(v, q), TIGHT)
  {
    SameReceiver(s, x, t);
    SenderDoesNotSee(s, x.read, t, q);
    TaintedHears(t, x, u, q);
    SenderDoesNotSee(u, x.answer, v, q);
    Single(Tainted(s, q), x.read, Tainted(t, q), TIGHT);
    Single(Tainted(t, q), Heard(x), Tainted(u, q), TIGHT);
    Single(Tainted(u, q), x.answer, Tainted(v, q), TIGHT);
    Chain(Tainted(s, q), [x.read], Tainted(t, q), [Heard(x)], Tainted(u, q), TIGHT);
    Chain(Tainted(s, q), [x.read] + [Heard(x)], Tainted(u, q), [x.answer], Tainted(v, q), TIGHT);
  }

  /** The packet of chunk 0 while chunks 224 to 254 are written. */
  lemma ZeroHeldBeyond(s: State, q: Packet)
    requires Quiet(s) && 224 <= |s.chunks| <= 254 && q.seqnum == 0 && q.payload != []
    ensures HeldBeyond(s.rcv, q)
  {
    QuietMeans(s);
  }

  lemma TaintedOne(s: State, q: Packet) returns (evs: seq<Event>, t: State)
    requires Quiet(s) && s.rest != [] && 224 <= |s.chunks| <= 254 && q.seqnum == 0 && q.payload != []
    ensures Leads(Tainted(s, q), evs, Tainted(t, q), TIGHT) && Passed(s, t, 1)
  {
    var x, a, b;
    x, a, b, t := MakeTrip(s);
    ZeroHeldBeyond(s, q);
    TaintedTrip(s, x, a, b, t, q);
    evs := TripEvents(x);
  }

  lemma {:induction false} TaintedMany(s: State, k: nat, q: Packet) returns (evs: seq<Event>, t: State)
    requires Quiet(s) && k <= Completion.Pieces(|s.rest|)
    requires 224 <= |s.chunks| && |s.chunks| + k <= 255 && q.seqnum == 0 && q.payload != []
    ensures Leads(Tainted(s, q), evs, Tainted(t, q), TIGHT) && Passed(s, t, k)
    decreases k
  {
    if k == 0 {
      NoTrip(s);
      return [], s;
    }
    MoreToRead(s, k);
    var first, u := TaintedOne(s, q);
    var more;
    more, t := TaintedMany(u, k - 1, q);
    PassedBoth(s, u, t, k - 1);
    Chain(Tainted(s, q), first, Tainted(u, q), more, Tainted(t, q), TIGHT);
    evs := first + more;
  }

  lemma PassedBoth(s: State, t: State, u: State, k: nat)
    requires Passed(s, t, 1) && Passed(t, u, k)
    ensures Passed(s, u, k + 1)
  {
  }

  // ---------- The first chunk is written again ----------

  lemma QuietOutput(s: State)
    requires Quiet(s)
    ensures s.rcv.out == s.chunks
  {
    QuietMeans(s);
  }

  /** The last chunk is read and arrives. */
  lemma LastArrives(s: State) returns (read: Event, m: Msg, buf: seq<bv8>, t: State)
    requires Quiet(s) && Completion.Pieces(|s.rest|) == 1
    ensures SenderStep(s, read, t) && HearsAwaited(t, m, buf)
    ensures m.pkt.payload == s.rest && t.rcv == s.rcv && t.chunks == s.chunks + [s.rest] && t.rest == []
  {
    LastPiece(s);
    QuietMeans(s);
    read, m := ReadsChunk(s);
    t := Next(s, read);
    SameChunk(s, t, m);
    buf := ArrivesAwaited(t, m);
  }

  lemma SameChunk(s: State, t: State, m: Msg)
    requires Inv(t) && t.snd.running && Completion.Pieces(|s.rest|) == 1 && m in t.data && m.num == |s.chunks|
    requires t.chunks == s.chunks + [s.rest[..Completion.PieceLength(s)]]
    ensures m.pkt.payload == s.rest && t.chunks == s.chunks + [s.rest]
  {
    LastPiece(s);
    assert s.rest[..Completion.PieceLength(s)] == s.rest;
  }

  /** The awaited packet is written, and the one held after it. */
  lemma HeldWritten(s: State, m: Msg, buf: seq<bv8>, q: Packet)
    requires HearsAwaited(s, m, buf) && s.rcv.list == [] && s.rcv.waited == 255
    requires q.seqnum == 0 && q.payload != []
    ensures var heard := ReceiverHears(m, Intact, buf);
            && Enabled(Tainted(s, q), heard, TIGHT)
            && Next(Tainted(s, q), heard).rcv.out == s.rcv.out + [m.pkt.payload] + [q.payload]
  {
    ReceiveWithHeld(s.rcv, m.pkt, q);
  }

  lemma TwoSteps(s: State, a: Event, t: State, b: Event, u: State)
    requires Enabled(s, a, TIGHT) && t == Next(s, a) && Enabled(t, b, TIGHT) && u == Next(t, b)
    ensures Leads(s, [a] + [b], u, TIGHT)
  {
    Single(s, a, t, TIGHT);
    Single(t, b, u, TIGHT);
    Chain(s, [a], t, [b], u, TIGHT);
  }

  lemma WaitsForLast(s: State)
    requires Quiet(s) && |s.chunks| == 255
    ensures s.rcv.waited == 255
  {
    QuietMeans(s);
  }

  lemma HearingReadsNothing(s: State, ev: Event)
    requires CanHappen(s, ev) && ev.ReceiverHears?
    ensures var t := Next(s, ev); t.chunks == s.chunks && t.rest == s.rest
  {
  }

  /** The last chunk is read and received; the packet of chunk 0 is written after it. */
  lemma WrittenAgain(s: State, q: Packet) returns (evs: seq<Event>, t: State)
    requires Quiet(s) && |s.chunks| == 255 && Completion.Pieces(|s.rest|) == 1
    requires q.seqnum == 0 && q.payload != []
    ensures Leads(Tainted(s, q), evs, t, TIGHT)
    ensures t.rcv.out == t.chunks + [q.payload] && t.rest == []
  {
    QuietMeans(s);
    QuietOutput(s);
    WaitsForLast(s);
    var read, m, buf, u := LastArrives(s);
    SenderDoesNotSee(s, read, u, q);
    HeldWritten(u, m, buf, q);
    var heard := ReceiverHears(m, Intact, buf);
    t := Next(Tainted(u, q), heard);
    HearingReadsNothing(Tainted(u, q), heard);
    TwoSteps(Tainted(s, q), read, Tainted(u, q), heard, t);
    evs := [read] + [heard];
  }

  /** The packet of chunk 0 is taken for that of chunk 256. */
  lemma DataTaken(s: State, m: Msg) returns (ev: Event, t: State)
    requires Quiet(s) && |s.chunks| == 224 && s.rcv.window == 31 && m in s.data && m.num == 0
    ensures Enabled(s, ev, LATE_DATA) && Next(s, ev) == Tainted(t, m.pkt)
    ensures t == s.(rcv := s.rcv.(lastTimestamp := m.pkt.timestamp)) && Quiet(t)
    ensures m.pkt.seqnum == 0 && m.pkt.payload != []
  {
    QuietMeans(s);
    Completion.ChunkSendable(s, m);
    StaleHeld(s, m);
    QuietAnyTime(s, m.pkt.timestamp);
    t := s.(rcv := s.rcv.(lastTimestamp := m.pkt.timestamp));
    ev := StaleArrives(s, m, t);
  }

  lemma QuietAnyTime(s: State, time: bv32)
    requires Quiet(s)
    ensures Quiet(s.(rcv := s.rcv.(lastTimestamp := time)))
  {
  }

  lemma StaleHeld(s: State, m: Msg)
    requires Quiet(s) && |s.chunks| == 224 && s.rcv.window == 31 && m in s.data && m.num == 0
    ensures m.pkt.seqnum == 0 && m.pkt.payload != []
    ensures ReceiverSpec.Turn(s.rcv, Ok(m.pkt)) == (s.rcv.(lastTimestamp := m.pkt.timestamp, list := [m.pkt]), [])
  {
    QuietMeans(s);
    assert IsChunk(m.pkt, s.chunks, 0);
    Staleness.ChunkTooOldIsTaken(s, m.pkt, 0);
  }

  lemma StaleArrives(s: State, m: Msg, t: State) returns (ev: Event)
    requires Sendable(m.pkt) && s.rcv.running && !s.gaveUp && m in s.data && Expected(s) <= m.num + STALENESS + 1
    requires ReceiverSpec.Turn(s.rcv, Ok(m.pkt)) == (t.rcv.(list := [m.pkt]), [])
    requires t == s.(rcv := t.rcv)
    ensures Enabled(s, ev, LATE_DATA) && Next(s, ev) == Tainted(t, m.pkt)
  {
    ev := ReceiverHears(m, Intact, Clean(m.pkt));
    IntactOutcome(m.pkt, ev.buf);
    assert s.acks + Number(Expected(s), []) == s.acks;
  }

  /** What the receiver wrote is longer than the input. */
  lemma TooLong(s: State, extra: seq<bv8>, input: seq<bv8>)
    requires InputOk(s, input) && s.rest == [] && extra != []
    requires s.rcv.out == s.chunks + [extra]
    ensures !(Output(s) <= input)
  {
    assert s.rcv.out[..|s.chunks|] == s.chunks;
    assert Output(s) == Concat(s.chunks) + extra;
  }

  /** The input is what was read and the rest, whatever the link does. */
  lemma {:induction false} RunKeepsInput(s: State, evs: seq<Event>, bounds: Bounds, input: seq<bv8>)
    requires Legal(s, evs, bounds) && InputOk(s, input)
    ensures InputOk(Run(s, evs, bounds), input)
    decreases |evs|
  {
    if evs != [] {
      StepKeepsInput(s, evs[0], input);
      RunKeepsInput(Next(s, evs[0]), evs[1..], bounds, input);
    }
  }

  lemma WindowIsFull(input: seq<bv8>, s: State)
    requires Passed(Init(input), s, 224)
    ensures |s.chunks| == 224 && s.rcv.window == 31
  {
  }

  /** The stale packet arrives, and it all goes on until it is written. */
  lemma FromLateData(s: State, m: Msg) returns (evs: seq<Event>, t: State)
    requires Quiet(s) && |s.chunks| == 224 && s.rcv.window == 31 && m in s.data && m.num == 0
    requires Completion.Pieces(|s.rest|) == 32
    ensures Leads(s, evs, t, LATE_DATA)
    ensures m.pkt.payload != [] && t.rcv.out == t.chunks + [m.pkt.payload] && t.rest == []
  {
    var q := m.pkt;
    var ev, s1 := DataTaken(s, m);
    Single(s, ev, Tainted(s1, q), LATE_DATA);
    var more, t1 := OnToTheEnd(s1, q);
    t := t1;
    Chain(s, [ev], Tainted(s1, q), more, t, LATE_DATA);
    evs := [ev] + more;
  }

  lemma OnToTheEnd(s: State, q: Packet) returns (evs: seq<Event>, t: State)
    requires Quiet(s) && |s.chunks| == 224 && Completion.Pieces(|s.rest|) == 32
    requires q.seqnum == 0 && q.payload != []
    ensures Leads(Tainted(s, q), evs, t, LATE_DATA)
    ensures t.rcv.out == t.chunks + [q.payload] && t.rest == []
  {
    var more, u := TaintedMany(s, 31, q);
    var last;
    last, t := WrittenAgain(u, q);
    Chain(Tainted(s, q), more, Tainted(u, q), last, t, TIGHT);
    evs := more + last;
    Loosen(Tainted(s, q), evs, TIGHT, LATE_DATA);
  }

  /** For every input of 256 pieces there is a run in which one data packet arrives 224 behind, and more
      is written than the input. */
  lemma DataBoundIsSharp(input: seq<bv8>) returns (evs: seq<Event>)
    requires Completion.Pieces(|input|) == 256
    ensures Legal(Init(input), evs, LATE_DATA)
    ensures !(Output(Run(Init(input), evs, LATE_DATA)) <= input)
  {
    var many, s, m := Start(input, 224);
    WindowIsFull(input, s);
    Loosen(Init(input), many, TIGHT, LATE_DATA);
    var more, t := FromLateData(s, m);
    Chain(Init(input), many, s, more, t, LATE_DATA);
    evs := many + more;
    AtStart(input);
    RunKeepsInput(Init(input), evs, LATE_DATA, input);
    TooLong(t, m.pkt.payload, input);
  }

  // ---------- The exact bound ----------

  /** What a transfer must never violate. */
  predicate IsSafe(s: State, input: seq<bv8>) {
    Output(s) <= input && (!s.snd.running || !s.rcv.running ==> Output(s) == input)
  }

  /** No run over a link with these bounds violates it, whatever the input. */
  ghost predicate AlwaysSafe(bounds: Bounds) {
    forall input, evs :: Legal(Init(input), evs, bounds) ==> IsSafe(Run(Init(input), evs, bounds), input)
  }

  lemma SafeWithin(bounds: Bounds, input: seq<bv8>, evs: seq<Event>)
    requires bounds.data <= STALENESS && bounds.acks <= STALENESS && Legal(Init(input), evs, bounds)
    ensures IsSafe(Run(Init(input), evs, bounds), input)
  {
    Loosen(Init(input), evs, bounds, SAFE);
    Safety.OutputIsPrefix(input, evs);
    var s := Run(Init(input), evs);
    if !s.snd.running {
      Safety.SenderStopIsSound(input, evs);
    }
    if !s.rcv.running {
      Safety.EndIsSound(input, evs);
    }
  }

  lemma UnsafeAcks(bounds: Bounds)
    requires bounds.acks > STALENESS
    ensures !AlwaysSafe(bounds)
  {
    var input := seq(226 * 512, _ => 0 as bv8);
    var evs := AckBoundIsSharp(input);
    Loosen(Init(input), evs, LATE_ACKS, bounds);
    assert Legal(Init(input), evs, bounds);
  }

  lemma UnsafeData(bounds: Bounds)
    requires bounds.data > STALENESS
    ensures !AlwaysSafe(bounds)
  {
    var input := seq(256 * 512, _ => 0 as bv8);
    var evs := DataBoundIsSharp(input);
    Loosen(Init(input), evs, LATE_DATA, bounds);
    assert Legal(Init(input), evs, bounds);
  }

  /** The transfer is safe over a link exactly if neither data packets nor acknowledgements can be more
      than 223 behind. */
  lemma BoundIsExact(bounds: Bounds)
    ensures AlwaysSafe(bounds) <==> bounds.data <= 223 && bounds.acks <= 223
  {
    if bounds.acks > 223 {
      UnsafeAcks(bounds);
    } else if bounds.data > 223 {
      UnsafeData(bounds);
    } else {
      forall input, evs | Legal(Init(input), evs, bounds)
        ensures IsSafe(Run(Init(input), evs, bounds), input)
      {
        SafeWithin(bounds, input, evs);
      }
    }
  }
}
