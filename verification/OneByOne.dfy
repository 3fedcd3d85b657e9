/** Runs in which each chunk is acknowledged before the next one is read, whatever the clock shows. */
module OneByOne {
  import opened Options
  import opened Packets
  import opened SeqNumbers
  import opened SenderSpec
  import opened ReceiverSpec
  import opened Protocol
  import opened Progress
  import opened Runs
  import Completion
  import Turns

  /** Nothing that is delivered is behind at all. */
  const TIGHT := Bounds(0, 0)

  /** The sender has read some chunks, all of which are acknowledged, and not yet the end of the input. */
  ghost predicate Quiet(s: State) {
    Inv(s) && s.snd.running && s.snd.list == [] && s.snd.fin.None? && !s.gaveUp
  }

  lemma QuietMeans(s: State)
    requires Quiet(s)
    ensures Base(s) == Expected(s) == |s.chunks| && s.rcv.list == [] && s.rcv.running
    ensures s.rcv.waited == Low8(|s.chunks|)
  {
    NothingHeld(s);
  }

  /** p is the packet that r waits for. */
  predicate IsAwaited(r: ReceiverState, p: Packet) {
    && p.ptype == DATA && !p.tr && 1 <= |p.payload| <= 512 && p.seqnum == r.waited
    && 1 <= r.window <= 31
  }

  /** The receiver after it wrote p. */
  function Wrote(r: ReceiverState, p: Packet): ReceiverState {
    r.(lastTimestamp := p.timestamp, waited := Advance(r.waited, 1), out := r.out + [p.payload],
       window := WindowAdd(r.window))
  }

  /** A packet that the receiver waits for, with nothing held, is written and acknowledged. */
  lemma ReceiveAlone(r: ReceiverState, p: Packet)
    requires r.list == [] && IsAwaited(r, p)
    ensures ReceiverSpec.Turn(r, Ok(p)) == (Wrote(r, p), [Reply(Wrote(r, p), Wrote(r, p).waited, ACK)])
  {
    WriteOnly(r.(lastTimestamp := p.timestamp, list := [p]));
  }

  lemma WriteOnly(r: ReceiverState)
    requires |r.list| == 1 && r.list[0].seqnum == r.waited && r.list[0].payload != []
    ensures var r1 := r.(list := [], waited := Advance(r.waited, 1), out := r.out + [r.list[0].payload],
                         window := WindowAdd(r.window));
            WriteRun(r) == (r1, [Reply(r1, r1.waited, ACK)], 0)
  {
    var w := Written(r);
    var v := w.(window := WindowAdd(w.window));
    assert w.list == [];
    assert WriteRun(v) == (v, [], 0);
    var ack := Reply(v, v.waited, ACK);
    assert [ack] + [] == [ack];
  }

  // ---------- The three turns ----------

  /** The chunk is read. */
  lemma ReadsChunk(s: State) returns (ev: Event, m: Msg)
    requires Quiet(s) && s.rest != []
    ensures OfSender(ev) && Enabled(s, ev, TIGHT)
    ensures var t := Next(s, ev);
            && Inv(t) && t.snd.running && |t.snd.list| == 1 && t.snd.fin == None && Base(t) == |s.chunks|
            && t == s.(snd := t.snd, data := t.data, chunks := t.chunks, rest := t.rest)
            && t.chunks == s.chunks + [s.rest[..Completion.PieceLength(s)]]
            && t.rest == s.rest[Completion.PieceLength(s)..]
            && m in t.data && m.num == |s.chunks|
  {
    var n := Completion.PieceLength(s);
    ev := SenderReads(n, 0);
    Turns.ChunkRead(s, n, 0);
    var t := Next(s, ev);
    m := t.data[|s.data|];
  }

  /** It gets through. */
  lemma Hears(s: State, m: Msg) returns (buf: seq<bv8>)
    requires Inv(s) && s.snd.running && !s.gaveUp && s.rcv.list == []
    requires m in s.data && m.num == Base(s) == Expected(s) < |s.chunks|
    ensures HearsAwaited(s, m, buf)
    ensures var t := Next(s, ReceiverHears(m, Intact, buf));
            Inv(t) && MoreAcked(t) && t.acks[|t.acks| - 1].num >= Base(s) + 1
  {
    buf := ArrivesAwaited(s, m);
    HeadHeard(s, ReceiverHears(m, Intact, buf));
  }

  lemma ArrivesAwaited(s: State, m: Msg) returns (buf: seq<bv8>)
    requires Inv(s) && s.snd.running && !s.gaveUp
    requires m in s.data && m.num == Base(s) == Expected(s) < |s.chunks|
    ensures HearsAwaited(s, m, buf)
  {
    ChunkAwaited(s, m);
    CleanArrives(s, m);
    buf := Clean(m.pkt);
  }

  lemma ChunkAwaited(s: State, m: Msg)
    requires Inv(s) && s.snd.running && m in s.data && m.num == Expected(s) < |s.chunks|
    ensures IsAwaited(s.rcv, m.pkt) && Sendable(m.pkt) && s.rcv.running
  {
    assert IsChunk(m.pkt, s.chunks, m.num);
  }

  lemma CleanArrives(s: State, m: Msg)
    requires Sendable(m.pkt) && s.rcv.running && !s.gaveUp && m in s.data && Expected(s) <= m.num
    ensures Enabled(s, ReceiverHears(m, Intact, Clean(m.pkt)), TIGHT) && DecodePacket(Clean(m.pkt)) == Ok(m.pkt)
  {
    IntactOutcome(m.pkt, Clean(m.pkt));
  }

  /** The packet that arrives is the one that the receiver waits for. */
  predicate HearsAwaited(s: State, m: Msg, buf: seq<bv8>) {
    Enabled(s, ReceiverHears(m, Intact, buf), TIGHT) && DecodePacket(buf) == Ok(m.pkt) && IsAwaited(s.rcv, m.pkt)
  }

  /** Then it is written. */
  lemma HeardIsWritten(s: State, m: Msg, buf: seq<bv8>)
    requires HearsAwaited(s, m, buf) && s.rcv.list == []
    ensures var t := Next(s, ReceiverHears(m, Intact, buf)); t == s.(rcv := Wrote(s.rcv, m.pkt), acks := t.acks)
  {
    ReceiveAlone(s.rcv, m.pkt);
  }

  /** So does the acknowledgement. */
  lemma IsAcked(s: State) returns (ev: Event)
    requires Inv(s) && s.snd.running && s.snd.fin == None && !s.gaveUp
    requires MoreAcked(s) && s.acks[|s.acks| - 1].num >= |s.chunks|
    ensures OfSender(ev) && Enabled(s, ev, TIGHT)
    ensures var t := Next(s, ev);
            && Quiet(t) && t.chunks == s.chunks && t.rest == s.rest && t.rcv == s.rcv && t.acks == s.acks
  {
    var m := s.acks[|s.acks| - 1];
    assert AckOk(m, Expected(s)) && Sendable(m.pkt);
    ev := SenderHears(m, Intact, Clean(m.pkt), 0);
    AckHeard(s, ev);
    Completion.FinKept(s.snd, AckReady(DecodePacket(ev.buf)), 0);
  }

  // ---------- One chunk, and many ----------

  /** What one chunk, or k of them, change. */
  ghost predicate Passed(s: State, t: State, k: nat) {
    && Quiet(s) && Quiet(t) && Later(s, t)
    && |t.chunks| == |s.chunks| + k
    && Completion.Pieces(|t.rest|) + k == Completion.Pieces(|s.rest|)
    && t.rcv.window == Opened(s.rcv.window, k)
  }

  /** The turns that take a chunk from the input to its acknowledgement: it is read, m arrives in buf,
      and the answer arrives. */
  datatype Trip = Trip(read: Event, m: Msg, buf: seq<bv8>, answer: Event)

  function Heard(x: Trip): Event {
    ReceiverHears(x.m, Intact, x.buf)
  }

  function TripEvents(x: Trip): seq<Event> {
    [x.read] + [Heard(x)] + [x.answer]
  }

  predicate SenderStep(s: State, ev: Event, t: State) {
    OfSender(ev) && Enabled(s, ev, TIGHT) && t == Next(s, ev)
  }

  predicate ReceiverStep(s: State, x: Trip, t: State) {
    HearsAwaited(s, x.m, x.buf) && t == Next(s, Heard(x)) && t == s.(rcv := Wrote(s.rcv, x.m.pkt), acks := t.acks)
  }

  /** The trip is made from s, through t and u, to v. */
  predicate Makes(s: State, x: Trip, t: State, u: State, v: State) {
    SenderStep(s, x.read, t) && ReceiverStep(t, x, u) && SenderStep(u, x.answer, v)
  }

  lemma TripLeads(s: State, x: Trip, t: State, u: State, v: State)
    requires Makes(s, x, t, u, v)
    ensures Leads(s, TripEvents(x), v, TIGHT)
  {
    Single(s, x.read, t, TIGHT);
    Single(t, Heard(x), u, TIGHT);
    Single(u, x.answer, v, TIGHT);
    Chain(s, [x.read], t, [Heard(x)], u, TIGHT);
    Chain(s, [x.read] + [Heard(x)], u, [x.answer], v, TIGHT);
  }

  lemma MakesLater(s: State, x: Trip, t: State, u: State, v: State)
    requires Inv(s) && Makes(s, x, t, u, v)
    ensures Later(s, v)
  {
    TripLeads(s, x, t, u, v);
    Loosen(s, TripEvents(x), TIGHT, SAFE);
    RunIsLater(s, TripEvents(x));
  }

  /** Somewhere among the acknowledgements there is one numbered n. */
  ghost predicate HasAck(s: State, n: nat) {
    exists a :: a in s.acks && a.pkt.ptype == ACK && a.num == n
  }

  lemma LastAckIs(s: State, n: nat)
    requires Inv(s) && MoreAcked(s) && s.acks[|s.acks| - 1].num >= n && |s.chunks| == n && s.snd.running
    ensures HasAck(s, n)
  {
    var a := s.acks[|s.acks| - 1];
    assert a in s.acks && AckOk(a, Expected(s));
  }

  /** The next chunk makes its trip; its packet stays on record, and so does its acknowledgement. */
  lemma MakeTrip(s: State) returns (x: Trip, t: State, u: State, v: State)
    requires Quiet(s) && s.rest != []
    ensures Makes(s, x, t, u, v) && Passed(s, v, 1)
    ensures x.m in v.data && x.m.num == |s.chunks| && HasAck(v, |s.chunks| + 1)
  {
    QuietMeans(s);
    var read, m := ReadsChunk(s);
    t := Next(s, read);
    var buf := Hears(t, m);
    HeardIsWritten(t, m, buf);
    u := Next(t, ReceiverHears(m, Intact, buf));
    LastAckIs(u, |s.chunks| + 1);
    var answer := IsAcked(u);
    v := Next(u, answer);
    x := Trip(read, m, buf, answer);
    MakesLater(s, x, t, u, v);
    DataStays(u, answer, m);
  }

  lemma DataStays(s: State, ev: Event, m: Msg)
    requires Inv(s) && Enabled(s, ev, TIGHT) && m in s.data
    ensures m in Next(s, ev).data
  {
    NothingUndone(s, ev);
  }

  lemma PassedMore(s: State, a: seq<Event>, t: State, b: seq<Event>, u: State, k: nat)
    requires Passed(s, t, 1) && Passed(t, u, k) && Leads(s, a, t, TIGHT) && Leads(t, b, u, TIGHT)
    ensures Passed(s, u, k + 1) && Leads(s, a + b, u, TIGHT)
  {
    Chain(s, a, t, b, u, TIGHT);
  }

  lemma NoTrip(s: State)
    requires Quiet(s)
    ensures Leads(s, [], s, TIGHT) && Passed(s, s, 0)
  {
  }

  lemma MoreToRead(s: State, k: nat)
    requires 0 < k <= Completion.Pieces(|s.rest|)
    ensures s.rest != []
  {
  }

  lemma {:induction false} MakeTrips(s: State, k: nat) returns (evs: seq<Event>, t: State)
    requires Quiet(s) && k <= Completion.Pieces(|s.rest|)
    ensures Leads(s, evs, t, TIGHT) && Passed(s, t, k)
    decreases k
  {
    if k == 0 {
      NoTrip(s);
      return [], s;
    }
    MoreToRead(s, k);
    var first, u := OneTrip(s);
    var more;
    more, t := MakeTrips(u, k - 1);
    evs := first + more;
    PassedMore(s, first, u, more, t, k - 1);
  }

  lemma OneTrip(s: State) returns (evs: seq<Event>, t: State)
    requires Quiet(s) && s.rest != []
    ensures Leads(s, evs, t, TIGHT) && Passed(s, t, 1)
  {
    var x, a, b;
    x, a, b, t := MakeTrip(s);
    TripLeads(s, x, a, b, t);
    evs := TripEvents(x);
  }
}
