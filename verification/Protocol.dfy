/** The sender, the receiver and the link between them as one state machine. The link works on
    bytes: it may lose, repeat and reorder packets, cut them after the header, or invert a byte. The
    only thing asked of it is a bound on staleness: what it delivers intact is numbered at most 223
    behind what the addressee expects. */
module Protocol {
  import opened Bytes
  import opened Packets
  import opened SeqNumbers
  import opened ListSpec
  import opened SenderSpec
  import opened ReceiverSpec
  import RI = ReceiverInvariant

  /** A packet on its way, with the unbounded number that its 8-bit number stands for. The programs
      see only the packet. */
  datatype Msg = Msg(num: nat, pkt: Packet)

  /** chunks lists what the sender has read from its input, one entry for each call of read, and rest
      is the input not read yet. data and acks list everything ever sent in each direction. The
      receiver has stopped because it has seen the end of the transfer when !rcv.running, and because
      nothing arrived for too long when gaveUp. */
  datatype State = State(
    snd: SenderState, rcv: ReceiverState, gaveUp: bool,
    chunks: seq<seq<bv8>>, rest: seq<bv8>, data: seq<Msg>, acks: seq<Msg>)

  function Init(input: seq<bv8>): State {
    State(SenderSpec.START, ReceiverSpec.START, false, [], input, [], [])
  }

  /** The number of the oldest packet that is not acknowledged. */
  function Base(s: State): nat {
    if |s.snd.list| <= |s.chunks| then |s.chunks| - |s.snd.list| else 0
  }

  /** The number of packets written, hence the number expected next. */
  function Expected(s: State): nat {
    |s.rcv.out|
  }

  function Concat(chunks: seq<seq<bv8>>): seq<bv8>
    decreases |chunks|
  {
    if chunks == [] then [] else Concat(chunks[..|chunks| - 1]) + chunks[|chunks| - 1]
  }

  /** The bytes in the receiver's file. */
  function Output(s: State): seq<bv8> {
    Concat(s.rcv.out)
  }

  /** Packets with their unbounded numbers, which lie in low, ..., low + 255. */
  function Number(low: nat, ps: seq<Packet>): seq<Msg> {
    seq(|ps|, i requires 0 <= i < |ps| => Msg(NumberFrom(low, ps[i].seqnum), ps[i]))
  }

  // ---------- Steps ----------

  const STALENESS: nat := 223

  /** How far behind what its addressee expects the link delivers data packets and acknowledgements. */
  datatype Bounds = Bounds(data: nat, acks: nat)

  const SAFE := Bounds(STALENESS, STALENESS)

  /** One turn of the sender's loop, with nothing to handle, with n bytes ready in the input, or with
      a packet from the receiver; or one turn of the receiver's loop, with a packet or at its timeout. */
  datatype Event =
    | SenderIdle(now: bv32)
    | SenderReads(n: nat, now: bv32)
    | SenderHears(m: Msg, e: Effect, buf: seq<bv8>, now: bv32)
    | ReceiverHears(m: Msg, e: Effect, buf: seq<bv8>)
    | ReceiverGivesUp

  predicate OfSender(ev: Event) {
    ev.SenderIdle? || ev.SenderReads? || ev.SenderHears?
  }

  predicate CanHappen(s: State, ev: Event) {
    match ev
    case SenderIdle(_) => s.snd.running
    case SenderReads(n, _) =>
      s.snd.running && n <= MAX_PAYLOAD_SIZE && n <= |s.rest| && (n == 0 <==> s.rest == [])
    case SenderHears(m, e, buf, _) =>
      s.snd.running && m in s.acks && Arrives(m.pkt, e, buf)
    case ReceiverHears(m, e, buf) =>
      s.rcv.running && !s.gaveUp && m in s.data && Arrives(m.pkt, e, buf)
    case ReceiverGivesUp => s.rcv.running && !s.gaveUp
  }

  /** The packet that arrives, if it is intact, is not too far behind. */
  predicate Fresh(s: State, ev: Event, bounds: Bounds) {
    match ev
    case SenderHears(m, e, _, _) => e == Intact && m.pkt.ptype == ACK ==> Base(s) <= m.num + bounds.acks
    case ReceiverHears(m, e, _) => e == Intact ==> Expected(s) <= m.num + bounds.data
    case _ => true
  }

  predicate Enabled(s: State, ev: Event, bounds: Bounds := SAFE) {
    CanHappen(s, ev) && Fresh(s, ev, bounds)
  }

  const MAX_PAYLOAD_SIZE: nat := 512

  /** The sender went from s.snd to snd, and sent these packets. */
  function Went(s: State, snd: SenderState, sent: seq<Packet>): State {
    var t := s.(snd := snd);
    t.(data := s.data + Number(Base(t), sent))
  }

  function SenderTurn(s: State, ready: Ready, now: bv32): State {
    var (snd, sent) := SenderSpec.Turn(s.snd, ready, now);
    Went(s, snd, sent)
  }

  /** The state in which the sender handles an input from which a read would return n bytes: they are
      read only if the sender calls read. */
  function Read(s: State, n: nat): State
    requires n <= |s.rest|
  {
    if !Reads(s.snd) then s
    else s.(chunks := if n == 0 then s.chunks else s.chunks + [s.rest[..n]], rest := s.rest[n..])
  }

  function Next(s: State, ev: Event): State
    requires CanHappen(s, ev)
  {
    match ev
    case SenderIdle(now) => SenderTurn(s, Nothing, now)
    case SenderReads(n, now) => SenderTurn(Read(s, n), FileReady(s.rest[..n]), now)
    case SenderHears(m, e, buf, now) => SenderTurn(s, AckReady(DecodePacket(buf)), now)
    case ReceiverHears(m, e, buf) =>
      var (rcv, sent) := ReceiverSpec.Turn(s.rcv, DecodePacket(buf));
      s.(rcv := rcv, acks := s.acks + Number(Expected(s), sent))
    case ReceiverGivesUp => s.(rcv := s.rcv.(list := []), gaveUp := true)
  }

  predicate Legal(s: State, evs: seq<Event>, bounds: Bounds := SAFE)
    decreases |evs|
  {
    evs == [] || (Enabled(s, evs[0], bounds) && Legal(Next(s, evs[0]), evs[1..], bounds))
  }

  function Run(s: State, evs: seq<Event>, bounds: Bounds := SAFE): State
    requires Legal(s, evs, bounds)
    decreases |evs|
  {
    if evs == [] then s else Run(Next(s, evs[0]), evs[1..], bounds)
  }

  // ---------- The invariant ----------

  /** p carries chunk n. */
  predicate IsChunk(p: Packet, chunks: seq<seq<bv8>>, n: nat) {
    n < |chunks| && p == DataPacket(Low8(n), p.timestamp, chunks[n])
  }

  /** p is the final packet, numbered n. */
  predicate IsFinal(p: Packet, n: nat) {
    p == DataPacket(Low8(n), p.timestamp, [])
  }

  ghost predicate ChunksOk(chunks: seq<seq<bv8>>) {
    forall n :: 0 <= n < |chunks| ==> 1 <= |chunks[n]| <= MAX_PAYLOAD_SIZE
  }

  /** The sender's list is the chunks Base(s), Base(s) + 1, ... up to the last one read, at most 31 of
      them even when the receiver's window has shrunk meanwhile. */
  ghost predicate SenderOk(s: State) {
    && |s.snd.list| <= |s.chunks| && |s.snd.list| <= 31
    && (forall i :: 0 <= i < |s.snd.list| ==> IsChunk(s.snd.list[i], s.chunks, Base(s) + i))
    && s.snd.seqnum == Low8(|s.chunks|)
    && 1 <= s.snd.window <= 31
    && (s.snd.fin.Some? ==> s.rest == [] && IsFinal(s.snd.fin.value, |s.chunks|))
    && (!s.snd.running ==> s.snd.fin.Some? && s.snd.list == [])
  }

  /** Every data packet ever sent is a chunk or, once the sender has finished, the final packet. */
  ghost predicate DataOk(s: State) {
    && (forall m :: m in s.data ==> IsChunk(m.pkt, s.chunks, m.num) || (!s.snd.running && IsFinalMsg(s, m)))
    && (!s.snd.running ==> exists m :: m in s.data && IsFinalMsg(s, m))
  }

  ghost predicate IsFinalMsg(s: State, m: Msg) {
    m.num == |s.chunks| && IsFinal(m.pkt, m.num)
  }

  /** The payload the receiver writes as its n-th. */
  function Payload(s: State, n: nat): seq<bv8> {
    if n < |s.chunks| then s.chunks[n] else []
  }

  ghost predicate WrittenOk(s: State) {
    && Base(s) <= Expected(s) <= |s.chunks| + (if s.snd.running then 0 else 1)
    && s.rcv.waited == Low8(Expected(s))
    && (forall n :: 0 <= n < Expected(s) ==> s.rcv.out[n] == Payload(s, n))
    && (Expected(s) <= |s.chunks| ==> s.rcv.running)
    && (Expected(s) == |s.chunks| + 1 ==> (s.rcv.running <==> Low8(|s.chunks|) == 255))
  }

  /** Every packet of the list carries the chunk its 8-bit number stands for. */
  ghost predicate ListOk(list: seq<Packet>, chunks: seq<seq<bv8>>, expected: nat) {
    forall p :: p in list ==> IsChunk(p, chunks, NumberFrom(expected, p.seqnum))
  }

  /** What the receiver holds out of sequence are chunks beyond the expected one. */
  ghost predicate HeldOk(s: State) {
    RI.Inv(s.rcv) && ListOk(s.rcv.list, s.chunks, Expected(s))
  }

  ghost predicate AckOk(m: Msg, expected: nat) {
    IsReply(m.pkt) && (m.pkt.ptype == ACK ==> m.num <= expected && m.pkt.seqnum == Low8(m.num))
  }

  ghost predicate AcksOk(s: State) {
    forall m :: m in s.acks ==> AckOk(m, Expected(s))
  }

  ghost predicate Inv(s: State) {
    ChunksOk(s.chunks) && SenderOk(s) && DataOk(s) && WrittenOk(s) && HeldOk(s) && AcksOk(s)
  }

  lemma InitInv(input: seq<bv8>)
    ensures Inv(Init(input))
  {
  }

  // ---------- Steps of the sender ----------

  lemma NumberAppend(low: nat, a: seq<Packet>, b: seq<Packet>)
    ensures Number(low, a + b) == Number(low, a) + Number(low, b)
  {
  }

  /** Packets of the sender's list get their own numbers back. */
  lemma NumbersOfChunks(s: State, sent: seq<Packet>)
    requires SenderOk(s)
    requires forall p :: p in sent ==> p in s.snd.list
    ensures forall m :: m in Number(Base(s), sent) ==> IsChunk(m.pkt, s.chunks, m.num)
  {
    forall m | m in Number(Base(s), sent)
      ensures IsChunk(m.pkt, s.chunks, m.num)
    {
      assert m.pkt in sent;
      var k :| 0 <= k < |s.snd.list| && s.snd.list[k] == m.pkt;
      NumberFromLow(Base(s), Base(s) + k);
    }
  }

  /** The state after the first part of the sender's loop body. */
  function Handled(s: State, ready: Ready, now: bv32): State {
    var (snd, sent) := Handle(s.snd, ready, now);
    Went(s, snd, sent)
  }

  function Finished(s: State, now: bv32): State {
    var (snd, sent) := Finish(s.snd, now);
    Went(s, snd, sent)
  }

  lemma FinishKeepsLength(s: SenderState, now: bv32)
    requires forall p :: p in s.list ==> p.payload != []
    ensures |Finish(s, now).0.list| == |s.list|
  {
    TimeoutsKeep(s, now);
  }

  /** Sending a then b is sending both. */
  lemma SentInTwoParts(data: seq<Msg>, low: nat, a: seq<Packet>, b: seq<Packet>)
    ensures data + Number(low, a + b) == data + Number(low, a) + Number(low, b)
  {
    NumberAppend(low, a, b);
    assert data + (Number(low, a) + Number(low, b)) == data + Number(low, a) + Number(low, b);
  }

  lemma TurnInTwoParts(s: SenderState, ready: Ready, now: bv32)
    requires Handle(s, ready, now).0.running
    ensures SenderSpec.Turn(s, ready, now).0 == Finish(Handle(s, ready, now).0, now).0
    ensures SenderSpec.Turn(s, ready, now).1 == Handle(s, ready, now).1 + Finish(Handle(s, ready, now).0, now).1
  {
  }

  lemma TurnIsHandleThenFinish(s: State, ready: Ready, now: bv32)
    requires var t := Handled(s, ready, now); t.snd.running && Inv(t)
    ensures SenderTurn(s, ready, now) == Finished(Handled(s, ready, now), now)
  {
    var t := Handled(s, ready, now);
    assert forall p :: p in t.snd.list ==> p.payload != [];
    FinishKeepsLength(t.snd, now);
    TurnInTwoParts(s.snd, ready, now);
    SameInTwoParts(s, t.snd, Handle(s.snd, ready, now).1, Finish(t.snd, now).0, Finish(t.snd, now).1);
  }

  lemma SameInTwoParts(s: State, mid: SenderState, a: seq<Packet>, end: SenderState, b: seq<Packet>)
    requires |mid.list| == |end.list|
    ensures Went(s, end, a + b) == Went(Went(s, mid, a), end, b)
  {
    SentInTwoParts(s.data, Base(s.(snd := mid)), a, b);
  }

  lemma FinishKeepsInv(s: State, now: bv32)
    requires Inv(s) && s.snd.running
    ensures Inv(Finished(s, now))
  {
    if s.snd.fin.Some? && s.snd.list == [] {
      FinalSent(s, now);
    } else {
      TimeoutsKeepInv(s, now);
    }
  }

  /** Everything is acknowledged and the end of the file was read: the final packet goes out, numbered
      after the last chunk, and the sender stops. */
  lemma FinalSent(s: State, now: bv32)
    requires Inv(s) && s.snd.running && s.snd.fin.Some? && s.snd.list == []
    ensures var t := Finished(s, now);
            Inv(t) && !t.snd.running && t == s.(snd := t.snd, data := t.data)
  {
    var t := Finished(s, now);
    var p := s.snd.fin.value.(timestamp := now);
    assert Finish(s.snd, now).1 == [p];
    NumberFromLow(|s.chunks|, |s.chunks|);
    var m := Msg(|s.chunks|, p);
    assert Number(|s.chunks|, [p]) == [m];
    StoppedKeepsInv(s, t, m);
  }

  lemma StoppedKeepsInv(s: State, t: State, m: Msg)
    requires Inv(s) && s.snd.running && s.snd.fin.Some? && s.snd.list == [] && IsFinalMsg(s, m)
    requires t == s.(snd := s.snd.(running := false), data := s.data + [m])
    ensures Inv(t)
  {
    assert m in t.data && IsFinalMsg(t, m);
  }

  /** t differs from s in the times at which the packets of the list were last sent, and in what was
      sent. */
  ghost predicate SameButSent(s: State, t: State) {
    && t == s.(snd := s.snd.(list := t.snd.list), data := t.data)
    && SameButTimes(t.snd.list, s.snd.list)
  }

  lemma SentAgainKeepsInv(s: State, t: State)
    requires Inv(s) && s.snd.running && SameButSent(s, t)
    requires forall m :: m in t.data ==> m in s.data || IsChunk(m.pkt, t.chunks, m.num)
    ensures Inv(t)
  {
  }

  lemma SentAgainSenderOk(s: State, t: State)
    requires SenderOk(s) && SameButSent(s, t)
    ensures SenderOk(t)
  {
  }

  lemma FinishSendsAgain(s: State, now: bv32)
    requires SenderOk(s) && ChunksOk(s.chunks) && s.snd.running && !(s.snd.fin.Some? && s.snd.list == [])
    ensures SameButSent(s, Finished(s, now))
    ensures forall p :: p in Finish(s.snd, now).1 ==> p in Finished(s, now).snd.list
  {
    TimeoutsKeep(s.snd, now);
  }

  lemma TimeoutsKeepInv(s: State, now: bv32)
    requires Inv(s) && s.snd.running && !(s.snd.fin.Some? && s.snd.list == [])
    ensures var t := Finished(s, now);
            Inv(t) && t.snd.running && t.snd == s.snd.(list := t.snd.list) && t == s.(snd := t.snd, data := t.data)
  {
    var t, sent := Finished(s, now), Finish(s.snd, now).1;
    FinishSendsAgain(s, now);
    SentAgainSenderOk(s, t);
    NumbersOfChunks(t, sent);
    SentAgainKeepsInv(s, t);
  }

  lemma IdleKeepsInv(s: State, now: bv32)
    requires Inv(s) && s.snd.running
    ensures Inv(SenderTurn(s, Nothing, now))
  {
    assert s.data + Number(Base(s), []) == s.data;
    assert Handled(s, Nothing, now) == s;
    TurnIsHandleThenFinish(s, Nothing, now);
    FinishKeepsInv(s, now);
  }

  lemma ReadKeepsInv(s: State, n: nat, now: bv32)
    requires Inv(s) && Enabled(s, SenderReads(n, now))
    ensures Inv(SenderTurn(Read(s, n), FileReady(s.rest[..n]), now))
  {
    ReadHandled(s, n, now);
    TurnIsHandleThenFinish(Read(s, n), FileReady(s.rest[..n]), now);
    FinishKeepsInv(Handled(Read(s, n), FileReady(s.rest[..n]), now), now);
  }

  lemma ReadHandled(s: State, n: nat, now: bv32)
    requires Inv(s) && Enabled(s, SenderReads(n, now))
    ensures var t := Handled(Read(s, n), FileReady(s.rest[..n]), now); Inv(t) && t.snd.running
  {
    if !Reads(s.snd) {
      NothingRead(s, s.rest[..n], now);
    } else if n == 0 {
      EndOfFileKeepsInv(s, now);
    } else {
      NewChunkKeepsInv(s, n, now);
    }
  }

  /** Without room, or after the end, an input that is ready is left alone. */
  lemma NothingRead(s: State, chunk: seq<bv8>, now: bv32)
    requires !Reads(s.snd)
    ensures Handled(s, FileReady(chunk), now) == s
  {
    assert s.data + Number(Base(s), []) == s.data;
  }

  lemma EndOfFileKeepsInv(s: State, now: bv32)
    requires Inv(s) && Reads(s.snd) && Enabled(s, SenderReads(0, now))
    ensures var t := Handled(Read(s, 0), FileReady([]), now); Inv(t) && t.snd.running
  {
    var t := Handled(Read(s, 0), FileReady([]), now);
    assert s.rest[0..] == s.rest;
    assert s.data + Number(Base(t), []) == s.data;
    assert t == s.(snd := t.snd);
  }

  lemma NewChunkKeepsInv(s: State, n: nat, now: bv32)
    requires Inv(s) && Reads(s.snd) && Enabled(s, SenderReads(n, now)) && n > 0
    ensures var t := Handled(Read(s, n), FileReady(s.rest[..n]), now); Inv(t) && t.snd.running
  {
    var chunk := s.rest[..n];
    var last := |s.chunks|;
    var t := Handled(Read(s, n), FileReady(chunk), now);
    var p := DataPacket(s.snd.seqnum, now, chunk);
    assert t.snd == s.snd.(list := s.snd.list + [p], seqnum := t.snd.seqnum);
    assert Base(t) == Base(s);
    NumberFromLow(Base(s), last);
    assert Number(Base(t), [p]) == [Msg(last, p)];
    assert t.data == s.data + [Msg(last, p)];
    NewChunkSenderOk(s, chunk, p, t);
    MoreChunks(s, t);
  }

  lemma NewChunkSenderOk(s: State, chunk: seq<bv8>, p: Packet, t: State)
    requires ChunksOk(s.chunks) && SenderOk(s) && Reads(s.snd)
    requires 1 <= |chunk| <= MAX_PAYLOAD_SIZE && p == DataPacket(s.snd.seqnum, p.timestamp, chunk)
    requires t.chunks == s.chunks + [chunk]
    requires t.snd == s.snd.(list := s.snd.list + [p], seqnum := Advance(s.snd.seqnum, 1))
    ensures ChunksOk(t.chunks) && SenderOk(t)
  {
    AdvanceNumber(|s.chunks|, 1);
  }

  /** What is known of the chunks read so far stays true when more are read. */
  lemma MoreChunks(s: State, t: State)
    requires Inv(s) && s.snd.running && t.snd.running
    requires t.rcv == s.rcv && t.acks == s.acks && s.chunks <= t.chunks && Base(t) == Base(s)
    ensures WrittenOk(t) && HeldOk(t) && AcksOk(t)
    ensures forall m :: m in s.data ==> IsChunk(m.pkt, t.chunks, m.num)
  {
  }

  /** An ack numbered a moves the base to a, or not at all if a is behind. */
  lemma AckMovesBase(s: State, a: nat)
    requires SenderOk(s) && ChunksOk(s.chunks)
    requires Base(s) <= a + STALENESS && a <= |s.chunks|
    ensures PacketChecked(s.snd.list, Low8(a), s.snd.fin.Some?) ==
            (s.snd.list[if a <= Base(s) then 0 else a - Base(s)..], 0)
  {
    assert Consecutive(s.snd.list, Base(s));
    PacketCheckedExact(s.snd.list, Base(s), a, s.snd.fin.Some?);
  }

  /** The first j packets leave the list, all of them below the number the receiver expects. */
  lemma DropKeepsInv(s: State, j: nat, window: nat)
    requires Inv(s) && s.snd.running && 1 <= window <= 31
    requires j <= |s.snd.list| && Base(s) + j <= Expected(s)
    ensures var t := s.(snd := s.snd.(list := s.snd.list[j..], window := window));
            Inv(t) && Base(t) == Base(s) + j
  {
  }

  /** How far an arriving packet moves the base. */
  function Covered(s: State, m: Msg, e: Effect): nat {
    if e == Intact && m.pkt.ptype == ACK && m.num > Base(s) then m.num - Base(s) else 0
  }

  /** m can be heard by the sender with effect e and read as d. */
  ghost predicate Hearable(s: State, m: Msg, e: Effect, d: Decoded) {
    && s.snd.running && AckOk(m, Expected(s)) && Outcome(m.pkt, e, d) && e != Truncated
    && (e == Intact && m.pkt.ptype == ACK ==> Base(s) <= m.num + STALENESS)
  }

  lemma EnabledIsHearable(s: State, m: Msg, e: Effect, buf: seq<bv8>, now: bv32)
    requires Inv(s) && Enabled(s, SenderHears(m, e, buf, now))
    ensures Hearable(s, m, e, DecodePacket(buf))
  {
    ArrivalOutcome(m.pkt, e, buf);
  }

  /** check_ack on what can be read when m arrives: the covered packets leave the list, the window is
      the one advertised, and the end of the file is not reported. */
  lemma AckHandled(s: State, m: Msg, e: Effect, d: Decoded, now: bv32)
    requires Inv(s) && Hearable(s, m, e, d)
    ensures var (snd, sent) := Handle(s.snd, AckReady(d), now);
            var j := Covered(s, m, e);
            && sent == []
            && j <= |s.snd.list| && Base(s) + j <= Expected(s)
            && 1 <= snd.window <= 31
            && snd == s.snd.(list := s.snd.list[j..], window := snd.window)
  {
    assert s.snd.list[0..] == s.snd.list;
    if e == Intact && m.pkt.ptype == ACK {
      AckMovesBase(s, m.num);
    }
  }

  lemma AckKeepsInv(s: State, m: Msg, e: Effect, d: Decoded, now: bv32)
    requires Inv(s) && Hearable(s, m, e, d)
    ensures var t := Handled(s, AckReady(d), now);
            Inv(t) && t.snd.running && Base(t) == Base(s) + Covered(s, m, e)
  {
    var t := Handled(s, AckReady(d), now);
    AckHandled(s, m, e, d, now);
    assert s.data + Number(Base(t), []) == s.data;
    DropKeepsInv(s, Covered(s, m, e), t.snd.window);
    assert t == s.(snd := t.snd);
  }

  lemma HearingKeepsInv(s: State, m: Msg, e: Effect, d: Decoded, now: bv32)
    requires Inv(s) && Hearable(s, m, e, d)
    ensures var t := SenderTurn(s, AckReady(d), now);
            Inv(t) && Base(t) == Base(s) + Covered(s, m, e)
  {
    var h := Handled(s, AckReady(d), now);
    AckKeepsInv(s, m, e, d, now);
    TurnIsHandleThenFinish(s, AckReady(d), now);
    FinishKeepsInv(h, now);
    FinishKeepsLength(h.snd, now);
  }

  lemma SenderKeepsInv(s: State, ev: Event)
    requires Inv(s) && Enabled(s, ev) && OfSender(ev)
    ensures Inv(Next(s, ev))
  {
    match ev
    case SenderIdle(now) =>
      IdleKeepsInv(s, now);
    case SenderReads(n, now) =>
      ReadKeepsInv(s, n, now);
    case SenderHears(m, e, buf, now) =>
      EnabledIsHearable(s, m, e, buf, now);
      HearingKeepsInv(s, m, e, DecodePacket(buf), now);
  }

  // ---------- Steps of the receiver ----------

  /** The state after the receiver went from s.rcv to rcv and sent these packets. */
  function Answered(s: State, rcv: ReceiverState, sent: seq<Packet>): State {
    s.(rcv := rcv, acks := s.acks + Number(Expected(s), sent))
  }

  /** The receiver wrote nothing: acknowledgements it sends carry the expected number. */
  lemma NothingWritten(s: State, rcv: ReceiverState, sent: seq<Packet>)
    requires Inv(s)
    requires rcv == s.rcv.(list := rcv.list, window := rcv.window, lastTimestamp := rcv.lastTimestamp)
    requires RI.Inv(rcv) && ListOk(rcv.list, s.chunks, Expected(s))
    requires forall p :: p in sent ==> IsReply(p) && (p.ptype == ACK ==> p.seqnum == s.rcv.waited)
    ensures Inv(Answered(s, rcv, sent))
  {
    var t := Answered(s, rcv, sent);
    forall m | m in t.acks
      ensures AckOk(m, Expected(t))
    {
      if m !in s.acks {
        assert m in Number(Expected(s), sent) && m.pkt in sent;
        if m.pkt.ptype == ACK {
          NumberFromLow(Expected(s), Expected(s));
        }
      }
    }
  }

  // ---------- Chunks written in sequence ----------

  lemma RunChunk(list: seq<Packet>, chunks: seq<seq<bv8>>, expected: nat, i: nat)
    requires ListOk(list, chunks, expected) && RI.Sorted(list, Low8(expected)) && i < |list|
    requires list[i].seqnum == Advance(Low8(expected), i)
    ensures i <= 32 && IsChunk(list[i], chunks, expected + i)
  {
    RunOffset(list, Low8(expected), i);
    AdvanceNumber(expected, i);
    NumberFromLow(expected, expected + i);
    assert list[i] in list;
  }

  /** The run that write_in_sequence writes is the chunks expected, expected + 1, ... */
  lemma RunIsChunks(list: seq<Packet>, chunks: seq<seq<bv8>>, expected: nat)
    requires ListOk(list, chunks, expected) && RI.Sorted(list, Low8(expected))
    ensures var k := RunLength(list, Low8(expected));
            && k <= |list| && k <= 33 && (k > 0 ==> expected + k <= |chunks|)
            && forall i :: 0 <= i < k ==> IsChunk(list[i], chunks, expected + i)
  {
    var waited := Low8(expected);
    var k := RunLength(list, waited);
    RunIsMaximal(list, waited);
    forall i | 0 <= i < k
      ensures i <= 32 && IsChunk(list[i], chunks, expected + i)
    {
      RunChunk(list, chunks, expected, i);
    }
    if k > 0 {
      assert IsChunk(list[k - 1], chunks, expected + (k - 1));
    }
  }

  /** A run is shorter than the circle of numbers. */
  lemma RunOffset(list: seq<Packet>, waited: u8, i: nat)
    requires RI.Sorted(list, waited) && i < |list|
    ensures i <= 32
  {
    RI.OffsetAtLeastIndex(list, waited, i);
  }

  lemma NumberKept(expected: nat, k: nat, s: u8)
    requires k <= Offset(Low8(expected), s)
    ensures NumberFrom(expected + k, s) == NumberFrom(expected, s)
  {
    AdvanceNumber(expected, k);
    RI.OffsetAfterAdvance(Low8(expected), k, s);
  }

  /** What is left keeps its numbers when the expected number moves on. */
  lemma RestIsOk(list: seq<Packet>, chunks: seq<seq<bv8>>, expected: nat, k: nat)
    requires ListOk(list, chunks, expected) && RI.Sorted(list, Low8(expected)) && k <= |list|
    ensures ListOk(list[k..], chunks, expected + k)
  {
    forall p | p in list[k..]
      ensures IsChunk(p, chunks, NumberFrom(expected + k, p.seqnum))
    {
      var i :| k <= i < |list| && list[i] == p;
      RI.OffsetAtLeastIndex(list, Low8(expected), i);
      NumberKept(expected, k, p.seqnum);
    }
  }

  /** The pieces of the invariant that a step of the receiver can touch. */
  lemma ReceiverPieces(s: State, t: State)
    requires Inv(s) && s.rcv.running
    requires t == s.(rcv := t.rcv, acks := t.acks)
    requires t.rcv.running && t.rcv.waited == Low8(Expected(t)) && Expected(s) <= Expected(t) <= |s.chunks|
    requires forall n :: 0 <= n < Expected(t) ==> t.rcv.out[n] == Payload(s, n)
    requires RI.Inv(t.rcv) && ListOk(t.rcv.list, t.chunks, Expected(t))
    requires forall m :: m in t.acks ==> AckOk(m, Expected(t))
    ensures Inv(t)
  {
  }

  /** What write_in_sequence leaves when it goes from r to r1 by writing a run of k packets. */
  ghost predicate RunDone(r: ReceiverState, r1: ReceiverState, k: nat) {
    && k <= |r.list|
    && r1.list == r.list[k..]
    && r1.waited == Advance(r.waited, k)
    && r1.out == r.out + Payloads(r.list[..k])
    && 1 <= r1.window <= 31
    && r1.running == r.running
  }

  lemma WriteRunIsDone(r: ReceiverState)
    requires 1 <= r.window <= 31
    ensures RunDone(r, WriteRun(r).0, RunLength(r.list, r.waited))
  {
    WriteRunExact(r);
  }

  lemma RunDoneKeepsInv(s: State, r: ReceiverState, r1: ReceiverState, acks: seq<Packet>, k: nat)
    requires Inv(s) && s.rcv.running && Expected(s) <= |s.chunks|
    requires r == s.rcv.(list := r.list, lastTimestamp := r.lastTimestamp)
    requires RI.Sorted(r.list, s.rcv.waited) && ListOk(r.list, s.chunks, Expected(s))
    requires k == RunLength(r.list, r.waited) && RunDone(r, r1, k)
    requires RepliesOk(s, acks, Expected(s) + k)
    ensures Inv(Answered(s, r1, acks)) && Expected(Answered(s, r1, acks)) == Expected(s) + k
  {
    RunDoneReady(s, r, r1, k);
    AnsweredKeepsInv(s, r1, acks, Expected(s) + k);
  }

  lemma RunDoneReady(s: State, r: ReceiverState, r1: ReceiverState, k: nat)
    requires Inv(s) && s.rcv.running && Expected(s) <= |s.chunks|
    requires r == s.rcv.(list := r.list, lastTimestamp := r.lastTimestamp)
    requires RI.Sorted(r.list, s.rcv.waited) && ListOk(r.list, s.chunks, Expected(s))
    requires k == RunLength(r.list, r.waited) && RunDone(r, r1, k)
    ensures WaitsFor(r1, s.chunks, Expected(s) + k) && OutIs(s, r1.out, Expected(s) + k)
    ensures r1.running && Expected(s) + k <= |s.chunks|
  {
    RunDoneList(r, r1, s.chunks, Expected(s), k);
    RunDoneOut(s, r, r1, k);
  }

  lemma RunDoneOut(s: State, r: ReceiverState, r1: ReceiverState, k: nat)
    requires Inv(s) && s.rcv.running && Expected(s) <= |s.chunks|
    requires r.out == s.rcv.out && r.waited == Low8(Expected(s))
    requires RI.Sorted(r.list, r.waited) && ListOk(r.list, s.chunks, Expected(s))
    requires k == RunLength(r.list, r.waited) && RunDone(r, r1, k)
    ensures OutIs(s, r1.out, Expected(s) + k) && Expected(s) + k <= |s.chunks|
  {
    RunIsChunks(r.list, s.chunks, Expected(s));
    RunWritten(s, r1, r.list[..k]);
  }

  /** With these acknowledgements, none is for more than n packets. */
  ghost predicate RepliesOk(s: State, acks: seq<Packet>, n: nat) {
    forall m :: m in s.acks + Number(Expected(s), acks) ==> AckOk(m, n)
  }

  /** out is the first n payloads. */
  ghost predicate OutIs(s: State, out: seq<seq<bv8>>, n: nat) {
    |out| == n && forall i :: 0 <= i < n ==> out[i] == Payload(s, i)
  }

  /** r is the receiver when it waits for number n. */
  ghost predicate WaitsFor(r: ReceiverState, chunks: seq<seq<bv8>>, n: nat) {
    r.waited == Low8(n) && RI.Inv(r) && ListOk(r.list, chunks, n)
  }

  /** The number waited for and the list after the run. */
  lemma RunDoneList(r: ReceiverState, r1: ReceiverState, chunks: seq<seq<bv8>>, expected: nat, k: nat)
    requires RI.Sorted(r.list, r.waited) && r.waited == Low8(expected) && ListOk(r.list, chunks, expected)
    requires k == RunLength(r.list, r.waited) && RunDone(r, r1, k)
    ensures WaitsFor(r1, chunks, expected + k)
  {
    RI.RestIsBuffered(r.list, r.waited);
    RestIsOk(r.list, chunks, expected, k);
    AdvanceNumber(expected, k);
  }

  lemma AnsweredKeepsInv(s: State, r1: ReceiverState, acks: seq<Packet>, n: nat)
    requires Inv(s) && s.rcv.running && r1.running && Expected(s) <= n <= |s.chunks|
    requires WaitsFor(r1, s.chunks, n) && OutIs(s, r1.out, n)
    requires RepliesOk(s, acks, n)
    ensures Inv(Answered(s, r1, acks)) && Expected(Answered(s, r1, acks)) == n
  {
    ReceiverPieces(s, Answered(s, r1, acks));
  }

  /** The receiver holds the chunks of r.list and writes the run at its head. */
  lemma RunKeepsInv(s: State, r: ReceiverState)
    requires Inv(s) && s.rcv.running && Expected(s) <= |s.chunks|
    requires r == s.rcv.(list := r.list, lastTimestamp := r.lastTimestamp)
    requires RI.Sorted(r.list, s.rcv.waited) && ListOk(r.list, s.chunks, Expected(s))
    ensures var (r1, acks, ret) := WriteRun(r);
            && ret == 0
            && Inv(Answered(s, r1, acks))
            && Expected(Answered(s, r1, acks)) == Expected(s) + RunLength(r.list, r.waited)
  {
    var (r1, acks, ret) := WriteRun(r);
    var k := RunLength(r.list, r.waited);
    RunIsChunks(r.list, s.chunks, Expected(s));
    RunHasNoEnd(s, r.list, k);
    WriteRunExact(r);
    RunAcked(s, r, k);
    RunDoneKeepsInv(s, r, r1, acks, k);
  }

  lemma RunHasNoEnd(s: State, list: seq<Packet>, k: nat)
    requires ChunksOk(s.chunks) && k <= |list|
    requires forall i :: 0 <= i < k ==> IsChunk(list[i], s.chunks, Expected(s) + i)
    ensures !EndSeen(list, k)
  {
    if k > 0 {
      assert IsChunk(list[k - 1], s.chunks, Expected(s) + (k - 1));
    }
  }

  lemma RunWritten(s: State, r1: ReceiverState, run: seq<Packet>)
    requires Inv(s) && s.rcv.running && Expected(s) + |run| <= |s.chunks|
    requires forall i :: 0 <= i < |run| ==> IsChunk(run[i], s.chunks, Expected(s) + i)
    requires r1.out == s.rcv.out + Payloads(run)
    ensures OutIs(s, r1.out, Expected(s) + |run|)
  {
    forall n | 0 <= n < |r1.out|
      ensures r1.out[n] == Payload(s, n)
    {
      if n >= Expected(s) {
        assert IsChunk(run[n - Expected(s)], s.chunks, n);
      }
    }
  }

  lemma RunAcked(s: State, r: ReceiverState, k: nat)
    requires Inv(s) && r.waited == Low8(Expected(s)) && 1 <= r.window <= 31
    requires k == RunLength(r.list, r.waited) < 256
    ensures RepliesOk(s, WriteRun(r).1, Expected(s) + k)
  {
    var expected := Expected(s);
    var acks := WriteRun(r).1;
    WriteRunAcks(r);
    forall m | m in Number(expected, acks)
      ensures AckOk(m, expected + k)
    {
      var j :| 0 <= j < |acks| && m == Number(expected, acks)[j];
      AdvanceNumber(expected, j + 1);
      NumberFromLow(expected, expected + j + 1);
    }
  }

  // ---------- What the receiver does with each packet ----------

  /** A chunk numbered below the expected one is acknowledged and forgotten. */
  lemma StaleChunk(s: State, p: Packet, n: nat)
    requires Inv(s) && IsChunk(p, s.chunks, n)
    requires n < Expected(s) <= n + STALENESS
    ensures var r := s.rcv.(lastTimestamp := p.timestamp);
            ReceiverSpec.Receive(s.rcv, Ok(p)) == (r, [Reply(r, r.waited, ACK)], 0)
  {
    StaleDataExactly(Expected(s), n, s.rcv.window);
  }

  /** The list after a chunk in the window was inserted. */
  lemma ChunkInserted(s: State, p: Packet, n: nat)
    requires Inv(s) && IsChunk(p, s.chunks, n) && Expected(s) <= n < Expected(s) + 256
    requires InReceiverWindow(p.seqnum, s.rcv.waited, s.rcv.window)
    ensures var list := Insert(s.rcv.list, p);
            && list != []
            && RI.Sorted(list, s.rcv.waited)
            && ListOk(list, s.chunks, Expected(s))
            && (exists q :: q in list && q.seqnum == p.seqnum)
  {
    RI.AcceptedIsReachable(p.seqnum, s.rcv.waited, s.rcv.window);
    RI.InsertSorted(s.rcv.list, p, s.rcv.waited);
    NumberFromLow(Expected(s), n);
  }

  /** The receiver's state when a packet in its window was inserted, before anything is written. */
  function Inserted(r: ReceiverState, p: Packet): ReceiverState {
    r.(lastTimestamp := p.timestamp, list := Insert(r.list, p))
  }

  /** read_to_list_r on a packet in the window is insertion, then either one acknowledgement of the
      expected number or the writing of the run. */
  lemma InWindowCases(r: ReceiverState, p: Packet)
    requires Insert(r.list, p) != []
    ensures var i := Inserted(r, p);
            var (r1, sent, ret) := WriteRun(i);
            ReceiveInWindow(r.(lastTimestamp := p.timestamp), p) ==
            if i.list[0].seqnum > i.waited then (i, [Reply(i, i.waited, ACK)], 0)
            else (r1, sent, if ret == -10 then -2 else 0)
  {
    var i := Inserted(r, p);
    if i.list[0].seqnum > i.waited {
      assert [] + [Reply(i, i.waited, ACK)] == [Reply(i, i.waited, ACK)];
    } else {
      WriteRunReturns(i);
    }
  }

  lemma {:induction false} WriteRunReturns(r: ReceiverState)
    ensures WriteRun(r).2 == 0 || WriteRun(r).2 == -10
    decreases |r.list|
  {
    if r.list != [] && r.list[0].seqnum == r.waited {
      var w := Written(r);
      WriteRunReturns(w.(window := WindowAdd(w.window)));
    }
  }

  /** A chunk in the window is held or written, with whatever it makes consecutive. */
  lemma ChunkInWindow(s: State, p: Packet, n: nat)
    requires Inv(s) && s.rcv.running && Expected(s) <= |s.chunks|
    requires IsChunk(p, s.chunks, n) && Expected(s) <= n < Expected(s) + 256
    requires InReceiverWindow(p.seqnum, s.rcv.waited, s.rcv.window)
    ensures var (r1, sent, ret) := ReceiveInWindow(s.rcv.(lastTimestamp := p.timestamp), p);
            ret == 0 && Inv(Answered(s, r1, sent))
  {
    var r := Inserted(s.rcv, p);
    ChunkInserted(s, p, n);
    InWindowCases(s.rcv, p);
    if r.list[0].seqnum > r.waited {
      NothingWritten(s, r, [Reply(r, r.waited, ACK)]);
    } else {
      RunKeepsInv(s, r);
    }
  }

  lemma ChunkKeepsInv(s: State, p: Packet, n: nat)
    requires Inv(s) && s.rcv.running
    requires IsChunk(p, s.chunks, n) && Expected(s) <= n + STALENESS
    ensures var (r1, sent, ret) := ReceiverSpec.Receive(s.rcv, Ok(p));
            ret == 0 && Inv(Answered(s, r1, sent))
  {
    var r := s.rcv.(lastTimestamp := p.timestamp);
    if n < Expected(s) {
      StaleChunk(s, p, n);
      NothingWritten(s, r, [Reply(r, r.waited, ACK)]);
    } else if InReceiverWindow(p.seqnum, r.waited, r.window) {
      ChunkInWindow(s, p, n);
    } else {
      NothingWritten(s, r, [Reply(r, r.waited, ACK)]);
    }
  }

  /** When the final packet is about, nothing is held out of sequence. */
  lemma NothingHeld(s: State)
    requires Inv(s) && Expected(s) == |s.chunks|
    ensures s.rcv.list == []
  {
  }

  /** The final packet, when it is the one expected, is written as an empty payload. The receiver ends
      the transfer unless its number is 255; then it only acknowledges. */
  lemma FinalReceived(s: State, p: Packet)
    requires Inv(s) && s.rcv.running && !s.snd.running
    requires IsFinal(p, |s.chunks|) && Expected(s) == |s.chunks|
    ensures var (r1, sent, ret) := ReceiverSpec.Receive(s.rcv, Ok(p));
            && r1.list == [] && r1.out == s.rcv.out + [[]] && r1.waited == Low8(Expected(s) + 1)
            && r1.running == s.rcv.running && 1 <= r1.window <= 31
            && ret == (if Low8(|s.chunks|) == 255 then 0 else -2)
            && sent == (if ret == -2 then [] else [Reply(r1, r1.waited, ACK)])
  {
    NothingHeld(s);
    var r := s.rcv.(lastTimestamp := p.timestamp, list := [p]);
    assert Insert(s.rcv.list, p) == [p];
    AdvanceNumber(Expected(s), 1);
    var w := Written(r);
    EndTest(r);
    assert w.list == [];
    assert WriteRun(w.(window := WindowAdd(w.window))) == (w.(window := WindowAdd(w.window)), [], 0);
  }

  /** A repeated final packet, which only a final number of 255 leaves a running receiver to see, is
      acknowledged and forgotten. */
  lemma FinalRepeated(s: State, p: Packet)
    requires Inv(s) && s.rcv.running && !s.snd.running
    requires IsFinal(p, |s.chunks|) && Expected(s) == |s.chunks| + 1
    ensures var r := s.rcv.(lastTimestamp := p.timestamp);
            ReceiverSpec.Receive(s.rcv, Ok(p)) == (r, [Reply(r, r.waited, ACK)], 0)
  {
    StaleDataExactly(Expected(s), |s.chunks|, s.rcv.window);
  }

  lemma FinalKeepsInv(s: State, p: Packet)
    requires Inv(s) && s.rcv.running && !s.snd.running && IsFinal(p, |s.chunks|)
    ensures var (r1, sent) := ReceiverSpec.Turn(s.rcv, Ok(p)); Inv(Answered(s, r1, sent))
  {
    var (r1, sent) := ReceiverSpec.Turn(s.rcv, Ok(p));
    if Expected(s) == |s.chunks| {
      FinalReceived(s, p);
      FinalAcked(s, r1, sent);
    } else {
      FinalRepeated(s, p);
      NothingWritten(s, r1, sent);
    }
  }

  lemma FinalAcked(s: State, r1: ReceiverState, sent: seq<Packet>)
    requires Inv(s) && s.rcv.running && !s.snd.running && Expected(s) == |s.chunks|
    requires r1.list == [] && r1.out == s.rcv.out + [[]] && r1.waited == Low8(Expected(s) + 1) && 1 <= r1.window <= 31
    requires r1.running <==> Low8(|s.chunks|) == 255
    requires sent == [] || sent == [Reply(r1, r1.waited, ACK)]
    ensures Inv(Answered(s, r1, sent))
  {
    var t := Answered(s, r1, sent);
    NumberFromLow(Expected(s), Expected(s) + 1);
    forall m | m in t.acks
      ensures AckOk(m, Expected(t))
    {
      if m !in s.acks {
        assert m in Number(Expected(s), sent) && m.pkt in sent;
      }
    }
  }

  /** m can be received with effect e and read as d. */
  ghost predicate Receivable(s: State, m: Msg, e: Effect, d: Decoded) {
    && s.rcv.running && m in s.data && Outcome(m.pkt, e, d)
    && (e == Intact ==> Expected(s) <= m.num + STALENESS)
  }

  lemma ReceivingKeepsInv(s: State, m: Msg, e: Effect, d: Decoded)
    requires Inv(s) && Receivable(s, m, e, d)
    ensures var (rcv, sent) := ReceiverSpec.Turn(s.rcv, d); Inv(Answered(s, rcv, sent))
  {
    var (rcv, sent) := ReceiverSpec.Turn(s.rcv, d);
    if e == Intact {
      if IsChunk(m.pkt, s.chunks, m.num) {
        ChunkKeepsInv(s, m.pkt, m.num);
      } else {
        FinalKeepsInv(s, m.pkt);
      }
    } else {
      NothingWritten(s, rcv, sent);
    }
  }

  lemma ReceiverKeepsInv(s: State, ev: Event)
    requires Inv(s) && Enabled(s, ev) && ev.ReceiverHears?
    ensures Inv(Next(s, ev))
  {
    assert IsChunk(ev.m.pkt, s.chunks, ev.m.num) || IsFinal(ev.m.pkt, ev.m.num);
    ArrivalOutcome(ev.m.pkt, ev.e, ev.buf);
    ReceivingKeepsInv(s, ev.m, ev.e, DecodePacket(ev.buf));
  }

  /** At its timeout the receiver discards what it holds; what it has written stays. */
  lemma GivingUpKeepsInv(s: State, ev: Event)
    requires Inv(s) && CanHappen(s, ev) && ev.ReceiverGivesUp?
    ensures Inv(Next(s, ev))
  {
  }

  // ---------- Every run ----------

  lemma StepKeepsInv(s: State, ev: Event)
    requires Inv(s) && Enabled(s, ev)
    ensures Inv(Next(s, ev))
  {
    if ev.ReceiverHears? {
      ReceiverKeepsInv(s, ev);
    } else if ev.ReceiverGivesUp? {
      GivingUpKeepsInv(s, ev);
    } else {
      SenderKeepsInv(s, ev);
    }
  }

  /** The input is what was read followed by what was not. */
  ghost predicate InputOk(s: State, input: seq<bv8>) {
    Concat(s.chunks) + s.rest == input
  }

  lemma StepKeepsInput(s: State, ev: Event, input: seq<bv8>)
    requires CanHappen(s, ev) && InputOk(s, input)
    ensures InputOk(Next(s, ev), input)
  {
    if ev.SenderReads? && Reads(s.snd) {
      var chunk := s.rest[..ev.n];
      assert (s.chunks + [chunk])[..|s.chunks|] == s.chunks;
      assert s.rest == chunk + s.rest[ev.n..];
      assert Concat(s.chunks) + (chunk + s.rest[ev.n..]) == (Concat(s.chunks) + chunk) + s.rest[ev.n..];
    }
  }

  lemma {:induction false} RunKeeps(s: State, evs: seq<Event>, input: seq<bv8>)
    requires Inv(s) && InputOk(s, input) && Legal(s, evs)
    ensures Inv(Run(s, evs)) && InputOk(Run(s, evs), input)
    decreases |evs|
  {
    if evs != [] {
      StepKeepsInv(s, evs[0]);
      StepKeepsInput(s, evs[0], input);
      RunKeeps(Next(s, evs[0]), evs[1..], input);
    }
  }

  lemma ReachableInv(input: seq<bv8>, evs: seq<Event>)
    requires Legal(Init(input), evs)
    ensures Inv(Run(Init(input), evs)) && InputOk(Run(Init(input), evs), input)
  {
    InitInv(input);
    RunKeeps(Init(input), evs, input);
  }
}
