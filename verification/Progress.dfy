/** Retransmission works: in every run, each time the oldest unacknowledged chunk and the answer to it get
    through, whatever happens in between, the sender's window moves. */
module Progress {
  import opened Bytes
  import opened Packets
  import opened SeqNumbers
  import opened ListSpec
  import opened SenderSpec
  import opened ReceiverSpec
  import opened Protocol
  import opened Runs
  import Turns
  import Fifo
  import RI = ReceiverInvariant

  // ---------- The head of the list gets through ----------

  /** The last packet of those sent acknowledges everything written. */
  ghost predicate LastAcks(t: State, sent: seq<Msg>) {
    && sent != []
    && sent[|sent| - 1].pkt.ptype == ACK
    && sent[|sent| - 1].num == Expected(t)
  }

  /** The chunk expected is written at once, with those it makes consecutive, and the last
      acknowledgement is for all of them. */
  lemma ExpectedChunk(s: State, p: Packet)
    requires Inv(s) && s.rcv.running && IsChunk(p, s.chunks, Expected(s))
    ensures var (r1, sent, ret) := ReceiverSpec.Receive(s.rcv, Ok(p));
            && Expected(Answered(s, r1, sent)) > Expected(s)
            && LastAcks(Answered(s, r1, sent), Number(Expected(s), sent))
  {
    var n := Expected(s);
    var r := Inserted(s.rcv, p);
    OffsetOfNumbers(n, n);
    InReceiverWindowExactly(p.seqnum, s.rcv.waited, s.rcv.window);
    ChunkInserted(s, p, n);
    InWindowCases(s.rcv, p);
    InsertedFirst(s.rcv.list, p, s.rcv.waited);
    RunKeepsInv(s, r);
    ExpectedAcked(s, r);
  }

  /** The packet waited for goes to the front. */
  lemma InsertedFirst(list: seq<Packet>, p: Packet, waited: u8)
    requires RI.Buffered(list, waited) && p.seqnum == waited
    ensures Insert(list, p) == [p] + list
  {
    if list != [] {
      PrecedesIsOffsetOrder(waited, list[0].seqnum, waited);
    }
  }

  lemma ExpectedAcked(s: State, r: ReceiverState)
    requires r.list != [] && r.list[0].seqnum == r.waited == Low8(Expected(s)) && 1 <= r.window <= 31
    requires WriteRun(r).2 == 0 && RunLength(r.list, r.waited) <= 33 && r.out == s.rcv.out
    ensures RunLength(r.list, r.waited) > 0
    ensures var q := Number(Expected(s), WriteRun(r).1);
            q != [] && q[|q| - 1].pkt.ptype == ACK && q[|q| - 1].num == Expected(s) + RunLength(r.list, r.waited)
  {
    WriteRunAcks(r);
    LastNumber(Expected(s), WriteRun(r).1);
  }

  lemma LastNumber(expected: nat, acks: seq<Packet>)
    requires 1 <= |acks| <= 33 && AcksFrom(acks, Low8(expected))
    ensures var q := Number(expected, acks);
            q != [] && q[|q| - 1].pkt.ptype == ACK && q[|q| - 1].num == expected + |acks|
  {
    var k := |acks|;
    assert acks[k - 1].seqnum == Advance(Low8(expected), (k - 1) + 1);
    AdvanceNumber(expected, k);
    NumberFromLow(expected, expected + k);
  }

  lemma HeadReceived(s: State, p: Packet)
    requires Inv(s) && s.rcv.running && IsChunk(p, s.chunks, Base(s)) && Expected(s) <= Base(s) + 31
    ensures var (r1, sent, ret) := ReceiverSpec.Receive(s.rcv, Ok(p));
            var t := Answered(s, r1, sent);
            Expected(t) > Base(s) && LastAcks(t, Number(Expected(s), sent)) && ret == 0
  {
    ChunkKeepsInv(s, p, Base(s));
    if Base(s) == Expected(s) {
      ExpectedChunk(s, p);
    } else {
      StaleChunk(s, p, Base(s));
      NumberFromLow(Expected(s), Expected(s));
    }
  }

  /** The last packet the receiver sent acknowledges more than the sender's base. */
  ghost predicate MoreAcked(s: State) {
    s.acks != [] && s.acks[|s.acks| - 1].pkt.ptype == ACK && s.acks[|s.acks| - 1].num > Base(s)
  }

  lemma HeadAnswered(s: State, p: Packet)
    requires Inv(s) && s.rcv.running && IsChunk(p, s.chunks, Base(s)) && Expected(s) <= Base(s) + 31
    ensures var (r1, sent) := ReceiverSpec.Turn(s.rcv, Ok(p));
            var t := Answered(s, r1, sent); MoreAcked(t) && |t.acks| > |s.acks|
  {
    var (r1, sent) := ReceiverSpec.Turn(s.rcv, Ok(p));
    HeadReceived(s, p);
    var q := Number(Expected(s), sent);
    assert Answered(s, r1, sent).acks[|s.acks| + |q| - 1] == q[|q| - 1];
  }

  /** The receiver hears the oldest packet that is not acknowledged. */
  predicate HearsHead(s: State, ev: Event) {
    ev.ReceiverHears? && ev.e == Intact && ev.m.num == Base(s) < |s.chunks| && Enabled(s, ev)
  }

  lemma HeadIsChunk(s: State, ev: Event)
    requires Inv(s) && HearsHead(s, ev)
    ensures IsChunk(ev.m.pkt, s.chunks, Base(s)) && Expected(s) <= Base(s) + 31
  {
    assert ev.m in s.data;
  }

  lemma HeadHeard(s: State, ev: Event)
    requires Inv(s) && HearsHead(s, ev)
    ensures var t := Next(s, ev);
            Inv(t) && MoreAcked(t) && |t.acks| > |s.acks| && t == s.(rcv := t.rcv, acks := t.acks)
  {
    StepKeepsInv(s, ev);
    HeadIsChunk(s, ev);
    IntactOutcome(ev.m.pkt, ev.buf);
    HeadAnswered(s, ev.m.pkt);
  }

  /** The sender hears an acknowledgement. */
  predicate HearsAck(s: State, ev: Event) {
    ev.SenderHears? && ev.e == Intact && ev.m.pkt.ptype == ACK && Enabled(s, ev)
  }

  lemma AckHeard(s: State, ev: Event)
    requires Inv(s) && HearsAck(s, ev)
    ensures var t := Next(s, ev); Inv(t) && Base(t) >= Base(s) && Base(t) >= ev.m.num
  {
    StepKeepsInv(s, ev);
    Fifo.SenderBase(s, ev);
  }

  // ---------- Rounds ----------

  /** A successful round inside a run: at some point the receiver hears the packet that is the oldest
      unacknowledged one when the round begins, and later the sender hears the last packet that the
      receiver had then sent in answer. Anything may happen before and in between. */
  datatype Round = Round(before: seq<Event>, heard: Event, between: seq<Event>, answer: Event)

  function Events(r: Round): seq<Event> {
    r.before + [r.heard] + r.between + [r.answer]
  }

  predicate IsRound(s: State, r: Round) {
    && s.snd.list != []
    && Legal(s, r.before)
    && var s1 := Run(s, r.before);
    && r.heard.ReceiverHears? && r.heard.e == Intact && r.heard.m.num == Base(s)
    && Enabled(s1, r.heard)
    && var s2 := Next(s1, r.heard);
    && Legal(s2, r.between)
    && var s3 := Run(s2, r.between);
    && s2.acks != []
    && r.answer.SenderHears? && r.answer.e == Intact && r.answer.m == s2.acks[|s2.acks| - 1]
    && Enabled(s3, r.answer)
  }

  function After(s: State, r: Round): State
    requires IsRound(s, r)
  {
    Next(Run(Next(Run(s, r.before), r.heard), r.between), r.answer)
  }

  lemma RoundIsRun(s: State, r: Round)
    requires IsRound(s, r)
    ensures Leads(s, Events(r), After(s, r))
  {
    var s1 := Run(s, r.before);
    var s2 := Next(s1, r.heard);
    var s3 := Run(s2, r.between);
    Single(s1, r.heard, s2);
    Single(s3, r.answer, After(s, r));
    Chain(s, r.before, s1, [r.heard], s2);
    Chain(s, r.before + [r.heard], s2, r.between, s3);
    Chain(s, r.before + [r.heard] + r.between, s3, [r.answer], After(s, r));
  }

  /** Once the chunk numbered b was heard, the base is past b or the last packet sent will move it there. */
  lemma HeardOrMoved(s: State, ev: Event, b: nat)
    requires Inv(s) && Enabled(s, ev) && ev.ReceiverHears? && ev.e == Intact && ev.m.num == b <= Base(s)
    requires b < |s.chunks|
    ensures PastOrAnswered(Next(s, ev), b)
  {
    if b == Base(s) {
      HeadHeard(s, ev);
    } else {
      NothingUndone(s, ev);
    }
  }

  lemma AnswerMoves(s: State, ev: Event, b: nat)
    requires Inv(s) && Enabled(s, ev) && ev.SenderHears? && ev.e == Intact
    requires Base(s) > b || (ev.m.pkt.ptype == ACK && ev.m.num > b)
    ensures Inv(Next(s, ev)) && Base(Next(s, ev)) > b
  {
    StepKeepsInv(s, ev);
    Fifo.SenderBase(s, ev);
  }

  /** Every round moves the base, whether or not the receiver had the packet before. */
  lemma RoundProgresses(s: State, r: Round)
    requires Inv(s) && IsRound(s, r)
    ensures Inv(After(s, r)) && Base(After(s, r)) > Base(s)
  {
    FirstHalf(s, r);
    AnsweredLater(Next(Run(s, r.before), r.heard), r.between, r.answer, Base(s));
  }

  lemma FirstHalf(s: State, r: Round)
    requires Inv(s) && IsRound(s, r)
    ensures var t := Next(Run(s, r.before), r.heard); Inv(t) && PastOrAnswered(t, Base(s))
  {
    RunIsLater(s, r.before);
    StepKeepsInv(Run(s, r.before), r.heard);
    HeardOrMoved(Run(s, r.before), r.heard, Base(s));
  }

  /** The base is past b, or will be once the last packet sent is heard. */
  predicate PastOrAnswered(s: State, b: nat) {
    Base(s) > b || (s.acks != [] && s.acks[|s.acks| - 1].pkt.ptype == ACK && s.acks[|s.acks| - 1].num > b)
  }

  lemma AnsweredLater(s: State, evs: seq<Event>, answer: Event, b: nat)
    requires Inv(s) && PastOrAnswered(s, b) && Legal(s, evs) && Enabled(Run(s, evs), answer)
    requires answer.SenderHears? && answer.e == Intact && s.acks != [] && answer.m == s.acks[|s.acks| - 1]
    ensures var t := Next(Run(s, evs), answer); Inv(t) && Base(t) > b
  {
    RunIsLater(s, evs);
    AnswerMoves(Run(s, evs), answer, b);
  }

  // ---------- Rounds take place ----------

  lemma HeadCanArrive(s: State, m: Msg) returns (ev: Event)
    requires Inv(s) && s.snd.running && !s.gaveUp && m in s.data && m.num == Base(s) < |s.chunks|
    ensures HearsHead(s, ev)
  {
    assert IsChunk(m.pkt, s.chunks, m.num);
    ev := ReceiverHears(m, Intact, Clean(m.pkt));
  }

  lemma AnswerCanArrive(s: State, now: bv32) returns (ev: Event)
    requires Inv(s) && s.snd.running && MoreAcked(s)
    ensures ev.SenderHears? && ev.e == Intact && ev.m == s.acks[|s.acks| - 1] && Enabled(s, ev)
  {
    var m := s.acks[|s.acks| - 1];
    assert AckOk(m, Expected(s)) && Sendable(m.pkt);
    ev := SenderHears(m, Intact, Clean(m.pkt), now);
  }

  /** As long as the receiver has not given up, a round can take place once the head has timed out. */
  lemma RoundCanHappen(s: State, now: bv32) returns (r: Round)
    requires Inv(s) && s.snd.running && !s.gaveUp && s.snd.list != [] && TimedOut(s.snd.list[0], now)
    ensures IsRound(s, r)
  {
    var idle := SenderIdle(now);
    var s1 := Next(s, idle);
    Turns.HeadSent(s, now);
    Single(s, idle, s1);
    var heard := HeadCanArrive(s1, s1.data[|s.data|]);
    HeadHeard(s1, heard);
    var answer := AnswerCanArrive(Next(s1, heard), now);
    r := Round([idle], heard, [], answer);
  }

  // ---------- Many rounds ----------

  /** The rounds follow each other, with anything between them. */
  predicate AreRounds(s: State, rs: seq<Round>)
    decreases |rs|
  {
    rs == [] || (IsRound(s, rs[0]) && AreRounds(After(s, rs[0]), rs[1..]))
  }

  function AfterAll(s: State, rs: seq<Round>): State
    requires AreRounds(s, rs)
    decreases |rs|
  {
    if rs == [] then s else AfterAll(After(s, rs[0]), rs[1..])
  }

  function AllEvents(rs: seq<Round>): seq<Event>
    decreases |rs|
  {
    if rs == [] then [] else Events(rs[0]) + AllEvents(rs[1..])
  }

  lemma {:induction false} RoundsAreRun(s: State, rs: seq<Round>)
    requires AreRounds(s, rs)
    ensures Leads(s, AllEvents(rs), AfterAll(s, rs))
    decreases |rs|
  {
    if rs != [] {
      RoundIsRun(s, rs[0]);
      RoundsAreRun(After(s, rs[0]), rs[1..]);
      Chain(s, Events(rs[0]), After(s, rs[0]), AllEvents(rs[1..]), AfterAll(s, rs));
    }
  }

  lemma {:induction false} RoundsMoveBase(s: State, rs: seq<Round>)
    requires Inv(s) && AreRounds(s, rs)
    ensures Inv(AfterAll(s, rs)) && Base(AfterAll(s, rs)) >= Base(s) + |rs|
    decreases |rs|
  {
    if rs != [] {
      RoundProgresses(s, rs[0]);
      RoundsMoveBase(After(s, rs[0]), rs[1..]);
    }
  }

  /** Every run with as many rounds as the sender's list has packets acknowledges all of them. */
  lemma RoundsEmptyList(s: State, rs: seq<Round>, rest: seq<Event>)
    requires Inv(s) && AreRounds(s, rs) && |rs| >= |s.snd.list|
    requires Legal(AfterAll(s, rs), rest)
    ensures Leads(s, AllEvents(rs) + rest, Run(AfterAll(s, rs), rest))
    ensures Base(Run(AfterAll(s, rs), rest)) >= |s.chunks|
  {
    var t := AfterAll(s, rs);
    RoundsMoveBase(s, rs);
    RoundsAreRun(s, rs);
    RunIsLater(t, rest);
    Chain(s, AllEvents(rs), t, rest, Run(t, rest));
  }
}
