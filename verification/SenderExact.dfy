/** What the sender's functions do in numbers: how far a full window holds the reading back, how old a
    packet is when it is sent again, which window the sender believes in, and what it returns. */
module SenderExact {
  import opened Bytes
  import opened Options
  import opened Packets
  import opened SeqNumbers
  import opened SenderSpec

  // ---------- The window ----------

  /** read_to_list reads nothing into a full window, and otherwise puts at most one packet into it: a data
      packet with the next number, the current time and what was read. The end of the input is only
      remembered, with the number that follows the last packet. */
  lemma ReadRespectsWindow(s: SenderState, chunk: seq<bv8>, now: bv32)
    ensures var (t, sent) := ReadToList(s, chunk, now);
            if |s.list| >= s.window then t == s && sent == []
            else
              && |t.list| <= s.window
              && (chunk == [] ==>
                    && sent == [] && t == s.(fin := t.fin)
                    && t.fin.Some? && t.fin.value == Packet(DATA, false, 0, s.seqnum, t.fin.value.timestamp, []))
              && (chunk != [] ==>
                    && sent == [Packet(DATA, false, 0, s.seqnum, now, chunk)]
                    && t == s.(list := s.list + sent, seqnum := if s.seqnum == 255 then 0 else s.seqnum + 1))
  {
  }

  /** A turn on an input that is ready, for every list of packets with payloads: with a full window it
      changes neither the numbers nor the payloads and sends only packets that were in the list; with room
      the list grows to at most the window. */
  lemma TurnRespectsWindow(s: SenderState, chunk: seq<bv8>, now: bv32)
    requires s.running && forall p :: p in s.list ==> p.payload != []
    ensures var (t, sent) := SenderSpec.Turn(s, FileReady(chunk), now);
            && (|s.list| >= s.window && s.list != [] ==>
                  && t.seqnum == s.seqnum && t.fin == s.fin && SameButTimes(t.list, s.list)
                  && forall p :: p in sent ==> exists q :: q in s.list && p == q.(timestamp := now))
            && (|s.list| < s.window ==> |t.list| <= s.window)
  {
    if |s.list| >= s.window {
      if s.list != [] {
        FullWindow(s, chunk, now);
      }
    } else {
      ListAfterTurn(s, chunk, now);
    }
  }

  lemma FullWindow(s: SenderState, chunk: seq<bv8>, now: bv32)
    requires s.running && |s.list| >= s.window && s.list != [] && forall p :: p in s.list ==> p.payload != []
    ensures var (t, sent) := SenderSpec.Turn(s, FileReady(chunk), now);
            && t.seqnum == s.seqnum && t.fin == s.fin && SameButTimes(t.list, s.list)
            && sent == CheckTimeout(s, now).1
            && forall p :: p in sent ==> exists q :: q in s.list && p == q.(timestamp := now)
  {
    TimeoutsKeep(s, now);
    SentFromList(s, now);
  }

  lemma ListAfterTurn(s: SenderState, chunk: seq<bv8>, now: bv32)
    requires s.running && |s.list| < s.window && forall p :: p in s.list ==> p.payload != []
    ensures |SenderSpec.Turn(s, FileReady(chunk), now).0.list| <= s.window
  {
    var h := Handle(s, FileReady(chunk), now).0;
    ReadRespectsWindow(s, chunk, now);
    LengthAfterFinish(h, now);
  }

  lemma LengthAfterFinish(s: SenderState, now: bv32)
    requires forall p :: p in s.list ==> p.payload != []
    ensures |Finish(s, now).0.list| == |s.list|
  {
    TimeoutsKeep(s, now);
  }

  /** check_timeout sends packets of the list, with the current time. */
  lemma SentFromList(s: SenderState, now: bv32)
    ensures forall p :: p in CheckTimeout(s, now).1 ==> exists q :: q in s.list && p == q.(timestamp := now)
  {
    var list := s.list[..Fitting(s)];
    ResentFromList(list, now);
    forall p | p in CheckTimeout(s, now).1
      ensures exists q :: q in s.list && p == q.(timestamp := now)
    {
      var q :| q in list && p == q.(timestamp := now);
      assert q in s.list;
    }
  }

  lemma {:induction false} ResentFromList(list: seq<Packet>, now: bv32)
    ensures forall p :: p in Resent(list, now) ==> exists q :: q in list && p == q.(timestamp := now)
    decreases |list|
  {
    if list != [] {
      var init, last := list[..|list| - 1], list[|list| - 1];
      ResentFromList(init, now);
      assert last in list;
      forall p | p in Resent(init, now)
        ensures exists q :: q in list && p == q.(timestamp := now)
      {
        var q :| q in init && p == q.(timestamp := now);
        assert q in list;
      }
    }
  }

  /** Whatever the sender hears from the receiver, it takes the window over, from a NACK too; what it cannot
      read, or what is marked as truncated, changes nothing at all. Only an acknowledgement shortens the
      list. */
  lemma HeardExactly(s: SenderState, d: Decoded)
    ensures var (t, ret) := CheckAck(s, d);
            && (d.Err? || d.packet.tr ==> t == s && ret == -1)
            && (d.Ok? && !d.packet.tr ==> t == s.(list := t.list, window := d.packet.window))
            && (d.Ok? && !d.packet.tr && d.packet.ptype != ACK ==> t.list == s.list)
            && (ret == -1 <==> d.Err? || d.packet.tr || d.packet.ptype == DATA)
            && (ret == 1 <==> d.Ok? && !d.packet.tr && d.packet.ptype == ACK
                              && EndCovered(s.list, d.packet.seqnum, s.fin.Some?))
  {
    if d.Ok? && d.packet.ptype == ACK {
      CheckedReturns(s.list, d.packet.seqnum, s.fin.Some?);
    }
  }

  /** How many packets at the head of the list the acknowledgement covers. */
  function Covered(list: seq<Packet>, ack: u8): (k: nat)
    ensures k <= |list|
    ensures forall i :: 0 <= i < k ==> AckCovers(ack, list[i].seqnum)
    ensures k < |list| ==> !AckCovers(ack, list[k].seqnum)
    decreases |list|
  {
    if list == [] || !AckCovers(ack, list[0].seqnum) then 0 else 1 + Covered(list[1..], ack)
  }

  /** The acknowledgement covers the whole list, which ends with the empty packet of the end. */
  predicate EndCovered(list: seq<Packet>, ack: u8, eof: bool) {
    eof && list != [] && Covered(list, ack) == |list| && list[|list| - 1].payload == []
  }

  /** packet_checked on any list removes the packets covered; but if that is all of them, the last is empty
      and the end of the input was read, it leaves that one and returns 1. */
  lemma {:induction false} CheckedReturns(list: seq<Packet>, ack: u8, eof: bool)
    ensures PacketChecked(list, ack, eof) ==
            var k := Covered(list, ack);
            if EndCovered(list, ack, eof) then (list[k - 1..], 1)
            else (list[k..], 0)
    decreases |list|
  {
    if list != [] && AckCovers(ack, list[0].seqnum) && !(|list| == 1 && list[0].payload == [] && eof) {
      CheckedReturns(list[1..], ack, eof);
    }
  }

  // ---------- The retransmission timer ----------

  /** It is now the second then, or the next one; the 32-bit clock wraps. */
  predicate JustAfter(now: bv32, then_: bv32) {
    now == then_ || now == then_ + 1
  }

  predicate Late(now: bv32, then_: bv32) {
    now - then_ >= 2
  }

  lemma AddBack(a: bv32, b: bv32)
    ensures b + (a - b) == a
  {
  }

  lemma OneMore(b: bv32)
    ensures (b + 1) - b == 1
  {
  }

  lemma SmallDifference(d: bv32)
    requires !(d >= 2)
    ensures d == 0 || d == 1
  {
  }

  lemma NextSecond(a: bv32, b: bv32)
    requires a - b == 1
    ensures a == b + 1
  {
    AddBack(a, b);
  }

  lemma SameSecond(a: bv32, b: bv32)
    requires a - b == 0
    ensures a == b
  {
    AddBack(a, b);
  }

  lemma NotLate(a: bv32, b: bv32)
    requires !Late(a, b)
    ensures JustAfter(a, b)
  {
    SmallDifference(a - b);
    if a - b == 0 {
      SameSecond(a, b);
    } else {
      NextSecond(a, b);
    }
  }

  lemma SameIsNotLate(a: bv32)
    ensures !Late(a, a)
  {
  }

  lemma NextIsNotLate(b: bv32)
    ensures !Late(b + 1, b)
  {
    OneMore(b);
  }

  lemma JustAfterIsNotLate(a: bv32, b: bv32)
    requires JustAfter(a, b)
    ensures !Late(a, b)
  {
    if a == b {
      SameIsNotLate(a);
    } else {
      NextIsNotLate(b);
    }
  }

  lemma LateExactly(now: bv32, then_: bv32)
    ensures Late(now, then_) <==> !JustAfter(now, then_)
  {
    if JustAfter(now, then_) {
      JustAfterIsNotLate(now, then_);
    } else if !Late(now, then_) {
      NotLate(now, then_);
    }
  }

  /** A packet sent at time t times out at every time but t and t + 1. */
  lemma TwoSeconds(p: Packet, now: bv32)
    ensures TimedOut(p, now) <==> !JustAfter(now, p.timestamp)
  {
    LateExactly(now, p.timestamp);
  }

  /** No two packets of the list have the same number. */
  lemma DistinctNumbers(list: seq<Packet>, base: nat, i: nat, j: nat)
    requires Consecutive(list, base) && |list| <= 31 && i < |list| && j < |list|
    requires list[i].seqnum == list[j].seqnum
    ensures i == j
  {
    NumberFromLow(base, base + i);
    NumberFromLow(base, base + j);
  }

  /** check_timeout at time now sends a packet of the fitting prefix again, and renews its time, if and
      only if it was last sent two seconds ago or more; it touches no other packet. */
  lemma SentAfterTwoSeconds(s: SenderState, base: nat, now: bv32)
    requires Consecutive(s.list, base) && |s.list| <= 31
    ensures var (t, sent, ret) := CheckTimeout(s, now);
            && ret == 0 && |t.list| == |s.list|
            && forall i :: 0 <= i < |s.list| ==>
                 var old_ := s.list[i].timestamp;
                 var due := i < Fitting(s) && !JustAfter(now, old_);
                 && (s.list[i].(timestamp := now) in sent <==> due)
                 && t.list[i].timestamp == if due then now else old_
  {
    var k := Fitting(s);
    ResentExactly(s, base, now);
    assert !OnlyTheEnd(s, k, now);
    forall i | 0 <= i < |s.list|
      ensures var due := i < k && !JustAfter(now, s.list[i].timestamp);
              && (s.list[i].(timestamp := now) in CheckTimeout(s, now).1 <==> due)
              && CheckTimeout(s, now).0.list[i].timestamp == if due then now else s.list[i].timestamp
    {
      TwoSeconds(s.list[i], now);
      RenewedOnly(s.list, base, k, i, now);
      RenewedAt(s.list, k, i, now);
    }
  }

  lemma RenewedAt(list: seq<Packet>, k: nat, i: nat, now: bv32)
    requires k <= |list| && i < |list|
    ensures var l := Renewed(list[..k], now) + list[k..];
            |l| == |list| && l[i] == if i < k then Renew(list[i], now) else list[i]
  {
  }

  lemma RenewedOnly(list: seq<Packet>, base: nat, k: nat, i: nat, now: bv32)
    requires Consecutive(list, base) && |list| <= 31 && i < |list| && k <= |list|
    ensures IsRenewed(list[i].(timestamp := now), list, k, now) <==> i < k && TimedOut(list[i], now)
  {
    if IsRenewed(list[i].(timestamp := now), list, k, now) {
      var j :| 0 <= j < k && TimedOut(list[j], now) && list[i].(timestamp := now) == list[j].(timestamp := now);
      DistinctNumbers(list, base, i, j);
    }
  }

  /** check_timeout reports the end exactly if the only packet left is empty, the end of the input was read,
      the window is not closed and the packet was sent two seconds ago or more; then it sends nothing. */
  lemma TimeoutReturns(s: SenderState, now: bv32)
    ensures var (t, sent, ret) := CheckTimeout(s, now);
            && (ret == 0 || ret == 1)
            && (ret == 1 <==> |s.list| == 1 && s.list[0].payload == [] && s.fin.Some? && s.window >= 1
                              && !JustAfter(now, s.list[0].timestamp))
            && (ret == 1 ==> t == s && sent == [])
  {
    if |s.list| == 1 {
      TwoSeconds(s.list[0], now);
      assert s.list[1..] == [];
    }
  }

  /** Whatever leaves the sender in a turn carries the time of that turn, and so does the copy kept in the
      list. */
  lemma SentNow(s: SenderState, ready: Ready, now: bv32)
    ensures forall p :: p in SenderSpec.Turn(s, ready, now).1 ==> p.timestamp == now
  {
    var h := Handle(s, ready, now).0;
    SentFromList(h, now);
  }
}
