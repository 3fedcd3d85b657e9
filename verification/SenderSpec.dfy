/** What each function of sender.c computes, as functions of its globals; then what these functions
    guarantee for a list of consecutive packets. The class in Sender.dfy is proved against them. */
module SenderSpec {
  import opened Bytes
  import opened Options
  import opened Packets
  import opened SeqNumbers

  const MAX_PAYLOAD: int := 512
  const RETRANSMISSION_TIMER: bv32 := 2

  /** The sender's list and globals. fin is pkt_fin, set when the end of the file was read; running
      is false once process_sender has left its loop. */
  datatype SenderState = SenderState(
    list: seq<Packet>, seqnum: u8, window: nat, fin: Option<Packet>, running: bool)

  /** Start of the program. */
  const START := SenderState([], 0, 1, None, true)

  function DataPacket(seqnum: u8, now: bv32, payload: seq<bv8>): Packet {
    Packet(DATA, false, 0, seqnum, now, payload)
  }

  // ---------- The functions ----------

  /** packet_checked: the remaining list and the return value. */
  function PacketChecked(list: seq<Packet>, ack: u8, eof: bool): (seq<Packet>, int)
    decreases |list|
  {
    if list == [] then (list, 0)
    else if !AckCovers(ack, list[0].seqnum) then (list, 0)
    else if |list| == 1 && list[0].payload == [] && eof then (list, 1)
    else PacketChecked(list[1..], ack, eof)
  }

  /** check_ack: the window is taken over before the type is looked at. */
  function CheckAck(s: SenderState, d: Decoded): (SenderState, int) {
    match d
    case Err(_) => (s, -1)
    case Ok(p) =>
      if p.tr then (s, -1)
      else
        var s1 := s.(window := p.window);
        match p.ptype
        case ACK =>
          var (list, ret) := PacketChecked(s.list, p.seqnum, s.fin.Some?);
          (s1.(list := list), if ret == 1 then 1 else 0)
        case NACK => (s1, 0)
        case DATA => (s1, -1)
  }

  /** The window has room for one more packet. */
  predicate HasRoom(s: SenderState) {
    |s.list| < s.window
  }

  /** read is called when the input is ready: the end was not read, and there is room. */
  predicate Reads(s: SenderState) {
    s.fin.None? && HasRoom(s)
  }

  /** read_to_list: chunk is what read returns if it is called. */
  function ReadToList(s: SenderState, chunk: seq<bv8>, now: bv32): (SenderState, seq<Packet>)
  {
    if !HasRoom(s) then (s, [])
    else if chunk == [] then (s.(fin := Some(DataPacket(s.seqnum, 0, []))), [])
    else
      var p := DataPacket(s.seqnum, now, chunk);
      (s.(list := s.list + [p], seqnum := Advance(s.seqnum, 1)), [p])
  }

  predicate TimedOut(p: Packet, now: bv32) {
    now - p.timestamp >= RETRANSMISSION_TIMER
  }

  /** How many packets at the head of the list check_timeout looks at: it stops at the first one that
      does not fit the window counted from the head. */
  function WindowPrefix(list: seq<Packet>, first: u8, window: nat): (k: nat)
    ensures k <= |list|
    ensures forall i :: 0 <= i < k ==> InSenderWindow(list[i].seqnum, first, window)
    ensures k < |list| ==> !InSenderWindow(list[k].seqnum, first, window)
    decreases |list|
  {
    if list == [] || !InSenderWindow(list[0].seqnum, first, window) then 0
    else 1 + WindowPrefix(list[1..], first, window)
  }

  function Fitting(s: SenderState): (k: nat)
    ensures k <= |s.list|
  {
    if s.list == [] then 0 else WindowPrefix(s.list, s.list[0].seqnum, s.window)
  }

  /** A packet after check_timeout looked at it. */
  function Renew(p: Packet, now: bv32): Packet {
    if TimedOut(p, now) then p.(timestamp := now) else p
  }

  function Renewed(list: seq<Packet>, now: bv32): (l: seq<Packet>)
    ensures |l| == |list| && forall i :: 0 <= i < |l| ==> l[i] == Renew(list[i], now)
  {
    seq(|list|, i requires 0 <= i < |list| => Renew(list[i], now))
  }

  /** The packets sent again, in order. */
  function Resent(list: seq<Packet>, now: bv32): seq<Packet>
    decreases |list|
  {
    if list == [] then []
    else
      var init, last := list[..|list| - 1], list[|list| - 1];
      Resent(init, now) + if TimedOut(last, now) then [last.(timestamp := now)] else []
  }

  /** The only packet left is the end of the file, it fits the window and it has timed out. */
  predicate OnlyTheEnd(s: SenderState, k: nat, now: bv32) {
    |s.list| == 1 && s.list[0].payload == [] && s.fin.Some? && k == 1 && TimedOut(s.list[0], now)
  }

  /** check_timeout: the state, the packets sent, the return value. */
  function CheckTimeout(s: SenderState, now: bv32): (SenderState, seq<Packet>, int) {
    var k := Fitting(s);
    if OnlyTheEnd(s, k, now) then (s, [], 1)
    else
      (s.(list := Renewed(s.list[..k], now) + s.list[k..]), Resent(s.list[..k], now), 0)
  }

  /** final_send: called only after the end of the file. */
  function FinalSend(s: SenderState, now: bv32): (seq<Packet>, int)
    requires s.fin.Some?
  {
    if s.list == [] then ([s.fin.value.(timestamp := now)], 0) else ([], 1)
  }

  /** What select reported. */
  datatype Ready = AckReady(d: Decoded) | FileReady(chunk: seq<bv8>) | Nothing

  /** The first part of the loop body of process_sender. */
  function Handle(s: SenderState, ready: Ready, now: bv32): (SenderState, seq<Packet>) {
    match ready
    case AckReady(d) => var (s1, ret) := CheckAck(s, d); (s1.(running := ret != 1), [])
    case FileReady(chunk) => if s.fin.None? then ReadToList(s, chunk, now) else (s, [])
    case Nothing => (s, [])
  }

  /** The rest of the loop body: the final packet once everything is acknowledged, or else the
      packets that have timed out. */
  function Finish(s: SenderState, now: bv32): (SenderState, seq<Packet>) {
    if s.fin.Some? && FinalSend(s, now).1 == 0 then (s.(running := false), FinalSend(s, now).0)
    else
      var (s1, sent, ret) := CheckTimeout(s, now);
      (s1.(running := ret != 1), sent)
  }

  /** One turn of the loop of process_sender: the new state and the packets sent, in order. */
  function Turn(s: SenderState, ready: Ready, now: bv32): (SenderState, seq<Packet>) {
    var (s1, sent1) := Handle(s, ready, now);
    if !s1.running then (s1, sent1)
    else
      var (s2, sent2) := Finish(s1, now);
      (s2, sent1 + sent2)
  }

  // ---------- What they guarantee ----------

  /** The list is the packets numbered base, base + 1, ..., each with a payload. */
  ghost predicate Consecutive(list: seq<Packet>, base: nat) {
    forall i :: 0 <= i < |list| ==> list[i].seqnum == Low8(base + i) && list[i].payload != []
  }

  /** Cumulative acknowledgement is exact: an ack numbered a removes the packets before a and no
      other, across the wrap of the 8-bit numbers; an ack up to 223 behind removes none, and the
      end-of-file branch is never taken. */
  lemma {:induction false} PacketCheckedExact(list: seq<Packet>, base: nat, a: nat, eof: bool)
    requires Consecutive(list, base) && |list| <= 31
    requires a <= base + |list| && base <= a + 223
    ensures PacketChecked(list, Low8(a), eof) == (list[if a <= base then 0 else a - base..], 0)
    decreases |list|
  {
    if list != [] {
      if a < base {
        StaleAckExactly(base, a);
      } else {
        FreshAckExactly(base, a);
        if a > base {
          assert forall i :: 0 <= i < |list[1..]| ==> list[1..][i] == list[i + 1];
          assert Low8(a) == Low8(a);
          PacketCheckedExact(list[1..], base + 1, a, eof);
        }
      }
    }
  }

  /** The two lists hold the same packets up to the time they were last sent. */
  ghost predicate SameButTimes(l: seq<Packet>, m: seq<Packet>) {
    && |l| == |m|
    && forall i :: 0 <= i < |l| ==> l[i] == m[i].(timestamp := l[i].timestamp)
  }

  lemma {:induction false} ResentMembers(list: seq<Packet>, now: bv32)
    ensures forall p :: p in Resent(list, now) ==> p in Renewed(list, now)
    ensures list != [] && TimedOut(list[0], now) ==>
              Resent(list, now) != [] && Resent(list, now)[0] == list[0].(timestamp := now)
    decreases |list|
  {
    if list != [] {
      var n := |list| - 1;
      ResentMembers(list[..n], now);
      assert Renewed(list, now) == Renewed(list[..n], now) + [Renew(list[n], now)];
      assert n > 0 ==> list[..n][0] == list[0];
    }
  }

  /** check_timeout changes nothing but timestamps, sends only packets of the list, and does not
      report the end of the file as long as every packet has a payload. */
  lemma TimeoutsKeep(s: SenderState, now: bv32)
    requires forall p :: p in s.list ==> p.payload != []
    ensures var (t, sent, ret) := CheckTimeout(s, now);
            && ret == 0
            && t == s.(list := t.list)
            && SameButTimes(t.list, s.list)
            && (forall p :: p in sent ==> p in t.list)
  {
    assert !OnlyTheEnd(s, Fitting(s), now) by {
      if |s.list| == 1 {
        assert s.list[0] in s.list;
      }
    }
    RenewedButTimes(s.list, Fitting(s), now);
    ResentMembers(s.list[..Fitting(s)], now);
  }

  lemma RenewedButTimes(list: seq<Packet>, k: nat, now: bv32)
    requires k <= |list|
    ensures SameButTimes(Renewed(list[..k], now) + list[k..], list)
  {
  }

  /** check_timeout looks at as many packets as the window has room for, and at one more when the
      numbers wrap just before it: the test that wraps at 255 widens the window by one. */
  lemma FittingExactly(s: SenderState, base: nat)
    requires Consecutive(s.list, base) && |s.list| <= 31
    ensures Fitting(s) ==
            if |s.list| <= s.window then |s.list|
            else if Low8(base + s.window) < Low8(base) then s.window + 1 else s.window
  {
    forall i | 0 <= i < |s.list|
      ensures InSenderWindow(s.list[i].seqnum, s.list[0].seqnum, s.window) <==>
              i < s.window || (i == s.window && Low8(base + i) < Low8(base))
    {
      assert s.list[0].seqnum == Low8(base + 0) && s.list[i].seqnum == Low8(base + i);
      OffsetOfNumbers(base, base + i);
      InSenderWindowExactly(s.list[i].seqnum, s.list[0].seqnum, s.window);
    }
    if s.window < |s.list| {
      var last := if Low8(base + s.window) < Low8(base) then s.window + 1 else s.window;
      assert last < |s.list| ==> !InSenderWindow(s.list[last].seqnum, s.list[0].seqnum, s.window);
    }
  }

  /** p is the timed-out packet of the list at some position below k, with its new timestamp. */
  ghost predicate IsRenewed(p: Packet, list: seq<Packet>, k: nat, now: bv32)
    requires k <= |list|
  {
    exists i :: 0 <= i < k && TimedOut(list[i], now) && p == list[i].(timestamp := now)
  }

  /** check_timeout sends again exactly the packets that have timed out among those that fit, each once
      and in the order of their unbounded numbers. */
  lemma ResentExactly(s: SenderState, base: nat, now: bv32)
    requires Consecutive(s.list, base) && |s.list| <= 31
    ensures var sent := CheckTimeout(s, now).1;
            && (forall p :: p in sent <==> IsRenewed(p, s.list, Fitting(s), now))
            && (forall a, b :: 0 <= a < b < |sent| ==>
                  NumberFrom(base, sent[a].seqnum) < NumberFrom(base, sent[b].seqnum))
  {
    var k := Fitting(s);
    assert !OnlyTheEnd(s, k, now);
    ResentInOrder(s.list, base, k, now);
  }

  lemma {:induction false} ResentInOrder(list: seq<Packet>, base: nat, k: nat, now: bv32)
    requires Consecutive(list, base) && k <= |list| <= 31
    ensures var sent := Resent(list[..k], now);
            && (forall p :: p in sent ==> NumberFrom(base, p.seqnum) < base + k)
            && (forall p :: p in sent <==> IsRenewed(p, list, k, now))
            && (forall a, b :: 0 <= a < b < |sent| ==>
                  NumberFrom(base, sent[a].seqnum) < NumberFrom(base, sent[b].seqnum))
    decreases k
  {
    if k > 0 {
      var n := k - 1;
      ResentInOrder(list, base, n, now);
      assert list[..k][..n] == list[..n];
      NumberFromLow(base, base + n);
      forall p
        ensures IsRenewed(p, list, k, now) <==>
                IsRenewed(p, list, n, now) || (TimedOut(list[n], now) && p == list[n].(timestamp := now))
      {
      }
    }
  }

  /** The head of the list, once timed out, is the first packet sent again. */
  lemma HeadResent(s: SenderState, now: bv32)
    requires s.list != [] && s.list[0].payload != [] && s.window >= 1 && TimedOut(s.list[0], now)
    ensures var sent := CheckTimeout(s, now).1; sent != [] && sent[0] == s.list[0].(timestamp := now)
  {
    ResentMembers(s.list[..Fitting(s)], now);
  }
}
