/** What each function of receiver.c computes, as functions of its globals; then what they guarantee
    on every input. The class in Receiver.dfy is proved against them. */
module ReceiverSpec {
  import opened Bytes
  import opened Packets
  import opened SeqNumbers
  import opened ListSpec

  const MAX_WINDOW: int := 31
  const MAX_PAYLOAD: int := 512

  /** The receiver's list and globals. out lists the payloads written to the file, one entry for each
      call of write; running is false once process_receiver has seen the end of the transfer. */
  datatype ReceiverState = ReceiverState(
    list: seq<Packet>, waited: u8, window: nat, lastTimestamp: bv32, out: seq<seq<bv8>>, running: bool)

  const START := ReceiverState([], 0, 1, 0, [], true)

  // ---------- The functions ----------

  /** window_add. */
  function WindowAdd(window: nat): nat {
    if window < MAX_WINDOW then window + 1 else window
  }

  /** window_divide. */
  function WindowDivide(window: nat): nat {
    if window > 1 then window / 2 else window
  }

  /** create_ack and send_ack: the packet that leaves. */
  function Reply(r: ReceiverState, seqnum: u8, ptype: PType): Packet {
    Packet(ptype, false, r.window, seqnum, r.lastTimestamp, [])
  }

  /** The loop of write_in_sequence: the state, the acks sent, the return value. */
  function WriteRun(r: ReceiverState): (ReceiverState, seq<Packet>, int)
    decreases |r.list|
  {
    if r.list == [] || r.list[0].seqnum != r.waited then (r, [], 0)
    else
      var p := r.list[0];
      var r1 := r.(list := r.list[1..], waited := Advance(r.waited, 1), out := r.out + [p.payload]);
      if r1.list == [] && p.payload == [] && p.seqnum == r1.waited - 1 then (r1, [], -10)
      else
        var r2 := r1.(window := WindowAdd(r1.window));
        var (r3, acks, ret) := WriteRun(r2);
        (r3, [Reply(r2, r2.waited, ACK)] + acks, ret)
  }

  /** write_in_sequence: called with a packet in the list. */
  function WriteInSequence(r: ReceiverState): (ReceiverState, seq<Packet>, int)
    requires r.list != []
  {
    if r.list[0].seqnum > r.waited then (r, [], 1) else WriteRun(r)
  }

  /** read_to_list_r after pkt_decode: the state, the packets sent, the return value. */
  function Receive(r: ReceiverState, d: Decoded): (ReceiverState, seq<Packet>, int) {
    match d
    case Err(_) => (r, [], -1)
    case Ok(p) =>
      if |p.payload| > MAX_PAYLOAD || p.ptype != DATA then (r, [], -1)
      else ReceiveData(r.(lastTimestamp := p.timestamp), p)
  }

  /** read_to_list_r on a data packet, once its timestamp is remembered. */
  function ReceiveData(r: ReceiverState, p: Packet): (ReceiverState, seq<Packet>, int) {
    if p.tr then
      var r1 := r.(window := WindowDivide(r.window));
      (r1, [Reply(r1, p.seqnum, NACK)], 0)
    else if InReceiverWindow(p.seqnum, r.waited, r.window) then ReceiveInWindow(r, p)
    else if p.seqnum == r.waited - 1 && p.payload == [] then (r, [Reply(r, p.seqnum, DATA)], -2)
    else (r, [Reply(r, r.waited, ACK)], 0)
  }

  function ReceiveInWindow(r: ReceiverState, p: Packet): (ReceiverState, seq<Packet>, int) {
    InsertNonempty(r.list, p);
    var (r1, acks, ret) := WriteInSequence(r.(list := Insert(r.list, p)));
    if ret == -10 then (r1, acks, -2)
    else if ret == 1 then (r1, acks + [Reply(r1, r1.waited, ACK)], 0)
    else (r1, acks, 0)
  }

  /** One turn of the loop of process_receiver: it ends when the transfer is done. */
  function Turn(r: ReceiverState, d: Decoded): (ReceiverState, seq<Packet>) {
    var (r1, sent, ret) := Receive(r, d);
    (r1.(running := r1.running && ret != -2), sent)
  }

  // ---------- Writing in sequence ----------

  /** The length of the run of consecutive numbers at the head of the list, from waited on. */
  function RunLength(list: seq<Packet>, waited: u8): (k: nat)
    ensures k <= |list|
    decreases |list|
  {
    if list == [] || list[0].seqnum != waited then 0 else 1 + RunLength(list[1..], Advance(waited, 1))
  }

  /** The run is maximal. */
  lemma {:induction false} RunIsMaximal(list: seq<Packet>, waited: u8)
    ensures var k := RunLength(list, waited);
            && k <= |list|
            && (forall i :: 0 <= i < k ==> list[i].seqnum == Advance(waited, i))
            && (k < |list| ==> list[k].seqnum != Advance(waited, k))
    decreases |list|
  {
    if list != [] && list[0].seqnum == waited {
      var rest, next := list[1..], Advance(waited, 1);
      RunIsMaximal(rest, next);
      var k := RunLength(list, waited);
      forall i: nat | 1 <= i <= |list|
        ensures Advance(waited, i) == Advance(next, i - 1)
      {
        AdvanceTwice(waited, 1, i - 1);
      }
    }
  }

  function Payloads(list: seq<Packet>): (s: seq<seq<bv8>>)
    ensures |s| == |list| && forall i :: 0 <= i < |list| ==> s[i] == list[i].payload
  {
    seq(|list|, i requires 0 <= i < |list| => list[i].payload)
  }

  /** An acknowledgement as the receiver sends it. */
  predicate IsReply(p: Packet) {
    !p.tr && 1 <= p.window <= MAX_WINDOW && p.payload == []
  }

  /** One round of the loop, when the head is the packet waited for. */
  function Written(r: ReceiverState): ReceiverState
    requires r.list != []
  {
    r.(list := r.list[1..], waited := Advance(r.waited, 1), out := r.out + [r.list[0].payload])
  }

  /** The end of the transfer is seen on the last packet of the list, if it is empty and is not
      numbered 255: the comparison with waited - 1 is not modular. */
  predicate EndSeen(list: seq<Packet>, k: nat)
    requires k <= |list|
  {
    k > 0 && k == |list| && list[k - 1].payload == [] && list[k - 1].seqnum != 255
  }

  lemma EndTest(r: ReceiverState)
    requires r.list != [] && r.list[0].seqnum == r.waited
    ensures Written(r).list == [] && r.list[0].payload == [] && r.list[0].seqnum == Written(r).waited - 1
            <==> EndSeen(r.list, 1)
  {
  }

  lemma FirstOfRun(r: ReceiverState, k: nat)
    requires 0 < k <= |r.list|
    ensures Written(r).out + Payloads(Written(r).list[..k - 1]) == r.out + Payloads(r.list[..k])
    ensures Written(r).list[k - 1..] == r.list[k..]
  {
    assert Payloads(r.list[..k]) == [r.list[0].payload] + Payloads(r.list[1..][..k - 1]);
  }

  /** write_in_sequence pops the maximal run, appends its payloads in order and moves waited by its
      length. It reports the end of the transfer exactly when EndSeen says so. */
  lemma {:induction false} WriteRunExact(r: ReceiverState)
    requires 1 <= r.window <= MAX_WINDOW
    ensures var (r1, acks, ret) := WriteRun(r);
            var k := RunLength(r.list, r.waited);
            && k <= |r.list|
            && r1.list == r.list[k..]
            && r1.waited == Advance(r.waited, k)
            && r1.out == r.out + Payloads(r.list[..k])
            && r1 == r.(list := r1.list, waited := r1.waited, window := r1.window, out := r1.out)
            && 1 <= r1.window <= MAX_WINDOW
            && ret == if EndSeen(r.list, k) then -10 else 0
    decreases |r.list|
  {
    var k := RunLength(r.list, r.waited);
    if k == 0 {
      assert r.out + Payloads(r.list[..0]) == r.out;
    } else {
      var r1 := Written(r);
      EndTest(r);
      AdvanceTwice(r.waited, 1, k - 1);
      FirstOfRun(r, k);
      if !EndSeen(r.list, 1) {
        WriteRunExact(r1.(window := WindowAdd(r1.window)));
      }
    }
  }

  /** Acknowledgements numbered waited + 1, waited + 2, ... */
  ghost predicate AcksFrom(acks: seq<Packet>, waited: u8) {
    forall j :: 0 <= j < |acks| ==>
      IsReply(acks[j]) && acks[j].ptype == ACK && acks[j].seqnum == Advance(waited, j + 1)
  }

  lemma AcksPrepend(a: Packet, acks: seq<Packet>, waited: u8)
    requires IsReply(a) && a.ptype == ACK && a.seqnum == Advance(waited, 1)
    requires AcksFrom(acks, Advance(waited, 1))
    ensures AcksFrom([a] + acks, waited)
  {
    var all := [a] + acks;
    forall j | 0 <= j < |all|
      ensures IsReply(all[j]) && all[j].ptype == ACK && all[j].seqnum == Advance(waited, j + 1)
    {
      if j > 0 {
        AdvanceTwice(waited, 1, j);
        assert all[j] == acks[j - 1];
      }
    }
  }

  /** Every packet written is acknowledged with the number that follows it, except the one that
      ends the transfer. */
  lemma {:induction false} WriteRunAcks(r: ReceiverState)
    requires 1 <= r.window <= MAX_WINDOW
    ensures var (_, acks, ret) := WriteRun(r);
            AcksFrom(acks, r.waited) && |acks| == RunLength(r.list, r.waited) - (if ret == -10 then 1 else 0)
    decreases |r.list|
  {
    if RunLength(r.list, r.waited) > 0 {
      EndTest(r);
      if !EndSeen(r.list, 1) {
        var r1 := Written(r);
        var r2 := r1.(window := WindowAdd(r1.window));
        WriteRunAcks(r2);
        AcksPrepend(Reply(r2, r2.waited, ACK), WriteRun(r2).1, r.waited);
      }
    }
  }

  /** The window advertised after j more packets were written. */
  function Opened(window: nat, j: nat): nat {
    if window + j <= MAX_WINDOW then window + j else MAX_WINDOW
  }

  /** The window opens by one with each acknowledgement, up to 31; each carries the window as it is then
      and the timestamp of the last packet received. */
  lemma {:induction false} WriteRunWindows(r: ReceiverState)
    requires 1 <= r.window <= MAX_WINDOW
    ensures var (r1, acks, _) := WriteRun(r);
            && r1.window == Opened(r.window, |acks|)
            && forall j :: 0 <= j < |acks| ==>
                 acks[j].window == Opened(r.window, j + 1) && acks[j].timestamp == r.lastTimestamp
    decreases |r.list|
  {
    if r.list != [] && r.list[0].seqnum == r.waited {
      var w := Written(r);
      var v := w.(window := WindowAdd(w.window));
      WriteRunWindows(v);
      var (r1, more, _) := WriteRun(v);
      var acks := [Reply(v, v.waited, ACK)] + more;
      assert forall j :: 1 <= j < |acks| ==> acks[j] == more[j - 1];
    }
  }
}
