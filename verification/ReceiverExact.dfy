/** What the receiver sends back, in numbers: the windows it advertises, the numbers it acknowledges, what it
    returns. */
module ReceiverExact {
  import opened Packets
  import opened SeqNumbers
  import opened ListSpec
  import opened ReceiverSpec
  import opened ReceiverInvariant

  // ---------- Truncated packets ----------

  /** A truncated data packet halves the window, down to 1, and is answered by a NACK with its number, its
      timestamp and the halved window; nothing else changes. */
  lemma NackHalves(r: ReceiverState, p: Packet)
    requires Inv(r) && p.ptype == DATA && p.tr && |p.payload| <= 512
    ensures var window := if r.window == 1 then 1 else r.window / 2;
            Turn(r, Ok(p)) == (r.(lastTimestamp := p.timestamp, window := window),
                               [Packet(NACK, false, window, p.seqnum, p.timestamp, [])])
  {
  }

  /** A window of at most 31 divided by the k-th power of 2. */
  function Quotient(window: nat, k: nat): nat
    requires window <= 31
  {
    if k == 0 then window
    else if k == 1 then window / 2
    else if k == 2 then window / 4
    else if k == 3 then window / 8
    else if k == 4 then window / 16
    else 0
  }

  /** A window halved k times. */
  function Halved(window: nat, k: nat): nat
    requires window <= 31
  {
    if Quotient(window, k) == 0 then 1 else Quotient(window, k)
  }

  lemma HalvedOnceMore(window: nat, k: nat)
    requires 1 <= window <= 31
    ensures Halved(if window == 1 then 1 else window / 2, k) == Halved(window, k + 1)
  {
  }

  ghost predicate AllTruncated(ds: seq<Decoded>) {
    forall i :: 0 <= i < |ds| ==>
      ds[i].Ok? && ds[i].packet.ptype == DATA && ds[i].packet.tr && |ds[i].packet.payload| <= 512
  }

  /** k truncated packets in a row halve the window k times, and change neither the file nor the list. */
  lemma {:induction false} NacksHalve(r: ReceiverState, ds: seq<Decoded>)
    requires Inv(r) && r.running && AllTruncated(ds)
    ensures var t := After(r, ds);
            && t.window == Halved(r.window, |ds|)
            && t.out == r.out && t.list == r.list && t.waited == r.waited && t.running
    decreases |ds|
  {
    if ds != [] {
      NackHalves(r, ds[0].packet);
      TurnKeeps(r, ds[0]);
      assert forall i :: 0 <= i < |ds| - 1 ==> ds[1..][i] == ds[i + 1];
      NacksHalve(Turn(r, ds[0]).0, ds[1..]);
      HalvedOnceMore(r.window, |ds| - 1);
    }
  }

  /** Five truncated packets close any window down to 1. */
  lemma FiveNacksClose(r: ReceiverState, ds: seq<Decoded>)
    requires Inv(r) && r.running && AllTruncated(ds) && |ds| >= 5
    ensures After(r, ds).window == 1
  {
    NacksHalve(r, ds);
  }

  // ---------- Acknowledgements ----------

  /** The first packet ever written is acknowledged with number 1 and a window of 2. */
  lemma FirstAck(time: bv32, chunk: seq<bv8>)
    requires 1 <= |chunk| <= 512
    ensures Turn(START, Ok(Packet(DATA, false, 0, 0, time, chunk))).1 == [Packet(ACK, false, 2, 1, time, [])]
  {
    var p := Packet(DATA, false, 0, 0, time, chunk);
    var r := START.(lastTimestamp := time, list := [p]);
    assert Insert([], p) == [p];
    var w := Written(r);
    var v := w.(window := WindowAdd(w.window));
    assert w.list == [];
    assert WriteRun(v) == (v, [], 0);
    assert [Reply(v, v.waited, ACK)] + [] == [Reply(v, v.waited, ACK)];
  }

  /** An intact data packet outside the window changes nothing but the timestamp to answer with. The number
      waited for is acknowledged; except that an empty packet just before that number, which ends the
      transfer, is answered by a data packet with its own number. */
  lemma OutsideWindow(r: ReceiverState, p: Packet)
    requires p.ptype == DATA && !p.tr && |p.payload| <= 512 && !InReceiverWindow(p.seqnum, r.waited, r.window)
    ensures var (t, sent) := Turn(r, Ok(p));
            var again := p.payload == [] && p.seqnum + 1 == r.waited;
            && t == r.(lastTimestamp := p.timestamp, running := r.running && !again)
            && sent == [Packet(if again then DATA else ACK, false, r.window, if again then p.seqnum else r.waited,
                               p.timestamp, [])]
  {
  }

  /** After an intact data packet that does not end the transfer, the last packet sent, if any, acknowledges
      everything written. */
  lemma LastAckExactly(r: ReceiverState, p: Packet)
    requires Inv(r) && p.ptype == DATA && !p.tr && |p.payload| <= 512
    ensures var (t, sent, ret) := Receive(r, Ok(p));
            ret == 0 && sent != [] ==>
              sent[|sent| - 1] == Packet(ACK, false, t.window, t.waited, p.timestamp, [])
  {
    if InReceiverWindow(p.seqnum, r.waited, r.window) {
      LastAckInWindow(r.(lastTimestamp := p.timestamp), p);
    }
  }

  lemma LastAckInWindow(r: ReceiverState, p: Packet)
    requires 1 <= r.window <= 31
    ensures var (t, sent, ret) := ReceiveInWindow(r, p);
            ret == 0 && sent != [] ==> sent[|sent| - 1] == Packet(ACK, false, t.window, t.waited, r.lastTimestamp, [])
  {
    InsertNonempty(r.list, p);
    LastAckOfRun(r.(list := Insert(r.list, p)));
  }

  /** The last acknowledgement of a run; if the run ends the transfer, none follows the last packet. */
  lemma {:induction false} LastAckOfRun(r: ReceiverState)
    ensures var (t, sent, ret) := WriteRun(r);
            && (ret == 0 || ret == -10)
            && t.lastTimestamp == r.lastTimestamp
            && (ret == 0 && sent != [] ==>
                  sent[|sent| - 1] == Packet(ACK, false, t.window, t.waited, r.lastTimestamp, []))
            && (ret == 0 && sent == [] ==> t == r)
    decreases |r.list|
  {
    if r.list != [] && r.list[0].seqnum == r.waited {
      var w := Written(r);
      var v := w.(window := WindowAdd(w.window));
      LastAckOfRun(v);
    }
  }

  // ---------- Return values ----------

  /** read_to_list_r returns -1 for what it cannot read or is no data packet, and does nothing then. */
  lemma ReceiveReturns(r: ReceiverState, d: Decoded)
    requires Inv(r)
    ensures var (t, sent, ret) := Receive(r, d);
            && (ret == -1 || ret == -2 || ret == 0)
            && (ret == -1 <==> d.Err? || d.packet.ptype != DATA || |d.packet.payload| > 512)
            && (ret == -1 ==> t == r && sent == [])
  {
    if d.Ok? && d.packet.ptype == DATA && |d.packet.payload| <= 512 && !d.packet.tr {
      var p := d.packet;
      InsertNonempty(r.list, p);
      LastAckOfRun(r.(lastTimestamp := p.timestamp, list := Insert(r.list, p)));
    }
  }

  /** It returns -2 for an intact data packet exactly in two cases: the packet is empty, outside the window
      and just before the number waited for; or it is in the window, everything held has become
      consecutive, and the last of it is empty and not numbered 255. */
  lemma EndExactly(r: ReceiverState, p: Packet)
    requires Inv(r) && p.ptype == DATA && !p.tr && |p.payload| <= 512
    ensures Receive(r, Ok(p)).2 == -2 <==>
            var list := Insert(r.list, p);
            if InReceiverWindow(p.seqnum, r.waited, r.window) then EndSeen(list, RunLength(list, r.waited))
            else p.payload == [] && p.seqnum + 1 == r.waited
  {
    if InReceiverWindow(p.seqnum, r.waited, r.window) {
      EndInWindow(r.(lastTimestamp := p.timestamp), p);
    }
  }

  lemma EndInWindow(r: ReceiverState, p: Packet)
    requires 1 <= r.window <= 31
    ensures var list := Insert(r.list, p);
            ReceiveInWindow(r, p).2 == -2 <==> EndSeen(list, RunLength(list, r.waited))
  {
    InsertNonempty(r.list, p);
    WriteRunExact(r.(list := Insert(r.list, p)));
  }
}
