/** What the receiver's buffer looks like between packets, whatever arrives: no assumption is made
    here about the sender or the link. */
module ReceiverInvariant {
  import opened Bytes
  import opened Packets
  import opened SeqNumbers
  import opened ListSpec
  import opened ReceiverSpec

  /** Strictly sorted by offset from waited, hence without duplicates, in the reachable offsets. */
  ghost predicate Sorted(list: seq<Packet>, waited: u8) {
    && (forall i :: 0 <= i < |list| ==> Reachable(waited, list[i].seqnum))
    && (forall i, j :: 0 <= i < j < |list| ==> Offset(waited, list[i].seqnum) < Offset(waited, list[j].seqnum))
  }

  /** Sorted, and the packet waited for is not held. */
  ghost predicate Buffered(list: seq<Packet>, waited: u8) {
    && Sorted(list, waited)
    && (list != [] ==> list[0].seqnum != waited)
  }

  ghost predicate Inv(r: ReceiverState) {
    && Buffered(r.list, r.waited)
    && 1 <= r.window <= MAX_WINDOW
  }

  // ---------- Sorted insertion ----------

  /** key orders the packets of the list and p the way the comparator does. */
  ghost predicate KeyAgrees(key: Packet -> int, list: seq<Packet>, p: Packet) {
    forall i :: 0 <= i < |list| ==>
      && (Precedes(list[i].seqnum, p.seqnum) <==> key(list[i]) < key(p))
      && (list[i].seqnum == p.seqnum <==> key(list[i]) == key(p))
  }

  ghost predicate SortedBy(key: Packet -> int, list: seq<Packet>) {
    forall i, j :: 0 <= i < j < |list| ==> key(list[i]) < key(list[j])
  }

  lemma PutInSorted(key: Packet -> int, list: seq<Packet>, p: Packet, k: nat)
    requires SortedBy(key, list) && k <= |list|
    requires forall i :: 0 <= i < k ==> key(list[i]) < key(p)
    requires forall i :: k <= i < |list| ==> key(p) < key(list[i])
    ensures SortedBy(key, list[..k] + [p] + list[k..])
  {
  }

  lemma PutInMembers(list: seq<Packet>, p: Packet, k: nat)
    requires k <= |list|
    ensures var l2 := list[..k] + [p] + list[k..];
            && p in l2
            && (forall q :: q in l2 ==> q in list || q == p)
            && (forall q :: q in list ==> q in l2)
  {
    assert list == list[..k] + list[k..];
  }

  lemma InsertSortedByKey(key: Packet -> int, list: seq<Packet>, p: Packet)
    requires KeyAgrees(key, list, p) && SortedBy(key, list)
    ensures SortedBy(key, Insert(list, p))
    ensures forall q :: q in Insert(list, p) ==> q in list || q == p
    ensures forall q :: q in list ==> q in Insert(list, p)
    ensures exists q :: q in Insert(list, p) && q.seqnum == p.seqnum
  {
    var k := Place(list, p);
    InsertAtPlace(list, p);
    if k < |list| && list[k].seqnum == p.seqnum {
      assert list[k] in list;
    } else {
      PutInSorted(key, list, p, k);
      PutInMembers(list, p, k);
    }
  }

  ghost function OffsetKey(waited: u8): Packet -> int {
    (q: Packet) => Offset(waited, q.seqnum)
  }

  lemma OffsetKeyAgrees(list: seq<Packet>, p: Packet, waited: u8)
    requires Sorted(list, waited) && Reachable(waited, p.seqnum)
    ensures KeyAgrees(OffsetKey(waited), list, p) && SortedBy(OffsetKey(waited), list)
  {
    var key := OffsetKey(waited);
    forall i | 0 <= i < |list|
      ensures Precedes(list[i].seqnum, p.seqnum) <==> key(list[i]) < key(p)
      ensures list[i].seqnum == p.seqnum <==> key(list[i]) == key(p)
    {
      PrecedesIsOffsetOrder(waited, list[i].seqnum, p.seqnum);
    }
  }

  /** Insertion keeps the order, drops nothing, adds nothing but p, and p's number is then held. */
  lemma InsertSorted(list: seq<Packet>, p: Packet, waited: u8)
    requires Sorted(list, waited) && Reachable(waited, p.seqnum)
    ensures Sorted(Insert(list, p), waited)
    ensures forall q :: q in Insert(list, p) ==> q in list || q == p
    ensures forall q :: q in list ==> q in Insert(list, p)
    ensures exists q :: q in Insert(list, p) && q.seqnum == p.seqnum
  {
    OffsetKeyAgrees(list, p, waited);
    InsertSortedByKey(OffsetKey(waited), list, p);
    var key := OffsetKey(waited);
    var l2 := Insert(list, p);
    forall i, j | 0 <= i < j < |l2|
      ensures Offset(waited, l2[i].seqnum) < Offset(waited, l2[j].seqnum)
    {
      assert key(l2[i]) < key(l2[j]);
    }
    forall i | 0 <= i < |l2|
      ensures Reachable(waited, l2[i].seqnum)
    {
      assert l2[i] in l2;
    }
  }

  /** Between packets the buffer holds at most 32 packets, at offsets 1 to 32. */
  lemma BufferedOffsets(list: seq<Packet>, waited: u8)
    requires Buffered(list, waited)
    ensures |list| <= 32
    ensures forall i :: 0 <= i < |list| ==> i + 1 <= Offset(waited, list[i].seqnum) <= 32
  {
    if list != [] {
      SortedOffsets(list, waited, |list| - 1);
      forall i | 0 <= i < |list|
        ensures i + 1 <= Offset(waited, list[i].seqnum)
      {
        SortedOffsets(list, waited, i);
      }
    }
  }

  lemma {:induction false} SortedOffsets(list: seq<Packet>, waited: u8, i: nat)
    requires Buffered(list, waited) && i < |list|
    ensures i + 1 <= Offset(waited, list[i].seqnum)
    decreases i
  {
    if i > 0 {
      SortedOffsets(list, waited, i - 1);
    } else {
      PrecedesIsOffsetOrder(waited, list[0].seqnum, waited);
    }
  }

  // ---------- Writing in sequence ----------

  lemma OffsetAfterAdvance(waited: u8, k: nat, s: u8)
    requires k <= Offset(waited, s)
    ensures Offset(Advance(waited, k), s) == Offset(waited, s) - k
  {
  }

  lemma ReachableAfterAdvance(waited: u8, k: nat, s: u8)
    requires Reachable(waited, s) && k <= Offset(waited, s)
    ensures Reachable(Advance(waited, k), s)
  {
    OffsetAfterAdvance(waited, k, s);
  }

  /** In a sorted list position i holds an offset of at least i. */
  lemma {:induction false} OffsetAtLeastIndex(list: seq<Packet>, waited: u8, i: nat)
    requires Sorted(list, waited) && i < |list|
    ensures i <= Offset(waited, list[i].seqnum)
    decreases i
  {
    if i > 0 {
      OffsetAtLeastIndex(list, waited, i - 1);
    }
  }

  /** What remains after the maximal run is buffered with respect to the new waited. */
  lemma RestIsBuffered(list: seq<Packet>, waited: u8)
    requires Sorted(list, waited)
    ensures var k := RunLength(list, waited); k <= |list| && Buffered(list[k..], Advance(waited, k))
  {
    var k := RunLength(list, waited);
    RunIsMaximal(list, waited);
    var rest, next := list[k..], Advance(waited, k);
    forall i | 0 <= i < |rest|
      ensures Reachable(next, rest[i].seqnum) && Offset(next, rest[i].seqnum) == Offset(waited, list[i + k].seqnum) - k
    {
      OffsetAtLeastIndex(list, waited, i + k);
      OffsetAfterAdvance(waited, k, list[i + k].seqnum);
      ReachableAfterAdvance(waited, k, list[i + k].seqnum);
    }
  }

  /** A head numbered above waited is not the packet waited for, so the run is empty. */
  lemma WriteInSequenceKeeps(r: ReceiverState)
    requires r.list != [] && Sorted(r.list, r.waited) && 1 <= r.window <= MAX_WINDOW
    ensures var (r1, acks, ret) := WriteInSequence(r);
            Inv(r1) && forall a :: a in acks ==> IsReply(a)
  {
    RestIsBuffered(r.list, r.waited);
    WriteRunExact(r);
    WriteRunAcks(r);
  }

  // ---------- Every packet, every run ----------

  lemma AcceptedIsReachable(seqnum: u8, waited: u8, window: nat)
    requires InReceiverWindow(seqnum, waited, window) && window <= MAX_WINDOW
    ensures Reachable(waited, seqnum)
  {
    InReceiverWindowExactly(seqnum, waited, window);
  }

  lemma ReceiveInWindowKeeps(r: ReceiverState, p: Packet)
    requires Inv(r) && InReceiverWindow(p.seqnum, r.waited, r.window)
    ensures var (r1, acks, ret) := ReceiveInWindow(r, p);
            Inv(r1) && forall a :: a in acks ==> IsReply(a)
  {
    AcceptedIsReachable(p.seqnum, r.waited, r.window);
    InsertSorted(r.list, p, r.waited);
    InsertNonempty(r.list, p);
    WriteInSequenceKeeps(r.(list := Insert(r.list, p)));
  }

  /** Whatever is received, the buffer stays in order, the window stays in 1..31, and every packet
      sent back is an empty one that advertises a window in 1..31. */
  lemma TurnKeeps(r: ReceiverState, d: Decoded)
    requires Inv(r)
    ensures Inv(Turn(r, d).0)
    ensures forall a :: a in Turn(r, d).1 ==> IsReply(a)
  {
    if d.Ok? {
      var p := d.packet;
      var r1 := r.(lastTimestamp := p.timestamp);
      if InReceiverWindow(p.seqnum, r1.waited, r1.window) {
        ReceiveInWindowKeeps(r1, p);
      }
    }
  }

  /** The receiver after a sequence of receptions, as long as it runs. */
  function After(r: ReceiverState, ds: seq<Decoded>): ReceiverState
    decreases |ds|
  {
    if ds == [] || !r.running then r else After(Turn(r, ds[0]).0, ds[1..])
  }

  lemma {:induction false} InvAlways(r: ReceiverState, ds: seq<Decoded>)
    requires Inv(r)
    ensures Inv(After(r, ds))
    decreases |ds|
  {
    if ds != [] && r.running {
      TurnKeeps(r, ds[0]);
      InvAlways(Turn(r, ds[0]).0, ds[1..]);
    }
  }

  /** Over every run on every input: at most 32 packets, strictly sorted at offsets 1 to 32, never
      the packet waited for, and a window in 1..31. */
  lemma BufferAlwaysSorted(ds: seq<Decoded>)
    ensures var r := After(START, ds);
            && |r.list| <= 32
            && 1 <= r.window <= 31
            && (forall i :: 0 <= i < |r.list| ==> 1 <= Offset(r.waited, r.list[i].seqnum) <= 32)
            && (forall i, j :: 0 <= i < j < |r.list| ==>
                  Offset(r.waited, r.list[i].seqnum) < Offset(r.waited, r.list[j].seqnum))
  {
    InvAlways(START, ds);
    BufferedOffsets(After(START, ds).list, After(START, ds).waited);
  }

  // ---------- What is sent back ----------

  /** Every packet sent back repeats the timestamp of the packet received; it is a NACK with that packet's
      number and the halved window exactly when the packet was truncated; the last packet sent advertises
      the window as it is afterwards; and what is not a data packet is not answered. */
  lemma RepliesExact(r: ReceiverState, p: Packet)
    requires Inv(r) && |p.payload| <= MAX_PAYLOAD
    ensures var (r1, sent) := Turn(r, Ok(p));
            && (p.ptype != DATA ==> sent == [] && r1 == r)
            && (forall a :: a in sent ==> a.timestamp == p.timestamp && (a.ptype == NACK <==> p.tr))
            && (p.ptype == DATA && p.tr ==>
                  && sent == [Reply(r1, p.seqnum, NACK)]
                  && r1 == r.(lastTimestamp := p.timestamp, window := WindowDivide(r.window)))
            && (sent != [] ==> sent[|sent| - 1].window == r1.window)
  {
    if p.ptype == DATA && !p.tr && InReceiverWindow(p.seqnum, r.waited, r.window) {
      RepliesInWindow(r.(lastTimestamp := p.timestamp), p);
    }
  }

  lemma RepliesInWindow(r: ReceiverState, p: Packet)
    requires 1 <= r.window <= MAX_WINDOW
    ensures var (r1, sent, _) := ReceiveInWindow(r, p);
            && (forall a :: a in sent ==> a.timestamp == r.lastTimestamp && a.ptype != NACK)
            && (sent != [] ==> sent[|sent| - 1].window == r1.window)
  {
    InsertNonempty(r.list, p);
    var i := r.(list := Insert(r.list, p));
    WriteRunWindows(i);
    WriteRunAcks(i);
    if i.list[0].seqnum <= i.waited {
      WriteRunExact(i);
    }
  }

  /** A data packet in the window gets no answer at all: it and everything held lie past the wrap, so that
      the comparison with waited takes the head for an older packet; or it is the end of the transfer. */
  predicate Unanswered(r: ReceiverState, p: Packet) {
    && InReceiverWindow(p.seqnum, r.waited, r.window)
    && ((p.seqnum < r.waited && (r.list == [] || r.list[0].seqnum < r.waited))
        || (p.seqnum == r.waited != 255 && p.payload == [] && r.list == []))
  }

  /** Every other intact data packet is answered. */
  lemma UnansweredExactly(r: ReceiverState, p: Packet)
    requires Inv(r) && p.ptype == DATA && !p.tr && |p.payload| <= MAX_PAYLOAD
    ensures Turn(r, Ok(p)).1 == [] <==> Unanswered(r, p)
  {
    if InReceiverWindow(p.seqnum, r.waited, r.window) {
      AnsweredInWindow(r.(lastTimestamp := p.timestamp), p);
    }
  }

  /** The head of the list after the insertion is past the wrap exactly if all numbers concerned are. */
  lemma HeadAfterInsert(list: seq<Packet>, p: Packet, waited: u8)
    requires Buffered(list, waited) && Reachable(waited, p.seqnum)
    ensures Insert(list, p) != []
    ensures Insert(list, p)[0].seqnum < waited <==>
            p.seqnum < waited && (list == [] || list[0].seqnum < waited)
    ensures Insert(list, p)[0].seqnum == waited <==> p.seqnum == waited
    ensures p.seqnum == waited ==> Insert(list, p) == [p] + list
  {
    OffsetCases(waited, p.seqnum);
    if list != [] {
      OffsetCases(waited, list[0].seqnum);
      PrecedesIsOffsetOrder(waited, list[0].seqnum, p.seqnum);
    }
  }

  lemma AnsweredInWindow(r: ReceiverState, p: Packet)
    requires Inv(r) && InReceiverWindow(p.seqnum, r.waited, r.window)
    ensures ReceiveInWindow(r, p).1 == [] <==> Unanswered(r, p)
  {
    AcceptedIsReachable(p.seqnum, r.waited, r.window);
    HeadAfterInsert(r.list, p, r.waited);
    var i := r.(list := Insert(r.list, p));
    if i.list[0].seqnum == i.waited {
      WriteRunExact(i);
      WriteRunAcks(i);
    }
  }
}
