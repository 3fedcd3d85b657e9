/** The globals and functions of receiver.c as an object, proved against ReceiverSpec. The file is the
    list of payloads written to it and the socket the list of packets whose encodings were handed to
    send (Transport.EncodePacket makes the bytes). */
module Receiver {
  import opened Bytes
  import opened Options
  import opened Packets
  import opened SeqNumbers
  import opened ListSpec
  import opened PacketList
  import Spec = ReceiverSpec
  import Transport
  import Codec

  class Receiver {
    const list: List
    var waitedSeqnum: u8
    var windowSize: nat
    var lastTimestamp: bv32
    var file: seq<seq<bv8>>
    var sent: seq<Packet>

    ghost predicate Valid()
      reads this, list, list.spine
    {
      list.Valid()
    }

    ghost function View(): Spec.ReceiverState
      reads this, list
    {
      Spec.ReceiverState(list.contents, waitedSeqnum, windowSize, lastTimestamp, file, true)
    }

    constructor ()
      ensures Valid() && View() == Spec.START && sent == [] && fresh(list)
    {
      list := new List();
      waitedSeqnum, windowSize, lastTimestamp := 0, 1, 0;
      file, sent := [], [];
    }

    /** window_add. */
    method WindowAdd()
      modifies this`windowSize
      ensures windowSize == Spec.WindowAdd(old(windowSize))
    {
      if windowSize < Spec.MAX_WINDOW {
        windowSize := windowSize + 1;
      }
    }

    /** window_divide. */
    method WindowDivide()
      modifies this`windowSize
      ensures windowSize == Spec.WindowDivide(old(windowSize))
    {
      if windowSize > 1 {
        windowSize := windowSize / 2;
      }
    }

    /** create_ack and send_ack. */
    method SendAck(seqnum: u8, ptype: PType)
      modifies this`sent
      ensures sent == old(sent) + [Spec.Reply(View(), seqnum, ptype)]
    {
      var ack := Packet(ptype, false, windowSize, seqnum, lastTimestamp, []);
      sent := sent + [ack];
    }

    /** write_in_sequence. */
    method WriteInSequence() returns (ret: int)
      requires Valid() && list.contents != []
      modifies this`waitedSeqnum, this`windowSize, this`file, this`sent, list
      ensures Valid() && list.Nodes() <= old(list.Nodes())
      ensures var (r, acks, code) := Spec.WriteInSequence(old(View()));
              View() == r && sent == old(sent) + acks && ret == code
    {
      if list.head.packet.seqnum > waitedSeqnum {
        return 1;
      }
      ret := WriteRun();
    }

    /** The loop of write_in_sequence. */
    method WriteRun() returns (ret: int)
      requires Valid()
      modifies this`waitedSeqnum, this`windowSize, this`file, this`sent, list
      ensures Valid() && list.Nodes() <= old(list.Nodes())
      ensures var (r, acks, code) := Spec.WriteRun(old(View()));
              View() == r && sent == old(sent) + acks && ret == code
    {
      var runner := list.head;
      ghost var goal := Spec.WriteRun(View());
      ghost var out := [];
      assert out + goal.1 == goal.1;
      while runner != null
        invariant Valid() && runner == list.head && list.Nodes() <= old(list.Nodes())
        invariant lastTimestamp == old(lastTimestamp)
        invariant sent == old(sent) + out && Goes(View(), out, goal)
        decreases list.size
      {
        GoesNext(View(), out, goal);
        var packet := runner.packet;
        if packet.seqnum != waitedSeqnum {
          return 0;
        }
        runner := runner.next;
        var ended := WriteOne();
        if ended {
          return -10;
        }
        out := out + [sent[|sent| - 1]];
      }
      GoesNext(View(), out, goal);
      return 0;
    }

    method Write(payload: seq<bv8>)
      modifies this`file, this`waitedSeqnum
      ensures file == old(file) + [payload] && waitedSeqnum == Advance(old(waitedSeqnum), 1)
    {
      file := file + [payload];
      waitedSeqnum := (waitedSeqnum + 1) % 256;
    }

    /** One packet written: it leaves the list, and is acknowledged unless it ends the transfer. */
    method WriteOne() returns (ended: bool)
      requires Valid() && list.contents != [] && list.contents[0].seqnum == waitedSeqnum
      modifies this`waitedSeqnum, this`windowSize, this`file, this`sent, list
      ensures Valid() && list.Nodes() <= old(list.Nodes())
      ensures list.head == old(list.head.next)
      ensures var w := Spec.Written(old(View()));
              && ended == (w.list == [] && old(list.contents[0]).payload == []
                           && old(list.contents[0]).seqnum == w.waited - 1)
              && View() == (if ended then w else w.(window := Spec.WindowAdd(w.window)))
              && sent == (if ended then old(sent) else old(sent) + [Spec.Reply(View(), View().waited, ACK)])
    {
      var packet := list.head.packet;
      Write(packet.payload);
      var detrop := list.Pop();
      if list.size == 0 && packet.payload == [] && packet.seqnum == waitedSeqnum - 1 {
        return true;
      }
      WindowAdd();
      SendAck(waitedSeqnum, ACK);
      return false;
    }

    /** The loop of write_in_sequence, from r with out already sent, ends in goal. */
    static ghost predicate Goes(r: Spec.ReceiverState, out: seq<Packet>, goal: (Spec.ReceiverState, seq<Packet>, int)) {
      var (r1, acks, code) := Spec.WriteRun(r); goal == (r1, out + acks, code)
    }

    static lemma GoesNext(r: Spec.ReceiverState, out: seq<Packet>, goal: (Spec.ReceiverState, seq<Packet>, int))
      requires Goes(r, out, goal)
      ensures r.list == [] || r.list[0].seqnum != r.waited ==> goal == (r, out, 0)
      ensures r.list != [] && r.list[0].seqnum == r.waited ==>
                var w, p := Spec.Written(r), r.list[0];
                if w.list == [] && p.payload == [] && p.seqnum == w.waited - 1 then goal == (w, out, -10)
                else
                  var v := w.(window := Spec.WindowAdd(w.window));
                  Goes(v, out + [Spec.Reply(v, v.waited, ACK)], goal)
    {
      assert out + [] == out;
      if r.list != [] && r.list[0].seqnum == r.waited {
        var w := Spec.Written(r);
        var v := w.(window := Spec.WindowAdd(w.window));
        var ack, more := Spec.Reply(v, v.waited, ACK), Spec.WriteRun(v).1;
        assert out + ([ack] + more) == (out + [ack]) + more;
      }
    }

    /** read_to_list_r on a full receive buffer. */
    method ReadToList(buffer: array<bv8>) returns (ret: int)
      requires Valid() && buffer.Length == Codec.MAX_READ_SIZE
      modifies this`waitedSeqnum, this`windowSize, this`lastTimestamp, this`file, this`sent, list, list.Nodes()
      ensures Valid() && fresh(list.Nodes() - old(list.Nodes()))
      ensures var (r, acks, code) := Spec.Receive(old(View()), DecodePacket(old(buffer[..])));
              View() == r && sent == old(sent) + acks && ret == code
    {
      var d := Transport.ReadPacket(buffer);
      ret := Receive(d);
    }

    /** read_to_list_r once the packet is decoded. */
    method Receive(d: Decoded) returns (ret: int)
      requires Valid()
      modifies this`waitedSeqnum, this`windowSize, this`lastTimestamp, this`file, this`sent, list, list.Nodes()
      ensures Valid() && fresh(list.Nodes() - old(list.Nodes()))
      ensures var (r, acks, code) := Spec.Receive(old(View()), d);
              View() == r && sent == old(sent) + acks && ret == code
    {
      if d.Err? {
        return -1;
      }
      var pkt := d.packet;
      if |pkt.payload| > Spec.MAX_PAYLOAD {
        return -1;
      }
      if pkt.ptype != DATA {
        return -1;
      }
      lastTimestamp := pkt.timestamp;
      ret := ReceiveData(pkt);
    }

    /** read_to_list_r on a data packet. */
    method ReceiveData(pkt: Packet) returns (ret: int)
      requires Valid()
      modifies this`waitedSeqnum, this`windowSize, this`file, this`sent, list, list.Nodes()
      ensures Valid() && fresh(list.Nodes() - old(list.Nodes()))
      ensures var (r, acks, code) := Spec.ReceiveData(old(View()), pkt);
              View() == r && sent == old(sent) + acks && ret == code
    {
      if pkt.tr {
        WindowDivide();
        SendAck(pkt.seqnum, NACK);
      } else if InReceiverWindow(pkt.seqnum, waitedSeqnum, windowSize) {
        ret := ReceiveInWindow(pkt);
        return;
      } else if pkt.seqnum == waitedSeqnum - 1 && pkt.payload == [] {
        SendAck(waitedSeqnum - 1, DATA);
        return -2;
      } else {
        SendAck(waitedSeqnum, ACK);
      }
      return 0;
    }

    method Hold(pkt: Packet)
      requires Valid()
      modifies list, list.Nodes()
      ensures Valid() && fresh(list.Nodes() - old(list.Nodes()))
      ensures list.contents != [] && View() == old(View()).(list := Insert(old(list.contents), pkt))
    {
      InsertNonempty(list.contents, pkt);
      list.AddSpecific(pkt);
    }

    /** read_to_list_r on a data packet in the window. */
    method ReceiveInWindow(pkt: Packet) returns (ret: int)
      requires Valid()
      modifies this`waitedSeqnum, this`windowSize, this`file, this`sent, list, list.Nodes()
      ensures Valid() && fresh(list.Nodes() - old(list.Nodes()))
      ensures var (r, acks, code) := Spec.ReceiveInWindow(old(View()), pkt);
              View() == r && sent == old(sent) + acks && ret == code
    {
      ghost var before, held := sent, View().(list := Insert(list.contents, pkt));
      var notInSequence := HoldAndWrite(pkt);
      ghost var acks := Spec.WriteInSequence(held).1;
      ret := AfterWriting(notInSequence);
      Joined(before, acks, if notInSequence == 1 then [Spec.Reply(View(), waitedSeqnum, ACK)] else []);
    }

    static lemma Joined<T>(a: seq<T>, b: seq<T>, c: seq<T>)
      ensures (a + b) + c == a + (b + c)
      ensures c == [] ==> b + c == b
    {
    }

    /** add_specific_queue, then write_in_sequence. */
    method HoldAndWrite(pkt: Packet) returns (notInSequence: int)
      requires Valid()
      modifies this`waitedSeqnum, this`windowSize, this`file, this`sent, list, list.Nodes()
      ensures Valid() && fresh(list.Nodes() - old(list.Nodes()))
      ensures Insert(old(list.contents), pkt) != []
      ensures var (r, acks, code) := Spec.WriteInSequence(old(View()).(list := Insert(old(list.contents), pkt)));
              View() == r && sent == old(sent) + acks && notInSequence == code
    {
      Hold(pkt);
      notInSequence := WriteInSequence();
    }

    /** What read_to_list_r does with the return value of write_in_sequence. */
    method AfterWriting(notInSequence: int) returns (ret: int)
      requires Valid()
      modifies this`sent
      ensures Valid() && View() == old(View())
      ensures ret == if notInSequence == -10 then -2 else 0
      ensures sent == old(sent) + if notInSequence == 1 then [Spec.Reply(View(), waitedSeqnum, ACK)] else []
    {
      if notInSequence == -10 {
        return -2;
      }
      if notInSequence == 1 {
        SendAck(waitedSeqnum, ACK);
      }
      return 0;
    }

    /** One turn of the loop of process_receiver when a packet has arrived; running tells whether the loop
        goes on. */
    method Turn(buffer: array<bv8>) returns (running: bool)
      requires Valid() && buffer.Length == Codec.MAX_READ_SIZE
      modifies this`waitedSeqnum, this`windowSize, this`lastTimestamp, this`file, this`sent, list, list.Nodes()
      ensures Valid() && fresh(list.Nodes() - old(list.Nodes()))
      ensures var (r, acks) := Spec.Turn(old(View()), DecodePacket(old(buffer[..])));
              View().(running := running) == r && sent == old(sent) + acks
    {
      var err := ReadToList(buffer);
      running := err != -2;
    }

    /** free_timeout: when nothing has arrived for too long, what is held is discarded. */
    method FreeTimeout()
      requires Valid()
      modifies list
      ensures Valid() && View() == old(View()).(list := [])
    {
      var packet := list.Pop();
      while packet != None
        invariant Valid() && View() == old(View()).(list := list.contents)
        invariant packet == None ==> list.contents == []
        decreases packet != None, list.size
      {
        packet := list.Pop();
      }
    }
  }
}
