/** The globals and functions of sender.c as an object, proved against SenderSpec. The socket is the
    list of packets whose encodings were handed to send (Transport.EncodePacket makes the bytes); what
    is received, read or timed is passed in. */
module Sender {
  import opened Bytes
  import opened Options
  import opened Packets
  import opened SeqNumbers
  import opened PacketList
  import Spec = SenderSpec
  import Transport
  import Codec

  class Sender {
    const list: List
    var seqnum: u8
    var windowSize: nat
    var seqnumEof: int
    var pktFin: Option<Packet>
    var sent: seq<Packet>

    ghost predicate Valid()
      reads this, list, list.spine
    {
      list.Valid() && (seqnumEof == 1 ==> pktFin.Some?)
    }

    ghost function View(): Spec.SenderState
      reads this, list
    {
      Spec.SenderState(list.contents, seqnum, windowSize, if seqnumEof == 1 then pktFin else None, true)
    }

    constructor ()
      ensures Valid() && View() == Spec.START && sent == [] && fresh(list)
    {
      list := new List();
      seqnum, windowSize, seqnumEof, pktFin := 0, 1, 0, None;
      sent := [];
    }

    /** send_packet: the packet leaves with the current time as its timestamp. */
    method SendPacket(p: Packet, now: bv32) returns (q: Packet)
      modifies this`sent
      ensures q == p.(timestamp := now) && sent == old(sent) + [q]
    {
      q := p.(timestamp := now);
      sent := sent + [q];
    }

    /** packet_checked. */
    method PacketChecked(ack: u8) returns (ret: int)
      requires Valid()
      modifies list
      ensures Valid() && fresh(list.Nodes() - old(list.Nodes()))
      ensures (list.contents, ret) == Spec.PacketChecked(old(list.contents), ack, seqnumEof == 1)
    {
      var runner := list.head;
      ghost var k := 0;
      while runner != null
        invariant list.Valid() && runner == list.head
        invariant 0 <= k <= |old(list.spine)|
        invariant list.spine == old(list.spine)[k..] && list.contents == old(list.contents)[k..]
        invariant Spec.PacketChecked(list.contents, ack, seqnumEof == 1) ==
                  Spec.PacketChecked(old(list.contents), ack, seqnumEof == 1)
        decreases list.size
      {
        var packet := runner.packet;
        if !AckCovers(ack, packet.seqnum) {
          return 0;
        }
        if list.size == 1 && packet.payload == [] && seqnumEof == 1 {
          return 1;
        }
        runner := runner.next;
        var popped := list.Pop();
        k := k + 1;
      }
      return 0;
    }

    /** check_ack on a full receive buffer. */
    method CheckAck(buffer: array<bv8>) returns (ret: int)
      requires Valid() && buffer.Length == Codec.MAX_READ_SIZE
      modifies this`windowSize, list
      ensures Valid() && fresh(list.Nodes() - old(list.Nodes())) && sent == old(sent)
      ensures (View(), ret) == Spec.CheckAck(old(View()), DecodePacket(old(buffer[..])))
    {
      var d := Transport.ReadPacket(buffer);
      ret := CheckDecoded(d);
    }

    method CheckDecoded(d: Decoded) returns (ret: int)
      requires Valid()
      modifies this`windowSize, list
      ensures Valid() && fresh(list.Nodes() - old(list.Nodes())) && sent == old(sent)
      ensures (View(), ret) == Spec.CheckAck(old(View()), d)
    {
      if d.Err? {
        return -1;
      }
      var pkt := d.packet;
      if pkt.tr {
        return -1;
      }
      windowSize := pkt.window;
      if pkt.ptype == ACK {
        var err := PacketChecked(pkt.seqnum);
        if err == 1 {
          return 1;
        }
      } else if pkt.ptype != NACK {
        return -1;
      }
      return 0;
    }

    /** check_timeout. */
    method CheckTimeout(now: bv32) returns (ret: int)
      requires Valid()
      modifies this`sent, list`contents, list.Nodes()
      ensures Valid() && list.spine == old(list.spine)
      ensures var (s, out, r) := Spec.CheckTimeout(old(View()), now);
              View() == s && sent == old(sent) + out && ret == r
    {
      ghost var v, k := View(), Spec.Fitting(View());
      ghost var out;
      ret, out := ResendLoop(now, v, k);
    }

    /** The loop of check_timeout on a list of which the first k packets fit the window. */
    method ResendLoop(now: bv32, ghost v: Spec.SenderState, ghost k: nat) returns (ret: int, ghost out: seq<Packet>)
      requires Valid() && v == View() && Fits(v, k)
      modifies this`sent, list`contents, list.Nodes()
      ensures Valid() && list.spine == old(list.spine) && sent == old(sent) + out
      ensures Ended(v, k, now, list.contents, out, ret)
    {
      var runner := list.head;
      ghost var i := 0;
      out := [];
      while runner != null
        invariant Valid() && list.spine == old(list.spine) && runner == List.At(list.spine, i)
        invariant Sending(v, k, i, now, old(sent), out)
        decreases list.size - i
      {
        var packet := runner.packet;
        ghost var l := list.contents;
        VisitedHead(v, k, i, now, l, out);
        if !InSenderWindow(packet.seqnum, list.head.packet.seqnum, windowSize) {
          VisitStop(v, k, i, now, l, out);
          return 0, out;
        }
        ret, out := Visit(runner, now, v, k, i, old(sent), out);
        if ret == 1 {
          return;
        }
        runner := runner.next;
        i := i + 1;
      }
      VisitStop(v, k, i, now, list.contents, out);
      return 0, out;
    }

    ghost predicate Sending(v: Spec.SenderState, k: nat, i: nat, now: bv32, before: seq<Packet>, out: seq<Packet>)
      reads this, list
    {
      Visited(v, k, i, now, list.contents, out) && sent == before + out
    }

    /** What check_timeout does with the packet at position i, which fits the window. */
    method Visit(node: Node, now: bv32, ghost v: Spec.SenderState, ghost k: nat, ghost i: nat,
                 ghost before: seq<Packet>, ghost out: seq<Packet>)
      returns (ret: int, ghost more: seq<Packet>)
      requires Valid() && i < list.size && node == list.spine[i] && Sending(v, k, i, now, before, out)
      requires InSenderWindow(node.packet.seqnum, v.list[0].seqnum, v.window) && v.fin.Some? == (seqnumEof == 1)
      modifies this`sent, list`contents, node`packet
      ensures Valid() && list.spine == old(list.spine) && (ret == 0 || ret == 1)
      ensures ret == 0 ==> Sending(v, k, i + 1, now, before, more)
      ensures ret == 1 ==> Ended(v, k, now, list.contents, more, 1) && sent == before + more
    {
      if !Spec.TimedOut(node.packet, now) {
        VisitSkip(v, k, i, now, list.contents, out);
        return 0, out;
      }
      if node.packet.payload == [] && seqnumEof == 1 && list.size == 1 {
        VisitOnly(v, k, i, now, list.contents, out);
        return 1, out;
      }
      more := Revisit(node, now, v, k, i, before, out);
      return 0, more;
    }

    /** The packet at position i has timed out and is sent again. */
    method Revisit(node: Node, now: bv32, ghost v: Spec.SenderState, ghost k: nat, ghost i: nat,
                   ghost before: seq<Packet>, ghost out: seq<Packet>)
      returns (ghost more: seq<Packet>)
      requires Valid() && i < list.size && node == list.spine[i] && Sending(v, k, i, now, before, out)
      requires InSenderWindow(node.packet.seqnum, v.list[0].seqnum, v.window) && Spec.TimedOut(node.packet, now)
      requires !(node.packet.payload == [] && v.fin.Some? && list.size == 1)
      modifies this`sent, list`contents, node`packet
      ensures Valid() && list.spine == old(list.spine) && Sending(v, k, i + 1, now, before, more)
    {
      var q := node.packet.(timestamp := now);
      VisitSend(v, k, i, now, list.contents, out);
      SendAgain(node, i, now);
      Append(before, out, [q]);
      more := out + [q];
    }

    static lemma Append<T>(a: seq<T>, b: seq<T>, c: seq<T>)
      ensures (a + b) + c == a + (b + c)
    {
    }

    static ghost predicate Fits(v: Spec.SenderState, k: nat) {
      && k <= |v.list|
      && (forall i :: 0 <= i < k ==> InSenderWindow(v.list[i].seqnum, v.list[0].seqnum, v.window))
      && (k < |v.list| ==> !InSenderWindow(v.list[k].seqnum, v.list[0].seqnum, v.window))
    }

    /** The loop of check_timeout on v has come to position i: the list and the packets sent so far. */
    static ghost predicate Visited(v: Spec.SenderState, k: nat, i: nat, now: bv32, list: seq<Packet>, out: seq<Packet>)
    {
      && Fits(v, k) && i <= k && |list| == |v.list|
      && (forall j :: 0 <= j < |list| ==> list[j] == if j < i then Spec.Renew(v.list[j], now) else v.list[j])
      && out == Spec.Resent(v.list[..i], now)
      && (i > 0 ==> !Spec.OnlyTheEnd(v, k, now))
    }

    /** The loop is left with this list, these packets sent and this return value. */
    static ghost predicate Ended(v: Spec.SenderState, k: nat, now: bv32, list: seq<Packet>, out: seq<Packet>, ret: int)
    {
      if Spec.OnlyTheEnd(v, k, now) then list == v.list && out == [] && ret == 1
      else
        && k <= |v.list| && list == Spec.Renewed(v.list[..k], now) + v.list[k..]
        && out == Spec.Resent(v.list[..k], now) && ret == 0
    }

    static lemma VisitedHead(v: Spec.SenderState, k: nat, i: nat, now: bv32, list: seq<Packet>, out: seq<Packet>)
      requires Visited(v, k, i, now, list, out) && list != []
      ensures list[0].seqnum == v.list[0].seqnum
    {
    }

    /** The loop stops at the end of the list or at a packet outside the window. */
    static lemma VisitStop(v: Spec.SenderState, k: nat, i: nat, now: bv32, list: seq<Packet>, out: seq<Packet>)
      requires Visited(v, k, i, now, list, out)
      requires i < |list| ==> !InSenderWindow(list[i].seqnum, v.list[0].seqnum, v.window)
      ensures Ended(v, k, now, list, out, 0)
    {
      assert i == k;
      assert list == Spec.Renewed(v.list[..i], now) + v.list[i..];
    }

    static lemma VisitOnly(v: Spec.SenderState, k: nat, i: nat, now: bv32, list: seq<Packet>, out: seq<Packet>)
      requires Visited(v, k, i, now, list, out) && i < |list|
      requires InSenderWindow(list[i].seqnum, v.list[0].seqnum, v.window) && Spec.TimedOut(list[i], now)
      requires list[i].payload == [] && v.fin.Some? && |list| == 1
      ensures Ended(v, k, now, list, out, 1)
    {
      assert list == v.list;
    }

    static lemma VisitSend(v: Spec.SenderState, k: nat, i: nat, now: bv32, list: seq<Packet>, out: seq<Packet>)
      requires Visited(v, k, i, now, list, out) && i < |list|
      requires InSenderWindow(list[i].seqnum, v.list[0].seqnum, v.window) && Spec.TimedOut(list[i], now)
      requires !(list[i].payload == [] && v.fin.Some? && |list| == 1)
      ensures var q := list[i].(timestamp := now); Visited(v, k, i + 1, now, list[i := q], out + [q])
    {
      assert v.list[..i + 1][..i] == v.list[..i];
    }

    static lemma VisitSkip(v: Spec.SenderState, k: nat, i: nat, now: bv32, list: seq<Packet>, out: seq<Packet>)
      requires Visited(v, k, i, now, list, out) && i < |list|
      requires InSenderWindow(list[i].seqnum, v.list[0].seqnum, v.window) && !Spec.TimedOut(list[i], now)
      ensures Visited(v, k, i + 1, now, list, out)
    {
      assert v.list[..i + 1][..i] == v.list[..i];
    }

    /** One packet of the list is sent again, with its timestamp renewed in the list. */
    method SendAgain(node: Node, ghost i: nat, now: bv32)
      requires Valid() && i < list.size && node == list.spine[i]
      modifies this`sent, list`contents, node`packet
      ensures Valid() && list.spine == old(list.spine)
      ensures var p := old(node.packet).(timestamp := now);
              list.contents == old(list.contents)[i := p] && sent == old(sent) + [p]
    {
      var again := SendPacket(node.packet, now);
      list.Restamp(node, i, again);
    }

    /** read_to_list: chunk is what read returns when it is called. */
    method ReadToList(chunk: seq<bv8>, now: bv32)
      requires Valid() && |chunk| <= Codec.MAX_PAYLOAD_SIZE
      modifies this, list, list.Nodes()
      ensures Valid() && fresh(list.Nodes() - old(list.Nodes()))
      ensures var (s, out) := Spec.ReadToList(old(View()), chunk, now);
              View() == s && sent == old(sent) + out
    {
      if list.size >= windowSize {
        return;
      }
      var pkt := Spec.DataPacket(seqnum, 0, chunk);
      if |chunk| == 0 {
        seqnumEof := 1;
        pktFin := Some(pkt);
      } else {
        SendNew(pkt, now);
      }
    }

    /** The part of read_to_list that sends a new packet and puts it in the list. */
    method SendNew(p: Packet, now: bv32)
      requires Valid()
      modifies this`sent, this`seqnum, list, list.Nodes()
      ensures Valid() && fresh(list.Nodes() - old(list.Nodes()))
      ensures var q := p.(timestamp := now);
              && View() == old(View()).(list := old(list.contents) + [q], seqnum := Advance(old(seqnum), 1))
              && sent == old(sent) + [q]
    {
      var pkt := SendPacket(p, now);
      Hold(pkt);
    }

    /** The packet joins the list and its number is used up. */
    method Hold(pkt: Packet)
      requires Valid()
      modifies this`seqnum, list, list.Nodes()
      ensures Valid() && fresh(list.Nodes() - old(list.Nodes()))
      ensures View() == old(View()).(list := old(list.contents) + [pkt], seqnum := Advance(old(seqnum), 1))
    {
      NextNumber();
      AddToList(pkt);
    }

    method AddToList(pkt: Packet)
      requires Valid()
      modifies list, list.Nodes()
      ensures Valid() && fresh(list.Nodes() - old(list.Nodes()))
      ensures View() == old(View()).(list := old(list.contents) + [pkt])
    {
      list.AddElement(pkt);
    }

    method NextNumber()
      modifies this`seqnum
      ensures seqnum == Advance(old(seqnum), 1)
    {
      seqnum := (seqnum + 1) % 256;
    }

    /** final_send. */
    method FinalSend(now: bv32) returns (ret: int)
      requires Valid() && seqnumEof == 1
      modifies this`sent
      ensures Valid() && View() == old(View())
      ensures var (out, r) := Spec.FinalSend(old(View()), now); sent == old(sent) + out && ret == r
    {
      if list.size == 0 {
        var last := SendPacket(pktFin.value, now);
        return 0;
      }
      return 1;
    }

    /** What the first part of the loop body of process_sender does with what select reported. */
    method Handle(ready: Spec.Ready, now: bv32) returns (running: bool)
      requires Valid() && (ready.FileReady? ==> |ready.chunk| <= Codec.MAX_PAYLOAD_SIZE)
      modifies this, list, list.Nodes()
      ensures Valid() && fresh(list.Nodes() - old(list.Nodes()))
      ensures var (s, out) := Spec.Handle(old(View()), ready, now);
              View().(running := running) == s && sent == old(sent) + out
    {
      running := true;
      match ready
      case AckReady(d) =>
        var retour := CheckDecoded(d);
        running := retour != 1;
      case FileReady(chunk) =>
        if seqnumEof != 1 {
          ReadToList(chunk, now);
        }
      case Nothing =>
    }

    /** The rest of the loop body. */
    method Finish(now: bv32) returns (running: bool)
      requires Valid()
      modifies this`sent, list`contents, list.Nodes()
      ensures Valid() && list.spine == old(list.spine)
      ensures var (s, out) := Spec.Finish(old(View()), now);
              View().(running := running) == s && sent == old(sent) + out
    {
      if seqnumEof == 1 {
        FinishFinal(View(), now);
        var fin := FinalSend(now);
        if fin == 0 {
          return false;
        }
      }
      running := ResendTimedOut(now);
    }

    /** The call of check_timeout that ends the loop body. */
    method ResendTimedOut(now: bv32) returns (running: bool)
      requires Valid() && (View().fin.None? || View().list != [])
      modifies this`sent, list`contents, list.Nodes()
      ensures Valid() && list.spine == old(list.spine)
      ensures var (s, out) := Spec.Finish(old(View()), now);
              View().(running := running) == s && sent == old(sent) + out
    {
      FinishTimeouts(View(), now);
      var timeOut := CheckTimeout(now);
      running := timeOut != 1;
    }

    static lemma FinishFinal(v: Spec.SenderState, now: bv32)
      requires v.fin.Some?
      ensures var (out, ret) := Spec.FinalSend(v, now);
              if ret == 0 then Spec.Finish(v, now) == (v.(running := false), out)
              else ret == 1 && out == [] && v.list != []
    {
    }

    static lemma FinishTimeouts(v: Spec.SenderState, now: bv32)
      ensures var (s, out, ret) := Spec.CheckTimeout(v, now);
              v.fin.None? || v.list != [] ==> Spec.Finish(v, now) == (s.(running := ret != 1), out)
    {
    }

    /** One turn of the loop of process_sender; running tells whether the loop goes on. */
    method Turn(ready: Spec.Ready, now: bv32) returns (running: bool)
      requires Valid() && (ready.FileReady? ==> |ready.chunk| <= Codec.MAX_PAYLOAD_SIZE)
      modifies this, list, list.Nodes()
      ensures Valid() && fresh(list.Nodes() - old(list.Nodes()))
      ensures var (s, out) := Spec.Turn(old(View()), ready, now);
              View().(running := running) == s && sent == old(sent) + out
    {
      ghost var v, mid, out1, out2 := View(), View(), [], [];
      running, mid, out1, out2 := TwoParts(ready, now);
      if mid.running {
        BothParts(v, ready, now, mid, out1, View().(running := running), out2);
      } else {
        OnePart(v, ready, now, mid, out1);
      }
    }

    /** The two parts of a turn, with the state between them and what each of them sends. */
    method TwoParts(ready: Spec.Ready, now: bv32)
      returns (running: bool, ghost mid: Spec.SenderState, ghost out1: seq<Packet>, ghost out2: seq<Packet>)
      requires Valid() && (ready.FileReady? ==> |ready.chunk| <= Codec.MAX_PAYLOAD_SIZE)
      modifies this, list, list.Nodes()
      ensures Valid() && fresh(list.Nodes() - old(list.Nodes())) && sent == old(sent) + (out1 + out2)
      ensures Spec.Handle(old(View()), ready, now) == (mid, out1)
      ensures if mid.running then Spec.Finish(mid, now) == (View().(running := running), out2)
              else View().(running := running) == mid && out2 == []
    {
      running, out1 := HandleReady(ready, now);
      mid, out2 := View().(running := running), [];
      if running {
        running, out2 := FinishTurn(now);
        Append(old(sent), out1, out2);
      } else {
        assert old(sent) + (out1 + []) == sent;
      }
    }

    method HandleReady(ready: Spec.Ready, now: bv32) returns (running: bool, ghost out: seq<Packet>)
      requires Valid() && (ready.FileReady? ==> |ready.chunk| <= Codec.MAX_PAYLOAD_SIZE)
      modifies this, list, list.Nodes()
      ensures Valid() && fresh(list.Nodes() - old(list.Nodes())) && sent == old(sent) + out
      ensures Spec.Handle(old(View()), ready, now) == (View().(running := running), out)
    {
      out := Spec.Handle(View(), ready, now).1;
      running := Handle(ready, now);
    }

    method FinishTurn(now: bv32) returns (running: bool, ghost out: seq<Packet>)
      requires Valid()
      modifies this`sent, list`contents, list.Nodes()
      ensures Valid() && list.spine == old(list.spine) && sent == old(sent) + out
      ensures Spec.Finish(old(View()), now) == (View().(running := running), out)
    {
      out := Spec.Finish(View(), now).1;
      running := Finish(now);
    }

    static lemma BothParts(v: Spec.SenderState, ready: Spec.Ready, now: bv32, v1: Spec.SenderState, out1: seq<Packet>,
                           v2: Spec.SenderState, out2: seq<Packet>)
      requires Spec.Handle(v, ready, now) == (v1, out1) && v1.running && Spec.Finish(v1, now) == (v2, out2)
      ensures Spec.Turn(v, ready, now) == (v2, out1 + out2)
    {
    }

    static lemma OnePart(v: Spec.SenderState, ready: Spec.Ready, now: bv32, v1: Spec.SenderState, out1: seq<Packet>)
      requires Spec.Handle(v, ready, now) == (v1, out1) && !v1.running
      ensures Spec.Turn(v, ready, now) == (v1, out1)
    {
    }
  }
}
