/** From packets to the bytes that leave a socket and back, through the packet structure: send_packet
    and send_ack, and the start of check_ack and read_to_list_r. */
module Transport {
  import opened Options
  import opened Codec
  import opened Packets
  import opened PacketStruct

  /** send_packet and send_ack up to the call of send: the bytes are the encoding of the packet. */
  method EncodePacket(p: Packet) returns (bytes: seq<bv8>)
    requires Sendable(p)
    ensures bytes == Wire(p)
  {
    var pkt := Load(p);
    var length := 12;
    if pkt.length != 0 {
      length := length + pkt.length + 4;
    }
    var buff := new bv8[length];
    var status, written := pkt.Encode(buff, length);
    bytes := buff[..written];
  }

  /** The structure for a packet, field by field as the setters fill it. */
  method Load(p: Packet) returns (pkt: Pkt)
    requires Sendable(p)
    ensures fresh(pkt) && pkt.View() == ToFields(p)
  {
    pkt := new Pkt();
    pkt.ptype := TypeBits(p.ptype);
    pkt.tr := if p.tr then 1 else 0;
    var window := pkt.SetWindow(p.window);
    pkt.seqnum := p.seqnum as bv8;
    var payload := pkt.SetPayload(Some(p.payload), |p.payload|);
    pkt.timestamp := p.timestamp;
  }

  /** What recv filled the buffer with, decoded into a new structure. */
  method ReadPacket(buffer: array<bv8>) returns (d: Decoded)
    requires buffer.Length == MAX_READ_SIZE
    ensures d == DecodePacket(buffer[..])
  {
    var pkt := new Pkt();
    var status := pkt.Decode(buffer);
    if status == PktOk {
      d := Ok(FromFields(pkt.View()));
    } else {
      d := Err(status);
    }
  }
}
