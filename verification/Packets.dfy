/** Packets as the two programs exchange them, and as the link may deliver them. */
module Packets {
  import opened Bytes
  import opened Codec
  import opened Faults
  import Crc32

  datatype PType = DATA | ACK | NACK

  datatype Packet = Packet(ptype: PType, tr: bool, window: nat, seqnum: u8, timestamp: bv32, payload: seq<bv8>)

  datatype Decoded = Ok(packet: Packet) | Err(status: Status)

  /** Within the ranges of the checked setters, with TR only on data packets. */
  predicate Sendable(p: Packet) {
    && p.window <= MAX_WINDOW_SIZE
    && |p.payload| <= MAX_PAYLOAD_SIZE
    && (p.tr ==> p.ptype == DATA)
  }

  function TypeBits(t: PType): (b: bv2)
    ensures b != 0
  {
    match t
    case DATA => PTYPE_DATA
    case ACK => PTYPE_ACK
    case NACK => PTYPE_NACK
  }

  function ToFields(p: Packet): (f: Fields)
    requires Sendable(p)
    ensures WellFormed(f)
  {
    Fields(p.window as bv5, if p.tr then 1 else 0, TypeBits(p.ptype), p.seqnum as bv8, |p.payload|, p.timestamp, 0,
           p.payload, 0)
  }

  /** The packet that a structure in a legal state describes. */
  function FromFields(f: Fields): Packet {
    var ptype := if f.ptype == PTYPE_DATA then DATA else if f.ptype == PTYPE_ACK then ACK else NACK;
    Packet(ptype, f.tr == 1, f.window as int, f.seqnum as int, f.timestamp, if f.length == 0 then [] else f.payload)
  }

  /** The bytes sent for a packet. */
  function Wire(p: Packet): (w: seq<bv8>)
    requires Sendable(p)
    ensures |w| == if p.payload == [] then 12 else 16 + |p.payload|
  {
    Encode(ToFields(p))
  }

  /** What a program learns from a full receive buffer. */
  function DecodePacket(buf: seq<bv8>): Decoded
    requires |buf| >= MAX_READ_SIZE
  {
    var (status, f) := Decode(buf);
    if status == PktOk then Ok(FromFields(f)) else Err(status)
  }

  lemma FieldsRoundTrip(p: Packet, g: Fields)
    requires Sendable(p)
    requires var f := ToFields(p);
             g == f.(crc1 := g.crc1, payload := g.payload, crc2 := g.crc2) && (g.length > 0 ==> g.payload == f.payload)
    ensures FromFields(g) == p
  {
    WindowRoundTrip(p.window);
    ByteRoundTrip(p.seqnum);
  }

  /** A packet delivered unharmed is read back exactly, whatever follows it in the buffer. */
  lemma IntactOutcome(p: Packet, buf: seq<bv8>)
    requires Sendable(p) && |buf| >= MAX_READ_SIZE && Wire(p) <= buf
    ensures DecodePacket(buf) == Ok(p)
  {
    DecodeAfterEncode(Crc32.Crc, CLEARED, ToFields(p), buf);
    FieldsRoundTrip(p, Received(Crc32.Crc, CLEARED, ToFields(p)));
  }

  // ---------- The link ----------

  /** What the simulator did to a packet on its way. */
  datatype Effect = Intact | Truncated | Inverted(index: nat)

  /** Only a packet longer than a header is cut. */
  predicate Possible(w: seq<bv8>, e: Effect) {
    match e
    case Intact => true
    case Truncated => |w| > 12
    case Inverted(i) => i < |w|
  }

  function Apply(w: seq<bv8>, e: Effect): seq<bv8>
    requires Possible(w, e)
  {
    match e
    case Intact => w
    case Truncated => Truncate(w)
    case Inverted(i) => Invert(w, i)
  }

  /** buf is a receive buffer after p arrived with effect e: the rest of it is arbitrary. */
  predicate Arrives(p: Packet, e: Effect, buf: seq<bv8>) {
    && Sendable(p)
    && |buf| == MAX_READ_SIZE
    && Possible(Wire(p), e)
    && Apply(Wire(p), e) <= buf
  }

  /** What can be read when p arrives: the packet itself, the packet with TR set and an arbitrary
      payload, or an error. */
  ghost predicate Outcome(p: Packet, e: Effect, d: Decoded) {
    match e
    case Intact => d == Ok(p)
    case Truncated => d.Ok? ==> d.packet == p.(tr := true, payload := d.packet.payload)
    case Inverted(_) => d.Err?
  }

  lemma ArrivalOutcome(p: Packet, e: Effect, buf: seq<bv8>)
    requires Arrives(p, e, buf)
    requires e == Truncated ==> p.ptype == DATA
    ensures Outcome(p, e, DecodePacket(buf))
  {
    match e
    case Intact =>
      IntactOutcome(p, buf);
    case Truncated =>
      TruncationOutcome(ToFields(p), buf);
      var (status, g) := Decode(buf);
      if status == PktOk {
        WindowRoundTrip(p.window);
        ByteRoundTrip(p.seqnum);
      }
    case Inverted(i) =>
      InversionRejected(CLEARED, ToFields(p), i, buf);
  }
}
