/** The packet format byte by byte, in numbers, and which buffers are accepted. */
module WireFormat {
  import opened Codec
  import opened Packets
  import opened Crc32
  import Bytes
  import Faults

  // ---------- The layout ----------

  /** Four bytes read least significant first. */
  function LittleEndian(s: seq<bv8>): bv32
    requires |s| == 4
  {
    (s[0] as bv32) | ((s[1] as bv32) << 8) | ((s[2] as bv32) << 16) | ((s[3] as bv32) << 24)
  }

  /** Four bytes read most significant first. */
  function BigEndian(s: seq<bv8>): bv32
    requires |s| == 4
  {
    ((s[0] as bv32) << 24) | ((s[1] as bv32) << 16) | ((s[2] as bv32) << 8) | (s[3] as bv32)
  }

  lemma FirstByteValue(window: bv5, tr: bv1, ptype: bv2)
    ensures FirstByte(window, tr, ptype) == (window as bv8) + (tr as bv8) * 32 + (ptype as bv8) * 64
  {
  }

  lemma NativeIsLittleEndian(t: bv32)
    ensures LittleEndian(Native(t)) == t
  {
  }

  lemma NetworkIsBigEndian(t: bv32)
    ensures BigEndian(Network(t)) == t
  {
  }

  lemma LengthValue(n: u16)
    ensures (HighByte(n) as int) * 256 + (LowByte(n) as int) == n
  {
    LengthBytes(n);
    PairValue(HighByte(n), LowByte(n));
  }

  lemma PairValue(high: bv8, low: bv8)
    ensures Pair(high, low) == (high as int) * 256 + (low as int)
  {
  }

  lemma TrCleared(window: bv5, tr: bv1, ptype: bv2)
    ensures FirstByte(window, tr, ptype) & 0xDF == FirstByte(window, 0, ptype)
  {
  }

  /** The header: window, TR and type in one byte, from the low bits up; the sequence number; the length, most
      significant byte first; the timestamp, least significant byte first. */
  lemma HeaderLayout(crc: Checksum, f: Fields)
    requires Valid(f)
    ensures var w := EncodeWith(crc, f);
            && |w| == (if f.length == 0 then 12 else 16 + f.length)
            && w[0] == (f.window as bv8) + (f.tr as bv8) * 32 + (f.ptype as bv8) * 64
            && w[1] == f.seqnum
            && (w[2] as int) * 256 + (w[3] as int) == f.length
            && LittleEndian(w[4..8]) == f.timestamp
  {
    var w := EncodeWith(crc, f);
    HeaderStarts(crc, f);
    FirstByteValue(f.window, f.tr, f.ptype);
    LengthValue(f.length);
    NativeIsLittleEndian(f.timestamp);
  }

  lemma HeaderStarts(crc: Checksum, f: Fields)
    requires Valid(f)
    ensures var w := EncodeWith(crc, f);
            && w[0] == FirstByte(f.window, f.tr, f.ptype) && w[1] == f.seqnum
            && w[2] == HighByte(f.length) && w[3] == LowByte(f.length) && w[4..8] == Native(f.timestamp)
            && w[1..8] == [f.seqnum, HighByte(f.length), LowByte(f.length)] + Native(f.timestamp)
  {
    var w := EncodeWith(crc, f);
    EncodeParts(crc, f);
    HeaderParts(f, f.tr);
    assert w[0] == w[..8][0] && w[1] == w[..8][1] && w[2] == w[..8][2] && w[3] == w[..8][3];
    assert w[4..8] == w[..8][4..8];
    assert w[1..8] == w[..8][1..8];
  }

  /** CRC1, most significant byte first, covers the eight bytes before it with TR taken as zero. */
  lemma HeaderChecksumLayout(crc: Checksum, f: Fields)
    requires Valid(f)
    ensures var w := EncodeWith(crc, f); BigEndian(w[8..12]) == crc([w[0] & 0xDF] + w[1..8])
  {
    var w := EncodeWith(crc, f);
    EncodeParts(crc, f);
    HeaderStarts(crc, f);
    MaskedHeader(f, w[0], w[1..8]);
    NetworkIsBigEndian(HeaderCrc(crc, f));
  }

  lemma MaskedHeader(f: Fields, first: bv8, others: seq<bv8>)
    requires first == FirstByte(f.window, f.tr, f.ptype)
    requires others == [f.seqnum, HighByte(f.length), LowByte(f.length)] + Native(f.timestamp)
    ensures [first & 0xDF] + others == HeaderBytes(f, 0)
  {
    TrCleared(f.window, f.tr, f.ptype);
    HeaderOfParts(f, 0, first & 0xDF, HighByte(f.length), LowByte(f.length), Native(f.timestamp));
    Prepended(first & 0xDF, [f.seqnum, HighByte(f.length), LowByte(f.length)], Native(f.timestamp));
  }

  lemma Prepended(b: bv8, s: seq<bv8>, t: seq<bv8>)
    ensures [b] + (s + t) == [b] + s + t
  {
  }

  /** A payload follows the header, and CRC2 the payload, most significant byte first. */
  lemma PayloadLayout(crc: Checksum, f: Fields)
    requires Valid(f) && f.length > 0
    ensures var w := EncodeWith(crc, f);
            w[12..12 + f.length] == f.payload && BigEndian(w[12 + f.length..]) == crc(f.payload)
  {
    var w := EncodeWith(crc, f);
    EncodeParts(crc, f);
    NetworkIsBigEndian(crc(f.payload));
    assert w[12..12 + f.length] == w[12..][..f.length];
    assert w[12 + f.length..] == w[12..][f.length..];
  }

  /** On the wire data packets have type 1, acknowledgements type 2 and NACKs type 3; TR is the bit above the
      window. */
  lemma PacketHeader(p: Packet)
    requires Sendable(p)
    ensures var w := Wire(p);
            && (w[0] as int) == p.window + (if p.tr then 32 else 0)
                                + (if p.ptype == DATA then 64 else if p.ptype == ACK then 128 else 192)
            && (w[1] as int) == p.seqnum
            && (w[2] as int) * 256 + (w[3] as int) == |p.payload|
            && LittleEndian(w[4..8]) == p.timestamp
  {
    var f := ToFields(p);
    HeaderLayout(Crc, f);
    FirstByteSum(f.window, f.tr, f.ptype);
    FieldValues(p);
  }

  lemma FieldValues(p: Packet)
    requires Sendable(p)
    ensures var f := ToFields(p);
            && (f.window as int) == p.window && (f.seqnum as int) == p.seqnum
            && (f.tr == 1 <==> p.tr)
            && f.ptype == (if p.ptype == DATA then 1 else if p.ptype == ACK then 2 else 3)
  {
    Bytes.ByteRoundTrip(p.seqnum);
    Bytes.WindowRoundTrip(p.window);
  }

  /** The header's checksum on the wire. */
  lemma PacketChecksum(p: Packet)
    requires Sendable(p)
    ensures var w := Wire(p); BigEndian(w[8..12]) == Crc([w[0] & 0xDF] + w[1..8])
  {
    HeaderChecksumLayout(Crc, ToFields(p));
  }

  /** The payload and its checksum on the wire. */
  lemma PacketPayload(p: Packet)
    requires Sendable(p) && p.payload != []
    ensures var w := Wire(p);
            w[12..12 + |p.payload|] == p.payload && BigEndian(w[12 + |p.payload|..]) == Crc(p.payload)
  {
    PayloadLayout(Crc, ToFields(p));
  }

  lemma FirstByteSum(window: bv5, tr: bv1, ptype: bv2)
    ensures ((window as bv8) + (tr as bv8) * 32 + (ptype as bv8) * 64) as int ==
            (window as int) + (if tr == 1 then 32 else 0)
            + (if ptype == 1 then 64 else if ptype == 2 then 128 else if ptype == 3 then 192 else 0)
  {
  }

  // ---------- Which buffers are accepted ----------

  /** The length that a buffer announces. */
  function Announced(data: seq<bv8>): int
    requires |data| >= 4
  {
    (data[2] as int) * 256 + (data[3] as int)
  }

  /** The status of a buffer in terms of its bytes alone: the type must not be 0, TR is for data packets, the
      length is at most 512, and both checksums must match, in this order. */
  function StatusOf(crc: Checksum, data: seq<bv8>): Status
    requires |data| >= 528
  {
    if BadType(data[0]) then EType
    else if Announced(data) > 512 then ELength
    else if !HeaderChecksumHolds(crc, data) || !PayloadChecksumHolds(crc, data, Announced(data)) then ECrc
    else PktOk
  }

  /** Type 0, or TR on another type than 1. */
  predicate BadType(first: bv8) {
    first >> 6 == 0 || (first & 0x20 != 0 && first >> 6 != 1)
  }

  predicate HeaderChecksumHolds(crc: Checksum, data: seq<bv8>)
    requires |data| >= 12
  {
    crc([data[0] & 0xDF] + data[1..8]) == BigEndian(data[8..12])
  }

  predicate PayloadChecksumHolds(crc: Checksum, data: seq<bv8>, n: nat)
    requires |data| >= 16 + n
  {
    n > 0 ==> crc(data[12..12 + n]) == BigEndian(data[12 + n..16 + n])
  }

  /** That is what pkt_decode returns, whatever the structure held before. */
  lemma StatusExactly(crc: Checksum, old_: Fields, data: seq<bv8>)
    requires |data| >= 528
    ensures DecodeWith(crc, old_, data).0 == StatusOf(crc, data)
  {
    var g := FullHeader(old_, data);
    HeaderStatusExactly(old_, data);
    HeaderChecksumExactly(crc, old_, data);
    LengthExactly(old_, data);
    if g.length <= 512 {
      PayloadStatusExactly(crc, g, data);
    }
    StatusInSteps(crc, old_, data);
  }

  lemma StatusInSteps(crc: Checksum, old_: Fields, data: seq<bv8>)
    requires |data| >= 528
    ensures var g, status := FullHeader(old_, data), HeaderStatus(old_, data);
            DecodeWith(crc, old_, data).0 ==
            if status == EType || status == ELength then status
            else if HeaderCrc(crc, g) != g.crc1 then ECrc
            else DecodePayload(crc, g, data).0
  {
  }

  lemma LengthExactly(old_: Fields, data: seq<bv8>)
    requires |data| >= 528
    ensures FullHeader(old_, data).length == Announced(data)
  {
    PairValue(data[2], data[3]);
  }

  lemma HeaderStatusExactly(old_: Fields, data: seq<bv8>)
    requires |data| >= 528
    ensures HeaderStatus(old_, data) ==
            if BadType(data[0]) then EType else if Announced(data) > 512 then ELength else PktOk
  {
    TypeBits(data[0]);
    PairValue(data[2], data[3]);
  }

  lemma HeaderChecksumExactly(crc: Checksum, old_: Fields, data: seq<bv8>)
    requires |data| >= 528
    ensures var g := FullHeader(old_, data); HeaderCrc(crc, g) == g.crc1 <==> HeaderChecksumHolds(crc, data)
  {
    HeaderRebuilt(old_, data);
    FromNetworkIsBigEndian(data[8..12]);
  }

  lemma PayloadStatusExactly(crc: Checksum, g: Fields, data: seq<bv8>)
    requires |data| >= 528 && g.length <= 512
    ensures DecodePayload(crc, g, data).0 == if PayloadChecksumHolds(crc, data, g.length) then PktOk else ECrc
  {
    if g.length > 0 {
      FromNetworkIsBigEndian(data[12 + g.length..16 + g.length]);
    }
  }

  lemma TypeBits(b: bv8)
    ensures TypeOf(b) == 0 <==> b >> 6 == 0
    ensures TypeOf(b) == 1 <==> b >> 6 == 1
    ensures TrOf(b) == 1 <==> b & 0x20 != 0
  {
  }

  lemma FromNetworkIsBigEndian(s: seq<bv8>)
    requires |s| == 4
    ensures FromNetwork(s) == BigEndian(s)
  {
  }

  /** What a refused buffer leaves in the structure: a packet refused for its CRC1 has its length with the
      bytes swapped, one refused for its CRC2 has length 0; neither has a new payload or CRC2. */
  lemma RefusedExactly(crc: Checksum, old_: Fields, data: seq<bv8>)
    requires |data| >= 528 && DecodeWith(crc, old_, data).0 == ECrc
    ensures var f := DecodeWith(crc, old_, data).1;
            && f.payload == old_.payload && f.crc2 == old_.crc2 && f.seqnum == data[1]
            && f.length == if crc([data[0] & 0xDF] + data[1..8]) != BigEndian(data[8..12])
                           then (data[3] as int) * 256 + (data[2] as int) else 0
  {
    HeaderRebuilt(old_, data);
    FromNetworkIsBigEndian(data[8..12]);
    PairValue(data[3], data[2]);
  }
}
