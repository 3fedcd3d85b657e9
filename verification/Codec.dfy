/** The wire format of packet_implement.c: the encoding of a packet structure, the decoding of a
    receive buffer into one, and the two round trips. */
module Codec {
  import opened Bytes

  const MAX_PAYLOAD_SIZE: int := 512
  const MAX_WINDOW_SIZE: int := 31
  const MAX_READ_SIZE: int := 528

  const PTYPE_DATA: bv2 := 1
  const PTYPE_ACK: bv2 := 2
  const PTYPE_NACK: bv2 := 3

  datatype Status = PktOk | EType | ETr | ELength | ECrc | EWindow | ESeqnum | ENoMem | ENoHeader | EUnconsistent

  type u16 = x: int | 0 <= x < 0x1_0000

  /** The contents of struct pkt; length is the number the 16-bit field holds in host order. */
  datatype Fields = Fields(
    window: bv5, tr: bv1, ptype: bv2, seqnum: bv8, length: u16,
    timestamp: bv32, crc1: bv32, payload: seq<bv8>, crc2: bv32)

  /** The codec works with any checksum; the program's own is the CRC-32 of module Crc32. */
  type Checksum = seq<bv8> -> bv32

  /** What pkt_new allocates: calloc clears every field. */
  const CLEARED := Fields(0, 0, 0, 0, 0, 0, 0, [], 0)

  // ---------- Bytes of the fields ----------

  /** The first byte of the structure, in the little-endian bit-field layout. */
  function FirstByte(window: bv5, tr: bv1, ptype: bv2): bv8 {
    (window as bv8) | (tr as bv8 << 5) | (ptype as bv8 << 6)
  }

  function WindowOf(b: bv8): bv5 {
    (b & 0x1F) as bv5
  }

  function TrOf(b: bv8): bv1 {
    ((b >> 5) & 1) as bv1
  }

  function TypeOf(b: bv8): bv2 {
    (b >> 6) as bv2
  }

  function HighByte(n: u16): bv8 {
    (n / 256) as bv8
  }

  function LowByte(n: u16): bv8 {
    (n % 256) as bv8
  }

  function Pair(high: bv8, low: bv8): u16 {
    256 * (high as int) + (low as int)
  }

  /** Bytes of a 32-bit number, least significant first: native order. */
  function Native(t: bv32): seq<bv8> {
    [(t & 0xFF) as bv8, ((t >> 8) & 0xFF) as bv8, ((t >> 16) & 0xFF) as bv8, (t >> 24) as bv8]
  }

  /** Bytes of a 32-bit number, most significant first: network order. */
  function Network(t: bv32): seq<bv8> {
    [(t >> 24) as bv8, ((t >> 16) & 0xFF) as bv8, ((t >> 8) & 0xFF) as bv8, (t & 0xFF) as bv8]
  }

  function FromNative(s: seq<bv8>): bv32
    requires |s| == 4
  {
    (s[0] as bv32) | (s[1] as bv32 << 8) | (s[2] as bv32 << 16) | (s[3] as bv32 << 24)
  }

  function FromNetwork(s: seq<bv8>): bv32
    requires |s| == 4
  {
    (s[3] as bv32) | (s[2] as bv32 << 8) | (s[1] as bv32 << 16) | (s[0] as bv32 << 24)
  }

  lemma FirstByteParts(window: bv5, tr: bv1, ptype: bv2)
    ensures var b := FirstByte(window, tr, ptype);
            WindowOf(b) == window && TrOf(b) == tr && TypeOf(b) == ptype && b & 0xDF == FirstByte(window, 0, ptype)
  {
  }

  lemma FirstByteRebuilt(b: bv8)
    ensures FirstByte(WindowOf(b), TrOf(b), TypeOf(b)) == b
    ensures FirstByte(WindowOf(b), 0, TypeOf(b)) == b & 0xDF
  {
  }

  lemma LengthBytes(n: u16)
    ensures Pair(HighByte(n), LowByte(n)) == n
  {
    ByteRoundTrip(n / 256);
    ByteRoundTrip(n % 256);
  }

  lemma LengthRebuilt(high: bv8, low: bv8)
    ensures HighByte(Pair(high, low)) == high && LowByte(Pair(high, low)) == low
  {
    assert Pair(high, low) / 256 == high as int;
    assert Pair(high, low) % 256 == low as int;
  }

  lemma NativeRoundTrip(t: bv32)
    ensures FromNative(Native(t)) == t
  {
  }

  lemma NetworkRoundTrip(t: bv32)
    ensures FromNetwork(Network(t)) == t
  {
  }

  lemma NativeRebuilt(s: seq<bv8>)
    requires |s| == 4
    ensures Native(FromNative(s)) == s
  {
    assert s == [s[0], s[1], s[2], s[3]];
    NativeBytes(s[0], s[1], s[2], s[3]);
  }

  lemma NativeBytes(a: bv8, b: bv8, c: bv8, d: bv8)
    ensures Native(FromNative([a, b, c, d])) == [a, b, c, d]
  {
  }

  lemma NetworkRebuilt(s: seq<bv8>)
    requires |s| == 4
    ensures Network(FromNetwork(s)) == s
  {
    assert s == [s[0], s[1], s[2], s[3]];
    NetworkBytes(s[0], s[1], s[2], s[3]);
  }

  lemma NetworkBytes(a: bv8, b: bv8, c: bv8, d: bv8)
    ensures Network(FromNetwork([a, b, c, d])) == [a, b, c, d]
  {
  }

  // ---------- Encoding ----------

  /** The payload pointer and the length field agree. */
  predicate Valid(f: Fields) {
    f.length > 0 ==> |f.payload| == f.length
  }

  /** The first eight bytes of the header, with the given value of the TR bit. */
  function HeaderBytes(f: Fields, tr: bv1): (h: seq<bv8>)
    ensures |h| == 8
  {
    [FirstByte(f.window, tr, f.ptype), f.seqnum, HighByte(f.length), LowByte(f.length)] + Native(f.timestamp)
  }

  /** CRC1 covers the header with TR taken as zero. */
  function HeaderCrc(crc: Checksum, f: Fields): bv32 {
    crc(HeaderBytes(f, 0))
  }

  function EncodeWith(crc: Checksum, f: Fields): (w: seq<bv8>)
    requires Valid(f)
    ensures |w| == if f.length == 0 then 12 else 16 + f.length
  {
    EncodeHeader(crc, f) + EncodePayload(crc, f)
  }

  function EncodeHeader(crc: Checksum, f: Fields): (w: seq<bv8>)
    ensures |w| == 12
  {
    HeaderBytes(f, f.tr) + Network(HeaderCrc(crc, f))
  }

  function EncodePayload(crc: Checksum, f: Fields): (w: seq<bv8>)
    requires Valid(f)
    ensures |w| == if f.length == 0 then 0 else f.length + 4
  {
    if f.length == 0 then [] else f.payload + Network(crc(f.payload))
  }

  // ---------- Decoding ----------

  /** The header bytes of a buffer as CRC1 sees them: the TR bit cleared. */
  function Masked(data: seq<bv8>): (h: seq<bv8>)
    requires |data| >= 8
    ensures |h| == 8
  {
    [data[0] & 0xDF] + data[1..8]
  }

  /** The structure after the first four bytes are copied over it: the length is still swapped. */
  function RawHeader(old_: Fields, data: seq<bv8>): Fields
    requires |data| >= MAX_READ_SIZE
  {
    old_.(window := WindowOf(data[0]), tr := TrOf(data[0]), ptype := TypeOf(data[0]),
          seqnum := data[1], length := Pair(data[3], data[2]))
  }

  /** The structure once the length is in host order and the timestamp and CRC1 are read. */
  function FullHeader(old_: Fields, data: seq<bv8>): Fields
    requires |data| >= MAX_READ_SIZE
  {
    RawHeader(old_, data).(length := Pair(data[2], data[3]),
                           timestamp := FromNative(data[4..8]), crc1 := FromNetwork(data[8..12]))
  }

  /** pkt_decode: the status, and what the structure holds afterwards, on every path. */
  function DecodeWith(crc: Checksum, old_: Fields, data: seq<bv8>): (Status, Fields)
    requires |data| >= MAX_READ_SIZE
  {
    var raw := RawHeader(old_, data);
    var f := FullHeader(old_, data);
    match HeaderStatus(old_, data)
    case PktOk =>
      if HeaderCrc(crc, f) != f.crc1 then (ECrc, f.(length := raw.length)) else DecodePayload(crc, f, data)
    case ELength => (ELength, raw.(length := f.length))
    case error => (error, raw)
  }

  /** The checks on the header fields themselves. */
  function HeaderStatus(old_: Fields, data: seq<bv8>): (status: Status)
    requires |data| >= MAX_READ_SIZE
    ensures status == PktOk ==> FullHeader(old_, data).length <= MAX_PAYLOAD_SIZE
  {
    var f := FullHeader(old_, data);
    if f.ptype == 0 then EType
    else if f.tr == 1 && f.ptype != PTYPE_DATA then EType
    else if f.length > MAX_PAYLOAD_SIZE then ELength
    else PktOk
  }

  /** The last part of pkt_decode, once the header is accepted. */
  function DecodePayload(crc: Checksum, f: Fields, data: seq<bv8>): (Status, Fields)
    requires |data| >= MAX_READ_SIZE && f.length <= MAX_PAYLOAD_SIZE
  {
    if f.length == 0 then (PktOk, f)
    else
      var payload := data[12..12 + f.length];
      var stored := FromNetwork(data[12 + f.length..16 + f.length]);
      if crc(payload) != stored then (ECrc, f.(length := 0))
      else (PktOk, f.(payload := payload, crc2 := stored))
  }

  // ---------- Round trips ----------

  /** What the setters let through, with TR only on data packets. */
  predicate WellFormed(f: Fields) {
    && Valid(f)
    && f.ptype != 0
    && (f.tr == 1 ==> f.ptype == PTYPE_DATA)
    && f.length <= MAX_PAYLOAD_SIZE
  }

  /** What a decoder that started from old_ holds after reading the encoding of f. */
  function Received(crc: Checksum, old_: Fields, f: Fields): Fields {
    f.(crc1 := HeaderCrc(crc, f),
       payload := if f.length == 0 then old_.payload else f.payload,
       crc2 := if f.length == 0 then old_.crc2 else crc(f.payload))
  }

  lemma EncodeParts(crc: Checksum, f: Fields)
    requires Valid(f)
    ensures var w := EncodeWith(crc, f);
            && w[..8] == HeaderBytes(f, f.tr)
            && w[8..12] == Network(HeaderCrc(crc, f))
            && w[12..] == EncodePayload(crc, f)
  {
  }

  lemma HeaderParts(f: Fields, tr: bv1)
    ensures var w := HeaderBytes(f, tr);
            && w[0] == FirstByte(f.window, tr, f.ptype) && w[1] == f.seqnum
            && w[2] == HighByte(f.length) && w[3] == LowByte(f.length) && w[4..8] == Native(f.timestamp)
  {
  }

  lemma PrefixSlice(w: seq<bv8>, buf: seq<bv8>, i: nat, j: nat)
    requires w <= buf && i <= j <= |w|
    ensures buf[i..j] == w[i..j]
  {
  }

  /** The header of a buffer that begins with an encoding is read back field by field. */
  lemma HeaderRoundTrip(crc: Checksum, old_: Fields, f: Fields, buf: seq<bv8>)
    requires Valid(f) && |buf| >= MAX_READ_SIZE && EncodeWith(crc, f) <= buf
    ensures FullHeader(old_, buf) == f.(crc1 := HeaderCrc(crc, f), payload := old_.payload, crc2 := old_.crc2)
    ensures RawHeader(old_, buf).tr == f.tr && RawHeader(old_, buf).ptype == f.ptype
  {
    var w := EncodeWith(crc, f);
    EncodeParts(crc, f);
    HeaderParts(f, f.tr);
    PrefixSlice(w, buf, 0, 8);
    PrefixSlice(w, buf, 8, 12);
    assert buf[4..8] == buf[0..8][4..8];
    FirstByteParts(f.window, f.tr, f.ptype);
    LengthBytes(f.length);
    NativeRoundTrip(f.timestamp);
    NetworkRoundTrip(HeaderCrc(crc, f));
  }

  lemma PayloadSlices(head: seq<bv8>, payload: seq<bv8>, tail: seq<bv8>, buf: seq<bv8>)
    requires head + (payload + tail) <= buf
    ensures var i, j := |head|, |head| + |payload|;
            buf[i..j] == payload && buf[j..j + |tail|] == tail
  {
    var w := head + (payload + tail);
    var i, j := |head|, |head| + |payload|;
    assert w[i..j] == payload && w[j..j + |tail|] == tail;
    PrefixSlice(w, buf, i, j);
    PrefixSlice(w, buf, j, j + |tail|);
  }

  lemma PayloadRoundTrip(crc: Checksum, f: Fields, g: Fields, buf: seq<bv8>)
    requires Valid(f) && f.length == g.length <= MAX_PAYLOAD_SIZE
    requires |buf| >= MAX_READ_SIZE && EncodeWith(crc, f) <= buf
    ensures DecodePayload(crc, g, buf) ==
            (PktOk, if f.length == 0 then g else g.(payload := f.payload, crc2 := crc(f.payload)))
  {
    if f.length > 0 {
      PayloadSlices(EncodeHeader(crc, f), f.payload, Network(crc(f.payload)), buf);
      NetworkRoundTrip(crc(f.payload));
    }
  }

  lemma SameHeader(crc: Checksum, f: Fields, g: Fields)
    requires g == f.(crc1 := g.crc1, payload := g.payload, crc2 := g.crc2)
    ensures HeaderCrc(crc, f) == HeaderCrc(crc, g) && EncodeHeader(crc, f) == EncodeHeader(crc, g)
  {
  }

  /** Decoding an encoding, whatever follows it in the buffer, returns every field. */
  lemma DecodeAfterEncode(crc: Checksum, old_: Fields, f: Fields, buf: seq<bv8>)
    requires WellFormed(f)
    requires |buf| >= MAX_READ_SIZE && EncodeWith(crc, f) <= buf
    ensures DecodeWith(crc, old_, buf) == (PktOk, Received(crc, old_, f))
  {
    var g := FullHeader(old_, buf);
    HeaderRoundTrip(crc, old_, f, buf);
    SameHeader(crc, f, g);
    PayloadRoundTrip(crc, f, g, buf);
  }

  /** The header bytes rebuilt from the fields are those of the buffer. */
  lemma HeaderRebuilt(old_: Fields, data: seq<bv8>)
    requires |data| >= MAX_READ_SIZE
    ensures var f := FullHeader(old_, data);
            && HeaderBytes(f, f.tr) == data[..8]
            && HeaderBytes(f, 0) == Masked(data)
  {
    var f := FullHeader(old_, data);
    HeaderSlices(data);
    PartsRebuilt(f, data[0], data[2], data[3], data[4..8]);
    HeaderOfParts(f, f.tr, data[0], data[2], data[3], data[4..8]);
    HeaderOfParts(f, 0, data[0] & 0xDF, data[2], data[3], data[4..8]);
  }

  lemma HeaderSlices(data: seq<bv8>)
    requires |data| >= 8
    ensures data[..8] == [data[0], data[1], data[2], data[3]] + data[4..8]
    ensures Masked(data) == [data[0] & 0xDF, data[1], data[2], data[3]] + data[4..8]
  {
    assert data[1..8] == [data[1], data[2], data[3]] + data[4..8];
  }

  /** The header with this value of TR, when each of its parts has this value. */
  lemma HeaderOfParts(f: Fields, tr: bv1, first: bv8, high: bv8, low: bv8, time: seq<bv8>)
    requires FirstByte(f.window, tr, f.ptype) == first && HighByte(f.length) == high && LowByte(f.length) == low
    requires Native(f.timestamp) == time
    ensures HeaderBytes(f, tr) == [first, f.seqnum, high, low] + time
  {
  }

  lemma PartsRebuilt(f: Fields, first: bv8, high: bv8, low: bv8, time: seq<bv8>)
    requires f.window == WindowOf(first) && f.tr == TrOf(first) && f.ptype == TypeOf(first)
    requires f.length == Pair(high, low) && |time| == 4 && f.timestamp == FromNative(time)
    ensures FirstByte(f.window, f.tr, f.ptype) == first && FirstByte(f.window, 0, f.ptype) == first & 0xDF
    ensures HighByte(f.length) == high && LowByte(f.length) == low && Native(f.timestamp) == time
  {
    FirstByteRebuilt(first);
    LengthRebuilt(high, low);
    NativeRebuilt(time);
  }

  lemma PayloadRebuilt(crc: Checksum, g: Fields, data: seq<bv8>)
    requires |data| >= MAX_READ_SIZE && g.length <= MAX_PAYLOAD_SIZE
    requires DecodePayload(crc, g, data).0 == PktOk
    ensures var f := DecodePayload(crc, g, data).1;
            && f == g.(payload := f.payload, crc2 := f.crc2)
            && Valid(f) && EncodePayload(crc, f) == data[12..if f.length == 0 then 12 else 16 + f.length]
  {
    if g.length > 0 {
      var n := g.length;
      NetworkRebuilt(data[12 + n..16 + n]);
      assert data[12..16 + n] == data[12..12 + n] + data[12 + n..16 + n];
    }
  }

  /** Accepting a buffer means that the type is known, that TR is on data only, that the length is
      within bounds and that both stored checksums match. */
  lemma Accepted(crc: Checksum, old_: Fields, data: seq<bv8>)
    requires |data| >= MAX_READ_SIZE
    requires DecodeWith(crc, old_, data).0 == PktOk
    ensures var g := FullHeader(old_, data);
            && g.ptype != 0 && (g.tr == 1 ==> g.ptype == PTYPE_DATA) && g.length <= MAX_PAYLOAD_SIZE
            && HeaderCrc(crc, g) == g.crc1
            && DecodeWith(crc, old_, data) == DecodePayload(crc, g, data)
  {
  }

  lemma Cut(data: seq<bv8>, i: nat, j: nat)
    requires i <= j <= |data|
    ensures data[..j] == data[..i] + data[i..j]
  {
  }

  lemma HeaderReencoded(crc: Checksum, old_: Fields, data: seq<bv8>)
    requires |data| >= MAX_READ_SIZE
    requires var g := FullHeader(old_, data); HeaderCrc(crc, g) == g.crc1
    ensures EncodeHeader(crc, FullHeader(old_, data)) == data[..12]
  {
    HeaderRebuilt(old_, data);
    NetworkRebuilt(data[8..12]);
    assert data[..12] == data[..8] + data[8..12];
  }

  /** Encoding what was accepted reproduces the bytes it was accepted from. */
  lemma EncodeAfterDecode(crc: Checksum, old_: Fields, data: seq<bv8>)
    requires |data| >= MAX_READ_SIZE
    requires DecodeWith(crc, old_, data).0 == PktOk
    ensures var f := DecodeWith(crc, old_, data).1;
            WellFormed(f) && EncodeWith(crc, f) == data[..if f.length == 0 then 12 else 16 + f.length]
  {
    var f := DecodeWith(crc, old_, data).1;
    var g := FullHeader(old_, data);
    Accepted(crc, old_, data);
    HeaderReencoded(crc, old_, data);
    PayloadRebuilt(crc, g, data);
    SameHeader(crc, f, g);
    Cut(data, 12, if f.length == 0 then 12 else 16 + f.length);
  }

  /** Acceptance means in particular that both stored checksums match the bytes of the buffer. */
  lemma AcceptedChecksums(crc: Checksum, old_: Fields, data: seq<bv8>)
    requires |data| >= MAX_READ_SIZE
    requires DecodeWith(crc, old_, data).0 == PktOk
    ensures crc(Masked(data)) == FromNetwork(data[8..12])
    ensures var n := Pair(data[2], data[3]);
            && n <= MAX_PAYLOAD_SIZE
            && (n > 0 ==> crc(data[12..12 + n]) == FromNetwork(data[12 + n..16 + n]))
  {
    Accepted(crc, old_, data);
    HeaderRebuilt(old_, data);
  }
}
