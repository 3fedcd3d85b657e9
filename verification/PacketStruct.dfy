/** struct pkt of packet_implement.c as an object: the setters that encode and decode use, and the
    two buffer routines, proved against the encoding and decoding functions. */
module PacketStruct {
  import opened Options
  import opened Crc32
  import opened Codec
  import opened Faults

  class Pkt {
    var window: bv5
    var tr: bv1
    var ptype: bv2
    var seqnum: bv8
    var length: u16
    var timestamp: bv32
    var crc1: bv32
    var payload: seq<bv8>
    var crc2: bv32

    function View(): Fields
      reads this
    {
      Fields(window, tr, ptype, seqnum, length, timestamp, crc1, payload, crc2)
    }

    /** pkt_new: every field is cleared. */
    constructor ()
      ensures View() == CLEARED
    {
      window, tr, ptype, seqnum, length := 0, 0, 0, 0, 0;
      timestamp, crc1, payload, crc2 := 0, 0, [], 0;
    }

    /** pkt_set_payload; data == None stands for a null pointer. */
    method SetPayload(data: Option<seq<bv8>>, n: u16) returns (status: Status)
      requires data.Some? ==> n <= |data.value|
      modifies this
      ensures status == if n > MAX_PAYLOAD_SIZE then ELength else PktOk
      ensures status == ELength ==> View() == old(View())
      ensures status == PktOk && data.None? ==> View() == old(View()).(length := 0, payload := [])
      ensures status == PktOk && data.Some? ==> View() == old(View()).(length := n, payload := data.value[..n])
    {
      if n > MAX_PAYLOAD_SIZE {
        return ELength;
      }
      if length > 0 {
        payload := [];
        length := 0;
      }
      if data.None? {
        length := 0;
        payload := [];
        return PktOk;
      }
      payload := data.value[..n];
      length := n;
      return PktOk;
    }

    /** pkt_set_window. */
    method SetWindow(w: int) returns (status: Status)
      requires 0 <= w < 256
      modifies this
      ensures status == if w > MAX_WINDOW_SIZE then EWindow else PktOk
      ensures View() == if status == PktOk then old(View()).(window := w as bv5) else old(View())
    {
      if w > MAX_WINDOW_SIZE {
        return EWindow;
      }
      window := w as bv5;
      return PktOk;
    }

    /** pkt_encode: fills buf from the start, with current as the running offset. The memory it
        writes is what it checked for, except that it counts CRC2 only when the stored field is
        nonzero; the second precondition is the room that the payload branch relies on. */
    method Encode(buf: array?<bv8>, len: nat) returns (status: Status, current: nat)
      requires Valid(View())
      requires buf != null ==> len <= buf.Length
      requires buf != null && length > 0 && len >= 12 + (if crc2 != 0 then 4 else 0) + length ==>
                 buf.Length >= 16 + length
      modifies buf
      ensures status == if buf == null || len == 0 || len < 12 + (if crc2 != 0 then 4 else 0) + length
                        then ENoMem else PktOk
      ensures status == PktOk ==>
                && current == |Faults.Encode(View())| <= buf.Length
                && buf[..current] == Faults.Encode(View())
                && forall k :: current <= k < buf.Length ==> buf[k] == old(buf[k])
      ensures status != PktOk ==> current == len && (buf != null ==> buf[..] == old(buf[..]))
    {
      if buf == null || len == 0 {
        return ENoMem, len;
      }
      var total := 12;
      if crc2 != 0 {
        total := total + 4;
      }
      if length > 0 {
        total := total + length;
      }
      if len < total {
        return ENoMem, len;
      }
      current := WriteHeader(buf);
      if length > 0 {
        current := WritePayload(buf, current);
      }
      status := PktOk;
    }

    /** The header part of pkt_encode. */
    method WriteHeader(buf: array<bv8>) returns (current: nat)
      requires buf.Length >= 12
      modifies buf
      ensures current == 12 && buf[..12] == EncodeHeader(Crc, View())
      ensures forall k :: 12 <= k < buf.Length ==> buf[k] == old(buf[k])
    {
      current := WriteFields(buf);
      var crc := ComputeHeaderCrc();
      current := Copy(buf, current, Network(crc));
    }

    /** The header up to CRC1. */
    method WriteFields(buf: array<bv8>) returns (current: nat)
      requires buf.Length >= 12
      modifies buf
      ensures current == 8 && buf[..8] == HeaderBytes(View(), tr)
      ensures forall k :: 8 <= k < buf.Length ==> buf[k] == old(buf[k])
    {
      var first, size := [FirstByte(window, tr, ptype), seqnum], [HighByte(length), LowByte(length)];
      current := 0;
      current := Copy(buf, current, first);
      assert buf[..2] == first;
      current := Copy(buf, current, size);
      current := Copy(buf, current, Native(timestamp));
      HeaderFromParts(View(), tr, first, size);
    }

    static lemma HeaderFromParts(f: Fields, tr: bv1, first: seq<bv8>, size: seq<bv8>)
      requires first == [FirstByte(f.window, tr, f.ptype), f.seqnum] && size == [HighByte(f.length), LowByte(f.length)]
      ensures first + size + Native(f.timestamp) == HeaderBytes(f, tr)
    {
    }

    /** CRC1 of a copy of the header with TR cleared and the length in network order. */
    method ComputeHeaderCrc() returns (crc: bv32)
      ensures crc == HeaderCrc(Crc, View())
    {
      crc := Crc([FirstByte(window, 0, ptype), seqnum, HighByte(length), LowByte(length)] + Native(timestamp));
    }

    /** The payload part of pkt_encode. */
    method WritePayload(buf: array<bv8>, at: nat) returns (current: nat)
      requires Valid(View()) && length > 0
      requires buf.Length >= at + length + 4
      modifies buf
      ensures current == at + length + 4
      ensures buf[..current] == old(buf[..at]) + EncodePayload(Crc, View())
      ensures forall k :: current <= k < buf.Length ==> buf[k] == old(buf[k])
    {
      current := Copy(buf, at, payload);
      current := Copy(buf, current, Network(Crc(payload)));
    }

    /** memcpy to a running offset. */
    static method Copy(buf: array<bv8>, at: nat, bytes: seq<bv8>) returns (next: nat)
      requires at + |bytes| <= buf.Length
      modifies buf
      ensures next == at + |bytes|
      ensures buf[..next] == old(buf[..at]) + bytes
      ensures forall k :: next <= k < buf.Length ==> buf[k] == old(buf[k])
    {
      next := at + |bytes|;
      forall k | 0 <= k < |bytes| {
        buf[at + k] := bytes[k];
      }
      assert buf[..at] == old(buf[..at]);
      assert buf[at..next] == bytes;
      assert buf[..next] == buf[..at] + buf[at..next];
    }

    /** pkt_decode: reads a full receive buffer; the number of bytes received plays no part. */
    method Decode(data: array?<bv8>) returns (status: Status)
      requires data != null ==> data.Length >= MAX_READ_SIZE
      modifies this
      ensures data == null ==> status == EUnconsistent && View() == old(View())
      ensures data != null ==> (status, View()) == DecodeWith(Crc, old(View()), data[..])
    {
      if data == null {
        return EUnconsistent;
      }
      status := ReadHeader(data);
      if status == PktOk {
        status := CheckHeader(Pair(data[3], data[2]));
        if status == PktOk && length != 0 {
          status := ReadPayload(data);
        }
      }
    }

    /** The header part of pkt_decode, up to the comparison with CRC1. */
    method ReadHeader(data: array<bv8>) returns (status: Status)
      requires data.Length >= MAX_READ_SIZE
      modifies this
      ensures status == HeaderStatus(old(View()), data[..])
      ensures status == EType ==> View() == RawHeader(old(View()), data[..])
      ensures status == ELength ==> View() == RawHeader(old(View()), data[..]).(length := Pair(data[2], data[3]))
      ensures status == PktOk ==> View() == FullHeader(old(View()), data[..])
    {
      ghost var before := View();
      CopyHeader(data);
      ghost var raw := RawHeader(before, data[..]);
      assert View() == raw;
      if ptype < 1 {
        return EType;
      }
      if tr == 1 && ptype != PTYPE_DATA {
        return EType;
      }
      length := Pair(data[2], data[3]);
      if length > MAX_PAYLOAD_SIZE {
        return ELength;
      }
      ReadRest(data, before);
      return PktOk;
    }

    /** The four-byte copy over the start of the structure. */
    method CopyHeader(data: array<bv8>)
      requires data.Length >= MAX_READ_SIZE
      modifies this
      ensures View() == RawHeader(old(View()), data[..])
    {
      window, tr, ptype, seqnum := WindowOf(data[0]), TrOf(data[0]), TypeOf(data[0]), data[1];
      length := Pair(data[3], data[2]);
    }

    /** The timestamp and CRC1, which complete the header. */
    method ReadRest(data: array<bv8>, ghost before: Fields)
      requires data.Length >= MAX_READ_SIZE
      requires View() == RawHeader(before, data[..]).(length := Pair(data[2], data[3]))
      modifies this
      ensures View() == FullHeader(before, data[..])
    {
      timestamp := FromNative(data[4..8]);
      crc1 := FromNetwork(data[8..12]);
      assert data[..][4..8] == data[4..8] && data[..][8..12] == data[8..12];
    }

    /** The CRC1 check of pkt_decode: TR and the byte order of the length are put back, except that
        a failed check leaves the length in network order. */
    method CheckHeader(swapped: u16) returns (status: Status)
      modifies this
      ensures status == if HeaderCrc(Crc, old(View())) == old(crc1) then PktOk else ECrc
      ensures View() == if status == PktOk then old(View()) else old(View()).(length := swapped)
    {
      var flag := tr;
      var host := length;
      tr := 0;
      length := swapped;
      var crc := Crc([FirstByte(window, tr, ptype), seqnum, HighByte(host), LowByte(host)] + Native(timestamp));
      tr := flag;
      if crc != crc1 {
        return ECrc;
      }
      length := host;
      return PktOk;
    }

    /** The payload and CRC2 part of pkt_decode. */
    method ReadPayload(data: array<bv8>) returns (status: Status)
      requires data.Length >= MAX_READ_SIZE && 0 < length <= MAX_PAYLOAD_SIZE
      modifies this
      ensures (status, View()) == DecodePayload(Crc, old(View()), data[..])
    {
      var taille := length;
      var bytes := data[12..12 + taille];
      var stored := FromNetwork(data[12 + taille..16 + taille]);
      assert data[..][12..12 + taille] == bytes;
      assert data[..][12 + taille..16 + taille] == data[12 + taille..16 + taille];
      if Crc(bytes) != stored {
        length := 0;
        return ECrc;
      }
      payload := bytes;
      crc2 := stored;
      return PktOk;
    }
  }
}
