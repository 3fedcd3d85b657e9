/** What the link simulator does to the bytes of a packet, and that the codec notices. */
module Faults {
  import opened Crc32
  import opened Codec

  /** Header only, marked as truncated. */
  function Truncate(w: seq<bv8>): seq<bv8>
    requires |w| >= 12
  {
    w[..12][0 := w[0] | 0x20]
  }

  /** One byte inverted. */
  function Invert(w: seq<bv8>, i: nat): seq<bv8>
    requires i < |w|
  {
    w[i := !w[i]]
  }

  /** The packet encoding and decoding of the program, with its CRC-32. */
  function Encode(f: Fields): (w: seq<bv8>)
    requires Valid(f)
    ensures |w| == if f.length == 0 then 12 else 16 + f.length
  {
    EncodeWith(Crc, f)
  }

  function Decode(data: seq<bv8>): (Status, Fields)
    requires |data| >= MAX_READ_SIZE
  {
    DecodeWith(Crc, CLEARED, data)
  }

  // ---------- Damage that is always rejected ----------

  /** w' differs from w within four consecutive header bytes, and not in the TR bit alone. */
  ghost predicate HeaderBurst(w: seq<bv8>, w': seq<bv8>, i: nat) {
    && |w| == |w'| && |w| >= 12
    && w[8..] == w'[8..]
    && DifferWithinFour(Masked(w), Masked(w'), i)
    && Masked(w) != Masked(w')
  }

  /** w' differs from w in the stored CRC1 only. */
  ghost predicate HeaderChecksumDamage(w: seq<bv8>, w': seq<bv8>) {
    && |w| == |w'| && |w| >= 12
    && w[..8] == w'[..8] && w[12..] == w'[12..] && w[8..12] != w'[8..12]
  }

  /** w' differs from w within four consecutive bytes of the n-byte payload. */
  ghost predicate PayloadBurst(w: seq<bv8>, w': seq<bv8>, n: nat, i: nat) {
    && |w| == |w'| == 16 + n
    && w[..12] == w'[..12] && w[12 + n..] == w'[12 + n..]
    && DifferWithinFour(w[12..12 + n], w'[12..12 + n], i)
    && w[12..12 + n] != w'[12..12 + n]
  }

  /** w' differs from w in the stored CRC2 only. */
  ghost predicate PayloadChecksumDamage(w: seq<bv8>, w': seq<bv8>, n: nat) {
    && |w| == |w'| == 16 + n
    && w[..12 + n] == w'[..12 + n] && w[12 + n..] != w'[12 + n..]
  }

  ghost predicate Damaged(w: seq<bv8>, w': seq<bv8>, n: nat, i: nat) {
    || HeaderBurst(w, w', i)
    || HeaderChecksumDamage(w, w')
    || (n > 0 && PayloadBurst(w, w', n, i))
    || (n > 0 && PayloadChecksumDamage(w, w', n))
  }

  lemma FromNetworkInjective(a: seq<bv8>, b: seq<bv8>)
    requires |a| == |b| == 4 && FromNetwork(a) == FromNetwork(b)
    ensures a == b
  {
    NetworkRebuilt(a);
    NetworkRebuilt(b);
  }

  /** The stored CRC1 is that of the header bytes. */
  ghost predicate HeaderMatches(crc: Checksum, w: seq<bv8>) {
    |w| >= 12 && crc(Masked(w)) == FromNetwork(w[8..12])
  }

  /** The stored CRC2 is that of the n payload bytes. */
  ghost predicate PayloadMatches(crc: Checksum, w: seq<bv8>, n: nat) {
    |w| >= 16 + n && crc(w[12..12 + n]) == FromNetwork(w[12 + n..16 + n])
  }

  lemma AcceptedPrefix(crc: Checksum, old_: Fields, w: seq<bv8>, buf: seq<bv8>)
    requires |buf| >= MAX_READ_SIZE && w <= buf && |w| >= 12
    requires DecodeWith(crc, old_, buf).0 == PktOk
    ensures HeaderMatches(crc, w)
    ensures var n := Pair(w[2], w[3]); n > 0 && |w| == 16 + n ==> PayloadMatches(crc, w, n)
  {
    AcceptedChecksums(crc, old_, buf);
    PrefixSlice(w, buf, 1, 8);
    PrefixSlice(w, buf, 8, 12);
    var n := Pair(w[2], w[3]);
    if n > 0 && |w| == 16 + n {
      PrefixSlice(w, buf, 12, 12 + n);
      PrefixSlice(w, buf, 12 + n, 16 + n);
    }
  }

  /** An encoding is accepted, so its checksums match. */
  lemma EncodedMatches(crc: Checksum, f: Fields)
    requires WellFormed(f)
    ensures var w := EncodeWith(crc, f);
            && HeaderMatches(crc, w)
            && Pair(w[2], w[3]) == f.length
            && (f.length > 0 ==> PayloadMatches(crc, w, f.length))
  {
    var w := EncodeWith(crc, f);
    var buf := w + seq(MAX_READ_SIZE, _ => 0 as bv8);
    DecodeAfterEncode(crc, CLEARED, f, buf);
    HeaderRoundTrip(crc, CLEARED, f, buf);
    AcceptedPrefix(crc, CLEARED, w, buf);
  }

  /** A checksum that tells apart byte strings differing within four consecutive bytes. */
  ghost predicate DetectsBursts(crc: Checksum) {
    forall d, d', i: nat {:trigger DifferWithinFour(d, d', i)} ::
      DifferWithinFour(d, d', i) && d != d' ==> crc(d) != crc(d')
  }

  lemma CrcDetectsBursts()
    ensures DetectsBursts(Crc)
  {
    forall d, d', i: nat | DifferWithinFour(d, d', i) && d != d'
      ensures Crc(d) != Crc(d')
    {
      BurstDetected(d, d', i);
    }
  }

  lemma HeaderDamageSeen(crc: Checksum, w: seq<bv8>, w': seq<bv8>, i: nat)
    requires DetectsBursts(crc) && HeaderMatches(crc, w)
    requires HeaderBurst(w, w', i) || HeaderChecksumDamage(w, w')
    ensures !HeaderMatches(crc, w')
  {
    if HeaderBurst(w, w', i) {
      assert w[8..12] == w[8..][..4];
      assert w'[8..12] == w'[8..][..4];
    } else {
      assert w[1..8] == w[..8][1..] && w[0] == w[..8][0];
      assert w'[1..8] == w'[..8][1..] && w'[0] == w'[..8][0];
      if HeaderMatches(crc, w') {
        FromNetworkInjective(w[8..12], w'[8..12]);
      }
    }
  }

  lemma PayloadDamageSeen(crc: Checksum, w: seq<bv8>, w': seq<bv8>, n: nat, i: nat)
    requires DetectsBursts(crc) && PayloadMatches(crc, w, n)
    requires PayloadBurst(w, w', n, i) || PayloadChecksumDamage(w, w', n)
    ensures !PayloadMatches(crc, w', n)
  {
    assert w[12 + n..16 + n] == w[12 + n..];
    assert w'[12 + n..16 + n] == w'[12 + n..];
    if !PayloadBurst(w, w', n, i) {
      assert w[12..12 + n] == w[..12 + n][12..];
      assert w'[12..12 + n] == w'[..12 + n][12..];
      if PayloadMatches(crc, w', n) {
        FromNetworkInjective(w[12 + n..16 + n], w'[12 + n..16 + n]);
      }
    }
  }

  lemma DamageSeen(crc: Checksum, old_: Fields, f: Fields, w': seq<bv8>, buf: seq<bv8>, i: nat)
    requires DetectsBursts(crc) && WellFormed(f)
    requires Damaged(EncodeWith(crc, f), w', f.length, i)
    requires |buf| >= MAX_READ_SIZE && w' <= buf
    ensures DecodeWith(crc, old_, buf).0 != PktOk
  {
    var w := EncodeWith(crc, f);
    EncodedMatches(crc, f);
    if DecodeWith(crc, old_, buf).0 == PktOk {
      AcceptedPrefix(crc, old_, w', buf);
      if HeaderBurst(w, w', i) || HeaderChecksumDamage(w, w') {
        HeaderDamageSeen(crc, w, w', i);
      } else {
        SameLengthBytes(w, w', f.length, i);
        PayloadDamageSeen(crc, w, w', f.length, i);
      }
    }
  }

  lemma SameLengthBytes(w: seq<bv8>, w': seq<bv8>, n: nat, i: nat)
    requires PayloadBurst(w, w', n, i) || PayloadChecksumDamage(w, w', n)
    ensures w[2] == w'[2] && w[3] == w'[3]
  {
    var j := if PayloadBurst(w, w', n, i) then 12 else 12 + n;
    assert w[2] == w[..j][2] && w[3] == w[..j][3];
    assert w'[2] == w'[..j][2] && w'[3] == w'[..j][3];
  }

  /** No damage of the four kinds gets past the decoder, whatever else the buffer holds. */
  lemma DamageRejected(old_: Fields, f: Fields, w': seq<bv8>, buf: seq<bv8>, i: nat)
    requires WellFormed(f)
    requires Damaged(Encode(f), w', f.length, i)
    requires |buf| >= MAX_READ_SIZE && w' <= buf
    ensures DecodeWith(Crc, old_, buf).0 != PktOk
  {
    CrcDetectsBursts();
    DamageSeen(Crc, old_, f, w', buf, i);
  }

  lemma InvertedByte(b: bv8)
    ensures !b != b && (!b) & 0xDF != b & 0xDF
  {
  }

  /** Every single inverted byte is damage of one of the four kinds. */
  lemma InversionIsDamage(w: seq<bv8>, n: nat, i: nat)
    requires |w| == (if n == 0 then 12 else 16 + n) && i < |w|
    ensures Damaged(w, Invert(w, i), n, if i < 8 then i else if i < 12 then 0 else i - 12)
  {
    var w' := Invert(w, i);
    InvertedByte(w[i]);
    if i < 8 {
      assert forall k :: 0 <= k < 8 && k != i ==> Masked(w)[k] == Masked(w')[k];
      assert Masked(w)[i] != Masked(w')[i];
      assert HeaderBurst(w, w', i);
    } else if i < 12 {
      assert w[8..12][i - 8] != w'[8..12][i - 8];
      assert HeaderChecksumDamage(w, w');
    } else if i < 12 + n {
      assert w[12..12 + n][i - 12] != w'[12..12 + n][i - 12];
      assert PayloadBurst(w, w', n, i - 12);
    } else {
      assert w[12 + n..][i - 12 - n] != w'[12 + n..][i - 12 - n];
      assert PayloadChecksumDamage(w, w', n);
    }
  }

  /** Whatever byte of an encoded packet the link inverts, the packet is rejected. */
  lemma InversionRejected(old_: Fields, f: Fields, i: nat, buf: seq<bv8>)
    requires WellFormed(f) && i < |Encode(f)|
    requires |buf| >= MAX_READ_SIZE && Invert(Encode(f), i) <= buf
    ensures DecodeWith(Crc, old_, buf).0 != PktOk
  {
    var w := Encode(f);
    InversionIsDamage(w, f.length, i);
    DamageRejected(old_, f, Invert(w, i), buf, if i < 8 then i else if i < 12 then 0 else i - 12);
  }

  // ---------- Truncation ----------

  lemma MarkedFirstByte(window: bv5, tr: bv1, ptype: bv2)
    ensures FirstByte(window, tr, ptype) | 0x20 == FirstByte(window, 1, ptype)
  {
  }

  /** A truncated data packet is either rejected or read as a packet with TR set and the header of
      the original; the payload read is whatever the buffer held. */
  lemma TruncationOutcome(f: Fields, buf: seq<bv8>)
    requires WellFormed(f) && f.ptype == PTYPE_DATA
    requires |buf| >= MAX_READ_SIZE && Truncate(Encode(f)) <= buf
    ensures var (status, g) := Decode(buf);
            status == PktOk ==> g == f.(tr := 1, crc1 := g.crc1, payload := g.payload, crc2 := g.crc2) && WellFormed(g)
  {
    TruncatedHeader(Crc, f, buf);
    if Decode(buf).0 == PktOk {
      Accepted(Crc, CLEARED, buf);
      PayloadRebuilt(Crc, FullHeader(CLEARED, buf), buf);
      EncodeAfterDecode(Crc, CLEARED, buf);
    }
  }

  lemma TruncatedHeader(crc: Checksum, f: Fields, buf: seq<bv8>)
    requires Valid(f)
    requires |buf| >= MAX_READ_SIZE && Truncate(EncodeWith(crc, f)) <= buf
    ensures var g := FullHeader(CLEARED, buf);
            g == f.(tr := 1, crc1 := g.crc1, payload := [], crc2 := 0)
  {
    var w := EncodeWith(crc, f);
    var t := Truncate(w);
    EncodeParts(crc, f);
    HeaderParts(f, f.tr);
    assert w[..8][4..8] == w[4..8] == t[4..8];
    MarkedFirstByte(f.window, f.tr, f.ptype);
    FirstByteParts(f.window, 1, f.ptype);
    LengthBytes(f.length);
    NativeRoundTrip(f.timestamp);
    PrefixSlice(t, buf, 4, 8);
  }

  /** A cut packet is accepted, and so gets its NACK, exactly if what the buffer held after the header
      happens to be a payload of the announced length with its checksum. */
  lemma TruncationExactly(f: Fields, buf: seq<bv8>)
    requires WellFormed(f) && f.ptype == PTYPE_DATA && f.length > 0
    requires |buf| >= MAX_READ_SIZE && Truncate(Encode(f)) <= buf
    ensures Decode(buf).0 == PktOk <==> PayloadMatches(Crc, buf, f.length)
  {
    TruncatedAccepted(Crc, f, buf);
  }

  lemma TruncatedAccepted(crc: Checksum, f: Fields, buf: seq<bv8>)
    requires WellFormed(f) && f.ptype == PTYPE_DATA && f.length > 0
    requires |buf| >= MAX_READ_SIZE && Truncate(EncodeWith(crc, f)) <= buf
    ensures DecodeWith(crc, CLEARED, buf).0 == PktOk <==> PayloadMatches(crc, buf, f.length)
  {
    var g := FullHeader(CLEARED, buf);
    TruncatedHeader(crc, f, buf);
    StoredHeaderCrc(crc, f, buf);
    SameHeaderCrc(crc, f, g);
    PayloadDecides(crc, g, buf);
  }

  /** With the header in order, the payload decides. */
  lemma PayloadDecides(crc: Checksum, g: Fields, buf: seq<bv8>)
    requires |buf| >= MAX_READ_SIZE && g == FullHeader(CLEARED, buf)
    requires g.ptype == PTYPE_DATA && 0 < g.length <= MAX_PAYLOAD_SIZE
    requires HeaderCrc(crc, g) == FromNetwork(buf[8..12])
    ensures DecodeWith(crc, CLEARED, buf).0 == PktOk <==> PayloadMatches(crc, buf, g.length)
  {
    assert DecodePayload(crc, g, buf).0 == PktOk <==> PayloadMatches(crc, buf, g.length);
  }

  /** TR plays no part in CRC1. */
  lemma SameHeaderCrc(crc: Checksum, f: Fields, g: Fields)
    requires g == f.(tr := g.tr, crc1 := g.crc1, payload := g.payload, crc2 := g.crc2)
    ensures HeaderCrc(crc, g) == HeaderCrc(crc, f)
  {
  }

  lemma StoredHeaderCrc(crc: Checksum, f: Fields, buf: seq<bv8>)
    requires Valid(f)
    requires |buf| >= MAX_READ_SIZE && Truncate(EncodeWith(crc, f)) <= buf
    ensures FromNetwork(buf[8..12]) == HeaderCrc(crc, f)
  {
    var w := EncodeWith(crc, f);
    EncodeParts(crc, f);
    PrefixSlice(Truncate(w), buf, 8, 12);
    assert Truncate(w)[8..12] == w[8..12];
    NetworkRoundTrip(HeaderCrc(crc, f));
  }
}
