/** Why the link must not deliver packets more than 223 behind: what the two programs do with packets
    that are 224 and more behind. */
module Staleness {
  import opened Packets
  import opened SeqNumbers
  import opened SenderSpec
  import opened Protocol

  /** How many packets of a list of the given length an ack d behind its base removes, none of which it
      acknowledges. */
  function Lost(d: nat, wraps: bool, length: nat): nat {
    if d <= 223 || d > 255 || (d == 224 && !wraps) then 0
    else if length <= 256 - d then length
    else 256 - d
  }

  /** packet_checked on every stale ack: it is harmless up to 223 behind; from 224 behind across the
      wrap, or from 225 behind, it removes packets that were not received. */
  lemma {:induction false} StaleAckRemoves(list: seq<Packet>, base: nat, a: nat, eof: bool)
    requires Consecutive(list, base) && |list| <= 31 && a < base <= a + 256
    ensures PacketChecked(list, Low8(a), eof) ==
            (list[Lost(base - a, Low8(a) < Low8(base), |list|)..], 0)
    decreases |list|
  {
    if list != [] {
      AckTest(base, a);
      assert list[0].seqnum == Low8(base + 0);
      if AckCovers(Low8(a), Low8(base)) {
        assert forall i :: 0 <= i < |list[1..]| ==> list[1..][i] == list[i + 1];
        RestConsecutive(list, base);
        StaleAckRemoves(list[1..], base + 1, a, eof);
      }
    }
  }

  lemma RestConsecutive(list: seq<Packet>, base: nat)
    requires Consecutive(list, base) && list != []
    ensures Consecutive(list[1..], base + 1)
  {
    forall i | 0 <= i < |list| - 1
      ensures list[1..][i].seqnum == Low8(base + 1 + i) && list[1..][i].payload != []
    {
      assert list[1..][i] == list[i + 1] && base + 1 + i == base + (i + 1);
    }
  }

  lemma AckTest(base: nat, a: nat)
    requires a < base <= a + 256
    ensures AckCovers(Low8(a), Low8(base)) <==>
            base - a != 256 && (base - a >= 225 || (base - a == 224 && Low8(a) < Low8(base)))
  {
    if base < a + 256 {
      StaleAckExactly(base, a);
    } else {
      OffsetOfNumbers(base, a);
    }
  }

  /** A chunk 224 behind the expected one, across the wrap, is taken by a receiver with the full window
      for the chunk 32 ahead, which has not even been read: the invariant is lost. */
  lemma ChunkTooOldIsTaken(s: State, p: Packet, n: nat)
    requires Inv(s) && s.rcv.running && s.rcv.list == [] && s.rcv.window == 31
    requires IsChunk(p, s.chunks, n) && Expected(s) == n + 224 && Low8(n) < Low8(Expected(s))
    ensures var (r1, sent) := ReceiverSpec.Turn(s.rcv, Ok(p));
            && r1 == s.rcv.(lastTimestamp := p.timestamp, list := [p]) && sent == []
            && NumberFrom(Expected(s), p.seqnum) == n + 256 > |s.chunks|
            && !Inv(Answered(s, r1, sent))
  {
    var (r1, sent) := ReceiverSpec.Turn(s.rcv, Ok(p));
    StaleDataExactly(Expected(s), n, 31);
    OffsetOfNumbers(Expected(s), n);
    assert NumberFrom(Expected(s), p.seqnum) == n + 256;
    assert r1.list == [p];
    assert p in Answered(s, r1, sent).rcv.list;
  }
}
