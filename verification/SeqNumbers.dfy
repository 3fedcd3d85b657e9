/** The 8-bit sequence number tests of the two programs, as written: three of them wrap at 255 where
    the numbers wrap at 256. Each is compared with the distance between unbounded numbers. */
module SeqNumbers {
  import opened Bytes

  /** How far b lies after a on the circle of 256 numbers. */
  function Offset(a: u8, b: u8): u8 {
    (b - a) % 256
  }

  /** The 8-bit number of an unbounded one. */
  function Low8(n: nat): u8 {
    n % 256
  }

  /** The unbounded number, at least low, that is sent as s. */
  function NumberFrom(low: nat, s: u8): nat {
    low + Offset(Low8(low), s)
  }

  /** The number k places after s on the circle. */
  function Advance(s: u8, k: nat): u8 {
    (s + k) % 256
  }

  lemma AdvanceTwice(s: u8, j: nat, k: nat)
    ensures Advance(Advance(s, j), k) == Advance(s, j + k)
  {
  }

  lemma AdvanceNumber(n: nat, k: nat)
    ensures Advance(Low8(n), k) == Low8(n + k)
  {
  }

  lemma OffsetOfNumbers(m: nat, n: nat)
    ensures m <= n < m + 256 ==> Offset(Low8(m), Low8(n)) == n - m
    ensures n < m <= n + 256 ==> Offset(Low8(m), Low8(n)) == (256 - (m - n)) % 256
  {
  }

  /** Between low and low + 255 the 8-bit number determines the unbounded one. */
  lemma NumberFromLow(low: nat, n: nat)
    requires low <= n < low + 256
    ensures NumberFrom(low, Low8(n)) == n
  {
    OffsetOfNumbers(low, n);
  }

  // ---------- The test of packet_checked ----------

  /** Does an ack numbered ack cover the packet numbered seqn? */
  predicate AckCovers(ack: u8, seqn: u8) {
    255 + ack - seqn <= 31 || (ack - seqn > 0 && ack - seqn <= 31)
  }

  /** The ack test accepts distances 1 to 31, and 32 as well when the numbers wrap. */
  lemma AckCoversExactly(ack: u8, seqn: u8)
    ensures AckCovers(ack, seqn) <==>
            1 <= Offset(seqn, ack) <= 31 || (Offset(seqn, ack) == 32 && ack < seqn)
  {
  }

  // ---------- The test of the receiver's check_in_window ----------

  predicate InReceiverWindow(seqnum: u8, waited: u8, window: nat) {
    if seqnum >= waited then seqnum - waited <= window else 255 + seqnum - waited <= window
  }

  /** The receiver accepts offsets 0 to window, and window + 1 as well when the numbers wrap. */
  lemma InReceiverWindowExactly(seqnum: u8, waited: u8, window: nat)
    ensures InReceiverWindow(seqnum, waited, window) <==>
            Offset(waited, seqnum) <= window || (Offset(waited, seqnum) == window + 1 && seqnum < waited)
  {
  }

  // ---------- The test of the sender's check_in_window ----------

  predicate InSenderWindow(seqnum: u8, first: u8, window: nat) {
    if seqnum >= first then seqnum - first <= window - 1 else 255 + seqnum - first <= window - 1
  }

  /** The sender resends offsets 0 to window - 1, and window as well when the numbers wrap. */
  lemma InSenderWindowExactly(seqnum: u8, first: u8, window: nat)
    ensures InSenderWindow(seqnum, first, window) <==>
            Offset(first, seqnum) < window || (Offset(first, seqnum) == window && seqnum < first)
  {
  }

  // ---------- How stale a number may be ----------

  /** A data number up to 255 behind the expected one is taken for a new one exactly in these cases.
      With the full window of 31 the nearest is 224 behind, so that 223 is the largest safe bound. */
  lemma StaleDataExactly(r: nat, n: nat, window: nat)
    requires n < r <= n + 255
    ensures InReceiverWindow(Low8(n), Low8(r), window) <==>
            r - n >= 256 - window || (r - n == 255 - window && Low8(n) < Low8(r))
  {
    OffsetOfNumbers(r, n);
    InReceiverWindowExactly(Low8(n), Low8(r), window);
  }

  /** The same for an ack behind the oldest unacknowledged packet: the nearest is 224 behind. */
  lemma StaleAckExactly(base: nat, a: nat)
    requires a < base <= a + 255
    ensures AckCovers(Low8(a), Low8(base)) <==>
            base - a >= 225 || (base - a == 224 && Low8(a) < Low8(base))
  {
    OffsetOfNumbers(base, a);
    AckCoversExactly(Low8(a), Low8(base));
  }

  lemma FreshAckExactly(n: nat, a: nat)
    requires n <= a <= n + 31
    ensures AckCovers(Low8(a), Low8(n)) <==> n < a
  {
    OffsetOfNumbers(n, a);
    AckCoversExactly(Low8(a), Low8(n));
  }

  // ---------- The comparator of the sorted insertion ----------

  /** Does the stored packet r come before the incoming packet s? Three branches, as written. */
  predicate Precedes(r: u8, s: u8) {
    if r - s > 31 then true
    else if s - r > 31 then false
    else r < s
  }

  /** An offset the receiver can hold or accept: up to 31, or 32 past the wrap. */
  predicate Reachable(waited: u8, s: u8) {
    Offset(waited, s) <= 31 || (Offset(waited, s) == 32 && s < waited)
  }

  /** On every pair of reachable offsets, 0 and 32 included, the comparator is the offset order. */
  lemma PrecedesIsOffsetOrder(waited: u8, r: u8, s: u8)
    requires Reachable(waited, r) && Reachable(waited, s)
    ensures Precedes(r, s) <==> Offset(waited, r) < Offset(waited, s)
    ensures r == s <==> Offset(waited, r) == Offset(waited, s)
  {
    OffsetCases(waited, r);
    OffsetCases(waited, s);
  }

  lemma OffsetCases(a: u8, b: u8)
    ensures Offset(a, b) == if a <= b then b - a else b - a + 256
  {
  }
}
