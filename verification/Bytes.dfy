/** Numbers that fit a byte, and the bit-vectors that hold them. */
module Bytes {

  type u8 = x: int | 0 <= x < 256

  lemma SameByte(b: bv8)
    ensures (b as int) as bv8 == b
  {
  }

  lemma NextByte(b: bv8)
    requires b as int < 255
    ensures (b + 1) as int == b as int + 1
  {
  }

  /** Every number below 256 is the value of some byte. */
  lemma {:induction false} ByteWithValue(n: u8) returns (b: bv8)
    ensures b as int == n
  {
    if n == 0 {
      b := 0;
    } else {
      b := ByteWithValue(n - 1);
      NextByte(b);
      b := b + 1;
    }
  }

  lemma ByteRoundTrip(n: u8)
    ensures (n as bv8) as int == n
  {
    var b := ByteWithValue(n);
    SameByte(b);
  }

  lemma WindowRoundTrip(n: int)
    requires 0 <= n < 32
    ensures (n as bv5) as int == n
  {
  }
}
