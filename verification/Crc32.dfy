/** The CRC-32 of section 8 of RFC 1952, bit by bit in its reflected form, and what it detects.
    The packet codec applies it (through zlib) to the header and to the payload. */
module Crc32 {

  const POLYNOMIAL: bv32 := 0xEDB88320

  /** One bit of the division. */
  function Shift(c: bv32): bv32 {
    if c & 1 == 1 then (c >> 1) ^ POLYNOMIAL else c >> 1
  }

  function Iterate<T>(f: T -> T, c: T, n: nat): T
    decreases n
  {
    if n == 0 then c else f(Iterate(f, c, n - 1))
  }

  function Shift8(c: bv32): bv32 {
    Iterate(Shift, c, 8)
  }

  function Xor(a: bv32, b: bv32): bv32 {
    a ^ b
  }

  function Enter(b: bv8): bv32 {
    b as bv32
  }

  /** One byte of the division. */
  function Step(c: bv32, b: bv8): bv32 {
    Shift8(Xor(c, Enter(b)))
  }

  function Fold<T, B>(step: (T, B) -> T, c: T, data: seq<B>): T
    decreases |data|
  {
    if data == [] then c else Fold(step, step(c, data[0]), data[1..])
  }

  function Update(c: bv32, data: seq<bv8>): bv32 {
    Fold(Step, c, data)
  }

  /** The checksum of a byte string: initial and final complement around the division. */
  function Crc(data: seq<bv8>): bv32 {
    Update(0xFFFF_FFFF, data) ^ 0xFFFF_FFFF
  }

  // The inductions below run over an arbitrary register type T and byte type B, so that only the
  // stated laws are in play and not the bits; the laws are then shown of the 32-bit register.

  // ---------- Injectivity in the state ----------

  ghost predicate Injective<T(!new)>(f: T -> T) {
    forall a, b :: f(a) == f(b) ==> a == b
  }

  ghost predicate StateInjective<T(!new), B(!new)>(step: (T, B) -> T) {
    forall a, b, x :: step(a, x) == step(b, x) ==> a == b
  }

  /** Two different states stay different whatever equal bytes follow. */
  lemma {:induction false} FoldInjective<T(!new), B(!new)>(step: (T, B) -> T, a: T, b: T, data: seq<B>)
    requires StateInjective(step)
    requires Fold(step, a, data) == Fold(step, b, data)
    ensures a == b
    decreases |data|
  {
    if data != [] {
      var x := data[0];
      FoldInjective(step, step(a, x), step(b, x), data[1..]);
      assert step(a, x) == step(b, x);
    }
  }

  lemma {:induction false} FoldAppend<T, B>(step: (T, B) -> T, c: T, left: seq<B>, right: seq<B>)
    ensures Fold(step, c, left + right) == Fold(step, Fold(step, c, left), right)
    decreases |left|
  {
    if left == [] {
      assert left + right == right;
    } else {
      assert (left + right)[1..] == left[1..] + right;
      FoldAppend(step, step(c, left[0]), left[1..], right);
    }
  }

  lemma FoldFour<T, B>(step: (T, B) -> T, c: T, w: seq<B>)
    requires |w| == 4
    ensures Fold(step, c, w) == step(step(step(step(c, w[0]), w[1]), w[2]), w[3])
  {
    var c1 := step(c, w[0]);
    var c2 := step(c1, w[1]);
    var c3 := step(c2, w[2]);
    assert w[1..][1..] == w[2..] && w[2..][1..] == w[3..] && w[3..][1..] == [];
    assert Fold(step, c1, w[1..]) == Fold(step, c2, w[2..]);
    assert Fold(step, c2, w[2..]) == Fold(step, c3, w[3..]);
    assert Fold(step, c3, w[3..]) == Fold(step, step(c3, w[3]), []);
  }

  ghost predicate Cancels<T(!new)>(xor: (T, T) -> T) {
    && (forall c, a, b :: xor(c, a) == xor(c, b) ==> a == b)
    && (forall c, a, b :: xor(a, c) == xor(b, c) ==> a == b)
  }

  lemma XorCancel(c: bv32, a: bv32, b: bv32)
    requires c ^ a == c ^ b || a ^ c == b ^ c
    ensures a == b
  {
  }

  lemma ShiftInjective(a: bv32, b: bv32)
    requires Shift(a) == Shift(b)
    ensures a == b
  {
  }

  lemma {:induction false} IterateInjective<T(!new)>(f: T -> T, a: T, b: T, n: nat)
    requires Injective(f)
    requires Iterate(f, a, n) == Iterate(f, b, n)
    ensures a == b
    decreases n
  {
    if n > 0 {
      IterateInjective(f, a, b, n - 1);
    }
  }

  lemma Shift8Injective()
    ensures Injective(Shift8)
  {
    forall a, b | Shift8(a) == Shift8(b)
      ensures a == b
    {
      assert Injective(Shift) by {
        forall x, y | Shift(x) == Shift(y) ensures x == y { ShiftInjective(x, y); }
      }
      IterateInjective(Shift, a, b, 8);
    }
  }

  lemma XorCancels()
    ensures Cancels(Xor)
  {
    forall c, a, b | Xor(c, a) == Xor(c, b) || Xor(a, c) == Xor(b, c)
      ensures a == b
    {
      XorCancel(c, a, b);
    }
  }

  // ---------- Four byte steps are 32 shifts of the state xored with one word ----------

  /** f passes over xor with a word h that satisfies low, turning h into down(h). */
  ghost predicate Distributes<T(!new)>(f: T -> T, xor: (T, T) -> T, down: T -> T, low: T -> bool) {
    forall x, h :: low(h) ==> f(xor(x, h)) == xor(f(x), down(h))
  }

  lemma {:induction false} IterateDistributes<T(!new)>(
    f: T -> T, xor: (T, T) -> T, down: T -> T, low: T -> bool, a: T, b: T, n: nat)
    requires Distributes(f, xor, down, low)
    requires forall k: nat :: k < n ==> low(Iterate(down, b, k))
    ensures Iterate(f, xor(a, b), n) == xor(Iterate(f, a, n), Iterate(down, b, n))
    decreases n
  {
    if n > 0 {
      IterateDistributes(f, xor, down, low, a, b, n - 1);
    }
  }

  /** A word is its first byte xored with the rest; the rest has a clear low byte and moves down
      to the word of the remaining bytes. */
  ghost predicate WordLaws<T(!new), B(!new)>(
    xor: (T, T) -> T, down: T -> T, low: T -> bool, zero: B,
    enter: B -> T, rest: (B, B, B) -> T, word: (B, B, B, B) -> T)
  {
    && (forall c, b0, b1, b2, b3 :: xor(c, word(b0, b1, b2, b3)) == xor(xor(c, enter(b0)), rest(b1, b2, b3)))
    && (forall b1, b2, b3 :: low(rest(b1, b2, b3)) && down(rest(b1, b2, b3)) == word(b1, b2, b3, zero))
    && (forall b :: word(b, zero, zero, zero) == enter(b))
  }

  ghost predicate StepLaw<T(!new), B(!new)>(f: T -> T, xor: (T, T) -> T, enter: B -> T, step: (T, B) -> T) {
    forall c, b :: step(c, b) == f(xor(c, enter(b)))
  }

  lemma FourSteps<T(!new), B(!new)>(
    f: T -> T, xor: (T, T) -> T, down: T -> T, low: T -> bool, zero: B, enter: B -> T,
    rest: (B, B, B) -> T, word: (B, B, B, B) -> T, step: (T, B) -> T, c: T, b0: B, b1: B, b2: B, b3: B)
    requires Distributes(f, xor, down, low)
    requires WordLaws(xor, down, low, zero, enter, rest, word)
    requires StepLaw(f, xor, enter, step)
    ensures step(step(step(step(c, b0), b1), b2), b3) == f(f(f(f(xor(c, word(b0, b1, b2, b3))))))
  {
    var c1 := step(c, b0);
    var c2 := step(c1, b1);
    var c3 := step(c2, b2);
    assert f(xor(c, word(b0, b1, b2, b3))) == xor(c1, word(b1, b2, b3, zero));
    assert f(xor(c1, word(b1, b2, b3, zero))) == xor(c2, word(b2, b3, zero, zero));
    assert f(xor(c2, word(b2, b3, zero, zero))) == xor(c3, word(b3, zero, zero, zero));
  }

  /** Four byte steps are four applications of f to the state xored with one word. */
  ghost predicate FourLaw<T(!new), B(!new)>(f: T -> T, xor: (T, T) -> T, word: (B, B, B, B) -> T, step: (T, B) -> T) {
    forall c, b0, b1, b2, b3 ::
      step(step(step(step(c, b0), b1), b2), b3) == f(f(f(f(xor(c, word(b0, b1, b2, b3))))))
  }

  lemma FourStepsInjective<T(!new), B(!new)>(
    f: T -> T, xor: (T, T) -> T, word: (B, B, B, B) -> T, step: (T, B) -> T, c: T, w: seq<B>, v: seq<B>)
    requires FourLaw(f, xor, word, step) && Injective(f) && Cancels(xor) && WordInjective(word)
    requires |w| == |v| == 4 && Fold(step, c, w) == Fold(step, c, v)
    ensures w == v
  {
    FoldFour(step, c, w);
    FoldFour(step, c, v);
    var x, y := word(w[0], w[1], w[2], w[3]), word(v[0], v[1], v[2], v[3]);
    assert f(f(f(f(xor(c, x))))) == f(f(f(f(xor(c, y)))));
    assert f(f(xor(c, x))) == f(f(xor(c, y)));
    assert xor(c, x) == xor(c, y);
  }

  ghost predicate WordInjective<T(!new), B(!new)>(word: (B, B, B, B) -> T) {
    forall b0, b1, b2, b3, d0, d1, d2, d3 ::
      word(b0, b1, b2, b3) == word(d0, d1, d2, d3) ==> b0 == d0 && b1 == d1 && b2 == d2 && b3 == d3
  }

  function Half(a: bv32): bv32 {
    a >> 1
  }

  predicate Even(a: bv32) {
    a & 1 == 0
  }

  lemma XorFacts(a: bv32, b: bv32, p: bv32)
    ensures (a ^ b) >> 1 == (a >> 1) ^ (b >> 1)
    ensures (a ^ b) & 1 == 1 <==> ((a & 1 == 1) != (b & 1 == 1))
    ensures ((a >> 1) ^ (b >> 1)) ^ p == ((a >> 1) ^ p) ^ (b >> 1)
  {
  }

  /** A word whose low bit is clear goes through one shift by a plain right shift. */
  lemma ShiftXorEven(a: bv32, b: bv32)
    requires b & 1 == 0
    ensures Shift(a ^ b) == Shift(a) ^ (b >> 1)
  {
    XorFacts(a, b, POLYNOMIAL);
  }

  lemma ShiftDistributes()
    ensures Distributes(Shift, Xor, Half, Even)
  {
    forall x, h | Even(h)
      ensures Shift(Xor(x, h)) == Xor(Shift(x), Half(h))
    {
      ShiftXorEven(x, h);
    }
  }

  function Down8(c: bv32): bv32 {
    c >> 8
  }

  predicate LowClear(c: bv32) {
    c & 0xFF == 0
  }

  lemma EightHalves(b: bv32)
    requires LowClear(b)
    ensures Even(Iterate(Half, b, 0)) && Even(Iterate(Half, b, 1)) && Even(Iterate(Half, b, 2))
    ensures Even(Iterate(Half, b, 3)) && Even(Iterate(Half, b, 4)) && Even(Iterate(Half, b, 5))
    ensures Even(Iterate(Half, b, 6)) && Even(Iterate(Half, b, 7))
    ensures Iterate(Half, b, 8) == Down8(b)
  {
  }

  lemma Shift8Distributes()
    ensures Distributes(Shift8, Xor, Down8, LowClear)
  {
    forall x, h | LowClear(h)
      ensures Shift8(Xor(x, h)) == Xor(Shift8(x), Down8(h))
    {
      Shift8OfXor(x, h);
    }
  }

  lemma Shift8OfXor(x: bv32, h: bv32)
    requires LowClear(h)
    ensures Shift8(Xor(x, h)) == Xor(Shift8(x), Down8(h))
  {
    ShiftDistributes();
    EightHalves(h);
    IterateDistributes(Shift, Xor, Half, Even, x, h, 8);
  }

  function Rest(b1: bv8, b2: bv8, b3: bv8): bv32 {
    (b1 as bv32 << 8) ^ (b2 as bv32 << 16) ^ (b3 as bv32 << 24)
  }

  /** Four bytes as the little-endian word that enters the reflected register. */
  function Word(b0: bv8, b1: bv8, b2: bv8, b3: bv8): bv32 {
    Xor(Enter(b0), Rest(b1, b2, b3))
  }

  lemma RestMovesDown(b1: bv8, b2: bv8, b3: bv8)
    ensures LowClear(Rest(b1, b2, b3)) && Down8(Rest(b1, b2, b3)) == Word(b1, b2, b3, 0)
  {
  }

  lemma XorAssociates(x: bv32, y: bv32, z: bv32)
    ensures x ^ (y ^ z) == (x ^ y) ^ z
  {
  }

  lemma WordLawsHold()
    ensures WordLaws(Xor, Down8, LowClear, 0, Enter, Rest, Word)
  {
    forall c, b0, b1, b2, b3
      ensures Xor(c, Word(b0, b1, b2, b3)) == Xor(Xor(c, Enter(b0)), Rest(b1, b2, b3))
    {
      XorAssociates(c, Enter(b0), Rest(b1, b2, b3));
    }
    forall b1, b2, b3
      ensures LowClear(Rest(b1, b2, b3)) && Down8(Rest(b1, b2, b3)) == Word(b1, b2, b3, 0)
    {
      RestMovesDown(b1, b2, b3);
    }
  }

  lemma WordIsInjective()
    ensures WordInjective(Word)
  {
  }

  lemma StepStateInjective()
    ensures StateInjective(Step)
  {
    forall a, b, x | Step(a, x) == Step(b, x)
      ensures a == b
    {
      Shift8Injective();
      XorCancels();
      assert Shift8(Xor(a, Enter(x))) == Shift8(Xor(b, Enter(x)));
      assert Xor(a, Enter(x)) == Xor(b, Enter(x));
    }
  }

  lemma StepLawHolds()
    ensures StepLaw(Shift8, Xor, Enter, Step)
  {
  }

  /** Thirty-two shifts of the state xored with the word equal four byte steps. */
  lemma FourStepsAreOneWord()
    ensures FourLaw(Shift8, Xor, Word, Step)
  {
    forall c, b0, b1, b2, b3
      ensures Step(Step(Step(Step(c, b0), b1), b2), b3) == Shift8(Shift8(Shift8(Shift8(Xor(c, Word(b0, b1, b2, b3))))))
    {
      Shift8Distributes();
      WordLawsHold();
      StepLawHolds();
      FourSteps(Shift8, Xor, Down8, LowClear, 0, Enter, Rest, Word, Step, c, b0, b1, b2, b3);
    }
  }

  lemma UpdateInjectiveInFour(c: bv32, w: seq<bv8>, v: seq<bv8>)
    requires |w| == |v| == 4
    requires Update(c, w) == Update(c, v)
    ensures w == v
  {
    FourStepsAreOneWord();
    Shift8Injective();
    XorCancels();
    WordIsInjective();
    FourStepsInjective(Shift8, Xor, Word, Step, c, w, v);
  }

  /** Up to four bytes: from one state, different bytes lead to different states. */
  lemma UpdateInjectiveInBytes(c: bv32, w: seq<bv8>, v: seq<bv8>)
    requires |w| == |v| <= 4
    requires Update(c, w) == Update(c, v)
    ensures w == v
  {
    var zeros := seq(4 - |w|, _ => 0 as bv8);
    FoldAppend(Step, c, w, zeros);
    FoldAppend(Step, c, v, zeros);
    UpdateInjectiveInFour(c, w + zeros, v + zeros);
    assert w == (w + zeros)[..|w|] && v == (v + zeros)[..|w|];
  }

  // ---------- What the checksum detects ----------

  /** The two byte strings agree everywhere except possibly at positions i, i+1, i+2, i+3. */
  ghost predicate DifferWithinFour(d: seq<bv8>, d': seq<bv8>, i: nat) {
    && |d| == |d'|
    && i < |d|
    && forall k :: 0 <= k < |d| && !(i <= k < i + 4) ==> d[k] == d'[k]
  }

  /** Every change confined to four consecutive bytes changes the checksum, at any length. */
  lemma BurstDetected(d: seq<bv8>, d': seq<bv8>, i: nat)
    requires DifferWithinFour(d, d', i)
    requires d != d'
    ensures Crc(d) != Crc(d')
  {
    var j := if i + 4 <= |d| then i + 4 else |d|;
    var pre, post := d[..i], d[j..];
    var w, w' := d[i..j], d'[i..j];
    assert d == pre + (w + post);
    assert d' == pre + (w' + post);
    if Crc(d) == Crc(d') {
      XorCancels();
      assert Xor(Update(0xFFFF_FFFF, d), 0xFFFF_FFFF) == Xor(Update(0xFFFF_FFFF, d'), 0xFFFF_FFFF);
      SplitInjective(0xFFFF_FFFF, pre, w, w', post);
    }
  }

  lemma SplitInjective(c: bv32, pre: seq<bv8>, w: seq<bv8>, w': seq<bv8>, post: seq<bv8>)
    requires |w| == |w'| <= 4
    requires Update(c, pre + (w + post)) == Update(c, pre + (w' + post))
    ensures w == w'
  {
    var c1 := Fold(Step, c, pre);
    FoldAppend(Step, c, pre, w + post);
    FoldAppend(Step, c, pre, w' + post);
    FoldAppend(Step, c1, w, post);
    FoldAppend(Step, c1, w', post);
    StepStateInjective();
    FoldInjective(Step, Fold(Step, c1, w), Fold(Step, c1, w'), post);
    UpdateInjectiveInBytes(c1, w, w');
  }
}
