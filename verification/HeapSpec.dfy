/** The heap of min_queue.c on sequences. Slots are numbered from 0 but the children of slot x are 2x
    and 2x + 1, so that slot 0 has slot 1 as its single child. cmp(a, b) stands for a > b. */
module HeapSpec {

  /** What a comparison function must satisfy: a strict weak order. */
  ghost predicate StrictWeakOrder<T(!new)>(cmp: (T, T) -> bool) {
    && (forall a :: !cmp(a, a))
    && (forall a, b, c :: cmp(a, b) && cmp(b, c) ==> cmp(a, c))
    && (forall a, b, c :: !cmp(a, b) && !cmp(b, c) ==> !cmp(a, c))
  }

  /** No slot is smaller than its parent. */
  ghost predicate Heap<T>(cmp: (T, T) -> bool, s: seq<T>) {
    forall i :: 1 <= i < |s| ==> !cmp(s[i / 2], s[i])
  }

  function Swap<T>(s: seq<T>, i: nat, j: nat): (t: seq<T>)
    requires i < |s| && j < |s|
    ensures |t| == |s|
    ensures forall k :: 0 <= k < |s| ==> t[k] == if k == i then s[j] else if k == j then s[i] else s[k]
  {
    s[i := s[j]][j := s[i]]
  }

  lemma SwapPermutes<T>(s: seq<T>, i: nat, j: nat)
    requires i < |s| && j < |s|
    ensures multiset(Swap(s, i, j)) == multiset(s)
  {
  }

  // ---------- The operations ----------

  /** heapify-up from slot i. */
  function SiftUp<T>(cmp: (T, T) -> bool, s: seq<T>, i: nat): (t: seq<T>)
    requires i < |s|
    ensures |t| == |s|
    decreases i
  {
    if i != 0 && cmp(s[i / 2], s[i]) then SiftUp(cmp, Swap(s, i, i / 2), i / 2) else s
  }

  function Push<T>(cmp: (T, T) -> bool, s: seq<T>, v: T): (t: seq<T>)
    ensures |t| == |s| + 1
  {
    SiftUp(cmp, s + [v], |s|)
  }

  /** has_child: the smaller child of slot i, or 0 when there is none. */
  function HasChild<T>(cmp: (T, T) -> bool, s: seq<T>, i: nat): (c: nat)
    ensures c != 0 ==> c < |s| && c / 2 == i && i < c
  {
    var left := 2 * i;
    if left >= |s| then 0
    else if left + 1 < |s| && cmp(s[left], s[left + 1]) then left + 1
    else left
  }

  /** heapify-down from slot i. */
  function SiftDown<T>(cmp: (T, T) -> bool, s: seq<T>, i: nat): (t: seq<T>)
    requires i < |s|
    ensures |t| == |s|
    decreases |s| - i
  {
    var c := HasChild(cmp, s, i);
    if c != 0 && cmp(s[i], s[c]) then SiftDown(cmp, Swap(s, i, c), c) else s
  }

  /** The root replaced by the last slot, which is forgotten. */
  function WithoutRoot<T>(s: seq<T>): (t: seq<T>)
    requires s != []
    ensures |t| == |s| - 1
  {
    s[0 := s[|s| - 1]][..|s| - 1]
  }

  function Pop<T>(cmp: (T, T) -> bool, s: seq<T>): (t: seq<T>)
    ensures |t| == if s == [] then 0 else |s| - 1
  {
    if |s| <= 1 then [] else SiftDown(cmp, WithoutRoot(s), 0)
  }

  // ---------- Push ----------

  /** A heap except that slot i may be smaller than its ancestors; its children fit below its parent. */
  ghost predicate HeapExceptAbove<T>(cmp: (T, T) -> bool, s: seq<T>, i: nat) {
    && (forall j :: 1 <= j < |s| && j != i ==> !cmp(s[j / 2], s[j]))
    && (i >= 1 ==> forall j :: 1 <= j < |s| && j / 2 == i ==> !cmp(s[i / 2], s[j]))
  }

  lemma SwapUp<T(!new)>(cmp: (T, T) -> bool, s: seq<T>, i: nat)
    requires StrictWeakOrder(cmp) && 0 < i < |s| && HeapExceptAbove(cmp, s, i) && cmp(s[i / 2], s[i])
    ensures HeapExceptAbove(cmp, Swap(s, i, i / 2), i / 2)
  {
    var p := i / 2;
    var t := Swap(s, i, p);
    forall j | 1 <= j < |t| && j != p
      ensures !cmp(t[j / 2], t[j])
    {
      if j / 2 == p && j != i {
        assert !cmp(s[i], s[p]) && !cmp(s[p], s[j]);
      }
    }
    if p >= 1 {
      forall j | 1 <= j < |t| && j / 2 == p
        ensures !cmp(t[p / 2], t[j])
      {
        assert !cmp(s[p / 2], s[p]);
        if j != i {
          assert !cmp(s[p], s[j]);
        }
      }
    }
  }

  lemma {:induction false} SiftUpHeap<T(!new)>(cmp: (T, T) -> bool, s: seq<T>, i: nat)
    requires StrictWeakOrder(cmp) && i < |s| && HeapExceptAbove(cmp, s, i)
    ensures Heap(cmp, SiftUp(cmp, s, i))
    ensures multiset(SiftUp(cmp, s, i)) == multiset(s)
    decreases i
  {
    if i != 0 && cmp(s[i / 2], s[i]) {
      SwapUp(cmp, s, i);
      SwapPermutes(s, i, i / 2);
      SiftUpHeap(cmp, Swap(s, i, i / 2), i / 2);
    }
  }

  /** A push keeps the heap and adds the value. */
  lemma PushHeap<T(!new)>(cmp: (T, T) -> bool, s: seq<T>, v: T)
    requires StrictWeakOrder(cmp) && Heap(cmp, s)
    ensures Heap(cmp, Push(cmp, s, v))
    ensures multiset(Push(cmp, s, v)) == multiset(s) + multiset{v}
  {
    SiftUpHeap(cmp, s + [v], |s|);
  }

  // ---------- Peek ----------

  lemma {:induction false} RootIsLeast<T(!new)>(cmp: (T, T) -> bool, s: seq<T>, i: nat)
    requires StrictWeakOrder(cmp) && Heap(cmp, s) && i < |s|
    ensures !cmp(s[0], s[i])
    decreases i
  {
    if i > 0 {
      RootIsLeast(cmp, s, i / 2);
    }
  }

  // ---------- Pop ----------

  /** A heap except that slot i may be larger than its children; they fit below its parent. */
  ghost predicate HeapExceptBelow<T>(cmp: (T, T) -> bool, s: seq<T>, i: nat) {
    && (forall j :: 1 <= j < |s| && j / 2 != i ==> !cmp(s[j / 2], s[j]))
    && (i >= 1 ==> forall j :: 1 <= j < |s| && j / 2 == i ==> !cmp(s[i / 2], s[j]))
  }

  /** The child chosen is not larger than any child. */
  lemma ChildIsLeast<T(!new)>(cmp: (T, T) -> bool, s: seq<T>, i: nat, j: nat)
    requires StrictWeakOrder(cmp) && 1 <= j < |s| && j / 2 == i
    ensures var c := HasChild(cmp, s, i);
            if c == 0 then i == 0 && (|s| == 1 || !cmp(s[0], s[1])) else !cmp(s[c], s[j])
  {
  }

  lemma SwapDown<T(!new)>(cmp: (T, T) -> bool, s: seq<T>, i: nat)
    requires StrictWeakOrder(cmp) && i < |s| && HeapExceptBelow(cmp, s, i)
    requires var c := HasChild(cmp, s, i); c != 0 && cmp(s[i], s[c])
    ensures var c := HasChild(cmp, s, i); HeapExceptBelow(cmp, Swap(s, i, c), c)
  {
    var c := HasChild(cmp, s, i);
    var t := Swap(s, i, c);
    forall j | 1 <= j < |t| && j / 2 != c
      ensures !cmp(t[j / 2], t[j])
    {
      if j / 2 == i {
        ChildIsLeast(cmp, s, i, j);
      }
    }
    forall j | 1 <= j < |t| && j / 2 == c
      ensures !cmp(t[c / 2], t[j])
    {
      assert !cmp(s[c], s[j]);
    }
  }

  lemma {:induction false} SiftDownHeap<T(!new)>(cmp: (T, T) -> bool, s: seq<T>, i: nat)
    requires StrictWeakOrder(cmp) && i < |s| && HeapExceptBelow(cmp, s, i)
    ensures Heap(cmp, SiftDown(cmp, s, i))
    ensures multiset(SiftDown(cmp, s, i)) == multiset(s)
    decreases |s| - i
  {
    var c := HasChild(cmp, s, i);
    if c != 0 && cmp(s[i], s[c]) {
      SwapDown(cmp, s, i);
      SwapPermutes(s, i, c);
      SiftDownHeap(cmp, Swap(s, i, c), c);
    } else {
      forall j | 1 <= j < |s|
        ensures !cmp(s[j / 2], s[j])
      {
        if j / 2 == i {
          ChildIsLeast(cmp, s, i, j);
        }
      }
    }
  }

  lemma WithoutRootMultiset<T>(s: seq<T>)
    requires s != []
    ensures multiset(WithoutRoot(s)) == multiset(s) - multiset{s[0]}
  {
    var n := |s| - 1;
    assert s == s[..n] + [s[n]];
    if n > 0 {
      assert s[..n] == [s[0]] + s[1..n];
      assert WithoutRoot(s) == [s[n]] + s[1..n];
    }
  }

  /** A pop keeps the heap and removes the root, which is a least element. */
  lemma PopHeap<T(!new)>(cmp: (T, T) -> bool, s: seq<T>)
    requires StrictWeakOrder(cmp) && Heap(cmp, s) && s != []
    ensures Heap(cmp, Pop(cmp, s))
    ensures multiset(Pop(cmp, s)) == multiset(s) - multiset{s[0]}
    ensures forall x :: x in s ==> !cmp(s[0], x)
  {
    WithoutRootMultiset(s);
    if |s| > 1 {
      SiftDownHeap(cmp, WithoutRoot(s), 0);
    }
    forall x | x in s
      ensures !cmp(s[0], x)
    {
      var i :| 0 <= i < |s| && s[i] == x;
      RootIsLeast(cmp, s, i);
    }
  }

  // ---------- Any sequence of operations ----------

  datatype Op<T> = Insert(value: T) | ExtractMin

  /** The heap after the operations; extraction from an empty queue does nothing. */
  function Exec<T>(cmp: (T, T) -> bool, s: seq<T>, ops: seq<Op<T>>): seq<T>
    decreases |ops|
  {
    if ops == [] then s
    else
      match ops[0]
      case Insert(v) => Exec(cmp, Push(cmp, s, v), ops[1..])
      case ExtractMin => Exec(cmp, Pop(cmp, s), ops[1..])
  }

  /** The values at the root when they are extracted. */
  function Extracted<T>(cmp: (T, T) -> bool, s: seq<T>, ops: seq<Op<T>>): seq<T>
    decreases |ops|
  {
    if ops == [] then []
    else
      match ops[0]
      case Insert(v) => Extracted(cmp, Push(cmp, s, v), ops[1..])
      case ExtractMin => (if s == [] then [] else [s[0]]) + Extracted(cmp, Pop(cmp, s), ops[1..])
  }

  /** The same operations on a multiset from which a least element is taken, may extract out and end
      in m2. */
  ghost predicate MultisetRun<T(!new)>(
    cmp: (T, T) -> bool, m: multiset<T>, ops: seq<Op<T>>, out: seq<T>, m2: multiset<T>)
    decreases |ops|
  {
    if ops == [] then out == [] && m2 == m
    else
      match ops[0]
      case Insert(v) => MultisetRun(cmp, m + multiset{v}, ops[1..], out, m2)
      case ExtractMin =>
        if m == multiset{} then MultisetRun(cmp, m, ops[1..], out, m2)
        else
          && out != [] && out[0] in m
          && (forall x :: x in m ==> !cmp(out[0], x))
          && MultisetRun(cmp, m - multiset{out[0]}, ops[1..], out[1..], m2)
  }

  /** Any interleaving of pushes and pops refines a multiset with extraction of a least element, and
      leaves a heap. */
  lemma {:induction false} QueueRefinesMultiset<T(!new)>(cmp: (T, T) -> bool, s: seq<T>, ops: seq<Op<T>>)
    requires StrictWeakOrder(cmp) && Heap(cmp, s)
    ensures Heap(cmp, Exec(cmp, s, ops))
    ensures MultisetRun(cmp, multiset(s), ops, Extracted(cmp, s, ops), multiset(Exec(cmp, s, ops)))
    decreases |ops|
  {
    if ops != [] {
      match ops[0]
      case Insert(v) =>
        var t := Push(cmp, s, v);
        PushHeap(cmp, s, v);
        QueueRefinesMultiset(cmp, t, ops[1..]);
        assert multiset(t) == multiset(s) + multiset{v};
        assert MultisetRun(cmp, multiset(s) + multiset{v}, ops[1..], Extracted(cmp, s, ops),
                           multiset(Exec(cmp, s, ops)));
      case ExtractMin =>
        if s != [] {
          PopHeap(cmp, s);
        }
        QueueRefinesMultiset(cmp, Pop(cmp, s), ops[1..]);
        if s != [] {
          assert s[0] in multiset(s);
          assert Extracted(cmp, s, ops)[1..] == Extracted(cmp, Pop(cmp, s), ops[1..]);
        } else {
          assert Extracted(cmp, s, ops) == Extracted(cmp, Pop(cmp, s), ops[1..]);
        }
    }
  }

  /** Everything extracted until the queue is empty. */
  function Drain<T>(cmp: (T, T) -> bool, s: seq<T>): seq<T>
    decreases |s|
  {
    if s == [] then [] else [s[0]] + Drain(cmp, Pop(cmp, s))
  }

  ghost predicate Nondecreasing<T>(cmp: (T, T) -> bool, s: seq<T>) {
    forall i, j :: 0 <= i < j < |s| ==> !cmp(s[i], s[j])
  }

  lemma PrependLeast<T>(cmp: (T, T) -> bool, x: T, rest: seq<T>)
    requires Nondecreasing(cmp, rest) && forall y :: y in multiset(rest) ==> !cmp(x, y)
    ensures Nondecreasing(cmp, [x] + rest)
  {
    forall i, j | 0 <= i < j < |rest| + 1
      ensures !cmp(([x] + rest)[i], ([x] + rest)[j])
    {
      assert rest[j - 1] in multiset(rest);
    }
  }

  /** Draining sorts: the contents in nondecreasing order. */
  lemma {:induction false} DrainSorts<T(!new)>(cmp: (T, T) -> bool, s: seq<T>)
    requires StrictWeakOrder(cmp) && Heap(cmp, s)
    ensures multiset(Drain(cmp, s)) == multiset(s)
    ensures Nondecreasing(cmp, Drain(cmp, s))
    decreases |s|
  {
    if s != [] {
      var rest := Drain(cmp, Pop(cmp, s));
      PopHeap(cmp, s);
      DrainSorts(cmp, Pop(cmp, s));
      assert s[0] in multiset(s);
      assert multiset([s[0]] + rest) == multiset{s[0]} + multiset(rest);
      PrependLeast(cmp, s[0], rest);
    }
  }

  // ---------- How many moves ----------

  /** The number of binary digits of n. */
  function BitLength(n: nat): nat {
    if n == 0 then 0 else 1 + BitLength(n / 2)
  }

  function Pow2(k: nat): (n: nat)
    ensures n >= 1
  {
    if k == 0 then 1 else 2 * Pow2(k - 1)
  }

  /** It is the logarithm: n has k binary digits exactly if it lies between the powers of 2. */
  lemma {:induction false} BitLengthIsLog(n: nat)
    ensures n < Pow2(BitLength(n))
    ensures n > 0 ==> BitLength(n) > 0 && Pow2(BitLength(n) - 1) <= n
    decreases n
  {
    if n > 0 {
      BitLengthIsLog(n / 2);
    }
  }

  lemma {:induction false} BitLengthMonotone(m: nat, n: nat)
    requires m <= n
    ensures BitLength(m) <= BitLength(n)
    decreases n
  {
    if m > 0 {
      BitLengthMonotone(m / 2, n / 2);
    }
  }

  function UpMoves<T>(cmp: (T, T) -> bool, s: seq<T>, i: nat): nat
    requires i < |s|
    decreases i
  {
    if i != 0 && cmp(s[i / 2], s[i]) then 1 + UpMoves(cmp, Swap(s, i, i / 2), i / 2) else 0
  }

  function DownMoves<T>(cmp: (T, T) -> bool, s: seq<T>, i: nat): nat
    requires i < |s|
    decreases |s| - i
  {
    var c := HasChild(cmp, s, i);
    if c != 0 && cmp(s[i], s[c]) then 1 + DownMoves(cmp, Swap(s, i, c), c) else 0
  }

  /** A push into slot i moves at most as many elements as i has binary digits. */
  lemma {:induction false} PushMoves<T>(cmp: (T, T) -> bool, s: seq<T>, i: nat)
    requires i < |s|
    ensures UpMoves(cmp, s, i) <= BitLength(i)
    decreases i
  {
    if i != 0 && cmp(s[i / 2], s[i]) {
      PushMoves(cmp, Swap(s, i, i / 2), i / 2);
    }
  }

  /** A pop that leaves n elements makes at most as many swaps as n - 1 has binary digits. */
  lemma {:induction false} PopMoves<T>(cmp: (T, T) -> bool, s: seq<T>, i: nat)
    requires i < |s|
    ensures DownMoves(cmp, s, i) + BitLength(i) <= BitLength(|s| - 1)
    decreases |s| - i
  {
    var c := HasChild(cmp, s, i);
    if c != 0 && cmp(s[i], s[c]) {
      PopMoves(cmp, Swap(s, i, c), c);
    } else {
      BitLengthMonotone(i, |s| - 1);
    }
  }
}
