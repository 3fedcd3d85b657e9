/** The priority queue of min_queue.c: an array of slots that grows by steps, with heapify-up and
    heapify-down in place, proved against the heap on sequences. */
module MinQueue {
  import opened Options
  import opened HeapSpec

  const SLOTS_PER_MALLOC: nat := 20

  class MinQueue<T(0)> {
    const cmp: (T, T) -> bool
    var size: nat
    var alloc: nat
    var e: array<T>

    ghost predicate Valid()
      reads this
    {
      size <= alloc == e.Length
    }

    ghost function Contents(): (s: seq<T>)
      requires Valid()
      reads this, e
      ensures |s| == size
    {
      e[..size]
    }

    /** minq_new. */
    constructor (cmp: (T, T) -> bool)
      ensures Valid() && fresh(e) && this.cmp == cmp && Contents() == [] && alloc == 20
    {
      this.cmp := cmp;
      e := new T[SLOTS_PER_MALLOC];
      size := 0;
      alloc := SLOTS_PER_MALLOC;
    }

    /** The growth step of minq_push: realloc keeps the elements. */
    method Grow()
      requires Valid() && size == alloc
      modifies this`e, this`alloc
      ensures Valid() && fresh(e) && Contents() == old(Contents()) && alloc == old(alloc) + 20
    {
      var resizeTo := size + SLOTS_PER_MALLOC;
      var tmp := new T[resizeTo];
      forall k | 0 <= k < size {
        tmp[k] := e[k];
      }
      e := tmp;
      alloc := resizeTo;
    }

    /** minq_push. moves counts the elements moved down. */
    method Push(v: T) returns (ghost moves: nat)
      requires Valid()
      modifies this, e
      ensures Valid() && Contents() == HeapSpec.Push(cmp, old(Contents()), v)
      ensures alloc == if old(size) == old(alloc) then old(alloc) + 20 else old(alloc)
      ensures e == old(e) || fresh(e)
      ensures moves == UpMoves(cmp, old(Contents()) + [v], old(size)) <= BitLength(old(size))
    {
      if size == alloc {
        Grow();
      }
      PushMoves(cmp, Contents() + [v], size);
      moves := HeapifyUp(v);
    }

    /** The loop of minq_push, from the new last slot up; the slot i is a hole that v will fill. */
    method HeapifyUp(v: T) returns (ghost moves: nat)
      requires Valid() && size < alloc
      modifies this`size, e
      ensures Valid() && Contents() == HeapSpec.Push(cmp, old(Contents()), v)
      ensures moves == UpMoves(cmp, old(Contents()) + [v], old(size))
    {
      ghost var start := Contents() + [v];
      var i := size;
      size := size + 1;
      var parent := i / 2;
      moves := 0;
      assert e[..size][i := v] == start;
      while i != 0 && cmp(e[parent], v)
        invariant Valid() && i < size && parent == i / 2
        invariant SiftUp(cmp, e[..size][i := v], i) == SiftUp(cmp, start, old(size))
        invariant moves + UpMoves(cmp, e[..size][i := v], i) == UpMoves(cmp, start, old(size))
        decreases i
      {
        ghost var s := e[..size][i := v];
        e[i] := e[parent];
        assert e[..size][parent := v] == Swap(s, i, parent);
        i := parent;
        parent := i / 2;
        moves := moves + 1;
      }
      e[i] := v;
      assert e[..size] == e[..size][i := v];
    }

    /** has_child. */
    method SmallestChild(i: nat) returns (c: nat)
      requires Valid() && i < size
      ensures c == HasChild(cmp, Contents(), i)
    {
      var left := 2 * i;
      if left >= size {
        return 0;
      }
      var right := left + 1;
      if right < size && cmp(e[left], e[right]) {
        return right;
      }
      return left;
    }

    /** minq_pop. moves counts the swaps. */
    method Pop() returns (ghost moves: nat)
      requires Valid()
      modifies this`size, e
      ensures Valid() && Contents() == HeapSpec.Pop(cmp, old(Contents()))
      ensures size > 0 ==> moves == DownMoves(cmp, WithoutRoot(old(Contents())), 0) <= BitLength(size - 1)
    {
      moves := 0;
      if size == 0 {
        return;
      }
      size := size - 1;
      e[0] := e[size];
      assert e[..size] == WithoutRoot(old(Contents()));
      if size > 0 {
        PopMoves(cmp, e[..size], 0);
        moves := HeapifyDown();
      }
    }

    /** The loop of minq_pop, from the root down. */
    method HeapifyDown() returns (ghost moves: nat)
      requires Valid() && size > 0
      modifies e
      ensures Valid() && Contents() == SiftDown(cmp, old(Contents()), 0)
      ensures moves == DownMoves(cmp, old(Contents()), 0)
    {
      var current := 0;
      moves := 0;
      var minChild := SmallestChild(current);
      while minChild != 0 && cmp(e[current], e[minChild])
        invariant Valid() && current < size && minChild == HasChild(cmp, Contents(), current)
        invariant SiftDown(cmp, Contents(), current) == SiftDown(cmp, old(Contents()), 0)
        invariant moves + DownMoves(cmp, Contents(), current) == DownMoves(cmp, old(Contents()), 0)
        decreases size - current
      {
        ghost var s := Contents();
        var tmp := e[current];
        e[current] := e[minChild];
        e[minChild] := tmp;
        assert Contents() == Swap(s, current, minChild);
        current := minChild;
        moves := moves + 1;
        minChild := SmallestChild(current);
      }
    }

    /** minq_peek; None stands for the null pointer of an empty queue. */
    method Peek() returns (x: Option<T>)
      requires Valid()
      ensures x == if Contents() == [] then None else Some(Contents()[0])
    {
      if size == 0 {
        return None;
      }
      return Some(e[0]);
    }
  }
}
