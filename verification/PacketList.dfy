/** The linked list of nyancat.c: nodes, a head, a tail and a size. */
module PacketList {
  import opened Options
  import opened Packets
  import opened SeqNumbers
  import opened ListSpec

  class Node {
    var packet: Packet
    var next: Node?

    constructor (packet: Packet)
      ensures this.packet == packet && next == null
    {
      this.packet := packet;
      next := null;
    }
  }

  class List {
    var head: Node?
    var tail: Node?
    var size: nat
    /** The nodes from the head on, and the packets they hold. */
    ghost var spine: seq<Node>
    ghost var contents: seq<Packet>

    /** size is the length of the chain from head, tail is its last node, and no node occurs twice. */
    ghost predicate Valid()
      reads this, spine
    {
      && size == |spine| == |contents|
      && head == At(spine, 0)
      && tail == (if size == 0 then null else spine[size - 1])
      && Chain(spine, contents)
    }

    /** The nodes follow each other, none occurs twice, and they hold the packets. */
    static ghost predicate Chain(nodes: seq<Node>, packets: seq<Packet>)
      requires |nodes| == |packets|
      reads nodes
    {
      && (forall i :: 0 <= i < |nodes| ==> nodes[i].packet == packets[i] && nodes[i].next == At(nodes, i + 1))
      && (forall i, j :: 0 <= i < j < |nodes| ==> nodes[i] != nodes[j])
    }

    /** The objects that the list consists of, apart from itself. */
    ghost function Nodes(): set<Node>
      reads this
    {
      set n | n in spine
    }

    static ghost function At(nodes: seq<Node>, i: nat): Node? {
      if i < |nodes| then nodes[i] else null
    }

    /** list_create. */
    constructor ()
      ensures Valid() && contents == [] && spine == []
    {
      head, tail, size := null, null, 0;
      spine, contents := [], [];
    }

    /** add_element_queue. */
    method AddElement(packet: Packet)
      requires Valid()
      modifies this, Nodes()
      ensures Valid() && contents == old(contents) + [packet]
      ensures fresh(Nodes() - old(Nodes()))
    {
      var node := LinkLast(packet);
      assert Put(contents, packet, |spine|) == contents + [packet];
      OneMore(spine, node, |spine|);
      Adopt(node, packet, |spine|);
    }

    /** The linking of add_element_queue. */
    method LinkLast(packet: Packet) returns (node: Node)
      requires Valid()
      modifies this, Nodes()
      ensures spine == old(spine) && contents == old(contents) && size == old(size) + 1
      ensures fresh(node) && head == (if old(size) == 0 then node else old(head)) && tail == node
      ensures Spliceable(spine, contents, node, packet, |spine|)
    {
      node := new Node(packet);
      if size == 0 {
        head := node;
        tail := node;
      } else {
        tail.next := node;
        tail := node;
      }
      size := size + 1;
    }

    /** pop_element_queue; None stands for the null pointer of an empty list. */
    method Pop() returns (packet: Option<Packet>)
      requires Valid()
      modifies this
      ensures Valid()
      ensures old(contents) == [] ==> packet == None && contents == [] && spine == old(spine)
      ensures old(contents) != [] ==>
                packet == Some(old(contents)[0]) && contents == old(contents)[1..] && spine == old(spine)[1..]
    {
      if size == 0 {
        return None;
      }
      packet := Some(head.packet);
      if size == 1 {
        head := null;
        tail := null;
      } else {
        head := head.next;
      }
      size := size - 1;
      spine, contents := spine[1..], contents[1..];
    }

    /** The packet of a node is sent again: its timestamp changes in place. */
    method Restamp(node: Node, ghost i: nat, packet: Packet)
      requires Valid() && i < size && node == spine[i]
      modifies this`contents, node`packet
      ensures Valid() && spine == old(spine) && contents == old(contents)[i := packet]
    {
      node.packet := packet;
      contents := contents[i := packet];
    }

    /** add_specific_queue. */
    method AddSpecific(packet: Packet)
      requires Valid()
      modifies this, Nodes()
      ensures Valid() && contents == Insert(old(contents), packet)
      ensures fresh(Nodes() - old(Nodes()))
    {
      if size == 0 {
        AddElement(packet);
        return;
      }
      var i, previous, runner, held := Walk(packet);
      InsertAtPlace(contents, packet);
      if !held {
        PutBetween(packet, i, previous, runner);
      }
    }

    method PutBetween(packet: Packet, ghost i: nat, previous: Node?, runner: Node?)
      requires Valid() && i <= size && size > 0
      requires runner == At(spine, i) && previous == if i == 0 then null else spine[i - 1]
      modifies this, Nodes()
      ensures Valid() && contents == Put(old(contents), packet, i)
      ensures fresh(Nodes() - old(Nodes()))
    {
      var node := Link(packet, i, previous, runner);
      OneMore(spine, node, i);
      Adopt(node, packet, i);
    }

    /** The relinking of add_specific_queue. */
    method Link(packet: Packet, ghost i: nat, previous: Node?, runner: Node?) returns (node: Node)
      requires Valid() && i <= size && size > 0
      requires runner == At(spine, i) && previous == if i == 0 then null else spine[i - 1]
      modifies this, Nodes()
      ensures spine == old(spine) && contents == old(contents) && size == old(size) + 1
      ensures fresh(node) && head == (if i == 0 then node else old(head))
      ensures tail == if i == old(size) then node else old(tail)
      ensures Spliceable(spine, contents, node, packet, i)
    {
      node := new Node(packet);
      if previous == null {
        head := node;
      } else {
        previous.next := node;
      }
      node.next := runner;
      if runner == null {
        tail := node;
      }
      size := size + 1;
    }

    /** The new node becomes part of the list at position i. */
    ghost method Adopt(node: Node, packet: Packet, i: nat)
      requires Spliceable(spine, contents, node, packet, i) && size == |spine| + 1
      requires head == if i == 0 then node else spine[0]
      requires tail == if i == |spine| then node else spine[|spine| - 1]
      modifies this`spine, this`contents
      ensures Valid()
      ensures contents == Put(old(contents), packet, i)
      ensures spine == Put(old(spine), node, i)
    {
      var after, packets := Put(spine, node, i), Put(contents, packet, i);
      Adopted(spine, contents, node, packet, i);
      PutEnds(spine, node, i);
      spine, contents := after, packets;
      assert Chain(after, packets);
    }

    /** before is a chain of nodes that leads through node between positions i - 1 and i. */
    static ghost predicate Spliceable(before: seq<Node>, held: seq<Packet>, node: Node, packet: Packet, i: nat)
      reads before, node
    {
      && |before| == |held| && i <= |before|
      && (forall j, k :: 0 <= j < k < |before| ==> before[j] != before[k])
      && (forall k :: 0 <= k < |before| ==> before[k] != node && before[k].packet == held[k])
      && (forall k :: 0 <= k < |before| && k + 1 != i ==>
            before[k].next == At(before, k + 1))
      && (i > 0 ==> before[i - 1].next == node)
      && node.next == At(before, i) && node.packet == packet
    }

    static function Put<T>(before: seq<T>, x: T, i: nat): seq<T>
      requires i <= |before|
    {
      before[..i] + [x] + before[i..]
    }

    /** after is before with one more element, x at position i. */
    static ghost predicate IsPut<T>(before: seq<T>, x: T, i: nat, after: seq<T>) {
      && i <= |before| && |after| == |before| + 1
      && (forall k :: 0 <= k < i ==> after[k] == before[k])
      && after[i] == x
      && (forall k :: i < k < |after| ==> after[k] == before[k - 1])
    }

    static lemma PutIn<T>(before: seq<T>, x: T, i: nat)
      requires i <= |before|
      ensures IsPut(before, x, i, Put(before, x, i))
    {
    }

    static lemma OneMore<T>(before: seq<T>, x: T, i: nat)
      requires i <= |before|
      ensures (set n | n in Put(before, x, i)) == (set n | n in before) + {x}
    {
      assert before == before[..i] + before[i..];
    }

    static lemma PutEnds<T>(before: seq<T>, x: T, i: nat)
      requires i <= |before|
      ensures var after := Put(before, x, i);
              && |after| == |before| + 1
              && after[0] == (if i == 0 then x else before[0])
              && after[|before|] == if i == |before| then x else before[|before| - 1]
    {
    }

    static lemma Adopted(before: seq<Node>, held: seq<Packet>, node: Node, packet: Packet, i: nat)
      requires Spliceable(before, held, node, packet, i)
      ensures |Put(before, node, i)| == |Put(held, packet, i)|
      ensures Chain(Put(before, node, i), Put(held, packet, i))
    {
      PutIn(before, node, i);
      PutIn(held, packet, i);
      Spliced(before, held, node, packet, i, Put(before, node, i), Put(held, packet, i));
    }

    static lemma Spliced(before: seq<Node>, held: seq<Packet>, node: Node, packet: Packet, i: nat,
                         after: seq<Node>, packets: seq<Packet>)
      requires Spliceable(before, held, node, packet, i)
      requires IsPut(before, node, i, after) && IsPut(held, packet, i, packets)
      ensures Chain(after, packets)
    {
      StillDistinct(before, node, i, after);
      forall k | 0 <= k < |after|
        ensures after[k].packet == packets[k] && after[k].next == At(after, k + 1)
      {
        SplicedAt(before, held, node, packet, i, after, packets, k);
      }
    }

    static lemma StillDistinct<T>(before: seq<T>, x: T, i: nat, after: seq<T>)
      requires IsPut(before, x, i, after)
      requires forall j, k :: 0 <= j < k < |before| ==> before[j] != before[k]
      requires forall k :: 0 <= k < |before| ==> before[k] != x
      ensures forall j, k :: 0 <= j < k < |after| ==> after[j] != after[k]
    {
    }

    static lemma SplicedAt(before: seq<Node>, held: seq<Packet>, node: Node, packet: Packet, i: nat,
                           after: seq<Node>, packets: seq<Packet>, k: nat)
      requires Spliceable(before, held, node, packet, i) && k < |after|
      requires IsPut(before, node, i, after) && IsPut(held, packet, i, packets)
      ensures after[k].packet == packets[k] && after[k].next == At(after, k + 1)
    {
      if k < i {
        assert after[k] == before[k] && packets[k] == held[k];
      } else if k > i {
        assert after[k] == before[k - 1] && packets[k] == held[k - 1];
      }
    }

    /** The insertion loop of add_specific_queue: where the new node goes, between previous and runner,
        and whether the number is held already by the last packet looked at. */
    method Walk(packet: Packet) returns (ghost i: nat, previous: Node?, runner: Node?, held: bool)
      requires Valid() && size > 0
      ensures i == Place(contents, packet)
      ensures runner == At(spine, i) && previous == if i == 0 then null else spine[i - 1]
      ensures held <==> i < |contents| && contents[i].seqnum == packet.seqnum
    {
      i, previous, runner := 0, null, head;
      var last := runner.packet;
      var cmp := Precedes(last.seqnum, packet.seqnum);
      while runner != null && cmp
        invariant i <= size && runner == At(spine, i) && previous == (if i == 0 then null else spine[i - 1])
        invariant forall k :: 0 <= k < i ==> Precedes(contents[k].seqnum, packet.seqnum)
        invariant last == contents[if i < size then i else size - 1]
        invariant cmp == Precedes(last.seqnum, packet.seqnum)
        decreases size - i
      {
        previous := runner;
        runner := runner.next;
        i := i + 1;
        if runner != null {
          last := runner.packet;
          cmp := Precedes(last.seqnum, packet.seqnum);
        }
      }
      held := last.seqnum == packet.seqnum;
    }
  }
}
