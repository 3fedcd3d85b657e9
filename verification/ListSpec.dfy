/** The sorted insertion of nyancat.c as a function on sequences of packets. */
module ListSpec {
  import opened Packets
  import opened SeqNumbers

  /** add_specific_queue: sorted insertion that drops a number already held. */
  function Insert(list: seq<Packet>, p: Packet): seq<Packet>
    decreases |list|
  {
    if list == [] then [p]
    else if Precedes(list[0].seqnum, p.seqnum) then [list[0]] + Insert(list[1..], p)
    else if list[0].seqnum == p.seqnum then list
    else [p] + list
  }

  lemma InsertNonempty(list: seq<Packet>, p: Packet)
    ensures Insert(list, p) != []
  {
  }

  /** How many packets of the list the insertion loop passes over. */
  function Place(list: seq<Packet>, p: Packet): (k: nat)
    ensures k <= |list|
    ensures forall i :: 0 <= i < k ==> Precedes(list[i].seqnum, p.seqnum)
    ensures k < |list| ==> !Precedes(list[k].seqnum, p.seqnum)
    decreases |list|
  {
    if list == [] || !Precedes(list[0].seqnum, p.seqnum) then 0 else 1 + Place(list[1..], p)
  }

  /** p is put where the loop stops, unless the packet there has its number. */
  lemma {:induction false} InsertAtPlace(list: seq<Packet>, p: Packet)
    ensures var k := Place(list, p);
            Insert(list, p) ==
            if k < |list| && list[k].seqnum == p.seqnum then list else list[..k] + [p] + list[k..]
    decreases |list|
  {
    if list != [] && Precedes(list[0].seqnum, p.seqnum) {
      var rest := list[1..];
      var k := Place(rest, p);
      InsertAtPlace(rest, p);
      PlaceAfterHead(list, k, p);
    }
  }

  lemma PlaceAfterHead(list: seq<Packet>, k: nat, p: Packet)
    requires list != [] && k <= |list| - 1
    ensures [list[0]] + (list[1..][..k] + [p] + list[1..][k..]) == list[..k + 1] + [p] + list[k + 1..]
    ensures [list[0]] + list[1..] == list
  {
  }
}
