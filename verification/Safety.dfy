/** What the invariant means for a transfer: every statement here is about every run of the protocol
    over a link that loses, repeats, reorders, cuts and damages packets. */
module Safety {
  import opened SeqNumbers
  import opened Protocol
  import RI = ReceiverInvariant

  lemma {:induction false} ConcatPrefix(a: seq<seq<bv8>>, b: seq<seq<bv8>>)
    requires a <= b
    ensures Concat(a) <= Concat(b)
    decreases |b| - |a|
  {
    if |a| < |b| {
      var a1 := b[..|a| + 1];
      assert a1[..|a|] == a;
      assert Concat(a1) == Concat(a) + b[|a|];
      ConcatPrefix(a1, b);
    } else {
      assert a == b;
    }
  }

  lemma OutputOfInv(s: State, input: seq<bv8>)
    requires Inv(s) && InputOk(s, input)
    ensures Output(s) <= input
    ensures Expected(s) <= |s.chunks| ==> s.rcv.out == s.chunks[..Expected(s)]
    ensures Expected(s) >= |s.chunks| ==> Output(s) == Concat(s.chunks)
  {
    var n := |s.chunks|;
    if Expected(s) <= n {
      assert s.rcv.out == s.chunks[..Expected(s)];
      ConcatPrefix(s.rcv.out, s.chunks);
      if Expected(s) == n {
        assert s.rcv.out == s.chunks;
      }
    } else {
      assert s.rcv.out[..n] == s.chunks;
      assert s.rcv.out[n] == [];
      assert Concat(s.rcv.out) == Concat(s.chunks) + [];
    }
  }

  /** The file written is at every moment a prefix of the input, made of whole chunks. */
  lemma OutputIsPrefix(input: seq<bv8>, evs: seq<Event>)
    requires Legal(Init(input), evs)
    ensures var s := Run(Init(input), evs);
            && Output(s) <= input
            && (Expected(s) <= |s.chunks| ==> s.rcv.out == s.chunks[..Expected(s)])
  {
    ReachableInv(input, evs);
    OutputOfInv(Run(Init(input), evs), input);
  }

  /** When the receiver has reported the end of the transfer, it has written the whole input. */
  lemma EndIsSound(input: seq<bv8>, evs: seq<Event>)
    requires Legal(Init(input), evs)
    requires !Run(Init(input), evs).rcv.running
    ensures Output(Run(Init(input), evs)) == input
  {
    var s := Run(Init(input), evs);
    ReachableInv(input, evs);
    OutputOfInv(s, input);
  }

  /** When the sender has stopped, the receiver has already written the whole input. */
  lemma SenderStopIsSound(input: seq<bv8>, evs: seq<Event>)
    requires Legal(Init(input), evs)
    requires !Run(Init(input), evs).snd.running
    ensures Output(Run(Init(input), evs)) == input
  {
    var s := Run(Init(input), evs);
    ReachableInv(input, evs);
    OutputOfInv(s, input);
  }

  /** Once the final packet has been written, the receiver has stopped exactly when that packet is not
      numbered 255. */
  lemma EndSeenUnless255(input: seq<bv8>, evs: seq<Event>)
    requires Legal(Init(input), evs)
    requires var s := Run(Init(input), evs); Expected(s) > |s.chunks|
    ensures var s := Run(Init(input), evs); !s.rcv.running <==> Low8(|s.chunks|) != 255
  {
    ReachableInv(input, evs);
  }

  /** The sender's list holds exactly the chunks that are not acknowledged, in order, each with a payload
      of 1 to 512 bytes and the low eight bits of its number. */
  ghost predicate HoldsUnacknowledged(s: State) {
    && Base(s) + |s.snd.list| == |s.chunks|
    && forall i :: 0 <= i < |s.snd.list| ==>
         && s.snd.list[i].seqnum == Low8(Base(s) + i)
         && s.snd.list[i].payload == s.chunks[Base(s) + i]
         && 1 <= |s.snd.list[i].payload| <= 512
  }

  /** In every run the sender's list is the unacknowledged chunks, and there are at most 31. */
  lemma SenderListAlways(input: seq<bv8>, evs: seq<Event>)
    requires Legal(Init(input), evs)
    ensures var s := Run(Init(input), evs); HoldsUnacknowledged(s) && |s.snd.list| <= 31
  {
    ReachableInv(input, evs);
    UnacknowledgedChunks(Run(Init(input), evs));
  }

  lemma UnacknowledgedChunks(s: State)
    requires ChunksOk(s.chunks) && SenderOk(s)
    ensures HoldsUnacknowledged(s)
  {
    forall i | 0 <= i < |s.snd.list|
      ensures 1 <= |s.snd.list[i].payload| <= 512
    {
      assert IsChunk(s.snd.list[i], s.chunks, Base(s) + i);
    }
  }

  /** In every run the expected number lies between the oldest unacknowledged one and the next new one,
      which are at most 31 apart; and what the receiver holds lies at offsets 1 to 30. */
  lemma WindowAlways(input: seq<bv8>, evs: seq<Event>)
    requires Legal(Init(input), evs)
    ensures var s := Run(Init(input), evs);
            && Base(s) <= Expected(s)
            && |s.chunks| <= Base(s) + 31
            && (s.snd.running ==> Expected(s) <= |s.chunks|)
            && forall p :: p in s.rcv.list ==> 1 <= Offset(s.rcv.waited, p.seqnum) <= 30
  {
    ReachableInv(input, evs);
    var s := Run(Init(input), evs);
    RI.BufferedOffsets(s.rcv.list, s.rcv.waited);
    forall p | p in s.rcv.list
      ensures 1 <= Offset(s.rcv.waited, p.seqnum) <= 30
    {
      var i :| 0 <= i < |s.rcv.list| && s.rcv.list[i] == p;
      assert IsChunk(p, s.chunks, NumberFrom(Expected(s), p.seqnum));
    }
  }
}
