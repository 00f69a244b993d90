/**
 The I/O node's set of adapters to flush (nio.rs), kept as a bitmask and as a small stack: what
 setting and toggling a bit do to the set of set bits, and when mask and stack agree.
 */
module FlushSet {
  import opened Common
  import opened Words

  const NUM_ADAPTER_MAX: nat := 16

  // ----- bits -----

  /** The set bits of `flag` are exactly the adapters in `bits`. */
  ghost predicate Represents(flag: nat, bits: set<nat>) {
    forall n: nat :: Bit(flag, n) <==> n in bits
  }

  /** Setting an adapter's bit adds it to the set, and the bit test is exact. */
  lemma SetRepresents(flag: nat, bits: set<nat>, nic: nat)
    requires Represents(flag, bits)
    ensures Represents(Or(flag, Pow2(nic)), bits + {nic})
    ensures And(flag, Pow2(nic)) == 0 <==> nic !in bits
  {
    TestBit(flag, nic);
    forall n: nat ensures Bit(Or(flag, Pow2(nic)), n) <==> n in bits + {nic} {
      OrBit(flag, Pow2(nic), n);
      Pow2Bit(nic, n);
    }
  }

  /** Toggling the bit of an adapter in the set removes it. */
  lemma ToggleRepresents(flag: nat, bits: set<nat>, nic: nat)
    requires Represents(flag, bits) && nic in bits
    ensures Represents(Xor(flag, Pow2(nic)), bits - {nic})
  {
    forall n: nat ensures Bit(Xor(flag, Pow2(nic)), n) <==> n in bits - {nic} {
      XorBit(flag, Pow2(nic), n);
      Pow2Bit(nic, n);
    }
  }

  /** Exactly zero represents the empty set. */
  lemma EmptyIffZero(flag: nat, bits: set<nat>)
    requires Represents(flag, bits)
    ensures bits == {} <==> flag == 0
  {
    if flag > 0 {
      var n := SomeBit(flag);
      assert n in bits;
    } else {
      forall n: nat ensures n !in bits {
        ZeroBits(n);
      }
    }
  }

  // ----- mask and stack -----

  /** The bitmask and the stack list the same adapters, each once. */
  ghost predicate Agree(flag: nat, queue: seq<nat>, adapters: nat) {
    && adapters <= NUM_ADAPTER_MAX
    && Distinct(queue) && Members(queue) <= Below(adapters) && Represents(flag, Members(queue))
  }

  lemma EmptySet(queue: seq<nat>, adapters: nat)
    requires queue == [] && adapters <= NUM_ADAPTER_MAX
    ensures Agree(0, queue, adapters)
  {
    assert Members(queue) == {};
    forall n: nat ensures !Bit(0, n) {
      ZeroBits(n);
    }
  }

  /** The agreement leaves room on the stack whenever an adapter is unmarked. */
  lemma RoomLeft(queue: seq<nat>, adapters: nat, nic: nat)
    requires Distinct(queue) && Members(queue) <= Below(adapters)
    ensures |queue| <= adapters
    ensures nic < adapters && nic !in queue ==> |queue| < adapters
  {
    DistinctSize(queue);
    SubsetSize(Members(queue), Below(adapters));
    if nic < adapters && nic !in queue {
      assert nic in Below(adapters) && nic !in Members(queue);
      ProperSubsetSmaller(Members(queue), Below(adapters));
    }
  }

  /** Marking: the bit test is exact, there is room when it says unmarked, and pushing and setting
      keep the agreement. */
  lemma MarkAgrees(flag: nat, queue: seq<nat>, adapters: nat, nic: nat)
    requires Agree(flag, queue, adapters) && nic < adapters
    ensures And(flag, Pow2(nic)) == 0 <==> nic !in queue
    ensures |queue| <= NUM_ADAPTER_MAX
    ensures nic !in queue ==> |queue| < NUM_ADAPTER_MAX && Agree(Or(flag, Pow2(nic)), queue + [nic], adapters)
  {
    RoomLeft(queue, adapters, nic);
    SetRepresents(flag, Members(queue), nic);
    MembersLast(queue + [nic]);
    assert (queue + [nic])[..|queue|] == queue;
  }

  /** Unmarking: popping the stack and toggling the popped adapter's bit keep the agreement. */
  lemma UnmarkAgrees(flag: nat, queue: seq<nat>, adapters: nat)
    requires Agree(flag, queue, adapters) && queue != []
    ensures queue[|queue| - 1] < adapters
    ensures Agree(Xor(flag, Pow2(queue[|queue| - 1])), queue[..|queue| - 1], adapters)
  {
    MembersLast(queue);
    ToggleRepresents(flag, Members(queue), queue[|queue| - 1]);
    assert Members(queue) - {queue[|queue| - 1]} == Members(queue[..|queue| - 1]);
  }

  /** In every agreeing state an empty stack means a zero mask, and conversely. */
  lemma EmptyAgrees(flag: nat, queue: seq<nat>, adapters: nat)
    requires Agree(flag, queue, adapters)
    ensures queue == [] <==> flag == 0
  {
    EmptyIffZero(flag, Members(queue));
    if queue != [] {
      assert queue[0] in Members(queue);
    }
  }
}
