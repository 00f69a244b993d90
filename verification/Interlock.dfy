/**
 Where the driver's transmit side meets packet ownership: a task's reference becomes a transmit
 reference when its packet is sent, and the free callback of a finished mbuf (`packet_free_callback`
 in modules/dpdk.rs) gives back exactly that reference, at whatever moment it runs.
 */
module Interlock {
  import opened Common
  import opened Packets
  import opened Transmit

  lemma Cancel(x: multiset<PacketId>, a: multiset<PacketId>, b: multiset<PacketId>)
    requires x + a == x + b
    ensures a == b
  {
    assert x + a - x == x + b - x;
    assert x + a - x == a && x + b - x == b;
  }

  /** Only a finished mbuf takes references away; every other step adds what it sends. */
  lemma OutstandingStep(h: History, e: Event)
    requires Good(h.tx) && Enabled(h.tx, e) && !e.Done?
    ensures Outstanding(Apply(h, e).tx) == Outstanding(h.tx) + multiset(HeadSend(e))
  {
    StepAdds(h, e);
    var r := Apply(h, e);
    assert h.released + Outstanding(r.tx) == h.released + (Outstanding(h.tx) + multiset(HeadSend(e)));
    Cancel(h.released, Outstanding(r.tx), Outstanding(h.tx) + multiset(HeadSend(e)));
  }

  /** Whatever the driver does with a packet, the caller's reference becomes one the driver holds,
      and later bursts and refills, failed or not, neither add nor lose one. */
  lemma SendInterlocks(refs: multiset<PacketId>, mem: Memory, h: History, e: Event)
    requires Good(h.tx) && Enabled(h.tx, e) && !e.Done?
    requires Conserved(refs + multiset(HeadSend(e)) + Outstanding(h.tx), mem)
    ensures Conserved(refs + Outstanding(Apply(h, e).tx), mem)
  {
    OutstandingStep(h, e);
    assert refs + multiset(HeadSend(e)) + Outstanding(h.tx) == refs + (Outstanding(h.tx) + multiset(HeadSend(e)));
  }

  lemma CompleteOne(mem: Memory, tx: multiset<PacketId>, p: PacketId)
    ensures Complete(mem, tx + multiset{p}, [p]) == (Deallocate(mem, p), tx)
  {
    assert tx + multiset{p} - multiset{p} == tx;
    assert [p][1..] == [];
  }

  /** The callback of a finished mbuf is one deallocation of the packet it was sent with: the
      report the scheduler's model expects, and the books balance afterwards.  This holds at any
      point of a flush too. */
  lemma FinishInterlocks(refs: multiset<PacketId>, mem: Memory, t: Tx, i: nat, j: nat)
    requires Good(t) && Enabled(t, Done(i, j)) && Conserved(refs + Outstanding(t), mem)
    ensures var t', p := Next(t, Done(i, j)), PacketIn(t.callback, t.ring[i]);
            && Complete(mem, Outstanding(t), [p]) == (Deallocate(mem, p), Outstanding(t'))
            && Conserved(refs + Outstanding(t'), Deallocate(mem, p))
  {
    FinishMeaning(t, i, j);
    var t', p := Next(t, Done(i, j)), PacketIn(t.callback, t.ring[i]);
    CompleteOne(mem, Outstanding(t'), p);
    OneLess(refs, Outstanding(t), Outstanding(t'), multiset{p});
    DeallocateConserves(refs + Outstanding(t'), mem, p);
  }

  /** Packet memory after one step: only a finished mbuf touches it. */
  function MemAfter(h: History, mem: Memory, e: Event): Memory
    requires Shaped(h.tx) && Enabled(h.tx, e)
  {
    if e.Done? then Deallocate(mem, PacketIn(h.tx.callback, h.tx.ring[e.i])) else mem
  }

  ghost function MemAfterAll(h: History, mem: Memory, es: seq<Event>, r: History): Memory
    requires Shaped(h.tx) && Leads(h, es, r)
    decreases |es|
  {
    if es == [] then mem else MemAfterAll(Apply(h, es[0]), MemAfter(h, mem, es[0]), es[1..], r)
  }

  lemma EventInterlocks(refs: multiset<PacketId>, h: History, mem: Memory, e: Event)
    requires Good(h.tx) && Enabled(h.tx, e) && Conserved(refs + multiset(HeadSend(e)) + Outstanding(h.tx), mem)
    ensures Conserved(refs + Outstanding(Apply(h, e).tx), MemAfter(h, mem, e))
  {
    if e.Done? {
      assert refs + multiset(HeadSend(e)) == refs;
      FinishInterlocks(refs, mem, h.tx, e.i, e.j);
    } else {
      SendInterlocks(refs, mem, h, e);
    }
  }

  lemma Later(refs: multiset<PacketId>, e: Event, es: seq<Event>, out: multiset<PacketId>)
    ensures refs + multiset(HeadSend(e) + SendsIn(es)) + out ==
            refs + multiset(SendsIn(es)) + multiset(HeadSend(e)) + out
  {
  }

  /** Over any sequence of steps, successful or not, with completions at any moment: if every packet
      to be sent comes with a reference, then at the end every reference is with its holder or with
      the driver, no packet was released twice, and whatever the driver no longer holds is back in
      the pool or held by somebody else. */
  lemma {:induction false} DriverRunConserves(refs: multiset<PacketId>, h: History, mem: Memory, es: seq<Event>,
                                              r: History)
    requires Good(h.tx) && Leads(h, es, r)
    requires Conserved(refs + multiset(SendsIn(es)) + Outstanding(h.tx), mem)
    ensures Good(r.tx) && Conserved(refs + Outstanding(r.tx), MemAfterAll(h, mem, es, r))
    decreases |es|
  {
    if es == [] {
      assert refs + multiset(SendsIn(es)) == refs;
    } else {
      var e := es[0];
      Later(refs, e, es[1..], Outstanding(h.tx));
      EventInterlocks(refs + multiset(SendsIn(es[1..])), h, mem, e);
      StepAdds(h, e);
      DriverRunConserves(refs, Apply(h, e), MemAfter(h, mem, e), es[1..], r);
    }
  }
}
