/**
 The I/O node (nio.rs) over up to 16 adapters.  Every adapter with pending transmits is in the
 flush set, so the flush loop of `poll` leaves nothing pending.
 */
module IoNodes {
  import opened Common
  import opened Packets
  import opened Transmit
  import opened FlushSet
  import opened Words

  /** Every adapter got from `was` to `now` by steps that send nothing. */
  ghost predicate Quiet(was: seq<History>, now: seq<History>, traces: seq<seq<Event>>) {
    && |was| == |now| == |traces|
    && forall i :: 0 <= i < |was| ==> Shaped(was[i].tx) && Leads(was[i], traces[i], now[i]) && SendsIn(traces[i]) == []
  }

  /** The pool of every listed adapter, with what came and went, covered its batch. */
  predicate AllCovered(queue: seq<nat>, was: seq<History>, traces: seq<seq<Event>>)
    requires |was| == |traces|
  {
    forall q :: 0 <= q < |queue| && queue[q] < |was| ==> Covered(was[queue[q]], traces[queue[q]])
  }

  /** Nothing is pending on any adapter, and all that was sent has been accepted, in order. */
  ghost predicate AllOut(was: seq<History>, now: seq<History>) {
    && |was| == |now|
    && forall i :: 0 <= i < |was| ==>
         Shaped(was[i].tx) && now[i].tx.idx == 0 && now[i].tx.accepted == Sent(was[i].tx)
  }

  ghost predicate SomeBroken(now: seq<History>) {
    exists i :: 0 <= i < |now| && now[i].tx.mode.Broken?
  }

  /** Adapters are ready, and every one with pending transmits is listed. */
  ghost predicate Listed(hs: seq<History>, queue: seq<nat>) {
    forall i :: 0 <= i < |hs| ==> Ready(hs[i].tx) && (hs[i].tx.idx > 0 ==> i in queue)
  }

  /** Where the flush loop is when the adapters of `queue` from position `k` on have been flushed
      without an error: those have, and the others are as they were. */
  ghost predicate Part(was: seq<History>, now: seq<History>, traces: seq<seq<Event>>, queue: seq<nat>, k: nat) {
    && |was| == |now| == |traces| && k <= |queue| && Distinct(queue) && Listed(was, queue)
    && (forall q :: 0 <= q < |queue| ==> queue[q] < |was|)
    && (forall i :: 0 <= i < |was| && i !in queue[k..] ==> now[i] == was[i] && traces[i] == [])
    && (forall q :: k <= q < |queue| ==> Flushed(was, now, traces, queue[q]))
  }

  ghost predicate Flushed(was: seq<History>, now: seq<History>, traces: seq<seq<Event>>, i: nat) {
    && i < |was| == |now| == |traces|
    && FlushedBy(was[i], traces[i], now[i]) && Covered(was[i], traces[i]) && now[i].tx.mode.Open?
  }

  lemma ListedIn(hs: seq<History>, a: seq<nat>, b: seq<nat>)
    requires Listed(hs, a) && Members(a) <= Members(b)
    ensures Listed(hs, b)
  {
    forall i | 0 <= i < |hs| && i in a ensures i in b {
      assert i in Members(a);
    }
  }

  lemma ListedWith(hs: seq<History>, queue: seq<nat>, nic: nat, h: History)
    requires Listed(hs, queue) && nic < |hs| && Ready(h.tx)
    ensures Listed(hs[nic := h], queue + [nic])
  {
  }

  lemma PlaceOf(queue: seq<nat>, k: nat, i: nat) returns (q: nat)
    requires k <= |queue| && i in queue[k..]
    ensures k <= q < |queue| && queue[q] == i
  {
    var r :| 0 <= r < |queue[k..]| && queue[k..][r] == i;
    q := k + r;
  }

  lemma PartReady(was: seq<History>, now: seq<History>, traces: seq<seq<Event>>, queue: seq<nat>, k: nat)
    requires Part(was, now, traces, queue, k)
    ensures Listed(now, queue[..k])
  {
    forall i | 0 <= i < |now| ensures Ready(now[i].tx) && (now[i].tx.idx > 0 ==> i in queue[..k]) {
      if i in queue[k..] {
        var q := PlaceOf(queue, k, i);
        assert Flushed(was, now, traces, queue[q]);
      } else {
        assert queue == queue[..k] + queue[k..];
      }
    }
  }

  lemma PartStart(was: seq<History>, queue: seq<nat>)
    requires Distinct(queue) && Listed(was, queue) && forall q :: 0 <= q < |queue| ==> queue[q] < |was|
    ensures Part(was, was, seq(|was|, _ => []), queue, |queue|)
  {
  }

  /** The adapter on top has not been flushed. */
  lemma TopApart(was: seq<History>, now: seq<History>, traces: seq<seq<Event>>, queue: seq<nat>, k: nat, top: nat)
    requires Part(was, now, traces, queue, k) && 0 < k && top == queue[k - 1]
    ensures top < |was| && now[top] == was[top] && traces[top] == [] && Ready(was[top].tx)
    ensures queue[k - 1..] == [top] + queue[k..] && forall q :: k <= q < |queue| ==> queue[q] != top
  {
    assert top !in queue[k..] by {
      if top in queue[k..] {
        var q := PlaceOf(queue, k, top);
      }
    }
  }

  /** One more adapter flushed. */
  lemma FlushOneMore(was: seq<History>, now: seq<History>, traces: seq<seq<Event>>, queue: seq<nat>, k: nat,
                     top: nat, r: History, es: seq<Event>)
    requires Part(was, now, traces, queue, k) && 0 < k && top == queue[k - 1] && top < |now|
    requires FlushedBy(now[top], es, r) && Covered(now[top], es) && r.tx.mode.Open?
    ensures Part(was, now[top := r], traces[top := es], queue, k - 1)
  {
    TopApart(was, now, traces, queue, k, top);
    forall q | k - 1 <= q < |queue| ensures Flushed(was, now[top := r], traces[top := es], queue[q]) {
      if q >= k {
        assert Flushed(was, now, traces, queue[q]);
      }
    }
  }

  lemma PartQuiet(was: seq<History>, now: seq<History>, traces: seq<seq<Event>>, queue: seq<nat>, k: nat)
    requires Part(was, now, traces, queue, k)
    ensures Quiet(was, now, traces)
  {
    forall i | 0 <= i < |was|
      ensures Shaped(was[i].tx) && Leads(was[i], traces[i], now[i]) && SendsIn(traces[i]) == []
    {
      if i in queue[k..] {
        var q := PlaceOf(queue, k, i);
        assert Flushed(was, now, traces, queue[q]);
      }
    }
  }

  /** The loop stops at an adapter whose refill failed. */
  lemma FlushStopped(was: seq<History>, now: seq<History>, traces: seq<seq<Event>>, queue: seq<nat>, k: nat,
                     top: nat, r: History, es: seq<Event>)
    requires Part(was, now, traces, queue, k) && 0 < k && top == queue[k - 1] && top < |now|
    requires FlushedBy(now[top], es, r) && !Covered(now[top], es) && r.tx.mode.Broken?
    ensures Quiet(was, now[top := r], traces[top := es]) && SomeBroken(now[top := r])
    ensures !AllCovered(queue, was, traces[top := es])
  {
    TopApart(was, now, traces, queue, k, top);
    PartQuiet(was, now, traces, queue, k);
    assert now[top := r][top].tx.mode.Broken?;
  }

  /** The loop comes to its end: nothing is pending anywhere. */
  lemma PartEnd(was: seq<History>, now: seq<History>, traces: seq<seq<Event>>, queue: seq<nat>)
    requires Part(was, now, traces, queue, 0)
    ensures Quiet(was, now, traces) && AllOut(was, now) && AllCovered(queue, was, traces)
  {
    PartQuiet(was, now, traces, queue, 0);
    forall i | 0 <= i < |was|
      ensures Shaped(was[i].tx) && now[i].tx.idx == 0 && now[i].tx.accepted == Sent(was[i].tx)
    {
      if i in queue[0..] {
        var q := PlaceOf(queue, 0, i);
        assert Flushed(was, now, traces, queue[q]);
      } else {
        assert queue[0..] == queue && Pending(was[i].tx) == [];
      }
    }
    forall q | 0 <= q < |queue| && queue[q] < |was| ensures Covered(was[queue[q]], traces[queue[q]]) {
      assert Flushed(was, now, traces, queue[q]);
    }
  }

  class IoNode {
    const flushQueue: array<nat>
    var flushFlag: nat
    var flushQueueIdx: nat
    const adapters: seq<Dpdk>

    /** No two adapters share storage, and there is room for all of them. */
    ghost predicate Separate() {
      && (forall i, j :: 0 <= i < j < |adapters| ==>
          adapters[i] != adapters[j] && adapters[i].txBufs != adapters[j].txBufs)
      && (forall i :: 0 <= i < |adapters| ==> adapters[i].txBufs != flushQueue)
      && |adapters| <= NUM_ADAPTER_MAX && flushQueue.Length == NUM_ADAPTER_MAX
    }

    ghost function Buffers(): set<object> {
      set i | 0 <= i < |adapters| :: adapters[i].txBufs
    }

    /** The adapters waiting for a flush. */
    ghost function Queue(): seq<nat>
      reads this, flushQueue
      requires flushQueueIdx <= flushQueue.Length
    {
      flushQueue[..flushQueueIdx]
    }

    /** The bitmask and the stack agree. */
    ghost predicate Flagged()
      reads this, flushQueue
    {
      Separate() && flushQueueIdx <= flushQueue.Length && Agree(flushFlag, Queue(), |adapters|)
    }

    ghost function HistoryOf(i: nat): History
      reads this, adapters, Buffers()
      requires i < |adapters|
    {
      assert adapters[i].txBufs in Buffers();
      adapters[i].View()
    }

    ghost function ViewOf(i: nat): Tx
      reads this, adapters, Buffers()
      requires i < |adapters|
    {
      HistoryOf(i).tx
    }

    ghost function Histories(): (r: seq<History>)
      reads this, adapters, Buffers()
      ensures |r| == |adapters| && forall i :: 0 <= i < |r| ==> r[i] == HistoryOf(i)
    {
      seq(|adapters|, i requires 0 <= i < |adapters| reads this, adapters, Buffers() => HistoryOf(i))
    }

    /** The invariant between calls: mask and stack agree, adapters are ready, and every adapter
        with pending transmits is marked. */
    ghost predicate Valid()
      reads this, flushQueue, adapters, Buffers()
    {
      Flagged() && Listed(Histories(), Queue())
    }

    /** After `init`: every adapter is ready and nothing is pending. */
    constructor (ready: seq<Dpdk>)
      requires |ready| <= NUM_ADAPTER_MAX
      requires forall i, j :: 0 <= i < j < |ready| ==> ready[i] != ready[j] && ready[i].txBufs != ready[j].txBufs
      requires forall i :: 0 <= i < |ready| ==> Ready(ready[i].View().tx) && ready[i].txIdx == 0
      ensures Valid() && adapters == ready && flushFlag == 0 && flushQueueIdx == 0
    {
      flushQueue := new nat[NUM_ADAPTER_MAX](_ => 0);
      flushFlag, flushQueueIdx := 0, 0;
      adapters := ready;
      new;
      EmptySet(Queue(), |adapters|);
    }

    /** Add `nic` to the flush set unless it is there. */
    method MarkNic(nic: nat)
      requires Flagged() && nic < |adapters|
      modifies this`flushFlag, this`flushQueueIdx, flushQueue
      ensures Flagged() && Members(Queue()) == old(Members(Queue())) + {nic}
    {
      ghost var queue := Queue();
      MarkAgrees(flushFlag, queue, |adapters|, nic);
      if And(flushFlag, Pow2(nic)) == 0 {
        flushQueue[flushQueueIdx] := nic;
        flushFlag := Or(flushFlag, Pow2(nic));
        flushQueueIdx := flushQueueIdx + 1;
        assert Queue() == queue + [nic];
      }
    }

    /** Take the top adapter out of the flush set. */
    method UnmarkTop() returns (nic: nat)
      requires Flagged() && flushQueueIdx != 0
      modifies this`flushFlag, this`flushQueueIdx
      ensures Flagged() && nic < |adapters| && flushQueueIdx == old(flushQueueIdx) - 1
      ensures old(Queue()) == Queue() + [nic]
    {
      ghost var queue := Queue();
      UnmarkAgrees(flushFlag, queue, |adapters|);
      flushQueueIdx := flushQueueIdx - 1;
      nic := flushQueue[flushQueueIdx];
      assert Queue() == queue[..|queue| - 1];
      flushFlag := Xor(flushFlag, Pow2(nic));
    }

    /** Send on one adapter; the others keep their state. */
    method SendOn(nic: nat, p: PacketId, answers: nat -> Answer) returns (ok: bool, ghost es: seq<Event>)
      requires Separate() && nic < |adapters| && Ready(ViewOf(nic)) && Fair(answers)
      modifies adapters[nic], adapters[nic].txBufs
      ensures Leads(old(HistoryOf(nic)), es, HistoryOf(nic)) && SendsIn(es) == [p]
      ensures Shaped(ViewOf(nic)) && Sent(ViewOf(nic)) == Sent(old(ViewOf(nic))) + [p]
      ensures (ok <==> ViewOf(nic).mode.Open?) && (ok ==> Ready(ViewOf(nic)))
      ensures ok <==> old(ViewOf(nic)).idx + 1 < NIC_BURST || NIC_BURST <= |old(ViewOf(nic)).free| + Gain(es)
      ensures forall i :: 0 <= i < |adapters| && i != nic ==> HistoryOf(i) == old(HistoryOf(i))
    {
      ok, es := adapters[nic].Send(p, answers);
    }

    /** `process`: send on the packet's NIC, then mark the NIC.  Whatever the NIC does meanwhile,
        exactly this packet is appended to what was sent on this adapter.  An error, which only a
        full batch and a pool that does not cover it can cause, leaves the marks alone. */
    method Process(nic: nat, p: PacketId, answers: nat -> Answer) returns (ok: bool, ghost es: seq<Event>)
      requires Valid() && nic < |adapters| && Fair(answers)
      modifies this`flushFlag, this`flushQueueIdx, flushQueue, adapters[nic], adapters[nic].txBufs
      ensures Shaped(old(ViewOf(nic))) && Shaped(ViewOf(nic))
      ensures Leads(old(HistoryOf(nic)), es, HistoryOf(nic)) && SendsIn(es) == [p]
      ensures Sent(ViewOf(nic)) == Sent(old(ViewOf(nic))) + [p]
      ensures ok <==> ViewOf(nic).mode.Open?
      ensures ok <==> old(ViewOf(nic)).idx + 1 < NIC_BURST || NIC_BURST <= |old(ViewOf(nic)).free| + Gain(es)
      ensures ok ==> Valid() && Members(Queue()) == old(Members(Queue())) + {nic}
      ensures !ok ==> Flagged() && Queue() == old(Queue()) && flushFlag == old(flushFlag)
    {
      assert Ready(Histories()[nic].tx);
      ghost var hs := Histories();
      ok, es := SendOn(nic, p, answers);
      if ok {
        assert Histories() == hs[nic := HistoryOf(nic)];
        ListedWith(hs, Queue(), nic, HistoryOf(nic));
        MarkPending(nic);
        assert HistoryOf(nic) == Histories()[nic];
      }
    }

    /** Marking keeps the invariant for the adapter it marks. */
    method MarkPending(nic: nat)
      requires Flagged() && nic < |adapters| && Listed(Histories(), Queue() + [nic])
      modifies this`flushFlag, this`flushQueueIdx, flushQueue
      ensures Valid() && Members(Queue()) == old(Members(Queue())) + {nic}
      ensures Histories() == old(Histories())
    {
      ghost var hs, queue := Histories(), Queue();
      MarkNic(nic);
      assert forall i :: 0 <= i < |adapters| ==> HistoryOf(i) == old(HistoryOf(i));
      assert Histories() == hs;
      ListedIn(hs, queue + [nic], Queue());
    }

    /** Flush one adapter; the others keep their state. */
    method FlushAdapter(nic: nat, answers: nat -> Answer) returns (ok: bool, ghost es: seq<Event>)
      requires Separate() && nic < |adapters| && Ready(ViewOf(nic)) && Fair(answers)
      modifies adapters[nic], adapters[nic].txBufs
      ensures FlushedBy(old(HistoryOf(nic)), es, HistoryOf(nic))
      ensures (ok <==> ViewOf(nic).mode.Open?) && (!ok ==> ViewOf(nic).mode.Broken?)
      ensures ok <==> Covered(old(HistoryOf(nic)), es)
      ensures Histories() == old(Histories())[nic := HistoryOf(nic)]
    {
      ok, es := adapters[nic].Flush(answers);
      assert forall i :: 0 <= i < |adapters| && i != nic ==> HistoryOf(i) == old(HistoryOf(i));
    }

    /** One iteration of the flush loop: the adapter on top is unmarked and flushed, and it is an
        error exactly when its refill fails. */
    method FlushTop(answers: nat -> nat -> Answer) returns (ok: bool, ghost nic: nat, ghost es: seq<Event>)
      requires Valid() && flushQueueIdx != 0 && forall i: nat :: Fair(answers(i))
      modifies this`flushFlag, this`flushQueueIdx, adapters, Buffers()
      ensures Flagged() && nic < |adapters| && old(Queue()) == Queue() + [nic]
      ensures FlushedBy(old(HistoryOf(nic)), es, HistoryOf(nic))
      ensures (ok <==> ViewOf(nic).mode.Open?) && (!ok ==> ViewOf(nic).mode.Broken?)
      ensures ok <==> Covered(old(HistoryOf(nic)), es)
      ensures Histories() == old(Histories())[nic := HistoryOf(nic)]
    {
      var top := UnmarkTop();
      nic := top;
      assert adapters[top].txBufs in Buffers();
      assert forall i :: 0 <= i < |adapters| ==> HistoryOf(i) == old(HistoryOf(i));
      assert Histories() == old(Histories());
      assert Ready(Histories()[top].tx);
      ok, es := FlushAdapter(top, answers(top));
    }

    /** The flush loop is under way, without an error so far. */
    ghost predicate Flushing(was: seq<History>, traces: seq<seq<Event>>, queue: seq<nat>)
      reads this, flushQueue, adapters, Buffers()
    {
      && Flagged() && flushQueueIdx <= |queue| && Queue() == queue[..flushQueueIdx]
      && Part(was, Histories(), traces, queue, flushQueueIdx)
    }

    /** One iteration, as part of the loop. */
    method FlushNext(answers: nat -> nat -> Answer, ghost was: seq<History>, ghost queue: seq<nat>,
                     ghost before: seq<seq<Event>>)
      returns (ok: bool, ghost traces: seq<seq<Event>>)
      requires Flushing(was, before, queue) && flushQueueIdx != 0 && forall i: nat :: Fair(answers(i))
      modifies this`flushFlag, this`flushQueueIdx, adapters, Buffers()
      ensures ok ==> Flushing(was, traces, queue) && flushQueueIdx < old(flushQueueIdx)
      ensures !ok ==> Quiet(was, Histories(), traces) && SomeBroken(Histories()) && !AllCovered(queue, was, traces)
    {
      ghost var now, k := Histories(), flushQueueIdx;
      PartReady(was, now, before, queue, k);
      ghost var top, es;
      ok, top, es := FlushTop(answers);
      LastTop(queue, k, Queue(), top);
      traces := before[top := es];
      if ok {
        FlushOneMore(was, now, before, queue, k, top, HistoryOf(top), es);
      } else {
        FlushStopped(was, now, before, queue, k, top, HistoryOf(top), es);
      }
    }

    /** The flush loop of `poll`.  It succeeds exactly when every marked adapter's pool, with what
        comes and goes while that adapter is flushed, covers its batch; then the mask is zero, the
        stack is empty and no adapter has anything pending: everything sent on each adapter has
        reached its NIC, in order.  An error means that some adapter's refill failed. */
    method FlushAll(answers: nat -> nat -> Answer) returns (ok: bool, ghost traces: seq<seq<Event>>)
      requires Valid() && forall i: nat :: Fair(answers(i))
      modifies this`flushFlag, this`flushQueueIdx, adapters, Buffers()
      ensures Quiet(old(Histories()), Histories(), traces)
      ensures ok <==> AllCovered(old(Queue()), old(Histories()), traces)
      ensures ok ==> Valid() && flushFlag == 0 && flushQueueIdx == 0 && AllOut(old(Histories()), Histories())
      ensures !ok ==> SomeBroken(Histories())
    {
      ghost var was, queue := Histories(), Queue();
      QueueInRange(flushFlag, queue, |adapters|);
      traces := seq(|adapters|, _ => []);
      PartStart(was, queue);
      while flushQueueIdx != 0
        invariant Flushing(was, traces, queue)
        decreases flushQueueIdx
      {
        ok, traces := FlushNext(answers, was, queue, traces);
        if !ok {
          return false, traces;
        }
      }
      PartReady(was, Histories(), traces, queue, 0);
      PartEnd(was, Histories(), traces, queue);
      EmptyAgrees(flushFlag, Queue(), |adapters|);
      return true, traces;
    }
  }

  lemma QueueInRange(flag: nat, queue: seq<nat>, n: nat)
    requires Agree(flag, queue, n)
    ensures Distinct(queue) && forall q :: 0 <= q < |queue| ==> queue[q] < n
  {
    forall q | 0 <= q < |queue| ensures queue[q] < n {
      assert queue[q] in Members(queue);
    }
  }

  lemma LastTop(queue: seq<nat>, k: nat, rest: seq<nat>, top: nat)
    requires 0 < k <= |queue| && queue[..k] == rest + [top]
    ensures queue[k - 1] == top && rest == queue[..k - 1] && |rest| == k - 1
  {
    assert queue[..k][k - 1] == top;
    assert queue[..k][..k - 1] == rest;
  }
}
