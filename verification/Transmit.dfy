/**
 The driver's transmit side (modules/dpdk.rs): a 64-slot batch buffer of pre-allocated mbufs,
 drained by partial NIC writes and refilled from the mbuf pool.  Each mbuf carries the packet its
 free callback will release, and mbufs are recycled, so an mbuf must not be attached to a new
 packet before the NIC has finished with the old one.

 The steps are those the NIC and other queues can get between: one packet attached, one partial
 write, one refill, one mbuf finished, one mbuf taken from or returned to the shared pool.
 */
module Transmit {
  import opened Common
  import opened Packets

  /** `Open`: between calls.  `Flushing`: in a flush, before its refill.  `Broken`: a refill failed. */
  datatype Mode = Open | Flushing | Broken

  /**
   `slots`: the batch buffer.  The NIC has taken the first `out` of them in the current flush, and
   the next `idx` are pending.  `callback`: the packet stored in each mbuf for its free callback.
   `free`: the mbuf pool, in the order it hands mbufs out.  `ring`: mbufs the NIC has accepted and
   not finished.  `accepted`: the packets of all mbufs accepted so far, in order.
   */
  datatype Tx = Tx(
    slots: seq<MbufId>, out: nat, idx: nat, mode: Mode, callback: map<MbufId, PacketId>,
    free: seq<MbufId>, ring: seq<MbufId>, accepted: seq<PacketId>)

  /** The packet stored in an mbuf; an mbuf never written holds the null packet. */
  function PacketIn(callback: map<MbufId, PacketId>, m: MbufId): PacketId {
    if m in callback then callback[m] else 0
  }

  /** The packets a list of mbufs will release. */
  function PacketsAt(callback: map<MbufId, PacketId>, ms: seq<MbufId>): (r: seq<PacketId>)
    ensures |r| == |ms| && forall i :: 0 <= i < |r| ==> r[i] == PacketIn(callback, ms[i])
  {
    seq(|ms|, i requires 0 <= i < |ms| => PacketIn(callback, ms[i]))
  }

  lemma PacketsAtConcat(callback: map<MbufId, PacketId>, a: seq<MbufId>, b: seq<MbufId>)
    ensures PacketsAt(callback, a + b) == PacketsAt(callback, a) + PacketsAt(callback, b)
  {
  }

  ghost predicate Unique(ms: multiset<MbufId>) {
    forall m :: ms[m] <= 1
  }

  predicate Shaped(t: Tx) {
    && |t.slots| == NIC_BURST && t.out + t.idx <= NIC_BURST
    && (t.mode.Open? ==> t.out == 0 && t.idx < NIC_BURST)
    && (t.mode.Flushing? ==> t.out + t.idx > 0)
    && (t.mode.Broken? ==> t.idx == 0 && t.out > 0)
  }

  /** The slots the driver still owns. */
  function Owned(t: Tx): seq<MbufId>
    requires Shaped(t)
  {
    t.slots[t.out..]
  }

  ghost function AllMbufs(t: Tx): multiset<MbufId>
    requires Shaped(t)
  {
    multiset(Owned(t)) + multiset(t.ring) + multiset(t.free)
  }

  /** What every step keeps: no mbuf is in two places. */
  ghost predicate Good(t: Tx) {
    Shaped(t) && Unique(AllMbufs(t))
  }

  /** The state between calls. */
  ghost predicate Ready(t: Tx) {
    Good(t) && t.mode.Open?
  }

  function PendingMbufs(t: Tx): seq<MbufId>
    requires Shaped(t)
  {
    t.slots[t.out..t.out + t.idx]
  }

  function Pending(t: Tx): seq<PacketId>
    requires Shaped(t)
  {
    PacketsAt(t.callback, PendingMbufs(t))
  }

  function InRing(t: Tx): seq<PacketId> {
    PacketsAt(t.callback, t.ring)
  }

  /** The transmit references the driver holds: one per pending or in-flight mbuf. */
  ghost function Outstanding(t: Tx): multiset<PacketId>
    requires Shaped(t)
  {
    multiset(Pending(t)) + multiset(InRing(t))
  }

  /** Every packet sent, in order: what the NIC accepted, then what is pending. */
  function Sent(t: Tx): seq<PacketId>
    requires Shaped(t)
  {
    t.accepted + Pending(t)
  }

  // ----- the steps -----

  /** `Attach`: a send fills the next slot, and starts a flush when that was the last.  `Start`: a
      flush of a partial batch.  `Burst`: the NIC takes the next `n` pending mbufs.  `Refill`: the
      batch is out and its slots are refilled, all or nothing.  `Done`: the NIC finishes the i-th
      mbuf of its ring, which rejoins the pool at position j.  `Taken`, `Given`: other users of the
      pool take the j-th mbuf or return one. */
  datatype Event =
    | Attach(p: PacketId) | Start | Burst(n: nat) | Refill
    | Done(i: nat, j: nat) | Taken(j: nat) | Given(m: MbufId, j: nat)

  /** The steps that are not the driver's own. */
  predicate Outside(e: Event) {
    e.Done? || e.Taken? || e.Given?
  }

  /** Where the program is decides which of its steps comes next; the others can come at any time. */
  predicate Enabled(t: Tx, e: Event)
    requires Shaped(t)
  {
    match e
    case Attach(_) => t.mode.Open?
    case Start => t.mode.Open? && t.idx > 0
    case Burst(n) => t.mode.Flushing? && n <= t.idx
    case Refill => t.mode.Flushing? && t.idx == 0
    case Done(i, j) => i < |t.ring| && j <= |t.free|
    case Taken(j) => j < |t.free|
    case Given(m, j) => j <= |t.free| && m !in Owned(t) && m !in t.ring && m !in t.free
  }

  function Next(t: Tx, e: Event): (r: Tx)
    requires Shaped(t) && Enabled(t, e)
    ensures Shaped(r)
  {
    match e
    case Attach(p) =>
      t.(callback := t.callback[t.slots[t.idx] := p], idx := t.idx + 1,
         mode := if t.idx + 1 == NIC_BURST then Flushing else Open)
    case Start => t.(mode := Flushing)
    case Burst(n) =>
      var batch := t.slots[t.out..t.out + n];
      t.(ring := t.ring + batch, accepted := t.accepted + PacketsAt(t.callback, batch), out := t.out + n,
          idx := t.idx - n)
    case Refill =>
      if t.out <= |t.free| then t.(slots := t.free[..t.out] + t.slots[t.out..], free := t.free[t.out..], out := 0,
          mode := Open)
      else t.(mode := Broken)
    case Done(i, j) =>
      t.(ring := t.ring[..i] + t.ring[i + 1..], free := t.free[..j] + [t.ring[i]] + t.free[j..])
    case Taken(j) => t.(free := t.free[..j] + t.free[j + 1..])
    case Given(m, j) => t.(free := t.free[..j] + [m] + t.free[j..])
  }

  /** The state, the packets whose callback has run, and the mbufs other users took and returned. */
  datatype History = History(tx: Tx, released: multiset<PacketId>, taken: multiset<MbufId>, given: multiset<MbufId>)

  function Apply(h: History, e: Event): (r: History)
    requires Shaped(h.tx) && Enabled(h.tx, e)
    ensures Shaped(r.tx)
  {
    var t := Next(h.tx, e);
    match e
    case Done(i, _) => h.(tx := t, released := h.released + multiset{PacketIn(h.tx.callback, h.tx.ring[i])})
    case Taken(j) => h.(tx := t, taken := h.taken + multiset{h.tx.free[j]})
    case Given(m, _) => h.(tx := t, given := h.given + multiset{m})
    case _ => h.(tx := t)
  }

  // ----- what one step does -----

  lemma SplitMultiset<T>(s: seq<T>, i: nat)
    requires i <= |s|
    ensures multiset(s) == multiset(s[..i]) + multiset(s[i..])
  {
    assert s == s[..i] + s[i..];
  }

  lemma RemoveAt<T>(s: seq<T>, i: nat)
    requires i < |s|
    ensures multiset(s) == multiset(s[..i] + s[i + 1..]) + multiset{s[i]}
  {
    assert s == s[..i] + [s[i]] + s[i + 1..];
  }

  lemma InsertAt<T>(s: seq<T>, j: nat, x: T)
    requires j <= |s|
    ensures multiset(s[..j] + [x] + s[j..]) == multiset(s) + multiset{x}
  {
    assert s == s[..j] + s[j..];
  }

  /** References released or still outstanding. */
  ghost function Account(h: History): multiset<PacketId>
    requires Shaped(h.tx)
  {
    h.released + Outstanding(h.tx)
  }

  /** The packet a step sends. */
  function HeadSend(e: Event): seq<PacketId> {
    if e.Attach? then [e.p] else []
  }

  /** What a step adds to the packets sent and to the references, and that no mbuf is lost. */
  ghost predicate Adds(h: History, r: History, sends: seq<PacketId>)
    requires Shaped(h.tx) && Shaped(r.tx)
  {
    && Sent(r.tx) == Sent(h.tx) + sends
    && Account(r) == Account(h) + multiset(sends)
    && AllMbufs(r.tx) + r.taken + h.given == AllMbufs(h.tx) + h.taken + r.given
  }

  /** The open slot's mbuf is neither pending nor in flight, so attaching a packet to it changes
      no other mbuf's packet. */
  lemma OpenSlotUnused(t: Tx)
    requires Ready(t)
    ensures forall i :: 0 <= i < t.idx ==> t.slots[i] != t.slots[t.idx]
    ensures forall i :: 0 <= i < |t.ring| ==> t.ring[i] != t.slots[t.idx]
  {
    var m := t.slots[t.idx];
    assert Owned(t) == t.slots;
    SplitMultiset(t.slots, t.idx);
    assert m in t.slots[t.idx..] by { assert t.slots[t.idx..][0] == m; }
    assert multiset(t.slots[t.idx..])[m] >= 1;
    assert AllMbufs(t)[m] <= 1;
    forall i | 0 <= i < t.idx ensures t.slots[i] != m {
      assert t.slots[..t.idx][i] == t.slots[i];
      assert t.slots[i] in multiset(t.slots[..t.idx]);
    }
    forall i | 0 <= i < |t.ring| ensures t.ring[i] != m {
      assert t.ring[i] in multiset(t.ring);
    }
  }

  lemma AttachAppends(t: Tx, p: PacketId)
    requires Ready(t)
    ensures Pending(Next(t, Attach(p))) == Pending(t) + [p]
    ensures InRing(Next(t, Attach(p))) == InRing(t)
    ensures AllMbufs(Next(t, Attach(p))) == AllMbufs(t)
  {
    OpenSlotUnused(t);
    var a := Next(t, Attach(p));
    assert PendingMbufs(a) == PendingMbufs(t) + [t.slots[t.idx]];
    PacketsAtConcat(a.callback, PendingMbufs(t), [t.slots[t.idx]]);
    assert PacketsAt(a.callback, PendingMbufs(t)) == Pending(t);
  }

  lemma BurstMbufs(t: Tx, n: nat)
    requires Shaped(t) && Enabled(t, Burst(n))
    ensures AllMbufs(Next(t, Burst(n))) == AllMbufs(t)
  {
    var r := Next(t, Burst(n));
    var batch := t.slots[t.out..t.out + n];
    assert Owned(t) == batch + Owned(r);
    MoveBetween(t.ring, batch, Owned(r), multiset(t.free));
  }

  lemma BurstPackets(t: Tx, n: nat)
    requires Shaped(t) && Enabled(t, Burst(n))
    ensures Sent(Next(t, Burst(n))) == Sent(t) && Outstanding(Next(t, Burst(n))) == Outstanding(t)
  {
    var r := Next(t, Burst(n));
    var batch := t.slots[t.out..t.out + n];
    assert PendingMbufs(t) == batch + PendingMbufs(r);
    PacketsAtConcat(t.callback, batch, PendingMbufs(r));
    PacketsAtConcat(t.callback, t.ring, batch);
    MoveBetween(InRing(t), PacketsAt(t.callback, batch), Pending(r), multiset{});
    Regroup(t.accepted, PacketsAt(t.callback, batch), Pending(r));
  }

  /** Moving the front of one list to the end of another. */
  lemma MoveBetween<T>(a: seq<T>, b: seq<T>, c: seq<T>, d: multiset<T>)
    ensures multiset(c) + multiset(a + b) == multiset(b + c) + multiset(a)
    ensures multiset(c) + multiset(a + b) + d == multiset(b + c) + multiset(a) + d
  {
  }

  lemma Regroup<T>(a: seq<T>, b: seq<T>, c: seq<T>)
    ensures a + b + c == a + (b + c)
  {
  }

  lemma RefillKeeps(t: Tx)
    requires Shaped(t) && Enabled(t, Refill)
    ensures var r := Next(t, Refill);
            && Pending(r) == [] && Pending(t) == [] && r.accepted == t.accepted && InRing(r) == InRing(t)
            && AllMbufs(r) == AllMbufs(t)
  {
    if t.out <= |t.free| {
      var r := Next(t, Refill);
      assert Owned(r) == t.free[..t.out] + Owned(t);
      SplitMultiset(t.free, t.out);
    }
  }

  lemma DoneKeepsMbufs(t: Tx, i: nat, j: nat)
    requires Shaped(t) && Enabled(t, Done(i, j))
    ensures AllMbufs(Next(t, Done(i, j))) == AllMbufs(t)
  {
    RemoveAt(t.ring, i);
    InsertAt(t.free, j, t.ring[i]);
  }

  lemma DoneReleases(callback: map<MbufId, PacketId>, ring: seq<MbufId>, i: nat)
    requires i < |ring|
    ensures multiset(PacketsAt(callback, ring))
         == multiset(PacketsAt(callback, ring[..i] + ring[i + 1..])) + multiset{PacketIn(callback, ring[i])}
  {
    var all := PacketsAt(callback, ring);
    RemoveAt(all, i);
    PacketsAtConcat(callback, ring[..i], ring[i + 1..]);
    assert PacketsAt(callback, ring[..i]) == all[..i];
    assert PacketsAt(callback, ring[i + 1..]) == all[i + 1..];
  }

  lemma TakenMbufs(t: Tx, j: nat)
    requires Shaped(t) && Enabled(t, Taken(j))
    ensures AllMbufs(t) == AllMbufs(Next(t, Taken(j))) + multiset{t.free[j]}
  {
    RemoveAt(t.free, j);
  }

  lemma GivenMbufs(t: Tx, m: MbufId, j: nat)
    requires Shaped(t) && Enabled(t, Given(m, j))
    ensures AllMbufs(Next(t, Given(m, j))) == AllMbufs(t) + multiset{m} && m !in AllMbufs(t)
  {
    InsertAt(t.free, j, m);
  }

  /** Finishing an mbuf, at any point of any operation, releases exactly one outstanding reference,
      to the packet it was sent with, and keeps everything else. */
  lemma FinishMeaning(t: Tx, i: nat, j: nat)
    requires Shaped(t) && Enabled(t, Done(i, j))
    ensures var r := Next(t, Done(i, j));
            && AllMbufs(r) == AllMbufs(t) && Sent(r) == Sent(t)
            && Outstanding(t) == Outstanding(r) + multiset{PacketIn(t.callback, t.ring[i])}
  {
    var r := Next(t, Done(i, j));
    DoneKeepsMbufs(t, i, j);
    DoneReleases(t.callback, t.ring, i);
    assert PendingMbufs(r) == PendingMbufs(t) && Pending(r) == Pending(t);
    OneLess(multiset(Pending(t)), multiset(InRing(t)), multiset(InRing(r)), multiset{PacketIn(t.callback, t.ring[i])});
  }

  lemma OneLess(a: multiset<PacketId>, b: multiset<PacketId>, c: multiset<PacketId>, x: multiset<PacketId>)
    requires b == c + x
    ensures a + b == a + c + x
  {
  }

  lemma AddsNothing(h: History, r: History)
    requires Shaped(h.tx) && Shaped(r.tx) && Sent(r.tx) == Sent(h.tx) && Account(r) == Account(h)
    requires AllMbufs(r.tx) + r.taken + h.given == AllMbufs(h.tx) + h.taken + r.given
    ensures Adds(h, r, [])
  {
    assert Sent(h.tx) + [] == Sent(h.tx) && Account(h) + multiset([]) == Account(h);
  }

  lemma AttachAdds(h: History, p: PacketId)
    requires Ready(h.tx)
    ensures Adds(h, Apply(h, Attach(p)), [p]) && Good(Apply(h, Attach(p)).tx)
  {
    AttachAppends(h.tx, p);
    Regroup(h.tx.accepted, Pending(h.tx), [p]);
    assert multiset(Pending(h.tx) + [p]) == multiset(Pending(h.tx)) + multiset{p};
    assert multiset([p]) == multiset{p};
  }

  lemma OwnStepAdds(h: History, e: Event)
    requires Good(h.tx) && Enabled(h.tx, e) && (e.Start? || e.Burst? || e.Refill?)
    ensures Adds(h, Apply(h, e), []) && Good(Apply(h, e).tx)
  {
    match e {
      case Start =>
      case Burst(n) =>
        BurstMbufs(h.tx, n);
        BurstPackets(h.tx, n);
      case Refill => RefillKeeps(h.tx);
    }
    AddsNothing(h, Apply(h, e));
  }

  lemma DoneAdds(h: History, i: nat, j: nat)
    requires Good(h.tx) && Enabled(h.tx, Done(i, j))
    ensures Adds(h, Apply(h, Done(i, j)), []) && Good(Apply(h, Done(i, j)).tx)
  {
    FinishMeaning(h.tx, i, j);
    AddsNothing(h, Apply(h, Done(i, j)));
  }

  /** The pool is not part of what has been sent or is owed. */
  lemma PoolApart(h: History, r: History)
    requires Shaped(h.tx) && r.tx == h.tx.(free := r.tx.free) && r.released == h.released
    ensures Sent(r.tx) == Sent(h.tx) && Account(r) == Account(h)
  {
  }

  lemma TakenAdds(h: History, j: nat)
    requires Good(h.tx) && Enabled(h.tx, Taken(j))
    ensures Adds(h, Apply(h, Taken(j)), []) && Good(Apply(h, Taken(j)).tx)
  {
    TakenMbufs(h.tx, j);
    var r := Apply(h, Taken(j));
    PoolApart(h, r);
    PoolBalance(AllMbufs(h.tx), AllMbufs(r.tx), h.taken, h.given, h.tx.free[j]);
    AddsNothing(h, r);
  }

  lemma GivenAdds(h: History, m: MbufId, j: nat)
    requires Good(h.tx) && Enabled(h.tx, Given(m, j))
    ensures Adds(h, Apply(h, Given(m, j)), []) && Good(Apply(h, Given(m, j)).tx)
  {
    GivenMbufs(h.tx, m, j);
    var r := Apply(h, Given(m, j));
    PoolApart(h, r);
    PoolBalance(AllMbufs(r.tx), AllMbufs(h.tx), h.given, h.taken, m);
    AddsNothing(h, r);
  }

  lemma PoolBalance(more: multiset<MbufId>, less: multiset<MbufId>, a: multiset<MbufId>, b: multiset<MbufId>, m: MbufId)
    requires more == less + multiset{m}
    ensures less + (a + multiset{m}) + b == more + a + b && more + b + a == less + b + (a + multiset{m})
    ensures Unique(more) ==> Unique(less)
    ensures Unique(less) && m !in less ==> Unique(more)
  {
    forall x ensures more[x] == less[x] + multiset{m}[x] {
    }
  }

  lemma StepAdds(h: History, e: Event)
    requires Good(h.tx) && Enabled(h.tx, e)
    ensures Adds(h, Apply(h, e), HeadSend(e)) && Good(Apply(h, e).tx)
  {
    match e
    case Attach(p) => AttachAdds(h, p);
    case Done(i, j) => DoneAdds(h, i, j);
    case Taken(j) => TakenAdds(h, j);
    case Given(m, j) => GivenAdds(h, m, j);
    case _ => OwnStepAdds(h, e);
  }

  // ----- any sequence of steps -----

  /** The steps, each enabled when it comes, lead from `h` to `r`. */
  ghost predicate Leads(h: History, es: seq<Event>, r: History)
    requires Shaped(h.tx)
    decreases |es|
  {
    if es == [] then r == h
    else
      Enabled(h.tx, es[0]) && Leads(Apply(h, es[0]), es[1..], r)
  }

  function SendsIn(es: seq<Event>): seq<PacketId>
    decreases |es|
  {
    if es == [] then [] else HeadSend(es[0]) + SendsIn(es[1..])
  }

  lemma AddsThen(h: History, m: History, r: History, a: seq<PacketId>, b: seq<PacketId>)
    requires Shaped(h.tx) && Shaped(m.tx) && Shaped(r.tx) && Adds(h, m, a) && Adds(m, r, b)
    ensures Adds(h, r, a + b)
  {
    Regroup(Sent(h.tx), a, b);
    assert multiset(a + b) == multiset(a) + multiset(b);
    Balance(AllMbufs(h.tx), AllMbufs(m.tx), AllMbufs(r.tx), h.taken, m.taken, r.taken, h.given, m.given, r.given);
  }

  lemma Balance(h: multiset<MbufId>, m: multiset<MbufId>, r: multiset<MbufId>,
                ht: multiset<MbufId>, mt: multiset<MbufId>, rt: multiset<MbufId>,
                hg: multiset<MbufId>, mg: multiset<MbufId>, rg: multiset<MbufId>)
    requires m + mt + hg == h + ht + mg && r + rt + mg == m + mt + rg
    ensures r + rt + hg == h + ht + rg
  {
    forall x ensures (r + rt + hg)[x] == (h + ht + rg)[x] {
      assert (m + mt + hg)[x] == (h + ht + mg)[x];
      assert (r + rt + mg)[x] == (m + mt + rg)[x];
    }
  }

  /** Exactly once and in order.  After any sequence of steps, the NIC cutting batches anywhere,
      finishing mbufs in any order at any moment and others using the pool: the packets accepted by
      the NIC followed by the pending ones are exactly the packets sent, in order; each packet has
      been released as often as it was sent less the references still outstanding; and every mbuf
      is in exactly one place, none lost. */
  lemma {:induction false} TransmitExactlyOnce(h: History, es: seq<Event>, r: History)
    requires Good(h.tx) && Leads(h, es, r)
    ensures Good(r.tx)
    ensures Sent(r.tx) == Sent(h.tx) + SendsIn(es)
    ensures Account(r) == Account(h) + multiset(SendsIn(es))
    ensures AllMbufs(r.tx) + r.taken + h.given == AllMbufs(h.tx) + h.taken + r.given
    decreases |es|
  {
    if es == [] {
      AddsNothing(h, r);
    } else {
      var m := Apply(h, es[0]);
      StepAdds(h, es[0]);
      TransmitExactlyOnce(m, es[1..], r);
      AddsThen(h, m, r, HeadSend(es[0]), SendsIn(es[1..]));
    }
  }

  // ----- flushes -----

  /** What can happen between the start of a flush and its refill. */
  predicate Writing(es: seq<Event>) {
    forall i :: 0 <= i < |es| ==> es[i].Burst? || Outside(es[i])
  }

  /** By how much the pool grows. */
  function Gain(es: seq<Event>): int
    decreases |es|
  {
    if es == [] then 0
    else (if es[0].Done? || es[0].Given? then 1 else if es[0].Taken? then -1 else 0) + Gain(es[1..])
  }

  lemma {:induction false} WritingKeeps(h: History, es: seq<Event>, r: History)
    requires Shaped(h.tx) && h.tx.mode.Flushing? && Writing(es) && Leads(h, es, r)
    ensures Shaped(r.tx) && r.tx.mode.Flushing? && r.tx.out + r.tx.idx == h.tx.out + h.tx.idx
    ensures |r.tx.free| == |h.tx.free| + Gain(es) && SendsIn(es) == []
    decreases |es|
  {
    if es != [] {
      assert es[0].Burst? || Outside(es[0]);
      assert Writing(es[1..]);
      WritingKeeps(Apply(h, es[0]), es[1..], r);
    }
  }

  /** A flush, whatever comes in between.  It leaves nothing pending and has handed over exactly what
      was pending, in order, after what was accepted before.  It succeeds if and only if the pool at
      its start, plus what came back while the batch was written less what others took, covers the
      slots it used. */
  lemma FlushMeaning(h: History, es: seq<Event>, m: History)
    requires Good(h.tx) && h.tx.mode.Flushing? && Writing(es) && Leads(h, es, m) && m.tx.idx == 0
    ensures Shaped(m.tx) && Enabled(m.tx, Refill)
    ensures var r := Apply(m, Refill).tx;
            && Good(r) && r.idx == 0 && r.accepted == Sent(h.tx)
            && (r.mode.Open? <==> h.tx.out + h.tx.idx <= |h.tx.free| + Gain(es))
            && (r.mode.Open? <==> Ready(r)) && (!r.mode.Open? ==> r.mode.Broken?)
  {
    WritingKeeps(h, es, m);
    TransmitExactlyOnce(h, es, m);
    StepAdds(m, Refill);
    RefillKeeps(m.tx);
    assert Sent(h.tx) + [] == Sent(h.tx) && m.tx.accepted + [] == m.tx.accepted;
  }

  /** Nobody else takes mbufs out of the pool. */
  predicate NoTakers(es: seq<Event>) {
    forall i :: 0 <= i < |es| ==> !es[i].Taken?
  }

  lemma {:induction false} NoTakersGain(es: seq<Event>)
    requires NoTakers(es)
    ensures Gain(es) >= 0
    decreases |es|
  {
    if es != [] {
      assert !es[0].Taken?;
      assert NoTakers(es[1..]);
      NoTakersGain(es[1..]);
    }
  }

  /** The batch can be written out by these steps, and the refill then fails. */
  ghost predicate FailsBy(h: History, es: seq<Event>, m: History)
    requires Shaped(h.tx)
  {
    && Writing(es) && NoTakers(es) && Leads(h, es, m) && Shaped(m.tx) && Enabled(m.tx, Refill)
    && !Apply(m, Refill).tx.mode.Open?
  }

  ghost predicate CanFail(h: History)
    requires Shaped(h.tx)
  {
    exists es: seq<Event>, m: History :: FailsBy(h, es, m)
  }

  /** What a caller can check beforehand: where nobody else uses the pool, a flush succeeds under
      every NIC timing if and only if the pool covers the batch when it starts. */
  lemma FlushSafeIff(h: History)
    requires Good(h.tx) && h.tx.mode.Flushing?
    ensures !CanFail(h) <==> h.tx.out + h.tx.idx <= |h.tx.free|
  {
    if h.tx.out + h.tx.idx <= |h.tx.free| {
      forall es: seq<Event>, m: History ensures !FailsBy(h, es, m) {
        if FailsBy(h, es, m) {
          FlushMeaning(h, es, m);
          NoTakersGain(es);
        }
      }
    } else {
      AtOnce(h);
      var e := Burst(h.tx.idx);
      FlushMeaning(h, [e], Apply(h, e));
      assert FailsBy(h, [e], Apply(h, e));
    }
  }

  /** The NIC can take the whole batch at once and finish nothing before the refill. */
  lemma AtOnce(h: History)
    requires Good(h.tx) && h.tx.mode.Flushing?
    ensures var e := Burst(h.tx.idx);
            && Enabled(h.tx, e) && Writing([e]) && NoTakers([e]) && Gain([e]) == 0
            && Leads(h, [e], Apply(h, e)) && Apply(h, e).tx.idx == 0
  {
    var e := Burst(h.tx.idx);
    assert [e][1..] == [];
  }

  /** A flush by these steps, whatever came of it: nothing was sent, nothing is pending, and what was
      pending has been accepted in order. */
  ghost predicate FlushedBy(h: History, es: seq<Event>, r: History) {
    && Shaped(h.tx) && Leads(h, es, r) && SendsIn(es) == []
    && Good(r.tx) && r.tx.idx == 0 && r.tx.accepted == Sent(h.tx)
  }

  /** The pool, with what came and went during these steps, covered the batch. */
  predicate Covered(h: History, es: seq<Event>) {
    h.tx.idx <= |h.tx.free| + Gain(es)
  }

  // ----- completions inside a flush decide its outcome -----

  lemma {:induction false} DistinctUnique(s: seq<MbufId>)
    requires Distinct(s)
    ensures Unique(multiset(s))
    decreases |s|
  {
    if s != [] {
      var init, last := s[..|s| - 1], s[|s| - 1];
      DistinctUnique(init);
      assert s == init + [last];
      assert last !in init;
    }
  }

  /** A driver ready to send, over an empty pool. */
  function LastBatch(): History {
    History(Tx(seq(NIC_BURST, i => i), 0, 0, Open, map[], [], [], []), multiset{}, multiset{}, multiset{})
  }

  lemma LastBatchReady()
    ensures Ready(LastBatch().tx)
  {
    var t := LastBatch().tx;
    DistinctUnique(t.slots);
    assert Owned(t) == t.slots;
    assert AllMbufs(t) == multiset(t.slots);
  }

  /** One packet attached, the flush started, the packet written out. */
  function Attached(): History {
    Apply(LastBatch(), Attach(7))
  }

  function Started(): History {
    Apply(Attached(), Start)
  }

  function Written(): History {
    Apply(Started(), Burst(1))
  }

  lemma WrittenReached()
    ensures Leads(LastBatch(), [Attach(7), Start, Burst(1)], Written())
  {
    StartedReached();
    LeadsNext(LastBatch(), [Attach(7), Start], Started(), Burst(1));
    assert [Attach(7), Start] + [Burst(1)] == [Attach(7), Start, Burst(1)];
  }

  lemma StartedReached()
    ensures Leads(LastBatch(), [Attach(7), Start], Started())
  {
    LeadsNext(LastBatch(), [], LastBatch(), Attach(7));
    LeadsNext(LastBatch(), [Attach(7)], Attached(), Start);
    assert [] + [Attach(7)] == [Attach(7)] && [Attach(7)] + [Start] == [Attach(7), Start];
  }

  lemma WrittenShape()
    ensures var t := Written().tx;
            t.mode.Flushing? && t.out == 1 && t.idx == 0 && t.free == [] && |t.ring| == 1
  {
    var t := Started().tx;
    assert t.mode.Flushing? && t.out == 0 && t.idx == 1 && t.free == [] && t.ring == [];
  }

  lemma RefillAfter(h: History)
    requires Shaped(h.tx) && h.tx.mode.Flushing? && h.tx.out == 1 && h.tx.idx == 0 && h.tx.free == [] &&
             |h.tx.ring| == 1
    ensures Apply(h, Refill).tx.mode.Broken?
    ensures Apply(Apply(h, Done(0, 0)), Refill).tx.mode.Open?
  {
    var t := Next(h.tx, Done(0, 0));
    assert |t.free| == 1;
  }

  /** The same flush over the same pool fails when the NIC is slow, and succeeds when it finishes
      the mbuf before the refill. */
  lemma CompletionsDecide()
    ensures Enabled(Written().tx, Refill) && Apply(Written(), Refill).tx.mode.Broken?
    ensures Enabled(Written().tx, Done(0, 0)) && Enabled(Apply(Written(), Done(0, 0)).tx, Refill)
    ensures Apply(Apply(Written(), Done(0, 0)), Refill).tx.mode.Open?
  {
    WrittenShape();
    RefillAfter(Written());
  }

  // ----- the driver object -----

  /** One answer of the NIC: how many mbufs a burst takes, and what happens outside before the
      driver's next step. */
  datatype Answer = Answer(taken: nat, meanwhile: seq<Event>)

  /** The NIC keeps making progress: from any point on, some burst accepts something. */
  ghost predicate Fair(nic: nat -> Answer) {
    forall k: nat :: Progresses(nic, k)
  }

  ghost predicate Progresses(nic: nat -> Answer, k: nat) {
    exists j: nat :: k <= j && nic(j).taken > 0
  }

  lemma NextProgress(nic: nat -> Answer, k: nat) returns (j: nat)
    requires Fair(nic)
    ensures k <= j && nic(j).taken > 0
  {
    assert Progresses(nic, k);
    j :| k <= j && nic(j).taken > 0;
  }

  /** After burst `k`, the next burst that takes something; it is the same one if burst `k` took
      nothing. */
  lemma KeepProgress(nic: nat -> Answer, k: nat, goal: nat) returns (next: nat)
    requires Fair(nic) && k <= goal && nic(goal).taken > 0
    ensures k < next && nic(next).taken > 0 && (nic(k).taken == 0 ==> next == goal)
  {
    next := goal;
    if nic(k).taken > 0 {
      next := NextProgress(nic, k + 1);
    }
  }

  lemma {:induction false} LeadsNext(h: History, es: seq<Event>, r: History, e: Event)
    requires Shaped(h.tx) && Leads(h, es, r) && Shaped(r.tx) && Enabled(r.tx, e)
    ensures Leads(h, es + [e], Apply(r, e))
    decreases |es|
  {
    if es == [] {
      assert es + [e] == [e] && [e][1..] == [];
    } else {
      assert (es + [e])[1..] == es[1..] + [e];
      LeadsNext(Apply(h, es[0]), es[1..], r, e);
    }
  }

  lemma {:induction false} SendsNext(es: seq<Event>, e: Event)
    ensures SendsIn(es + [e]) == SendsIn(es) + HeadSend(e)
    decreases |es|
  {
    if es == [] {
      assert es + [e] == [e] && [e][1..] == [];
    } else {
      assert (es + [e])[1..] == es[1..] + [e];
      SendsNext(es[1..], e);
      Regroup(HeadSend(es[0]), SendsIn(es[1..]), HeadSend(e));
    }
  }

  lemma {:induction false} GainNext(es: seq<Event>, e: Event)
    requires !Outside(e)
    ensures Gain(es + [e]) == Gain(es)
    decreases |es|
  {
    if es == [] {
      assert es + [e] == [e] && [e][1..] == [];
    } else {
      assert (es + [e])[1..] == es[1..] + [e];
      GainNext(es[1..], e);
    }
  }

  /** Between the start of a flush and its refill, `es` led from `h` to `r`. */
  ghost predicate WritingTo(h: History, es: seq<Event>, r: History) {
    Good(h.tx) && h.tx.mode.Flushing? && Writing(es) && Leads(h, es, r) && Good(r.tx) && r.tx.mode.Flushing?
  }

  lemma WritingNext(h: History, es: seq<Event>, r: History, e: Event)
    requires WritingTo(h, es, r) && Enabled(r.tx, e) && (e.Burst? || Outside(e))
    ensures WritingTo(h, es + [e], Apply(r, e))
  {
    LeadsNext(h, es, r, e);
    StepAdds(r, e);
  }

  class Dpdk {
    const txBufs: array<MbufId>
    var txIdx: nat
    /** How far `pkts` has moved in the current flush, and where the program is. */
    var out: nat
    var mode: Mode
    var callback: map<MbufId, PacketId>
    var free: seq<MbufId>
    var ring: seq<MbufId>
    var accepted: seq<PacketId>
    var released: multiset<PacketId>
    var taken: multiset<MbufId>
    var given: multiset<MbufId>

    function View(): History
      reads this, txBufs
    {
      History(Tx(txBufs[..], out, txIdx, mode, callback, free, ring, accepted), released, taken, given)
    }

    /** The buffer before `init`: nothing in it is a usable mbuf. */
    constructor ()
      ensures Shaped(View().tx) && Sent(View().tx) == [] && ring == [] && mode.Open? && txIdx == 0
      ensures released == multiset{} && fresh(txBufs)
    {
      txBufs := new MbufId[NIC_BURST](_ => 0);
      txIdx, out, mode, callback, free, ring, accepted := 0, 0, Open, map[], [], [], [];
      released, taken, given := multiset{}, multiset{}, multiset{};
    }

    /** `init`: fill the whole buffer from the port's mbuf pool, or report an error. */
    method Init(pool: seq<MbufId>) returns (ok: bool)
      requires Shaped(View().tx) && mode.Open? && txIdx == 0 && ring == [] && Unique(multiset(pool))
      modifies this`free, txBufs
      ensures ok <==> |pool| >= NIC_BURST
      ensures ok ==> Ready(View().tx) && AllMbufs(View().tx) == multiset(pool)
    {
      free := pool;
      ok := AllocBulk(NIC_BURST);
      if ok {
        SplitMultiset(pool, NIC_BURST);
        assert Owned(View().tx) == pool[..NIC_BURST];
      }
    }

    /** `rte_pktmbuf_alloc_bulk` into the first `n` slots: all or nothing. */
    method AllocBulk(n: nat) returns (ok: bool)
      requires n <= txBufs.Length
      modifies this`free, txBufs
      ensures ok <==> n <= |old(free)|
      ensures ok ==> txBufs[..] == old(free)[..n] + old(txBufs[..])[n..] && free == old(free)[n..]
      ensures !ok ==> txBufs[..] == old(txBufs[..]) && free == old(free)
    {
      ghost var slots := txBufs[..];
      if n > |free| {
        return false;
      }
      for i := 0 to n
        invariant free == old(free)
        invariant forall k :: 0 <= k < txBufs.Length ==> txBufs[k] == if k < i then free[k] else slots[k]
      {
        txBufs[i] := free[i];
      }
      free := free[n..];
      return true;
    }

    /** The NIC finishes an mbuf: its callback runs and it rejoins the pool. */
    method Finished(i: nat, j: nat)
      requires Good(View().tx) && Enabled(View().tx, Done(i, j))
      modifies this`free, this`ring, this`released
      ensures View() == Apply(old(View()), Done(i, j))
    {
      released := released + multiset{PacketIn(callback, ring[i])};
      ring, free := ring[..i] + ring[i + 1..], free[..j] + [ring[i]] + free[j..];
    }

    /** Something outside happens, if it can. */
    method Elsewhere(e: Event)
      requires Good(View().tx) && Outside(e)
      modifies this`free, this`ring, this`released, this`taken, this`given
      ensures View() == if Enabled(old(View()).tx, e) then Apply(old(View()), e) else old(View())
    {
      if Enabled(View().tx, e) {
        match e
        case Done(i, j) => Finished(i, j);
        case Taken(j) =>
          taken := taken + multiset{free[j]};
          free := free[..j] + free[j + 1..];
        case Given(m, j) =>
          given := given + multiset{m};
          free := free[..j] + [m] + free[j..];
      }
    }

    /** One `rte_eth_tx_burst`: the NIC takes the next `nb` mbufs. */
    method TxBurst(nb: nat)
      requires Good(View().tx) && Enabled(View().tx, Burst(nb))
      modifies this`ring, this`accepted, this`out, this`txIdx
      ensures View() == Apply(old(View()), Burst(nb))
    {
      var batch := txBufs[out..out + nb];
      assert batch == View().tx.slots[out..out + nb];
      ring, accepted := ring + batch, accepted + PacketsAt(callback, batch);
      out, txIdx := out + nb, txIdx - nb;
    }

    /** The refill at the end of `flush`. */
    method RefillSlots() returns (ok: bool)
      requires Good(View().tx) && Enabled(View().tx, Refill)
      modifies this`free, this`out, this`mode, txBufs
      ensures View() == Apply(old(View()), Refill) && (ok <==> mode.Open?) && (!ok ==> mode.Broken?)
    {
      ok := AllocBulk(out);
      if ok {
        out, mode := 0, Open;
      } else {
        mode := Broken;
      }
    }

    /** The driver is in the write loop of a flush that began in `h`. */
    ghost predicate InFlush(h: History, es: seq<Event>)
      reads this, txBufs
    {
      WritingTo(h, es, View())
    }

    /** What happens outside between two of the driver's steps. */
    method Meanwhile(events: seq<Event>, ghost h: History, ghost before: seq<Event>) returns (ghost es: seq<Event>)
      requires InFlush(h, before)
      modifies this`free, this`ring, this`released, this`taken, this`given
      ensures InFlush(h, es)
    {
      es := before;
      for i := 0 to |events|
        invariant InFlush(h, es)
      {
        if Outside(events[i]) {
          ghost var now := View();
          Elsewhere(events[i]);
          if Enabled(now.tx, events[i]) {
            WritingNext(h, es, now, events[i]);
            es := es + [events[i]];
          }
        }
      }
    }

    /** One iteration of the write loop. */
    method WriteSome(answer: Answer, ghost h: History, ghost before: seq<Event>) returns (ghost es: seq<Event>)
      requires InFlush(h, before) && txIdx > 0
      modifies this`free, this`ring, this`released, this`taken, this`given, this`accepted, this`out, this`txIdx
      ensures InFlush(h, es) && (if answer.taken > 0 then txIdx < old(txIdx) else txIdx == old(txIdx))
    {
      var nb := if answer.taken < txIdx then answer.taken else txIdx;
      WritingNext(h, before, View(), Burst(nb));
      TxBurst(nb);
      es := Meanwhile(answer.meanwhile, h, before + [Burst(nb)]);
    }

    /** The write loop of `flush`: however the NIC cuts the batch and whatever happens meanwhile, it
        ends with the whole batch handed over. */
    method WriteOut(nic: nat -> Answer) returns (ghost es: seq<Event>)
      requires Good(View().tx) && mode.Flushing? && Fair(nic)
      modifies this`free, this`ring, this`released, this`taken, this`given, this`accepted, this`out, this`txIdx
      ensures InFlush(old(View()), es) && txIdx == 0
    {
      ghost var h := View();
      es := [];
      var clock: nat := 0;
      ghost var goal := NextProgress(nic, clock);
      while txIdx != 0
        invariant InFlush(h, es) && clock <= goal && nic(goal).taken > 0
        decreases txIdx, goal - clock
      {
        goal := KeepProgress(nic, clock, goal);
        es := WriteSome(nic(clock), h, es);
        clock := clock + 1;
      }
    }

    /** The body of `flush` past its early return. */
    method FlushBatch(nic: nat -> Answer) returns (ok: bool, ghost es: seq<Event>)
      requires Good(View().tx) && mode.Flushing? && Fair(nic)
      modifies this, txBufs
      ensures Leads(old(View()), es, View()) && SendsIn(es) == []
      ensures Good(View().tx) && txIdx == 0 && accepted == Sent(old(View()).tx)
      ensures (ok <==> mode.Open?) && (!ok ==> mode.Broken?)
      ensures ok <==> old(out + txIdx) <= |old(free)| + Gain(es)
    {
      ghost var h := View();
      ghost var writes := WriteOut(nic);
      ghost var m := View();
      FlushMeaning(h, writes, m);
      WritingKeeps(h, writes, m);
      LeadsNext(h, writes, m, Refill);
      SendsNext(writes, Refill);
      GainNext(writes, Refill);
      es := writes + [Refill];
      ok := RefillSlots();
    }

    /** `flush`: what it does is a run of steps that sends nothing and leaves nothing pending.  It
        succeeds exactly when the pool, with what comes and goes meanwhile, covers the batch. */
    method Flush(nic: nat -> Answer) returns (ok: bool, ghost es: seq<Event>)
      requires Ready(View().tx) && Fair(nic)
      modifies this, txBufs
      ensures Leads(old(View()), es, View()) && SendsIn(es) == []
      ensures Good(View().tx) && txIdx == 0 && accepted == Sent(old(View()).tx)
      ensures (ok <==> mode.Open?) && (!ok ==> mode.Broken?)
      ensures ok <==> old(txIdx) <= |old(free)| + Gain(es)
    {
      ghost var h := View();
      if txIdx == 0 {
        assert h.tx.accepted + [] == h.tx.accepted;
        return true, [];
      }
      mode := Flushing;
      assert View() == Apply(h, Start);
      ghost var rest;
      ok, rest := FlushBatch(nic);
      es := [Start] + rest;
      assert es[1..] == rest;
    }

    /** Fill the next slot; the last one leads into a flush. */
    method AttachNext(p: PacketId)
      requires Ready(View().tx)
      modifies this`callback, this`txIdx, this`mode
      ensures View() == Apply(old(View()), Attach(p))
    {
      callback := callback[txBufs[txIdx] := p];
      txIdx := txIdx + 1;
      if txIdx == NIC_BURST {
        mode := Flushing;
      }
    }

    /** `send`: a run of steps that sends exactly `p`, flushing when the batch is full. */
    method Send(p: PacketId, nic: nat -> Answer) returns (ok: bool, ghost es: seq<Event>)
      requires Ready(View().tx) && Fair(nic)
      modifies this, txBufs
      ensures Leads(old(View()), es, View()) && SendsIn(es) == [p]
      ensures Good(View().tx) && Sent(View().tx) == Sent(old(View()).tx) + [p]
      ensures (ok <==> mode.Open?) && (!ok ==> mode.Broken?)
      ensures ok <==> old(txIdx) + 1 < NIC_BURST || NIC_BURST <= |old(free)| + Gain(es)
    {
      ghost var h := View();
      StepAdds(h, Attach(p));
      AttachNext(p);
      ok := true;
      ghost var rest := [];
      if txIdx == NIC_BURST {
        ok, rest := FlushBatch(nic);
        assert accepted + [] == accepted;
      }
      es := [Attach(p)] + rest;
      assert es[1..] == rest;
    }
  }
}
