/**
 Packet memory and reference counts: the packet pool (packet.rs), the receive mbufs a packet
 may carry, and the two places that take packets out of the pool and chain them through
 `next` (the user node's poll and the driver's receive).

 Ownership is stated against a multiset `refs` that holds every reference some other component
 keeps to a packet: queued tasks and transmit buffers whose free callback has not run.
 */
module Packets {
  import opened Common

  type PacketId = nat
  type MbufId = nat

  datatype BufType = Local | Mbuf(m: MbufId)

  /** The fields of a packet that decide who owns it. */
  datatype Cell = Cell(refcnt: nat, next: Option<PacketId>, buf: BufType)

  /**
   `cells`: every packet of the pool's universe.  `pool`: the packets currently free.
   `rx`: receive mbufs carried by a packet, with the packet that carries each.
   `loose`: receive mbufs handed over by the NIC and not yet attached to a packet.
   `faulty`: a packet was put into the pool while already there, or an mbuf was freed that
   nobody held, or a packet outside the universe was touched.
   */
  datatype Memory = Memory(
    cells: map<PacketId, Cell>,
    pool: set<PacketId>,
    rx: map<MbufId, PacketId>,
    loose: set<MbufId>,
    faulty: bool)

  const USIZE_MAX: nat := 0xFFFF_FFFF_FFFF_FFFF

  /** `usize` decrement of a release build. */
  function Decrement(n: nat): (r: nat)
    ensures (r + 1) % (USIZE_MAX + 1) == n % (USIZE_MAX + 1)
  {
    if n == 0 then USIZE_MAX else n - 1
  }

  predicate Live(mem: Memory, p: PacketId) {
    p in mem.cells && p !in mem.pool
  }

  /** References are balanced: each live packet's counter is the number of references held to it
      and is not zero, each free packet's counter is 1, and carried mbufs and live packets of
      type `Mbuf` correspond one to one. */
  ghost predicate Balanced(refs: multiset<PacketId>, mem: Memory) {
    && !mem.faulty
    && mem.pool <= mem.cells.Keys
    && (forall p :: p in mem.pool ==> mem.cells[p].refcnt == 1)
    && (forall p :: p in refs ==> Live(mem, p))
    && (forall p :: Live(mem, p) ==> mem.cells[p].refcnt == refs[p] && p in refs)
    && (forall m :: m in mem.rx ==> Live(mem, mem.rx[m]) && mem.cells[mem.rx[m]].buf == Mbuf(m))
    && (forall p :: Live(mem, p) && mem.cells[p].buf.Mbuf? ==>
          mem.cells[p].buf.m in mem.rx && mem.rx[mem.cells[p].buf.m] == p)
    && mem.loose !! mem.rx.Keys
  }

  /** Balanced, and no receive mbuf is lost between the NIC and a packet. */
  ghost predicate Conserved(refs: multiset<PacketId>, mem: Memory) {
    Balanced(refs, mem) && mem.loose == {}
  }

  /** The pool as `packet_init` leaves it. */
  function FreshMemory(n: nat): Memory {
    Memory(map p | p in Below(n) :: Cell(1, None, Local), Below(n), map[], {}, false)
  }

  /** Where every run starts: nothing is referenced and the books balance. */
  lemma FreshConserved(n: nat)
    ensures Conserved(multiset{}, FreshMemory(n)) && FreshMemory(n).cells.Keys == Below(n)
  {
  }

  // ----- releasing a reference -----

  function FreeMbuf(mem: Memory, m: MbufId): Memory {
    mem.(rx := mem.rx - {m}, faulty := mem.faulty || m !in mem.rx)
  }

  function PutPacket(mem: Memory, p: PacketId): Memory {
    mem.(pool := mem.pool + {p}, faulty := mem.faulty || p in mem.pool)
  }

  /** `PacketPool::deallocate`. */
  function Deallocate(mem: Memory, p: PacketId): Memory {
    if p !in mem.cells then mem.(faulty := true)
    else
      var c := mem.cells[p];
      if c.refcnt == 1 then
        PutPacket(if c.buf.Mbuf? then FreeMbuf(mem, c.buf.m) else mem, p)
      else
        mem.(cells := mem.cells[p := c.(refcnt := Decrement(c.refcnt))])
  }

  /** Dropping one reference keeps the books.  The packet reaches the pool at exactly the step
      that drops the last reference, its receive mbuf is freed at that step and not before, and
      nothing else moves. */
  lemma DeallocateConserves(refs: multiset<PacketId>, mem: Memory, p: PacketId)
    requires Conserved(refs + multiset{p}, mem)
    ensures Conserved(refs, Deallocate(mem, p))
    ensures Deallocate(mem, p).cells.Keys == mem.cells.Keys
    ensures p in Deallocate(mem, p).pool <==> p !in refs
    ensures forall q :: q != p ==> (q in Deallocate(mem, p).pool <==> q in mem.pool)
    ensures forall m :: m in mem.rx && m !in Deallocate(mem, p).rx <==> p !in refs && mem.cells[p].buf == Mbuf(m)
  {
    var before := refs + multiset{p};
    var after := Deallocate(mem, p);
    assert p in before && Live(mem, p) && mem.cells[p].refcnt == before[p] == refs[p] + 1;
    assert forall q :: q != p ==> before[q] == refs[q];
    assert forall q :: q != p ==> (q in before <==> q in refs);
    if p in refs {
      assert forall q :: Live(after, q) <==> Live(mem, q);
    } else {
      assert forall q :: Live(after, q) <==> Live(mem, q) && q != p;
    }
  }

  // ----- forwarding: one reference becomes one per out-link -----

  /** `pkt.refcnt += links - 1` in release arithmetic. */
  function Fork(mem: Memory, p: PacketId, links: nat): Memory {
    if p !in mem.cells then mem.(faulty := true)
    else
      var c := mem.cells[p];
      mem.(cells := mem.cells[p := c.(refcnt := if links == 0 then Decrement(c.refcnt) else c.refcnt + links - 1)])
  }

  function Copies(p: PacketId, n: nat): multiset<PacketId> {
    multiset{}[p := n]
  }

  /** Turning one reference into one per out-link keeps the books exactly when there is an
      out-link, or another reference remains: otherwise the packet is leaked. */
  lemma ForkConservesIff(refs: multiset<PacketId>, mem: Memory, p: PacketId, links: nat)
    requires Conserved(refs + multiset{p}, mem)
    ensures Conserved(refs + Copies(p, links), Fork(mem, p, links)) <==> (links >= 1 || p in refs)
    ensures Fork(mem, p, links).cells.Keys == mem.cells.Keys && Fork(mem, p, links).pool == mem.pool
  {
    var before := refs + multiset{p};
    var after := Fork(mem, p, links);
    var now := refs + Copies(p, links);
    assert p in before && Live(mem, p) && mem.cells[p].refcnt == before[p] == refs[p] + 1;
    assert forall q :: q != p ==> before[q] == refs[q] == now[q];
    assert forall q :: q != p ==> (q in before <==> q in now);
    assert forall q :: Live(after, q) <==> Live(mem, q);
    assert now[p] == refs[p] + links;
    if links == 0 && p !in refs {
      assert Live(after, p) && p !in now;
    }
  }

  // ----- free callbacks -----

  /** The NIC reports finished transmissions in any order; a report without an outstanding
      transmit reference does not occur and stands for no report. */
  function Complete(mem: Memory, tx: multiset<PacketId>, done: seq<PacketId>): (r: (Memory, multiset<PacketId>))
    ensures r.1 <= tx
    decreases |done|
  {
    if done == [] then (mem, tx)
    else if done[0] in tx then Complete(Deallocate(mem, done[0]), tx - multiset{done[0]}, done[1..])
    else Complete(mem, tx, done[1..])
  }

  lemma {:induction false} CompleteConserves(refs: multiset<PacketId>, mem: Memory, tx: multiset<PacketId>,
                                             done: seq<PacketId>)
    requires Conserved(refs + tx, mem)
    ensures var (mem', tx') := Complete(mem, tx, done);
            Conserved(refs + tx', mem') && mem'.cells.Keys == mem.cells.Keys
    decreases |done|
  {
    if done != [] {
      if done[0] in tx {
        var rest := tx - multiset{done[0]};
        assert refs + tx == refs + rest + multiset{done[0]};
        DeallocateConserves(refs + rest, mem, done[0]);
        CompleteConserves(refs, Deallocate(mem, done[0]), rest, done[1..]);
      } else {
        CompleteConserves(refs, mem, tx, done[1..]);
      }
    }
  }

  /** References left after some of them were reported finished. */
  function Unreported(held: nat, reports: nat): nat {
    if reports <= held then held - reports else 0
  }

  /** Every reported transmission is released: each report takes away one outstanding reference of
      its packet, as long as there is one. */
  lemma {:induction false} CompleteReleases(mem: Memory, tx: multiset<PacketId>, done: seq<PacketId>, p: PacketId)
    ensures Complete(mem, tx, done).1[p] == Unreported(tx[p], multiset(done)[p])
    decreases |done|
  {
    if done != [] {
      assert done == [done[0]] + done[1..];
      if done[0] in tx {
        CompleteReleases(Deallocate(mem, done[0]), tx - multiset{done[0]}, done[1..], p);
      } else {
        CompleteReleases(mem, tx, done[1..], p);
      }
    }
  }

  /** And a packet is in the pool afterwards exactly when it was there before or no reference to it
      remains. */
  lemma CompleteFrees(refs: multiset<PacketId>, mem: Memory, tx: multiset<PacketId>, done: seq<PacketId>, p: PacketId)
    requires Conserved(refs + tx, mem)
    ensures p in Complete(mem, tx, done).0.pool <==>
              p in mem.pool || (p in mem.cells && refs[p] == 0 && tx[p] <= multiset(done)[p])
  {
    CompleteConserves(refs, mem, tx, done);
    CompleteReleases(mem, tx, done, p);
    var (mem', tx') := Complete(mem, tx, done);
    assert (refs + tx')[p] == refs[p] + tx'[p] && (refs + tx)[p] == refs[p] + tx[p];
    assert p in mem'.pool <==> p in mem'.cells && !Live(mem', p);
    assert p in mem'.cells ==> (Live(mem', p) <==> p in refs + tx');
  }

  // ----- taking packets out of the pool and chaining them -----

  /** Take `p` from the pool, point it at `next`, and give it its buffer; `refcnt` is not written. */
  function Fill(mem: Memory, p: PacketId, next: Option<PacketId>, buf: BufType): Memory
    requires p in mem.cells
  {
    mem.(cells := mem.cells[p := mem.cells[p].(next := next, buf := buf)],
         pool := mem.pool - {p},
         rx := if buf.Mbuf? then mem.rx[buf.m := p] else mem.rx,
         loose := if buf.Mbuf? then mem.loose - {buf.m} else mem.loose)
  }

  lemma FillBalanced(refs: multiset<PacketId>, mem: Memory, p: PacketId, next: Option<PacketId>, buf: BufType)
    requires Balanced(refs, mem) && p in mem.pool
    requires buf.Mbuf? ==> buf.m in mem.loose
    ensures Balanced(refs + multiset{p}, Fill(mem, p, next, buf))
  {
    var after := Fill(mem, p, next, buf);
    var now := refs + multiset{p};
    assert !Live(mem, p);
    assert forall q :: q != p ==> now[q] == refs[q];
    assert forall q :: q != p ==> (q in now <==> q in refs);
    assert forall q :: Live(after, q) <==> Live(mem, q) || q == p;
    assert now[p] == 1;
  }

  function NextOf(picks: seq<PacketId>, i: nat): Option<PacketId> {
    if i + 1 < |picks| then Some(picks[i + 1]) else None
  }

  /** Both burst loops, which run from the last element down to element `i`: element by element,
      take the allocator's pick, and stop with `false` where the allocator has nothing to give. */
  function FillFrom(mem: Memory, picks: seq<PacketId>, bufs: seq<BufType>, i: nat): (r: (Memory, bool))
    requires |picks| == |bufs| && i <= |bufs|
    decreases |bufs| - i
  {
    if i == |bufs| then (mem, true)
    else
      var (m1, ok) := FillFrom(mem, picks, bufs, i + 1);
      if ok && picks[i] in m1.pool && picks[i] in m1.cells
      then (Fill(m1, picks[i], NextOf(picks, i), bufs[i]), true)
      else (m1, false)
  }

  /** The list that starts at `head` and follows `next` is exactly `pkts`, and ends. */
  ghost predicate IsChain(cells: map<PacketId, Cell>, head: Option<PacketId>, pkts: seq<PacketId>)
    decreases |pkts|
  {
    if pkts == [] then head == None
    else head == Some(pkts[0]) && pkts[0] in cells && IsChain(cells, cells[pkts[0]].next, pkts[1..])
  }

  lemma {:induction false} ChainFrame(cells: map<PacketId, Cell>, cells': map<PacketId, Cell>, head: Option<PacketId>,
                                      pkts: seq<PacketId>)
    requires IsChain(cells, head, pkts)
    requires forall p :: p in pkts ==> p in cells && p in cells' && cells'[p] == cells[p]
    ensures IsChain(cells', head, pkts)
    decreases |pkts|
  {
    if pkts != [] {
      ChainFrame(cells, cells', cells[pkts[0]].next, pkts[1..]);
    }
  }

  /** The mbufs named by the buffers of a burst are loose, and no two elements share one. */
  ghost predicate LooseFrom(mem: Memory, bufs: seq<BufType>, i: nat) {
    forall j :: 0 <= j < |bufs| && j < i && bufs[j].Mbuf? ==> bufs[j].m in mem.loose
  }

  ghost predicate DistinctMbufs(bufs: seq<BufType>) {
    forall j, k :: 0 <= j < k < |bufs| && bufs[j].Mbuf? ==> bufs[j] != bufs[k]
  }

  function Head(picks: seq<PacketId>, i: nat): Option<PacketId> {
    if i < |picks| then Some(picks[i]) else None
  }

  lemma {:induction false} FillFromChain(mem: Memory, picks: seq<PacketId>, bufs: seq<BufType>, i: nat)
    requires |picks| == |bufs| && i <= |bufs| && FillFrom(mem, picks, bufs, i).1
    ensures var mem' := FillFrom(mem, picks, bufs, i).0;
            && IsChain(mem'.cells, Head(picks, i), picks[i..])
            && mem'.cells.Keys == mem.cells.Keys
            && mem'.pool == mem.pool - (set p | p in picks[i..])
            && (forall j :: i <= j < |picks| ==> picks[j] in mem'.cells && mem'.cells[picks[j]].buf == bufs[j])
    ensures forall p :: p in picks[i..] ==> p in mem.pool && p in mem.cells
    ensures Distinct(picks[i..])
    decreases |bufs| - i
  {
    if i < |bufs| {
      FillFromChain(mem, picks, bufs, i + 1);
      var m1 := FillFrom(mem, picks, bufs, i + 1).0;
      var mem' := FillFrom(mem, picks, bufs, i).0;
      assert picks[i..] == [picks[i]] + picks[i + 1..];
      ChainFrame(m1.cells, mem'.cells, Head(picks, i + 1), picks[i + 1..]);
      assert mem'.cells[picks[i]].next == Head(picks, i + 1);
    }
  }

  lemma {:induction false} FillFromLoose(mem: Memory, picks: seq<PacketId>, bufs: seq<BufType>, i: nat)
    requires |picks| == |bufs| && i <= |bufs| && LooseFrom(mem, bufs, |bufs|) && DistinctMbufs(bufs)
    ensures LooseFrom(FillFrom(mem, picks, bufs, i).0, bufs, i)
    decreases |bufs| - i
  {
    if i < |bufs| {
      FillFromLoose(mem, picks, bufs, i + 1);
    }
  }

  lemma {:induction false} FillFromAttached(mem: Memory, picks: seq<PacketId>, bufs: seq<BufType>, i: nat)
    requires |picks| == |bufs| && i <= |bufs| && FillFrom(mem, picks, bufs, i).1
    ensures FillFrom(mem, picks, bufs, i).0.loose <= mem.loose
    ensures forall j :: i <= j < |bufs| && bufs[j].Mbuf? ==> bufs[j].m !in FillFrom(mem, picks, bufs, i).0.loose
    decreases |bufs| - i
  {
    if i < |bufs| {
      FillFromAttached(mem, picks, bufs, i + 1);
    }
  }

  /** Each pick of a burst the allocator could serve holds one new reference. */
  lemma {:induction false} FillFromBalanced(refs: multiset<PacketId>, mem: Memory, picks: seq<PacketId>,
                                            bufs: seq<BufType>, i: nat)
    requires |picks| == |bufs| && i <= |bufs|
    requires Balanced(refs, mem) && LooseFrom(mem, bufs, |bufs|) && DistinctMbufs(bufs)
    requires FillFrom(mem, picks, bufs, i).1
    ensures Balanced(refs + multiset(picks[i..]), FillFrom(mem, picks, bufs, i).0)
    decreases |bufs| - i
  {
    if i == |bufs| {
      assert picks[i..] == [];
      assert refs + multiset(picks[i..]) == refs;
    } else {
      FillFromBalanced(refs, mem, picks, bufs, i + 1);
      FillFromLoose(mem, picks, bufs, i + 1);
      var m1 := FillFrom(mem, picks, bufs, i + 1).0;
      assert picks[i..] == [picks[i]] + picks[i + 1..];
      var r1 := refs + multiset(picks[i + 1..]);
      assert refs + multiset(picks[i..]) == r1 + multiset{picks[i]};
      FillBalanced(r1, m1, picks[i], NextOf(picks, i), bufs[i]);
    }
  }

  // ----- the two sources of packets -----

  const USER_BURST: nat := 32
  const NIC_BURST: nat := 64

  function Locals(n: nat): (r: seq<BufType>)
    ensures |r| == n && forall i :: 0 <= i < n ==> r[i] == Local
  {
    seq(n, _ => Local)
  }

  function Mbufs(ms: seq<MbufId>): (r: seq<BufType>)
    ensures |r| == |ms| && forall i :: 0 <= i < |ms| ==> r[i] == Mbuf(ms[i])
  {
    seq(|ms|, i requires 0 <= i < |ms| => Mbuf(ms[i]))
  }

  /** The contract of a mempool get: `n` distinct free objects, or nothing. */
  predicate Grants(mem: Memory, picks: seq<PacketId>, n: nat) {
    |picks| == n && Distinct(picks) && (forall p :: p in picks ==> p in mem.pool && p in mem.cells)
  }

  lemma {:induction false} PickDistinct(s: set<nat>, n: nat) returns (r: seq<nat>)
    requires n <= |s|
    ensures |r| == n && Distinct(r) && forall i :: 0 <= i < n ==> r[i] in s
    decreases n
  {
    if n == 0 {
      r := [];
    } else {
      var x :| x in s;
      r := PickDistinct(s - {x}, n - 1);
      r := r + [x];
    }
  }

  ghost predicate Grantable(mem: Memory, n: nat) {
    exists picks: seq<PacketId> :: Grants(mem, picks, n)
  }

  /** Some grant of `n` packets is possible exactly when that many are free. */
  lemma GrantableIff(mem: Memory, n: nat)
    requires mem.pool <= mem.cells.Keys
    ensures Grantable(mem, n) <==> n <= |mem.pool|
  {
    if Grantable(mem, n) {
      var picks: seq<PacketId> :| Grants(mem, picks, n);
      DistinctSize(picks);
      SubsetSize(Members(picks), mem.pool);
    }
    if n <= |mem.pool| {
      var picks := PickDistinct(mem.pool, n);
      assert Grants(mem, picks, n);
    }
  }

  /** `UserNode::poll`: a full burst or an error that changes nothing. */
  function UserBurst(mem: Memory, picks: seq<PacketId>): (Memory, bool) {
    if Grants(mem, picks, USER_BURST) then FillFrom(mem, picks, Locals(USER_BURST), 0) else (mem, false)
  }

  /** The contract of `rte_eth_rx_burst`: at most a burst of distinct mbufs nobody holds. */
  predicate RxContract(mem: Memory, ms: seq<MbufId>) {
    |ms| <= NIC_BURST && Distinct(ms) && forall m :: m in ms ==> m !in mem.rx && m !in mem.loose
  }

  /** `Dpdk::recv` on a non-empty burst: packets are allocated one by one, last mbuf first. */
  function RecvBurst(mem: Memory, ms: seq<MbufId>, picks: seq<PacketId>): (Memory, bool)
    requires |picks| == |ms|
  {
    FillFrom(mem.(loose := mem.loose + set m | m in ms), picks, Mbufs(ms), 0)
  }

  lemma {:induction false} FillFromGranted(mem: Memory, picks: seq<PacketId>, bufs: seq<BufType>, i: nat)
    requires |picks| == |bufs| && i <= |bufs|
    requires Grants(mem, picks, |bufs|)
    ensures FillFrom(mem, picks, bufs, i).1
    ensures forall j :: 0 <= j < i ==> picks[j] in FillFrom(mem, picks, bufs, i).0.pool
    ensures FillFrom(mem, picks, bufs, i).0.cells.Keys == mem.cells.Keys
    decreases |bufs| - i
  {
    if i < |bufs| {
      FillFromGranted(mem, picks, bufs, i + 1);
    }
  }

  /** A user burst succeeds exactly when the allocator grants it; then it is a chain of exactly
      the granted packets in order, each with one reference, and the books still balance. */
  lemma UserBurstConserves(refs: multiset<PacketId>, mem: Memory, picks: seq<PacketId>)
    requires Conserved(refs, mem)
    ensures UserBurst(mem, picks).1 <==> Grants(mem, picks, USER_BURST)
    ensures UserBurst(mem, picks).0.cells.Keys == mem.cells.Keys
    ensures !UserBurst(mem, picks).1 ==> UserBurst(mem, picks).0 == mem
    ensures UserBurst(mem, picks).1 ==>
              var mem' := UserBurst(mem, picks).0;
              && Conserved(refs + multiset(picks), mem')
              && IsChain(mem'.cells, Some(picks[0]), picks)
              && mem'.pool == mem.pool - (set p | p in picks)
  {
    if Grants(mem, picks, USER_BURST) {
      var bufs := Locals(USER_BURST);
      FillFromGranted(mem, picks, bufs, 0);
      FillFromBalanced(refs, mem, picks, bufs, 0);
      FillFromChain(mem, picks, bufs, 0);
      FillFromAttached(mem, picks, bufs, 0);
      assert picks[0..] == picks;
    }
  }

  lemma {:induction false} FillFromFails(mem: Memory, picks: seq<PacketId>, bufs: seq<BufType>, i: nat)
    requires |picks| == |bufs| && i <= |bufs| && LooseFrom(mem, bufs, |bufs|) && DistinctMbufs(bufs)
    requires !FillFrom(mem, picks, bufs, i).1
    requires forall j :: 0 <= j < |bufs| ==> bufs[j].Mbuf?
    ensures FillFrom(mem, picks, bufs, i).0.loose != {}
    ensures forall j :: 0 <= j < i ==> bufs[j].m in FillFrom(mem, picks, bufs, i).0.loose
    decreases |bufs| - i
  {
    if i < |bufs| {
      if FillFrom(mem, picks, bufs, i + 1).1 {
        FillFromLoose(mem, picks, bufs, i + 1);
        assert bufs[i].m in FillFrom(mem, picks, bufs, i + 1).0.loose;
      } else {
        FillFromFails(mem, picks, bufs, i + 1);
      }
    }
  }

  lemma LooseBalanced(refs: multiset<PacketId>, mem: Memory, ms: seq<MbufId>)
    requires Conserved(refs, mem) && RxContract(mem, ms)
    ensures var mem0 := mem.(loose := mem.loose + set m | m in ms);
            && Balanced(refs, mem0)
            && LooseFrom(mem0, Mbufs(ms), |ms|)
            && DistinctMbufs(Mbufs(ms))
  {
    var mem0 := mem.(loose := mem.loose + set m | m in ms);
    assert forall q :: Live(mem0, q) <==> Live(mem, q);
  }

  lemma RecvAttachesAll(mem: Memory, ms: seq<MbufId>, picks: seq<PacketId>)
    requires mem.loose == {} && |picks| == |ms| && RecvBurst(mem, ms, picks).1
    ensures RecvBurst(mem, ms, picks).0.loose == {}
  {
    var mem0 := mem.(loose := mem.loose + set m | m in ms);
    FillFromAttached(mem0, picks, Mbufs(ms), 0);
    forall m ensures m !in RecvBurst(mem, ms, picks).0.loose {
      if m in mem0.loose {
        var j :| 0 <= j < |ms| && ms[j] == m;
        assert Mbufs(ms)[j].m == m;
      }
    }
  }

  /** All allocations of a receive succeed exactly when the pool grants the whole burst. */
  lemma RecvSucceedsIff(mem: Memory, ms: seq<MbufId>, picks: seq<PacketId>)
    requires |picks| == |ms|
    ensures RecvBurst(mem, ms, picks).1 <==> Grants(mem, picks, |ms|)
  {
    var mem0 := mem.(loose := mem.loose + set m | m in ms);
    assert picks[0..] == picks;
    if RecvBurst(mem, ms, picks).1 {
      FillFromChain(mem0, picks, Mbufs(ms), 0);
    } else if Grants(mem, picks, |ms|) {
      FillFromGranted(mem0, picks, Mbufs(ms), 0);
    }
  }

  /** A receive succeeds, and keeps the books, exactly when the picks are distinct free packets; it
      then yields the burst as a chain in buffer order, packet i carrying mbuf i.  Otherwise the
      mbufs not yet attached when an allocation fails are lost. */
  lemma RecvBurstConservesIff(refs: multiset<PacketId>, mem: Memory, ms: seq<MbufId>, picks: seq<PacketId>)
    requires Conserved(refs, mem) && RxContract(mem, ms) && |picks| == |ms|
    ensures RecvBurst(mem, ms, picks).1 <==> Grants(mem, picks, |ms|)
    ensures Conserved(refs + multiset(picks), RecvBurst(mem, ms, picks).0) <==> Grants(mem, picks, |ms|)
    ensures var mem' := RecvBurst(mem, ms, picks).0;
            if Grants(mem, picks, |ms|) then
              && IsChain(mem'.cells, Head(picks, 0), picks) && mem'.pool == mem.pool - (set p | p in picks)
              && mem'.cells.Keys == mem.cells.Keys
              && forall i :: 0 <= i < |ms| ==> picks[i] in mem'.cells && mem'.cells[picks[i]].buf == Mbuf(ms[i])
            else mem'.loose != {}
  {
    var mem0 := mem.(loose := mem.loose + set m | m in ms);
    LooseBalanced(refs, mem, ms);
    RecvSucceedsIff(mem, ms, picks);
    if RecvBurst(mem, ms, picks).1 {
      FillFromBalanced(refs, mem0, picks, Mbufs(ms), 0);
      FillFromChain(mem0, picks, Mbufs(ms), 0);
      RecvAttachesAll(mem, ms, picks);
      assert picks[0..] == picks;
    } else {
      FillFromFails(mem0, picks, Mbufs(ms), 0);
    }
  }

  ghost predicate CanReceive(mem: Memory, ms: seq<MbufId>) {
    exists picks: seq<PacketId> :: |picks| == |ms| && RecvBurst(mem, ms, picks).1
  }

  /** What a caller can check beforehand: the pool can serve a receive exactly when it holds as many
      packets as mbufs arrive. */
  lemma CanReceiveIff(refs: multiset<PacketId>, mem: Memory, ms: seq<MbufId>)
    requires Conserved(refs, mem)
    ensures CanReceive(mem, ms) <==> |ms| <= |mem.pool|
  {
    GrantableIff(mem, |ms|);
    if CanReceive(mem, ms) {
      var picks: seq<PacketId> :| |picks| == |ms| && RecvBurst(mem, ms, picks).1;
      RecvSucceedsIff(mem, ms, picks);
    }
    if Grantable(mem, |ms|) {
      var picks: seq<PacketId> :| Grants(mem, picks, |ms|);
      RecvSucceedsIff(mem, ms, picks);
      assert |picks| == |ms| && RecvBurst(mem, ms, picks).1;
    }
  }

  /** A burst that fails leaves what it had built when the allocator had nothing to give. */
  lemma {:induction false} FillFromStops(mem: Memory, picks: seq<PacketId>, bufs: seq<BufType>, i: nat) returns (f: nat)
    requires |picks| == |bufs| && i <= |bufs| && !FillFrom(mem, picks, bufs, i).1
    ensures i <= f < |bufs| && FillFrom(mem, picks, bufs, f + 1).1
    ensures FillFrom(mem, picks, bufs, i).0 == FillFrom(mem, picks, bufs, f + 1).0
    ensures var m := FillFrom(mem, picks, bufs, f + 1).0; picks[f] !in m.pool || picks[f] !in m.cells
    decreases |bufs| - i
  {
    if FillFrom(mem, picks, bufs, i + 1).1 {
      f := i;
    } else {
      f := FillFromStops(mem, picks, bufs, i + 1);
    }
  }

  /** What had been allocated by then was granted, and the next pick was not free any more. */
  lemma StoppedAt(mem: Memory, picks: seq<PacketId>, bufs: seq<BufType>, f: nat)
    requires |picks| == |bufs| && f < |bufs| && mem.pool <= mem.cells.Keys && FillFrom(mem, picks, bufs, f + 1).1
    requires var m := FillFrom(mem, picks, bufs, f + 1).0; picks[f] !in m.pool || picks[f] !in m.cells
    ensures Grants(mem, picks[f + 1..], |bufs| - f - 1)
    ensures picks[f] !in mem.pool || picks[f] in picks[f + 1..]
  {
    FillFromChain(mem, picks, bufs, f + 1);
  }

  /** The mbufs not yet attached are loose. */
  lemma LooseUpTo(mem: Memory, picks: seq<PacketId>, bufs: seq<BufType>, f: nat, i: nat)
    requires |picks| == |bufs| && f < |bufs| && LooseFrom(mem, bufs, |bufs|) && DistinctMbufs(bufs)
    requires FillFrom(mem, picks, bufs, f + 1).1 && i < |bufs| && bufs[i].Mbuf?
    ensures bufs[i].m in FillFrom(mem, picks, bufs, f + 1).0.loose <==> i <= f
    ensures FillFrom(mem, picks, bufs, f + 1).0.loose <= mem.loose
  {
    FillFromLoose(mem, picks, bufs, f + 1);
    FillFromAttached(mem, picks, bufs, f + 1);
  }

  /** Which mbufs a failed receive loses: packets are allocated from the last mbuf down, and exactly
      the mbufs up to the first one that gets no packet are lost. */
  lemma RecvLoses(refs: multiset<PacketId>, mem: Memory, ms: seq<MbufId>, picks: seq<PacketId>) returns (f: nat)
    requires Conserved(refs, mem) && RxContract(mem, ms) && |picks| == |ms| && !Grants(mem, picks, |ms|)
    ensures f < |ms| && Grants(mem, picks[f + 1..], |ms| - f - 1)
    ensures picks[f] !in mem.pool || picks[f] in picks[f + 1..]
    ensures RecvBurst(mem, ms, picks).0.loose <= set m | m in ms
    ensures forall i :: 0 <= i < |ms| ==> (ms[i] in RecvBurst(mem, ms, picks).0.loose <==> i <= f)
  {
    var mem0 := mem.(loose := mem.loose + set m | m in ms);
    RecvSucceedsIff(mem, ms, picks);
    f := FillFromStops(mem0, picks, Mbufs(ms), 0);
    StoppedAt(mem0, picks, Mbufs(ms), f);
    LooseBalanced(refs, mem, ms);
    LooseUpTo(mem0, picks, Mbufs(ms), f, f);
    forall i | 0 <= i < |ms| ensures ms[i] in RecvBurst(mem, ms, picks).0.loose <==> i <= f {
      LooseUpTo(mem0, picks, Mbufs(ms), f, i);
    }
  }

  /** An empty packet pool and one received mbuf: the mbuf is lost. */
  lemma EmptyPoolLosesMbuf()
    ensures var mem := Memory(map[], {}, map[], {}, false);
            Conserved(multiset{}, mem) && RxContract(mem, [7]) && RecvBurst(mem, [7], [0]).0.loose == {7}
  {
    var mem0 := Memory(map[], {}, map[], {7}, false);
    assert (set m | m in [7]) == {7};
    assert FillFrom(mem0, [0], Mbufs([7]), 1) == (mem0, true);
  }
}
