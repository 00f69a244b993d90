/**
 The exact height of whole runs.  A poll phase that starts from an empty stack leaves a stack of one
 of finitely many shapes: a user node yields a full burst, an I/O node anything up to one.  A run
 stays within a capacity exactly when the live walks out of every shape do, and is bounded exactly
 when no growing cycle is within reach of a polled link that can become active.
 */
module Heights {
  import opened Common
  import opened Packets
  import opened Scheduler
  import opened Runs
  import opened Growth

  // ----- the shapes a poll phase can leave -----

  /** How many packets a poll that does not fail can yield. */
  predicate Yields(k: Kind, n: nat) {
    match k
    case UserNode => n == USER_BURST
    case IoNode => n <= NIC_BURST
    case _ => n == 0
  }

  /** For each link in order, `n` times the node it leads to. */
  function Bundle(links: seq<nat>, n: nat): seq<nat> {
    if links == [] then [] else Bundle(links[..|links| - 1], n) + seq(n, _ => links[|links| - 1])
  }

  function Shape(g: Graph, polls: seq<nat>, counts: seq<nat>): seq<nat>
    requires Ids(g, polls) && |counts| == |polls|
    decreases |polls|
  {
    if polls == [] then []
    else
      var last := |polls| - 1;
      Shape(g, polls[..last], counts[..last]) + Bundle(g[polls[last]].links, counts[last])
  }

  predicate Allowed(g: Graph, polls: seq<nat>, counts: seq<nat>)
    requires Ids(g, polls)
  {
    |counts| == |polls| && forall i :: 0 <= i < |polls| ==> Yields(g[polls[i]].kind, counts[i])
  }

  lemma {:induction false} BundleIsFan(links: seq<nat>, pkts: seq<PacketId>)
    ensures NodesOf(FanChain(links, pkts)) == Bundle(links, |pkts|)
    decreases |links|
  {
    if links != [] {
      BundleIsFan(links[..|links| - 1], pkts);
    }
  }

  lemma {:induction false} BundleLength(links: seq<nat>, n: nat)
    ensures |Bundle(links, n)| == |links| * n
    decreases |links|
  {
    if links != [] {
      BundleLength(links[..|links| - 1], n);
      Distribute(|links| - 1, n);
    }
  }

  /** One more poll. */
  lemma ShapeNext(g: Graph, polls: seq<nat>, counts: seq<nat>, i: nat, n: nat)
    requires Ids(g, polls) && i < |polls| && |counts| == i
    ensures Shape(g, polls[..i + 1], counts + [n]) == Shape(g, polls[..i], counts) + Bundle(g[polls[i]].links, n)
  {
    assert polls[..i + 1][..i] == polls[..i] && (counts + [n])[..i] == counts;
  }

  lemma AllowedNext(g: Graph, polls: seq<nat>, counts: seq<nat>, i: nat, n: nat)
    requires Ids(g, polls) && i < |polls| && Allowed(g, polls[..i], counts) && Yields(g[polls[i]].kind, n)
    ensures Allowed(g, polls[..i + 1], counts + [n])
  {
    assert forall j :: 0 <= j < i ==> polls[..i + 1][j] == polls[..i][j];
  }

  function Least(k: Kind): (n: nat)
    ensures Yields(k, n)
  {
    if k.UserNode? then USER_BURST else 0
  }

  /** Every partial poll phase can be completed. */
  lemma {:induction false} Complete(g: Graph, polls: seq<nat>, counts: seq<nat>, i: nat) returns (full: seq<nat>)
    requires Ids(g, polls) && i <= |polls| && Allowed(g, polls[..i], counts)
    ensures Allowed(g, polls, full) && |Shape(g, polls[..i], counts)| <= |Shape(g, polls, full)|
    decreases |polls| - i
  {
    if i == |polls| {
      assert polls[..i] == polls;
      full := counts;
    } else {
      var n := Least(g[polls[i]].kind);
      AllowedNext(g, polls, counts, i, n);
      ShapeNext(g, polls, counts, i, n);
      full := Complete(g, polls, counts + [n], i + 1);
    }
  }

  // ----- no run exceeds what its shapes allow -----

  ghost predicate ShapesWithin(g: Graph, polls: seq<nat>, cap: nat)
    requires Ids(g, polls)
  {
    forall counts: seq<nat> :: Allowed(g, polls, counts) ==> HeightsWithin(g, Shape(g, polls, counts), cap)
  }

  ghost predicate Polled(g: Graph, polls: seq<nat>, i: nat, ns: seq<nat>)
    requires Ids(g, polls) && i <= |polls|
  {
    exists counts: seq<nat> :: Allowed(g, polls[..i], counts) && ns == Shape(g, polls[..i], counts)
  }

  ghost predicate Drained(g: Graph, polls: seq<nat>, ns: seq<nat>)
    requires Ids(g, polls)
  {
    exists counts: seq<nat> :: Allowed(g, polls, counts) && AllTraced(g, Shape(g, polls, counts), ns)
  }

  ghost predicate Within(g: Graph, polls: seq<nat>, cap: nat, m: Machine)
    requires Ids(g, polls)
  {
    && |m.cfg.stack| <= cap
    && (m.cfg.world.failed ||
        match m.phase
        case Polling(i) => i <= |polls| && Polled(g, polls, i, NodesOf(m.cfg.stack))
        case Draining => Drained(g, polls, NodesOf(m.cfg.stack)))
  }

  lemma PollYields(k: Kind, c: PollChoice, mem: Memory, tx: multiset<PacketId>)
    ensures var r := Poll(k, c, mem, tx).polled;
            (r.Chain? ==> Yields(k, |r.pkts|)) && (r.Nop? ==> Yields(k, 0))
  {
  }

  lemma {:induction false} NoBundle(links: seq<nat>)
    ensures Bundle(links, 0) == []
    decreases |links|
  {
    if links != [] {
      NoBundle(links[..|links| - 1]);
    }
  }

  lemma PollStepShape(g: Graph, n: nat, c: PollChoice, cfg: Config) returns (count: nat)
    requires Fits(g, cfg) && n < |g| && !cfg.world.failed
    ensures var r := PollStep(g, n, c, cfg);
            !r.world.failed ==>
              && Yields(g[n].kind, count)
              && NodesOf(r.stack) == NodesOf(cfg.stack) + Bundle(g[n].links, count)
    ensures var r := PollStep(g, n, c, cfg); r.world.failed ==> r.stack == cfg.stack
  {
    var r := Poll(g[n].kind, c, cfg.world.mem, cfg.world.tx);
    PollYields(g[n].kind, c, cfg.world.mem, cfg.world.tx);
    if r.polled.Chain? {
      count := |r.polled.pkts|;
      BundleIsFan(g[n].links, r.polled.pkts);
      var fan := FanChain(g[n].links, r.polled.pkts);
      assert NodesOf(cfg.stack + fan) == NodesOf(cfg.stack) + NodesOf(fan);
    } else {
      count := 0;
      NoBundle(g[n].links);
    }
  }

  lemma PolledHeight(g: Graph, polls: seq<nat>, i: nat, ns: seq<nat>, cap: nat)
    requires Ids(g, polls) && i <= |polls| && Polled(g, polls, i, ns) && ShapesWithin(g, polls, cap)
    ensures |ns| <= cap
  {
    var counts: seq<nat> :| Allowed(g, polls[..i], counts) && ns == Shape(g, polls[..i], counts);
    var full := Complete(g, polls, counts, i);
    assert HeightsWithin(g, Shape(g, polls, full), cap);
  }

  lemma PolledNext(g: Graph, polls: seq<nat>, i: nat, ns: seq<nat>, n: nat)
    requires Ids(g, polls) && i < |polls| && Polled(g, polls, i, ns) && Yields(g[polls[i]].kind, n)
    ensures Polled(g, polls, i + 1, ns + Bundle(g[polls[i]].links, n))
  {
    var counts: seq<nat> :| Allowed(g, polls[..i], counts) && ns == Shape(g, polls[..i], counts);
    AllowedNext(g, polls, counts, i, n);
    ShapeNext(g, polls, counts, i, n);
  }

  lemma StartPolled(g: Graph, polls: seq<nat>)
    requires Ids(g, polls)
    ensures Polled(g, polls, 0, [])
  {
    assert polls[..0] == [];
    assert Allowed(g, polls[..0], []) && Shape(g, polls[..0], []) == [];
  }

  lemma AllPolled(g: Graph, polls: seq<nat>, ns: seq<nat>)
    requires Ids(g, polls) && Polled(g, polls, |polls|, ns)
    ensures Drained(g, polls, ns)
  {
    assert polls[..|polls|] == polls;
    var counts: seq<nat> :| Allowed(g, polls, counts) && ns == Shape(g, polls, counts);
    StartTraced(g, ns);
  }

  lemma PollTickWithin(g: Graph, polls: seq<nat>, env: nat -> PollChoice, o: nat -> Choice, m: Machine, cap: nat)
    requires Fits(g, m.cfg) && Ids(g, polls) && ShapesWithin(g, polls, cap) && Within(g, polls, cap, m)
    requires m.phase.Polling? && !m.cfg.world.failed
    ensures Within(g, polls, cap, Tick(g, polls, env, o, m))
  {
    var i := m.phase.next;
    if i < |polls| {
      var c := env(m.cfg.world.polls);
      var n := PollStepShape(g, polls[i], c, m.cfg);
      var r := PollStep(g, polls[i], c, m.cfg);
      if !r.world.failed {
        PolledNext(g, polls, i, NodesOf(m.cfg.stack), n);
        PolledHeight(g, polls, i + 1, NodesOf(r.stack), cap);
      }
    } else {
      AllPolled(g, polls, NodesOf(m.cfg.stack));
    }
  }

  lemma DrainedStep(g: Graph, polls: seq<nat>, o: nat -> Choice, cfg: Config, cap: nat)
    requires Fits(g, cfg) && Ids(g, polls) && ShapesWithin(g, polls, cap)
    requires Drained(g, polls, NodesOf(cfg.stack)) && |cfg.stack| <= cap
    ensures Drained(g, polls, NodesOf(Step(g, o, cfg).stack)) && |Step(g, o, cfg).stack| <= cap
  {
    var counts: seq<nat> :| Allowed(g, polls, counts) && AllTraced(g, Shape(g, polls, counts), NodesOf(cfg.stack));
    assert HeightsWithin(g, Shape(g, polls, counts), cap);
    TracedStep(g, Shape(g, polls, counts), o, cfg, cap);
  }

  lemma TickWithin(g: Graph, polls: seq<nat>, env: nat -> PollChoice, o: nat -> Choice, m: Machine, cap: nat)
    requires Fits(g, m.cfg) && Ids(g, polls) && ShapesWithin(g, polls, cap) && Within(g, polls, cap, m)
    ensures Within(g, polls, cap, Tick(g, polls, env, o, m))
  {
    if m.cfg.world.failed {
      FailedStays(g, polls, env, o, m);
    } else if m.phase.Polling? {
      PollTickWithin(g, polls, env, o, m, cap);
    } else if m.cfg.stack == [] {
      StartPolled(g, polls);
      assert NodesOf(m.cfg.stack) == [];
    } else {
      DrainedStep(g, polls, o, m.cfg, cap);
    }
  }

  lemma ShapesBoundRuns(g: Graph, polls: seq<nat>, env: nat -> PollChoice, o: nat -> Choice, w: World, k: nat, cap: nat)
    requires Closed(g) && Ids(g, polls) && ShapesWithin(g, polls, cap)
    ensures |Ticks(g, polls, env, o, Machine(Polling(0), Config([], w)), k).cfg.stack| <= cap
  {
    var m := Machine(Polling(0), Config([], w));
    StartPolled(g, polls);
    assert NodesOf([]) == [];
    forall x: Machine | Fits(g, x.cfg) && Within(g, polls, cap, x)
      ensures Within(g, polls, cap, Tick(g, polls, env, o, x))
    {
      TickWithin(g, polls, env, o, x, cap);
    }
    IterateKeeps(Ticker(g, polls, env, o), x => Within(g, polls, cap, x), m, k);
  }

  // ----- every shape is left by some poll phase -----

  /** The packets of `supply` from position `from` on are free, and the mbufs from `bound` on unused. */
  ghost predicate Stocked(mem: Memory, supply: seq<PacketId>, from: nat, bound: nat) {
    && Distinct(supply)
    && (forall j :: from <= j < |supply| ==> supply[j] in mem.pool && supply[j] in mem.cells)
    && HeldBelow(mem, bound)
  }

  ghost predicate HeldBelow(mem: Memory, bound: nat) {
    (forall m :: m in mem.rx ==> m < bound) && (forall m :: m in mem.loose ==> m < bound)
  }

  lemma {:induction false} FillFromHeld(mem: Memory, picks: seq<PacketId>, bufs: seq<BufType>, i: nat, bound: nat)
    requires |picks| == |bufs| && i <= |bufs|
    requires HeldBelow(mem, bound)
    requires forall j :: 0 <= j < |bufs| && bufs[j].Mbuf? ==> bufs[j].m < bound
    ensures HeldBelow(FillFrom(mem, picks, bufs, i).0, bound)
    decreases |bufs| - i
  {
    if i < |bufs| {
      FillFromHeld(mem, picks, bufs, i + 1, bound);
    }
  }

  /** What is left in stock after a burst took the next `n` packets. */
  lemma FillKeepsStock(mem: Memory, supply: seq<PacketId>, from: nat, n: nat, bufs: seq<BufType>, bound: nat)
    requires Stocked(mem, supply, from, bound) && |bufs| == n && from + n <= |supply|
    requires forall j :: 0 <= j < n && bufs[j].Mbuf? ==> bufs[j].m < bound
    ensures Grants(mem, supply[from..from + n], n)
    ensures var (r, ok) := FillFrom(mem, supply[from..from + n], bufs, 0);
            ok && Stocked(r, supply, from + n, bound)
  {
    var picks := supply[from..from + n];
    FillFromGranted(mem, picks, bufs, 0);
    FillFromChain(mem, picks, bufs, 0);
    FillFromHeld(mem, picks, bufs, 0, bound);
    var r := FillFrom(mem, picks, bufs, 0).0;
    assert picks[0..] == picks;
    forall j | from + n <= j < |supply| ensures supply[j] in r.pool && supply[j] in r.cells {
      assert supply[j] !in picks;
    }
  }

  function FreshMbufs(bound: nat, n: nat): (r: seq<MbufId>)
    ensures |r| == n && forall j :: 0 <= j < n ==> r[j] == bound + j
  {
    seq(n, j => bound + j)
  }

  /** The environment's answer to a poll that is to yield `n` packets. */
  function Answer(supply: seq<PacketId>, from: nat, bound: nat, n: nat): PollChoice
    requires from + n <= |supply|
  {
    PollChoice(supply[from..from + n], FreshMbufs(bound, n), [], true)
  }

  lemma UserAnswer(supply: seq<PacketId>, from: nat, bound: nat, mem: Memory, tx: multiset<PacketId>)
    requires Stocked(mem, supply, from, bound) && from + USER_BURST <= |supply|
    ensures var c := Answer(supply, from, bound, USER_BURST);
            var r := Poll(UserNode, c, mem, tx);
            r.polled == Chain(c.picks) && Stocked(r.mem, supply, from + USER_BURST, bound)
  {
    FillKeepsStock(mem, supply, from, USER_BURST, Locals(USER_BURST), bound);
  }

  lemma IoAnswer(supply: seq<PacketId>, from: nat, bound: nat, n: nat, mem: Memory, tx: multiset<PacketId>)
    requires Stocked(mem, supply, from, bound) && 0 < n <= NIC_BURST && from + n <= |supply|
    ensures var c := Answer(supply, from, bound, n);
            var r := Poll(IoNode, c, mem, tx);
            r.polled == Chain(c.picks) && Stocked(r.mem, supply, from + n, bound + n)
  {
    var ms := FreshMbufs(bound, n);
    var mem0 := mem.(loose := mem.loose + set m | m in ms);
    assert Stocked(mem0, supply, from, bound + n);
    FillKeepsStock(mem0, supply, from, n, Mbufs(ms), bound + n);
    assert RxContract(mem, ms);
  }

  lemma SilentAnswer(k: Kind, supply: seq<PacketId>, from: nat, bound: nat, mem: Memory, tx: multiset<PacketId>)
    requires !k.UserNode? && from <= |supply|
    ensures var r := Poll(k, Answer(supply, from, bound, 0), mem, tx); r.polled.Nop? && r.mem == mem
  {
  }

  lemma StockLess(mem: Memory, supply: seq<PacketId>, from: nat, bound: nat, from': nat, bound': nat)
    requires Stocked(mem, supply, from, bound) && from <= from' && bound <= bound'
    ensures Stocked(mem, supply, from', bound')
  {
  }

  /** Whatever the node may yield, the environment can make it yield. */
  lemma AnswerYields(k: Kind, supply: seq<PacketId>, from: nat, bound: nat, n: nat, mem: Memory, tx: multiset<PacketId>)
    requires Stocked(mem, supply, from, bound) && Yields(k, n) && from + NIC_BURST <= |supply|
    ensures var c := Answer(supply, from, bound, n);
            var r := Poll(k, c, mem, tx);
            && Stocked(r.mem, supply, from + NIC_BURST, bound + NIC_BURST)
            && r.polled == if n == 0 then Nop else Chain(c.picks)
  {
    var r := Poll(k, Answer(supply, from, bound, n), mem, tx);
    if k.UserNode? {
      UserAnswer(supply, from, bound, mem, tx);
      StockLess(r.mem, supply, from + n, bound, from + NIC_BURST, bound + NIC_BURST);
    } else if n > 0 {
      IoAnswer(supply, from, bound, n, mem, tx);
      StockLess(r.mem, supply, from + n, bound + n, from + NIC_BURST, bound + NIC_BURST);
    } else {
      SilentAnswer(k, supply, from, bound, mem, tx);
      StockLess(r.mem, supply, from, bound, from + NIC_BURST, bound + NIC_BURST);
    }
  }

  lemma AnswerPushes(g: Graph, n: nat, supply: seq<PacketId>, from: nat, bound: nat, count: nat, cfg: Config)
    requires Fits(g, cfg) && n < |g| && !cfg.world.failed && Yields(g[n].kind, count)
    requires Stocked(cfg.world.mem, supply, from, bound) && from + NIC_BURST <= |supply|
    ensures var r := PollStep(g, n, Answer(supply, from, bound, count), cfg);
            && !r.world.failed && r.world.polls == cfg.world.polls + 1
            && Stocked(r.world.mem, supply, from + NIC_BURST, bound + NIC_BURST)
            && NodesOf(r.stack) == NodesOf(cfg.stack) + Bundle(g[n].links, count)
  {
    AnswerYields(g[n].kind, supply, from, bound, count, cfg.world.mem, cfg.world.tx);
    if count == 0 {
      NoBundle(g[n].links);
    } else {
      var pkts := supply[from..from + count];
      BundleIsFan(g[n].links, pkts);
      var fan := FanChain(g[n].links, pkts);
      assert NodesOf(cfg.stack + fan) == NodesOf(cfg.stack) + NodesOf(fan);
    }
  }

  /** The environment answers poll number `start + i` so that it yields `counts[i]` packets. */
  ghost predicate Plans(env: nat -> PollChoice, start: nat, supply: seq<PacketId>, bound: nat, counts: seq<nat>)
    requires forall i :: 0 <= i < |counts| ==> counts[i] <= NIC_BURST
    requires |supply| == NIC_BURST * |counts|
  {
    forall i: nat :: i < |counts| ==>
      env(start + i) == Answer(supply, NIC_BURST * i, bound + NIC_BURST * i, counts[i])
  }

  lemma AllowedAtMost(g: Graph, polls: seq<nat>, counts: seq<nat>)
    requires Ids(g, polls) && Allowed(g, polls, counts)
    ensures forall i :: 0 <= i < |counts| ==> counts[i] <= NIC_BURST
  {
    forall i | 0 <= i < |counts| ensures counts[i] <= NIC_BURST {
      assert Yields(g[polls[i]].kind, counts[i]);
    }
  }

  /** Where such an environment is after `i` polls. */
  ghost predicate Along(g: Graph, polls: seq<nat>, counts: seq<nat>, start: nat, supply: seq<PacketId>, bound: nat,
                        i: nat, cfg: Config)
    requires Ids(g, polls) && |counts| == |polls|
  {
    && Fits(g, cfg) && i <= |polls| && !cfg.world.failed && cfg.world.polls == start + i
    && Stocked(cfg.world.mem, supply, NIC_BURST * i, bound + NIC_BURST * i)
    && NodesOf(cfg.stack) == Shape(g, polls[..i], counts[..i])
  }

  lemma AlongNext(g: Graph, polls: seq<nat>, counts: seq<nat>, start: nat, supply: seq<PacketId>, bound: nat,
                  i: nat, cfg: Config)
    requires Ids(g, polls) && Allowed(g, polls, counts) && i < |polls| && counts[i] <= NIC_BURST
    requires |supply| == NIC_BURST * |counts| && Along(g, polls, counts, start, supply, bound, i, cfg)
    ensures var c := Answer(supply, NIC_BURST * i, bound + NIC_BURST * i, counts[i]);
            Along(g, polls, counts, start, supply, bound, i + 1, PollStep(g, polls[i], c, cfg))
  {
    AnswerPushes(g, polls[i], supply, NIC_BURST * i, bound + NIC_BURST * i, counts[i], cfg);
    ShapeNext(g, polls, counts[..i], i, counts[i]);
    assert counts[..i] + [counts[i]] == counts[..i + 1];
  }

  lemma PollAllNext(g: Graph, polls: seq<nat>, env: nat -> PollChoice, i: nat, cfg: Config)
    requires Fits(g, cfg) && Ids(g, polls) && i < |polls| && !cfg.world.failed
    ensures PollAll(g, polls[i..], env, cfg)
         == PollAll(g, polls[i + 1..], env, PollStep(g, polls[i], env(cfg.world.polls), cfg))
  {
    assert polls[i..][0] == polls[i] && polls[i..][1..] == polls[i + 1..];
  }

  lemma AlongEnd(g: Graph, polls: seq<nat>, counts: seq<nat>, start: nat, supply: seq<PacketId>, bound: nat,
                 env: nat -> PollChoice, cfg: Config)
    requires Ids(g, polls) && |counts| == |polls| && Along(g, polls, counts, start, supply, bound, |polls|, cfg)
    ensures PollAll(g, polls[|polls|..], env, cfg) == cfg && NodesOf(cfg.stack) == Shape(g, polls, counts)
  {
    assert polls[..|polls|] == polls && counts[..|polls|] == counts;
  }

  /** Such an environment leaves the shape. */
  lemma {:induction false} PlanLeaves(g: Graph, polls: seq<nat>, counts: seq<nat>, env: nat -> PollChoice,
                                      start: nat, supply: seq<PacketId>, bound: nat, i: nat, cfg: Config)
    requires Ids(g, polls) && Allowed(g, polls, counts)
    requires |supply| == NIC_BURST * |counts| && forall j :: 0 <= j < |counts| ==> counts[j] <= NIC_BURST
    requires Plans(env, start, supply, bound, counts) && Along(g, polls, counts, start, supply, bound, i, cfg)
    ensures var r := PollAll(g, polls[i..], env, cfg);
            !r.world.failed && NodesOf(r.stack) == Shape(g, polls, counts)
    decreases |polls| - i
  {
    if i == |polls| {
      AlongEnd(g, polls, counts, start, supply, bound, env, cfg);
    } else {
      var next := PlanNext(g, polls, counts, env, start, supply, bound, i, cfg);
      PlanLeaves(g, polls, counts, env, start, supply, bound, i + 1, next);
    }
  }

  lemma PlanNext(g: Graph, polls: seq<nat>, counts: seq<nat>, env: nat -> PollChoice, start: nat, supply: seq<PacketId>,
                 bound: nat, i: nat, cfg: Config)
    returns (next: Config)
    requires Ids(g, polls) && Allowed(g, polls, counts) && i < |polls|
    requires |supply| == NIC_BURST * |counts| && forall j :: 0 <= j < |counts| ==> counts[j] <= NIC_BURST
    requires Plans(env, start, supply, bound, counts) && Along(g, polls, counts, start, supply, bound, i, cfg)
    ensures Along(g, polls, counts, start, supply, bound, i + 1, next)
    ensures PollAll(g, polls[i..], env, cfg) == PollAll(g, polls[i + 1..], env, next)
  {
    PollAllNext(g, polls, env, i, cfg);
    assert env(start + i) == Answer(supply, NIC_BURST * i, bound + NIC_BURST * i, counts[i]);
    AlongNext(g, polls, counts, start, supply, bound, i, cfg);
    next := PollStep(g, polls[i], env(cfg.world.polls), cfg);
  }

  /** There are free packets for a burst of every poll. */
  ghost predicate Ample(polls: seq<nat>, mem: Memory) {
    mem.pool <= mem.cells.Keys && NIC_BURST * |polls| <= |mem.pool|
  }

  lemma {:induction false} AboveAll(s: set<nat>) returns (bound: nat)
    ensures forall m :: m in s ==> m < bound
    decreases s
  {
    bound := 0;
    if s != {} {
      var x :| x in s;
      var rest := AboveAll(s - {x});
      bound := rest + x + 1;
      forall m | m in s ensures m < bound {
        if m != x {
          assert m in s - {x};
        }
      }
    }
  }

  lemma ShapeLeft(g: Graph, polls: seq<nat>, counts: seq<nat>, w: World) returns (env: nat -> PollChoice)
    requires Closed(g) && Ids(g, polls) && Allowed(g, polls, counts) && !w.failed && Ample(polls, w.mem)
    ensures var r := PollAll(g, polls, env, Config([], w));
            !r.world.failed && NodesOf(r.stack) == Shape(g, polls, counts)
  {
    var supply := PickDistinct(w.mem.pool, NIC_BURST * |polls|);
    var bound := AboveAll(w.mem.rx.Keys + w.mem.loose);
    AllowedAtMost(g, polls, counts);
    var start := w.polls;
    env := (j: nat) =>
      if start <= j < start + |counts|
      then Answer(supply, NIC_BURST * (j - start), bound + NIC_BURST * (j - start), counts[j - start])
      else PollChoice([], [], [], true);
    assert polls[..0] == [] && counts[..0] == [] && polls[0..] == polls;
    assert NodesOf([]) == [];
    PlanLeaves(g, polls, counts, env, start, supply, bound, 0, Config([], w));
  }

  ghost predicate Exceeds(step: Machine -> Machine, m: Machine, k: nat, cap: nat) {
    |Iterate(step, m, k).cfg.stack| > cap
  }

  /** `step` does to a draining machine what `f` does to its configuration, which it leaves alone when
      the drain has ended. */
  ghost predicate Drains(step: Machine -> Machine, f: Config -> Config) {
    forall c: Config :: f(c) == c || step(Machine(Draining, c)) == Machine(Draining, f(c))
  }

  lemma {:induction false} DrainExceeds(step: Machine -> Machine, f: Config -> Config, cfg: Config, k: nat, cap: nat)
    returns (t: nat)
    requires Drains(step, f) && |Iterate(f, cfg, k).stack| > cap
    ensures Exceeds(step, Machine(Draining, cfg), t, cap)
    decreases k
  {
    if k == 0 {
      t := 0;
    } else {
      t := DrainExceeds(step, f, f(cfg), k - 1, cap);
      if f(cfg) != cfg {
        t := t + 1;
      }
    }
  }

  /** One iteration of the drain, as a function on all configurations. */
  function StepOf(g: Graph, o: nat -> Choice): Config -> Config {
    (c: Config) => if Fits(g, c) then Step(g, o, c) else c
  }

  lemma {:induction false} AfterIsIterate(g: Graph, o: nat -> Choice, f: Config -> Config, cfg: Config, k: nat)
    requires Fits(g, cfg) && f == StepOf(g, o)
    ensures After(g, o, cfg, k) == Iterate(f, cfg, k)
    decreases k
  {
    if k > 0 {
      AfterIsIterate(g, o, f, Step(g, o, cfg), k - 1);
    }
  }

  lemma TickDrains(g: Graph, polls: seq<nat>, env: nat -> PollChoice, o: nat -> Choice, c: Config)
    requires Ids(g, polls)
    ensures StepOf(g, o)(c) == c || Ticker(g, polls, env, o)(Machine(Draining, c)) == Machine(Draining, StepOf(g, o)(c))
  {
  }

  /** What a drain exceeds, the ticks of the drain exceed. */
  lemma DrainOverruns(g: Graph, polls: seq<nat>, env: nat -> PollChoice, o: nat -> Choice, cfg: Config, k: nat,
                      cap: nat)
    returns (t: nat)
    requires Fits(g, cfg) && Ids(g, polls) && |After(g, o, cfg, k).stack| > cap
    ensures Exceeds(Ticker(g, polls, env, o), Machine(Draining, cfg), t, cap)
  {
    var step, f := Ticker(g, polls, env, o), StepOf(g, o);
    forall c: Config ensures f(c) == c || step(Machine(Draining, c)) == Machine(Draining, f(c)) {
      TickDrains(g, polls, env, o, c);
    }
    AfterIsIterate(g, o, f, cfg, k);
    t := DrainExceeds(step, f, cfg, k, cap);
  }

  ghost predicate RunsWithin(g: Graph, polls: seq<nat>, w: World, cap: nat)
    requires Closed(g) && Ids(g, polls)
  {
    forall env: nat -> PollChoice, o: nat -> Choice, k: nat ::
      |Ticks(g, polls, env, o, Machine(Polling(0), Config([], w)), k).cfg.stack| <= cap
  }

  lemma PollsThenDrain(g: Graph, polls: seq<nat>, env: nat -> PollChoice, o: nat -> Choice, w: World, polled: Config,
                       t: nat, cap: nat)
    returns (k: nat)
    requires Closed(g) && Ids(g, polls) && polled == PollAll(g, polls, env, Config([], w)) && !polled.world.failed
    requires Exceeds(Ticker(g, polls, env, o), Machine(Draining, polled), t, cap)
    ensures Exceeds(Ticker(g, polls, env, o), Machine(Polling(0), Config([], w)), k, cap)
  {
    var a := PollPart(g, polls, env, o, w, polled);
    Join(Ticker(g, polls, env, o), Machine(Polling(0), Config([], w)), a, polled, t, cap);
    k := a + t;
  }

  lemma PollPart(g: Graph, polls: seq<nat>, env: nat -> PollChoice, o: nat -> Choice, w: World, polled: Config)
    returns (a: nat)
    requires Closed(g) && Ids(g, polls) && polled == PollAll(g, polls, env, Config([], w))
    ensures Gets(Ticker(g, polls, env, o), Machine(Polling(0), Config([], w)), a, polled, Draining)
  {
    assert polls[0..] == polls;
    a := PollTicks(g, polls, env, o, Config([], w), 0);
  }

  lemma Join(step: Machine -> Machine, m: Machine, a: nat, mid: Config, b: nat, cap: nat)
    requires Gets(step, m, a, mid, Draining) && !mid.world.failed && Exceeds(step, Machine(Draining, mid), b, cap)
    ensures Exceeds(step, m, a + b, cap)
  {
    IterateConcat(step, m, a, b);
    assert Iterate(step, m, a) == Machine(Draining, mid);
  }

  lemma NotWithin(g: Graph, polls: seq<nat>, env: nat -> PollChoice, o: nat -> Choice, w: World, k: nat, cap: nat)
    requires Closed(g) && Ids(g, polls)
    requires Exceeds(Ticker(g, polls, env, o), Machine(Polling(0), Config([], w)), k, cap)
    ensures !RunsWithin(g, polls, w, cap)
  {
    assert |Ticks(g, polls, env, o, Machine(Polling(0), Config([], w)), k).cfg.stack| > cap;
  }

  lemma TallShapeOverruns(g: Graph, polls: seq<nat>, counts: seq<nat>, w: World, cap: nat)
    requires Closed(g) && Ids(g, polls) && !w.failed && Ample(polls, w.mem)
    requires Allowed(g, polls, counts) && !HeightsWithin(g, Shape(g, polls, counts), cap)
    ensures !RunsWithin(g, polls, w, cap)
  {
    var env := ShapeLeft(g, polls, counts, w);
    var polled := PollAll(g, polls, env, Config([], w));
    OverrunIff(g, polled.stack, polled.world, cap);
    assert polled == Config(polled.stack, polled.world);
    var o: nat -> Choice, k: nat :| |After(g, o, polled, k).stack| > cap;
    var t := DrainOverruns(g, polls, env, o, polled, k, cap);
    var n := PollsThenDrain(g, polls, env, o, w, polled, t, cap);
    NotWithin(g, polls, env, o, w, n, cap);
  }

  /** For every closed graph, every poll list and every capacity, from an empty stack over a pool that
      can serve the polls: no run ever exceeds the capacity, whatever the environment answers, if and
      only if no live walk out of a shape a poll phase can leave does. */
  lemma RunsWithinIff(g: Graph, polls: seq<nat>, w: World, cap: nat)
    requires Closed(g) && Ids(g, polls) && !w.failed && Ample(polls, w.mem)
    ensures RunsWithin(g, polls, w, cap) <==> ShapesWithin(g, polls, cap)
  {
    if ShapesWithin(g, polls, cap) {
      forall env: nat -> PollChoice, o: nat -> Choice, k: nat
        ensures |Ticks(g, polls, env, o, Machine(Polling(0), Config([], w)), k).cfg.stack| <= cap
      {
        ShapesBoundRuns(g, polls, env, o, w, k, cap);
      }
    } else {
      var counts: seq<nat> :| Allowed(g, polls, counts) && !HeightsWithin(g, Shape(g, polls, counts), cap);
      TallShapeOverruns(g, polls, counts, w, cap);
    }
  }

  // ----- when are runs bounded at all? -----

  /** Every user node polled at position `from` or later leads only to nodes that can be finished. */
  predicate LaterFinishable(g: Graph, polls: seq<nat>, from: nat)
    requires Ids(g, polls)
  {
    forall i :: from <= i < |polls| && g[polls[i]].kind.UserNode? ==> AllIn(g[polls[i]].links, Done(g, |g|))
  }

  /** Link `j` of the i-th polled node can become active: the links pushed above it can be finished,
      by then or because nothing need be pushed over them. */
  predicate PollLive(g: Graph, polls: seq<nat>, i: nat, j: nat)
    requires Ids(g, polls)
  {
    && i < |polls| && CanPoll(g[polls[i]].kind) && j < |g[polls[i]].links|
    && (forall k :: j < k < |g[polls[i]].links| ==> Finishable(g, g[polls[i]].links[k]))
    && LaterFinishable(g, polls, i + 1)
  }

  /** An entry of a bundle: later links have entries above it. */
  lemma {:induction false} BundleAt(links: seq<nat>, n: nat, p: nat) returns (j: nat)
    requires p < |Bundle(links, n)|
    ensures n > 0 && j < |links| && Bundle(links, n)[p] == links[j]
    ensures forall k :: j < k < |links| ==> links[k] in Bundle(links, n)[p + 1..]
    decreases |links|
  {
    var init, last := links[..|links| - 1], links[|links| - 1];
    var low, b := Bundle(init, n), Bundle(links, n);
    if p < |low| {
      j := BundleAt(init, n, p);
      assert b[|low|] == last;
      forall k | j < k < |links| ensures links[k] in b[p + 1..] {
        if k == |links| - 1 {
          assert b[p + 1..][|low| - p - 1] == last;
        } else {
          assert init[k] in low[p + 1..];
          var q :| 0 <= q < |low[p + 1..]| && low[p + 1..][q] == init[k];
          assert b[p + 1..][q] == links[k];
        }
      }
    } else {
      j := |links| - 1;
    }
  }

  /** Every link has an entry with only later links above it. */
  lemma {:induction false} BundlePlace(links: seq<nat>, n: nat, j: nat) returns (p: nat)
    requires n > 0 && j < |links|
    ensures p < |Bundle(links, n)| && Bundle(links, n)[p] == links[j]
    ensures forall q :: p < q < |Bundle(links, n)| ==> Bundle(links, n)[q] in links[j + 1..]
    decreases |links|
  {
    var init, last := links[..|links| - 1], links[|links| - 1];
    var low, b := Bundle(init, n), Bundle(links, n);
    if j == |links| - 1 {
      p := |b| - 1;
    } else {
      p := BundlePlace(init, n, j);
      forall q | p < q < |b| ensures b[q] in links[j + 1..] {
        if q < |low| {
          assert low[q] in init[j + 1..];
        } else {
          assert links[j + 1..][|links| - j - 2] == last;
        }
      }
    }
  }

  lemma {:induction false} BundleHolds(links: seq<nat>, n: nat, x: nat)
    requires x in Bundle(links, n)
    ensures x in links
    decreases |links|
  {
    if links != [] && x in Bundle(links[..|links| - 1], n) {
      BundleHolds(links[..|links| - 1], n, x);
    }
  }

  /** An active index of a stack is active in what lies below a part above it that can be finished. */
  lemma ActiveSplit(g: Graph, low: seq<nat>, high: seq<nat>, j: nat)
    requires Active(g, low + high, j)
    ensures j < |low| ==> Active(g, low, j) && AllIn(high, Done(g, |g|))
    ensures j >= |low| ==> Active(g, high, j - |low|)
  {
    var ns := low + high;
    if j < |low| {
      forall i | j < i < |low| ensures Finishable(g, low[i]) {
        assert ns[i] == low[i];
      }
      forall i | 0 <= i < |high| ensures high[i] in Done(g, |g|) {
        assert ns[|low| + i] == high[i];
        assert Finishable(g, ns[|low| + i]);
      }
    } else {
      forall i | j - |low| < i < |high| ensures Finishable(g, high[i]) {
        assert ns[|low| + i] == high[i];
      }
    }
  }

  lemma ActiveBundle(g: Graph, links: seq<nat>, n: nat, p: nat) returns (j: nat)
    requires Active(g, Bundle(links, n), p)
    ensures n > 0 && j < |links| && Bundle(links, n)[p] == links[j]
    ensures forall k :: j < k < |links| ==> Finishable(g, links[k])
  {
    j := BundleAt(links, n, p);
    var b := Bundle(links, n);
    forall k | j < k < |links| ensures Finishable(g, links[k]) {
      assert links[k] in b[p + 1..];
      var q :| 0 <= q < |b[p + 1..]| && b[p + 1..][q] == links[k];
      assert b[p + 1 + q] == links[k];
    }
  }

  lemma {:induction false} BundleCovers(g: Graph, links: seq<nat>, n: nat)
    requires n > 0 && AllIn(Bundle(links, n), Done(g, |g|))
    ensures AllIn(links, Done(g, |g|))
  {
    forall j | 0 <= j < |links| ensures links[j] in Done(g, |g|) {
      var p := BundlePlace(links, n, j);
    }
  }

  /** An active node of a shape comes from a polled link that can become active. */
  lemma {:induction false} ActiveIsLive(g: Graph, polls: seq<nat>, counts: seq<nat>, m: nat, p: nat)
    returns (i: nat, j: nat)
    requires Ids(g, polls) && Allowed(g, polls, counts) && m <= |polls| && LaterFinishable(g, polls, m)
    requires Active(g, Shape(g, polls[..m], counts[..m]), p)
    ensures PollLive(g, polls, i, j) && Shape(g, polls[..m], counts[..m])[p] == g[polls[i]].links[j]
    decreases m
  {
    assert m > 0;
    var n, links := counts[m - 1], g[polls[m - 1]].links;
    var low := Shape(g, polls[..m - 1], counts[..m - 1]);
    ShapeUpTo(g, polls, counts, m - 1);
    ActiveSplit(g, low, Bundle(links, n), p);
    assert Yields(g[polls[m - 1]].kind, n);
    if p < |low| {
      if g[polls[m - 1]].kind.UserNode? {
        BundleCovers(g, links, n);
      }
      i, j := ActiveIsLive(g, polls, counts, m - 1, p);
    } else {
      i := m - 1;
      j := ActiveBundle(g, links, n, p - |low|);
    }
  }

  /** The smallest bursts with which the i-th poll yields something. */
  function Focus(g: Graph, polls: seq<nat>, i: nat): (r: seq<nat>)
    requires Ids(g, polls) && i < |polls|
    ensures |r| == |polls|
  {
    seq(|polls|, k requires 0 <= k < |polls| =>
      if g[polls[k]].kind.UserNode? then USER_BURST else if k == i && g[polls[k]].kind.IoNode? then 1 else 0)
  }

  lemma ActiveOver(g: Graph, low: seq<nat>, high: seq<nat>, p: nat)
    requires Active(g, low, p) && AllIn(high, Done(g, |g|))
    ensures Active(g, low + high, p) && (low + high)[p] == low[p]
  {
    forall q | p < q < |low + high| ensures Finishable(g, (low + high)[q]) {
      if q < |low| {
        assert Finishable(g, low[q]);
      }
    }
  }

  lemma ActiveIn(g: Graph, low: seq<nat>, high: seq<nat>, p: nat)
    requires Active(g, high, p)
    ensures Active(g, low + high, |low| + p) && (low + high)[|low| + p] == high[p]
  {
    forall q | |low| + p < q < |low + high| ensures Finishable(g, (low + high)[q]) {
      assert Finishable(g, high[q - |low|]);
    }
  }

  /** What the k-th poll pushes can all be finished. */
  predicate Passing(g: Graph, polls: seq<nat>, counts: seq<nat>, k: nat)
    requires Ids(g, polls) && |counts| == |polls|
  {
    k < |polls| && AllIn(Bundle(g[polls[k]].links, counts[k]), Done(g, |g|))
  }

  /** Over bursts that can all be finished, a node stays active. */
  lemma {:induction false} StaysActive(g: Graph, polls: seq<nat>, counts: seq<nat>, i: nat, m: nat, p: nat)
    requires Ids(g, polls) && |counts| == |polls| && i <= m <= |polls|
    requires forall k: nat :: i <= k < m ==> Passing(g, polls, counts, k)
    requires Active(g, Shape(g, polls[..i], counts[..i]), p)
    ensures Active(g, Shape(g, polls[..m], counts[..m]), p)
    ensures Shape(g, polls[..m], counts[..m])[p] == Shape(g, polls[..i], counts[..i])[p]
    decreases m
  {
    if i < m {
      StaysActive(g, polls, counts, i, m - 1, p);
      StaysOne(g, polls, counts, m - 1, p);
    }
  }

  lemma StaysOne(g: Graph, polls: seq<nat>, counts: seq<nat>, k: nat, p: nat)
    requires Ids(g, polls) && |counts| == |polls| && k < |polls|
    requires Passing(g, polls, counts, k) && Active(g, Shape(g, polls[..k], counts[..k]), p)
    ensures Active(g, Shape(g, polls[..k + 1], counts[..k + 1]), p)
    ensures Shape(g, polls[..k + 1], counts[..k + 1])[p] == Shape(g, polls[..k], counts[..k])[p]
  {
    ShapeUpTo(g, polls, counts, k);
    ActiveOver(g, Shape(g, polls[..k], counts[..k]), Bundle(g[polls[k]].links, counts[k]), p);
  }

  lemma ShapeUpTo(g: Graph, polls: seq<nat>, counts: seq<nat>, k: nat)
    requires Ids(g, polls) && |counts| == |polls| && k < |polls|
    ensures Shape(g, polls[..k + 1], counts[..k + 1])
         == Shape(g, polls[..k], counts[..k]) + Bundle(g[polls[k]].links, counts[k])
  {
    ShapeNext(g, polls, counts[..k], k, counts[k]);
    assert counts[..k] + [counts[k]] == counts[..k + 1];
  }

  lemma LaterBundle(g: Graph, polls: seq<nat>, i: nat, k: nat)
    requires Ids(g, polls) && i < k < |polls| && LaterFinishable(g, polls, i + 1)
    ensures Passing(g, polls, Focus(g, polls, i), k)
  {
    var n, links := Focus(g, polls, i)[k], g[polls[k]].links;
    if g[polls[k]].kind.UserNode? {
      forall q | 0 <= q < |Bundle(links, n)| ensures Bundle(links, n)[q] in Done(g, |g|) {
        BundleHolds(links, n, Bundle(links, n)[q]);
      }
    } else {
      NoBundle(links);
    }
  }

  lemma BundleActive(g: Graph, links: seq<nat>, n: nat, j: nat) returns (q: nat)
    requires n > 0 && j < |links| && forall k :: j < k < |links| ==> Finishable(g, links[k])
    ensures Active(g, Bundle(links, n), q) && Bundle(links, n)[q] == links[j]
  {
    q := BundlePlace(links, n, j);
    forall k | q < k < |Bundle(links, n)| ensures Finishable(g, Bundle(links, n)[k]) {
      assert Bundle(links, n)[k] in links[j + 1..];
    }
  }

  /** A polled link that can become active is active in some shape. */
  lemma LiveIsActive(g: Graph, polls: seq<nat>, i: nat, j: nat) returns (counts: seq<nat>, p: nat)
    requires Ids(g, polls) && PollLive(g, polls, i, j)
    ensures Allowed(g, polls, counts) && Active(g, Shape(g, polls, counts), p)
    ensures Shape(g, polls, counts)[p] == g[polls[i]].links[j]
  {
    counts := Focus(g, polls, i);
    p := FocusActive(g, polls, counts, i, j);
    forall k: nat | i < k < |polls| ensures Passing(g, polls, counts, k) {
      LaterBundle(g, polls, i, k);
    }
    StaysActive(g, polls, counts, i + 1, |polls|, p);
    assert polls[..|polls|] == polls && counts[..|polls|] == counts;
  }

  lemma FocusActive(g: Graph, polls: seq<nat>, counts: seq<nat>, i: nat, j: nat) returns (p: nat)
    requires Ids(g, polls) && PollLive(g, polls, i, j) && |counts| == |polls| && counts[i] > 0
    ensures Active(g, Shape(g, polls[..i + 1], counts[..i + 1]), p)
    ensures Shape(g, polls[..i + 1], counts[..i + 1])[p] == g[polls[i]].links[j]
  {
    var low, high := Shape(g, polls[..i], counts[..i]), Bundle(g[polls[i]].links, counts[i]);
    var q := BundleActive(g, g[polls[i]].links, counts[i], j);
    ShapeUpTo(g, polls, counts, i);
    ActiveIn(g, low, high, q);
    p := |low| + q;
  }

  /** No growing cycle is within live reach of a polled link that can become active. */
  ghost predicate CalmRuns(g: Graph, polls: seq<nat>)
    requires Ids(g, polls)
  {
    forall i: nat, j: nat :: PollLive(g, polls, i, j) ==> Calm(g, g[polls[i]].links[j])
  }

  lemma CalmShape(g: Graph, polls: seq<nat>, counts: seq<nat>)
    requires Ids(g, polls) && CalmRuns(g, polls) && Allowed(g, polls, counts)
    ensures CalmStack(g, Shape(g, polls, counts))
  {
    assert polls[..|polls|] == polls && counts[..|polls|] == counts;
    forall p: nat | Active(g, Shape(g, polls, counts), p) ensures Calm(g, Shape(g, polls, counts)[p]) {
      var i, j := ActiveIsLive(g, polls, counts, |polls|, p);
    }
  }

  lemma {:induction false} ShapeInRange(g: Graph, polls: seq<nat>, counts: seq<nat>)
    requires Closed(g) && Ids(g, polls) && |counts| == |polls|
    ensures Ids(g, Shape(g, polls, counts))
    decreases |polls|
  {
    if polls != [] {
      var last := |polls| - 1;
      var low, high := Shape(g, polls[..last], counts[..last]), Bundle(g[polls[last]].links, counts[last]);
      ShapeInRange(g, polls[..last], counts[..last]);
      forall q | 0 <= q < |high| ensures high[q] < |g| {
        BundleHolds(g[polls[last]].links, counts[last], high[q]);
      }
    }
  }

  function TasksAt(ns: seq<nat>): (r: seq<Task>)
    ensures NodesOf(r) == ns
  {
    var r := seq(|ns|, i requires 0 <= i < |ns| => Task(ns[i], 0));
    assert NodesOf(r) == ns;
    r
  }

  lemma CalmWithin(g: Graph, f: nat, ns: seq<nat>, w: World, cap: nat)
    requires Closed(g) && Ids(g, ns) && CalmStack(g, ns) && FanoutAtMost(g, f + 1) && !w.failed && |ns| + f * |g| <= cap
    ensures HeightsWithin(g, ns, cap)
  {
    var ts := TasksAt(ns);
    assert InRange(g, ts) by {
      assert forall i :: 0 <= i < |ts| ==> NodesOf(ts)[i] == ts[i].node;
    }
    forall o: nat -> Choice, k: nat ensures |After(g, o, Config(ts, w), k).stack| <= cap {
      HeightWithoutGrowth(g, f, o, Config(ts, w), k);
    }
    OverrunIff(g, ts, w, cap);
  }

  lemma RestlessTall(g: Graph, ns: seq<nat>, cap: nat)
    requires Closed(g) && Ids(g, ns) && !CalmStack(g, ns)
    ensures !HeightsWithin(g, ns, cap)
  {
    var p: nat :| Active(g, ns, p) && !Calm(g, ns[p]);
    var n: nat, i: nat :| GrowsAt(g, n, i) && WalkTo(g, ns[p], n);
    var there: seq<nat> :| IsWalk(g, ns[p], there) && EndOf(g, ns[p], there) == n;
    var turns := GrowingWalk(g, n, i, cap);
    WalkConcat(g, ns[p], there, turns);
    assert Reaches(g, ns, p, there + turns, p + Weight(there + turns) + |g[n].links|);
  }

  lemma {:induction false} ShapeLength(g: Graph, f: nat, polls: seq<nat>, counts: seq<nat>)
    requires Ids(g, polls) && Allowed(g, polls, counts) && FanoutAtMost(g, f + 1)
    ensures |Shape(g, polls, counts)| <= NIC_BURST * (f + 1) * |polls|
    decreases |polls|
  {
    if polls != [] {
      var last := |polls| - 1;
      var links, n := g[polls[last]].links, counts[last];
      ShapeLength(g, f, polls[..last], counts[..last]);
      BundleLength(links, n);
      AllowedAtMost(g, polls, counts);
      MulMono(|links|, n, NIC_BURST);
      Distribute(last, NIC_BURST * (f + 1));
      assert |links| * NIC_BURST <= NIC_BURST * (f + 1);
    }
  }

  ghost predicate RunsBounded(g: Graph, polls: seq<nat>, w: World)
    requires Closed(g) && Ids(g, polls)
  {
    exists cap: nat :: RunsWithin(g, polls, w, cap)
  }

  lemma CalmRunsBounded(g: Graph, polls: seq<nat>, w: World)
    requires Closed(g) && Ids(g, polls) && !w.failed && Ample(polls, w.mem) && CalmRuns(g, polls)
    ensures RunsBounded(g, polls, w)
  {
    var f := SomeFanout(g);
    var cap := NIC_BURST * (f + 1) * |polls| + f * |g|;
    forall counts: seq<nat> | Allowed(g, polls, counts) ensures HeightsWithin(g, Shape(g, polls, counts), cap) {
      CalmShape(g, polls, counts);
      ShapeInRange(g, polls, counts);
      ShapeLength(g, f, polls, counts);
      CalmWithin(g, f, Shape(g, polls, counts), w, cap);
    }
    RunsWithinIff(g, polls, w, cap);
  }

  lemma RestlessRunsUnbounded(g: Graph, polls: seq<nat>, w: World)
    requires Closed(g) && Ids(g, polls) && !w.failed && Ample(polls, w.mem) && !CalmRuns(g, polls)
    ensures !RunsBounded(g, polls, w)
  {
    var i: nat, j: nat :| PollLive(g, polls, i, j) && !Calm(g, g[polls[i]].links[j]);
    var counts, p := LiveIsActive(g, polls, i, j);
    ShapeInRange(g, polls, counts);
    forall cap: nat ensures !RunsWithin(g, polls, w, cap) {
      RestlessTall(g, Shape(g, polls, counts), cap);
      TallShapeOverruns(g, polls, counts, w, cap);
    }
  }

  /** For every closed graph and poll list, over a pool that can serve the polls: the stack is bounded
      over all runs from an empty one if and only if no growing cycle is within live reach of a polled
      link that can become active. */
  lemma RunsBoundedIff(g: Graph, polls: seq<nat>, w: World)
    requires Closed(g) && Ids(g, polls) && !w.failed && Ample(polls, w.mem)
    ensures RunsBounded(g, polls, w) <==> CalmRuns(g, polls)
  {
    if CalmRuns(g, polls) {
      CalmRunsBounded(g, polls, w);
    } else {
      RestlessRunsUnbounded(g, polls, w);
    }
  }
}
