/**
 The poll phase and whole worker runs (engine.rs): polled chains are fanned out to the polling
 node's links, then the stack is drained, round after round.  Conservation holds at every point of
 every run up to the first fatal error, and so does a bound on the stack, for graphs in which it
 cannot grow.
 */
module Runs {
  import opened Common
  import opened Packets
  import opened Scheduler
  import Acyclic
  import Growth

  /** One environment answer to a `poll` call: the packets the allocator would give, the mbufs the
      NIC delivers, the transmissions it finishes, and whether refilling transmit slots works. */
  datatype PollChoice = PollChoice(picks: seq<PacketId>, mbufs: seq<MbufId>, done: seq<PacketId>, flushOk: bool)

  datatype Polled = Chain(pkts: seq<PacketId>) | Nop | Failed

  datatype PollOutcome = PollOutcome(mem: Memory, tx: multiset<PacketId>, polled: Polled)

  /** `poll` of each module.  A NIC answer outside the driver's contract stands for an empty one. */
  function Poll(k: Kind, c: PollChoice, mem: Memory, tx: multiset<PacketId>): PollOutcome {
    match k
    case UserNode =>
      var (mem', ok) := UserBurst(mem, c.picks);
      PollOutcome(mem', tx, if ok then Chain(c.picks) else Failed)
    case IoNode =>
      var (mem1, tx1) := Complete(mem, tx, c.done);
      if !c.flushOk then PollOutcome(mem1, tx1, Failed)
      else if c.mbufs == [] || |c.picks| != |c.mbufs| || !RxContract(mem1, c.mbufs) then PollOutcome(mem1, tx1, Nop)
      else
        var (mem2, ok) := RecvBurst(mem1, c.mbufs, c.picks);
        PollOutcome(mem2, tx1, if ok then Chain(c.picks) else Failed)
    case _ => PollOutcome(mem, tx, Nop)
  }

  /** A successful poll leaves every polled packet with exactly one reference. */
  lemma PollConserves(refs: multiset<PacketId>, k: Kind, c: PollChoice, mem: Memory, tx: multiset<PacketId>)
    requires Conserved(refs + tx, mem)
    ensures var r := Poll(k, c, mem, tx);
            && (r.polled.Nop? ==> Conserved(refs + r.tx, r.mem))
            && (r.polled.Chain? ==>
                  && Conserved(refs + r.tx + multiset(r.polled.pkts), r.mem)
                  && 1 <= |r.polled.pkts| <= NIC_BURST
                  && IsChain(r.mem.cells, Some(r.polled.pkts[0]), r.polled.pkts))
            && (!r.polled.Failed? ==> r.mem.cells.Keys == mem.cells.Keys)
  {
    match k
    case UserNode =>
      UserBurstConserves(refs + tx, mem, c.picks);
    case IoNode =>
      CompleteConserves(refs, mem, tx, c.done);
      var (mem1, tx1) := Complete(mem, tx, c.done);
      if c.flushOk && c.mbufs != [] && |c.picks| == |c.mbufs| && RxContract(mem1, c.mbufs) {
        RecvBurstConservesIff(refs + tx1, mem1, c.mbufs, c.picks);
      }
    case _ =>
  }

  /** No poll returns more than a burst. */
  lemma PollBurst(k: Kind, c: PollChoice, mem: Memory, tx: multiset<PacketId>)
    ensures var r := Poll(k, c, mem, tx); r.polled.Chain? ==> |r.polled.pkts| <= NIC_BURST
  {
  }

  /** What a poll yields.  A user node: the full burst if the pool grants it, and otherwise an error
      that changes nothing.  An I/O node: an error if its flush fails; nothing if nothing arrived; and
      otherwise the burst if the pool grants it, or an error.  Other modules: nothing. */
  lemma PollMeaning(k: Kind, c: PollChoice, mem: Memory, tx: multiset<PacketId>)
    ensures var r := Poll(k, c, mem, tx);
            match k
            case UserNode =>
              && r.tx == tx
              && (Grants(mem, c.picks, USER_BURST) ==> r.polled == Chain(c.picks))
              && (!Grants(mem, c.picks, USER_BURST) ==> r.polled.Failed? && r.mem == mem)
            case IoNode =>
              var flushed := Complete(mem, tx, c.done).0;
              && (forall p :: r.tx[p] == Unreported(tx[p], multiset(c.done)[p]))
              && (!c.flushOk ==> r.polled.Failed? && r.mem == flushed)
              && (c.flushOk && c.mbufs == [] ==> r.polled.Nop? && r.mem == flushed)
              && (c.flushOk && c.mbufs != [] && RxContract(flushed, c.mbufs) && |c.picks| == |c.mbufs| ==>
                    r.polled == if Grants(flushed, c.picks, |c.mbufs|) then Chain(c.picks) else Failed)
            case _ => r == PollOutcome(mem, tx, Nop)
  {
    match k
    case UserNode =>
      if Grants(mem, c.picks, USER_BURST) {
        FillFromGranted(mem, c.picks, Locals(USER_BURST), 0);
      }
    case IoNode =>
      forall p ensures Poll(k, c, mem, tx).tx[p] == Unreported(tx[p], multiset(c.done)[p]) {
        CompleteReleases(mem, tx, c.done, p);
      }
      var flushed := Complete(mem, tx, c.done).0;
      if |c.picks| == |c.mbufs| {
        RecvSucceedsIff(flushed, c.mbufs, c.picks);
      }
    case _ =>
  }

  // ----- fan-out of a polled chain -----

  function Column(n: nat, pkts: seq<PacketId>): (r: seq<Task>)
    ensures |r| == |pkts| && forall i :: 0 <= i < |r| ==> r[i] == Task(n, pkts[i])
  {
    seq(|pkts|, i requires 0 <= i < |pkts| => Task(n, pkts[i]))
  }

  /** For each link in order, the whole chain in order. */
  function FanChain(links: seq<nat>, pkts: seq<PacketId>): seq<Task> {
    if links == [] then []
    else FanChain(links[..|links| - 1], pkts) + Column(links[|links| - 1], pkts)
  }

  /** Copy number i of the chain is for link i, packet number j of it in place j. */
  lemma {:induction false} FanChainAt(links: seq<nat>, pkts: seq<PacketId>, i: nat, j: nat)
    requires i < |links| && j < |pkts|
    ensures i * |pkts| + j < |FanChain(links, pkts)|
    ensures FanChain(links, pkts)[i * |pkts| + j] == Task(links[i], pkts[j])
    decreases |links|
  {
    FanLength(links[..|links| - 1], pkts);
    if i < |links| - 1 {
      FanChainAt(links[..|links| - 1], pkts, i, j);
    }
  }

  lemma {:induction false} FanChainInRange(g: Graph, links: seq<nat>, pkts: seq<PacketId>)
    requires Ids(g, links)
    ensures InRange(g, FanChain(links, pkts))
    decreases |links|
  {
    if links != [] {
      FanChainInRange(g, links[..|links| - 1], pkts);
    }
  }

  lemma Distribute(a: nat, m: nat)
    ensures (a + 1) * m == a * m + m
  {
  }

  lemma {:induction false} RefsFanChain(links: seq<nat>, pkts: seq<PacketId>, p: PacketId)
    ensures Refs(FanChain(links, pkts))[p] == |links| * multiset(pkts)[p]
    decreases |links|
  {
    if links == [] {
      assert PacketsOf(FanChain(links, pkts)) == [];
    } else {
      var links' := links[..|links| - 1];
      RefsFanChain(links', pkts, p);
      RefsConcat(FanChain(links', pkts), Column(links[|links| - 1], pkts));
      assert PacketsOf(Column(links[|links| - 1], pkts)) == pkts;
      Distribute(|links'|, multiset(pkts)[p]);
    }
  }

  lemma {:induction false} FanLength(links: seq<nat>, pkts: seq<PacketId>)
    ensures |FanChain(links, pkts)| == |links| * |pkts|
    decreases |links|
  {
    if links != [] {
      FanLength(links[..|links| - 1], pkts);
      Distribute(|links| - 1, |pkts|);
    }
  }

  lemma RefsFanOne(links: seq<nat>, pkts: seq<PacketId>)
    requires |links| == 1
    ensures Refs(FanChain(links, pkts)) == multiset(pkts)
  {
    forall p ensures Refs(FanChain(links, pkts))[p] == multiset(pkts)[p] {
      RefsFanChain(links, pkts, p);
    }
  }

  /** The poll phase copies a chain to every link without raising any counter, so the books
      balance afterwards if and only if the polled node has exactly one out-link. */
  lemma PollLinksIff(refs: multiset<PacketId>, mem: Memory, links: seq<nat>, pkts: seq<PacketId>)
    requires Conserved(refs + multiset(pkts), mem) && pkts != []
    ensures Conserved(refs + Refs(FanChain(links, pkts)), mem) <==> |links| == 1
  {
    if |links| == 1 {
      RefsFanOne(links, pkts);
    } else {
      var p := pkts[0];
      var l, m := |links|, multiset(pkts)[p];
      var now := refs + Refs(FanChain(links, pkts));
      assert p in multiset(pkts) && m >= 1;
      RefsFanChain(links, pkts, p);
      assert Live(mem, p) && mem.cells[p].refcnt == refs[p] + m;
      assert now[p] == refs[p] + l * m;
      assert l * m != m by {
        if l == 0 { assert l * m == 0; } else { MulMono(m, 2, l); assert m * l == l * m; }
      }
      assert !Conserved(now, mem);
    }
  }

  // ----- one poll, one poll phase, one round, whole runs -----

  function PollStep(g: Graph, n: nat, c: PollChoice, cfg: Config): (r: Config)
    requires Fits(g, cfg) && n < |g|
    ensures Fits(g, r)
  {
    if cfg.world.failed then cfg
    else
      var w := cfg.world;
      var r := Poll(g[n].kind, c, w.mem, w.tx);
      var w' := World(r.mem, r.tx, w.calls, w.polls + 1, r.polled.Failed?);
      if r.polled.Chain? then
        FanChainInRange(g, g[n].links, r.polled.pkts);
        Config(cfg.stack + FanChain(g[n].links, r.polled.pkts), w')
      else Config(cfg.stack, w')
  }

  /** One poll of a running worker: an error ends the run and nothing else does; only a chain pushes
      tasks, copy i of it for link i, in order. */
  lemma PollStepMeaning(g: Graph, n: nat, c: PollChoice, cfg: Config)
    requires Fits(g, cfg) && n < |g| && !cfg.world.failed
    ensures var r := PollStep(g, n, c, cfg);
            var got := Poll(g[n].kind, c, cfg.world.mem, cfg.world.tx);
            && (r.world.failed <==> got.polled.Failed?)
            && r.world.mem == got.mem && r.world.tx == got.tx
            && r.world.calls == cfg.world.calls && r.world.polls == cfg.world.polls + 1
            && (!got.polled.Chain? ==> r.stack == cfg.stack)
            && (got.polled.Chain? ==>
                  var m := |got.polled.pkts|;
                  && |r.stack| == |cfg.stack| + |g[n].links| * m && cfg.stack <= r.stack
                  && forall i: nat, j: nat {:trigger Copied(cfg, r, g[n].links, got.polled.pkts, i, j)} ::
                       i < |g[n].links| && j < m ==> Copied(cfg, r, g[n].links, got.polled.pkts, i, j))
  {
    var r := PollStep(g, n, c, cfg);
    var got := Poll(g[n].kind, c, cfg.world.mem, cfg.world.tx);
    if got.polled.Chain? {
      var links, pkts := g[n].links, got.polled.pkts;
      FanLength(links, pkts);
      forall i: nat, j: nat | i < |links| && j < |pkts| ensures Copied(cfg, r, links, pkts, i, j) {
        FanChainAt(links, pkts, i, j);
        assert r.stack[|cfg.stack| + (i * |pkts| + j)] == FanChain(links, pkts)[i * |pkts| + j];
      }
    }
  }

  ghost predicate Copied(cfg: Config, r: Config, links: seq<nat>, pkts: seq<PacketId>, i: nat, j: nat)
    requires i < |links| && j < |pkts|
  {
    var at := |cfg.stack| + (i * |pkts| + j);
    at < |r.stack| && r.stack[at] == Task(links[i], pkts[j])
  }

  /** Poll the listed nodes in order; an error ends the phase. */
  function PollAll(g: Graph, polls: seq<nat>, env: nat -> PollChoice, cfg: Config): (r: Config)
    requires Fits(g, cfg) && Ids(g, polls)
    ensures Fits(g, r)
    decreases |polls|
  {
    if polls == [] || cfg.world.failed then cfg
    else PollAll(g, polls[1..], env, PollStep(g, polls[0], env(cfg.world.polls), cfg))
  }

  /** A poll phase followed by a complete drain. */
  ghost function Round(g: Graph, rank: seq<nat>, polls: seq<nat>, env: nat -> PollChoice, o: nat -> Choice,
                       cfg: Config): (r: Config)
    requires Fits(g, cfg) && Ids(g, polls) && Ranked(g, rank)
    ensures Fits(g, r) && Halted(r)
  {
    Drain(g, rank, o, PollAll(g, polls, env, cfg))
  }

  /** Up to `n` rounds: an error ends the run. */
  ghost function Rounds(g: Graph, rank: seq<nat>, polls: seq<nat>, env: nat -> PollChoice, o: nat -> Choice,
                        cfg: Config, n: nat): (r: Config)
    requires Fits(g, cfg) && Ids(g, polls) && Ranked(g, rank)
    ensures Fits(g, r)
    decreases n
  {
    if n == 0 || cfg.world.failed then cfg
    else Rounds(g, rank, polls, env, o, Round(g, rank, polls, env, o, cfg), n - 1)
  }

  /** What conservation asks of a graph: polled nodes have exactly one out-link and nodes that can
      forward have at least one. */
  ghost predicate Sound(g: Graph, polls: seq<nat>) {
    && Closed(g) && Productive(g) && Ids(g, polls)
    && forall i :: 0 <= i < |polls| ==> |g[polls[i]].links| == 1
  }

  /** Polling a node with one out-link turns what was polled into queued references, whoever holds
      the others. */
  lemma PollStepConserves(g: Graph, n: nat, c: PollChoice, others: multiset<PacketId>, cfg: Config)
    requires Fits(g, cfg) && n < |g| && |g[n].links| == 1
    requires Conserved(others + Refs(cfg.stack) + cfg.world.tx, cfg.world.mem)
    ensures var r := PollStep(g, n, c, cfg);
            !r.world.failed ==>
              && Conserved(others + Refs(r.stack) + r.world.tx, r.world.mem)
              && r.world.mem.cells.Keys == cfg.world.mem.cells.Keys
  {
    if !cfg.world.failed {
      var w := cfg.world;
      var refs := others + Refs(cfg.stack);
      PollConserves(refs, g[n].kind, c, w.mem, w.tx);
      var r := Poll(g[n].kind, c, w.mem, w.tx);
      if r.polled.Chain? {
        var fan := FanChain(g[n].links, r.polled.pkts);
        RefsFanOne(g[n].links, r.polled.pkts);
        RefsConcat(cfg.stack, fan);
        assert refs + r.tx + multiset(r.polled.pkts) == others + Refs(cfg.stack + fan) + r.tx;
      }
    }
  }

  lemma PollStepAccounted(g: Graph, n: nat, c: PollChoice, cfg: Config)
    requires Fits(g, cfg) && n < |g| && |g[n].links| == 1 && Accounted(cfg)
    ensures var r := PollStep(g, n, c, cfg);
            !r.world.failed ==>
              && Accounted(r)
              && r.world.mem.cells.Keys == cfg.world.mem.cells.Keys
  {
    NoOthers(Refs(cfg.stack));
    NoOthers(Refs(PollStep(g, n, c, cfg).stack));
    PollStepConserves(g, n, c, multiset{}, cfg);
  }

  lemma {:induction false} PollPhaseAccounted(g: Graph, polls: seq<nat>, env: nat -> PollChoice, cfg: Config)
    requires Fits(g, cfg) && Sound(g, polls) && Accounted(cfg)
    ensures var r := PollAll(g, polls, env, cfg);
            !r.world.failed ==>
              && Accounted(r)
              && r.world.mem.cells.Keys == cfg.world.mem.cells.Keys
    decreases |polls|
  {
    if polls != [] && !cfg.world.failed {
      var c := env(cfg.world.polls);
      PollStepAccounted(g, polls[0], c, cfg);
      var next := PollStep(g, polls[0], c, cfg);
      if !next.world.failed {
        PollPhaseAccounted(g, polls[1..], env, next);
      }
    }
  }

  /** One poll adds at most a burst per out-link of the polled node. */
  lemma PollStepHeight(g: Graph, n: nat, c: PollChoice, cfg: Config)
    requires Fits(g, cfg) && n < |g|
    ensures |PollStep(g, n, c, cfg).stack| <= |cfg.stack| + NIC_BURST * |g[n].links|
  {
    var r := Poll(g[n].kind, c, cfg.world.mem, cfg.world.tx);
    PollBurst(g[n].kind, c, cfg.world.mem, cfg.world.tx);
    if r.polled.Chain? {
      FanLength(g[n].links, r.polled.pkts);
      MulMono(|g[n].links|, |r.polled.pkts|, NIC_BURST);
    }
  }

  /** The number of out-links of the polled nodes together. */
  function PolledLinks(g: Graph, polls: seq<nat>): nat
    requires Ids(g, polls)
    decreases |polls|
  {
    if polls == [] then 0 else |g[polls[0]].links| + PolledLinks(g, polls[1..])
  }

  lemma {:induction false} PolledLinksBound(g: Graph, polls: seq<nat>, f: nat)
    requires Ids(g, polls) && forall i :: 0 <= i < |polls| ==> |g[polls[i]].links| <= f
    ensures PolledLinks(g, polls) <= f * |polls|
    decreases |polls|
  {
    if polls != [] {
      PolledLinksBound(g, polls[1..], f);
      assert f * |polls| == f + f * (|polls| - 1);
    }
  }

  lemma {:induction false} PollPhaseHeight(g: Graph, polls: seq<nat>, env: nat -> PollChoice, cfg: Config)
    requires Fits(g, cfg) && Ids(g, polls)
    ensures |PollAll(g, polls, env, cfg).stack| <= |cfg.stack| + NIC_BURST * PolledLinks(g, polls)
    decreases |polls|
  {
    if polls != [] && !cfg.world.failed {
      var c := env(cfg.world.polls);
      PollStepHeight(g, polls[0], c, cfg);
      PollPhaseHeight(g, polls[1..], env, PollStep(g, polls[0], c, cfg));
    }
  }

  lemma RoundConserves(g: Graph, rank: seq<nat>, polls: seq<nat>, env: nat -> PollChoice, o: nat -> Choice, cfg: Config)
    requires Fits(g, cfg) && Sound(g, polls) && Ranked(g, rank) && Accounted(cfg) && !cfg.world.failed
    ensures var r := Round(g, rank, polls, env, o, cfg);
            !r.world.failed ==> r.stack == [] && Accounted(r) && r.world.mem.cells.Keys == cfg.world.mem.cells.Keys
  {
    PollPhaseAccounted(g, polls, env, cfg);
    var polled := PollAll(g, polls, env, cfg);
    if !polled.world.failed {
      var k := WorkAll(g, rank, NodesOf(polled.stack));
      DrainTerminates(g, rank, o, polled, k);
      DrainAccounted(g, o, polled, k);
    }
  }

  /** Conservation over every run: for any environment, after any number of rounds that did not
      end in a fatal error, the stack is empty, every live packet is held by exactly `refcnt`
      transmit references, and pool and live packets partition the same universe. */
  lemma {:induction false} RunConserves(g: Graph, rank: seq<nat>, polls: seq<nat>, env: nat -> PollChoice,
                                        o: nat -> Choice, cfg: Config, n: nat)
    requires Sound(g, polls) && Ranked(g, rank) && cfg.stack == [] && Accounted(cfg)
    ensures var r := Rounds(g, rank, polls, env, o, cfg, n);
            !r.world.failed ==> r.stack == [] && Accounted(r) && r.world.mem.cells.Keys == cfg.world.mem.cells.Keys
    decreases n
  {
    if n > 0 && !cfg.world.failed {
      RoundConserves(g, rank, polls, env, o, cfg);
      var next := Round(g, rank, polls, env, o, cfg);
      if !next.world.failed {
        RunConserves(g, rank, polls, env, o, next, n - 1);
      }
    }
  }

  // ----- the run as a machine: one poll or one drain iteration at a time -----

  datatype Phase = Polling(next: nat) | Draining
  datatype Machine = Machine(phase: Phase, cfg: Config)

  function Tick(g: Graph, polls: seq<nat>, env: nat -> PollChoice, o: nat -> Choice, m: Machine): (r: Machine)
    requires Fits(g, m.cfg) && Ids(g, polls)
    ensures Fits(g, r.cfg)
  {
    if m.cfg.world.failed then m
    else match m.phase
      case Polling(i) =>
        if i < |polls| then Machine(Polling(i + 1), PollStep(g, polls[i], env(m.cfg.world.polls), m.cfg))
        else Machine(Draining, m.cfg)
      case Draining =>
        if m.cfg.stack == [] then Machine(Polling(0), m.cfg) else Machine(Draining, Step(g, o, m.cfg))
  }

  /** One tick of any state; the state stays put if a task names no node. */
  function Ticker(g: Graph, polls: seq<nat>, env: nat -> PollChoice, o: nat -> Choice): Machine -> Machine
    requires Ids(g, polls)
  {
    (m: Machine) => if Fits(g, m.cfg) then Tick(g, polls, env, o, m) else m
  }

  /** The machine after `k` ticks.  No ranking is assumed: the drain need not end. */
  function Ticks(g: Graph, polls: seq<nat>, env: nat -> PollChoice, o: nat -> Choice, m: Machine, k: nat): (r: Machine)
    requires Fits(g, m.cfg) && Ids(g, polls)
    ensures Fits(g, r.cfg)
  {
    IterateKeeps(Ticker(g, polls, env, o), (m': Machine) => Fits(g, m'.cfg), m, k);
    Iterate(Ticker(g, polls, env, o), m, k)
  }

  /** A fatal error occurred, or every reference is accounted for over the universe `keys`. */
  ghost predicate Accountable(keys: set<PacketId>, m: Machine) {
    m.cfg.world.failed || (Accounted(m.cfg) && m.cfg.world.mem.cells.Keys == keys)
  }

  lemma TickAccounted(g: Graph, polls: seq<nat>, env: nat -> PollChoice, o: nat -> Choice, m: Machine)
    requires Fits(g, m.cfg) && Sound(g, polls) && Accountable(m.cfg.world.mem.cells.Keys, m)
    ensures Accountable(m.cfg.world.mem.cells.Keys, Tick(g, polls, env, o, m))
  {
    if m.cfg.world.failed {
    } else if m.phase.Draining? {
      StepAccounted(g, o, m.cfg);
    } else if m.phase.next < |polls| {
      PollStepAccounted(g, polls[m.phase.next], env(m.cfg.world.polls), m.cfg);
    }
  }

  lemma FailedStays(g: Graph, polls: seq<nat>, env: nat -> PollChoice, o: nat -> Choice, m: Machine)
    requires Fits(g, m.cfg) && Ids(g, polls) && m.cfg.world.failed
    ensures Tick(g, polls, env, o, m) == m
  {
  }

  lemma TickAccountable(g: Graph, polls: seq<nat>, env: nat -> PollChoice, o: nat -> Choice, keys: set<PacketId>)
    requires Sound(g, polls)
    ensures Keeps(Ticker(g, polls, env, o), m => Accountable(keys, m))
  {
    forall m: Machine | Fits(g, m.cfg) && Accountable(keys, m) ensures Accountable(keys, Tick(g, polls, env, o, m)) {
      if m.cfg.world.failed {
        FailedStays(g, polls, env, o, m);
      } else {
        TickAccounted(g, polls, env, o, m);
      }
    }
  }

  /** Conservation at every instant: between any two polls or drain iterations of any round of any
      run, for any environment, each live packet is held by exactly `refcnt` queued tasks and
      transmit references and the universe of packets is unchanged, until a fatal error. */
  lemma AlwaysAccounted(g: Graph, polls: seq<nat>, env: nat -> PollChoice, o: nat -> Choice, m: Machine, k: nat)
    requires Fits(g, m.cfg) && Sound(g, polls) && Accounted(m.cfg)
    ensures Accountable(m.cfg.world.mem.cells.Keys, Ticks(g, polls, env, o, m, k))
  {
    var keys := m.cfg.world.mem.cells.Keys;
    TickAccountable(g, polls, env, o, keys);
    IterateKeeps(Ticker(g, polls, env, o), m => Accountable(keys, m), m, k);
  }

  // ----- rounds are reached by ticks -----

  /** `k` steps lead to the configuration, and to the phase unless a fatal error occurred. */
  ghost predicate Gets(step: Machine -> Machine, m: Machine, k: nat, cfg: Config, phase: Phase) {
    var r := Iterate(step, m, k);
    r.cfg == cfg && (cfg.world.failed || r.phase == phase)
  }

  lemma GetsThen(step: Machine -> Machine, m: Machine, a: nat, mid: Config, p: Phase, b: nat, end: Config, q: Phase)
    returns (k: nat)
    requires Gets(step, m, a, mid, p)
    requires if mid.world.failed then end == mid else Gets(step, Machine(p, mid), b, end, q)
    ensures Gets(step, m, k, end, q)
  {
    if mid.world.failed {
      k := a;
    } else {
      IterateConcat(step, m, a, b);
      k := a + b;
    }
  }

  /** A poll phase from its i-th poll on, tick by tick. */
  lemma {:induction false} PollTicks(g: Graph, polls: seq<nat>, env: nat -> PollChoice, o: nat -> Choice, cfg: Config,
                                     i: nat)
    returns (k: nat)
    requires Fits(g, cfg) && Ids(g, polls) && i <= |polls|
    ensures Gets(Ticker(g, polls, env, o), Machine(Polling(i), cfg), k, PollAll(g, polls[i..], env, cfg), Draining)
    decreases |polls| - i
  {
    if cfg.world.failed {
      k := 0;
    } else if i == |polls| {
      k := 1;
    } else {
      var next := PollStep(g, polls[i], env(cfg.world.polls), cfg);
      assert polls[i..][0] == polls[i] && polls[i..][1..] == polls[i + 1..];
      k := PollTicks(g, polls, env, o, next, i + 1);
      k := k + 1;
    }
  }

  /** A complete drain, tick by tick. */
  lemma {:induction false} DrainTicks(g: Graph, rank: seq<nat>, polls: seq<nat>, env: nat -> PollChoice,
                                      o: nat -> Choice, cfg: Config)
    returns (k: nat)
    requires Fits(g, cfg) && Ids(g, polls) && Ranked(g, rank)
    ensures Gets(Ticker(g, polls, env, o), Machine(Draining, cfg), k, Drain(g, rank, o, cfg), Polling(0))
    decreases WorkAll(g, rank, NodesOf(cfg.stack))
  {
    if cfg.world.failed {
      k := 0;
    } else if cfg.stack == [] {
      k := 1;
    } else {
      var next := DrainTickOn(g, rank, polls, env, o, cfg);
      var rest := DrainTicks(g, rank, polls, env, o, next);
      var step := Ticker(g, polls, env, o);
      GetsOn(step, Machine(Draining, cfg), Machine(Draining, next), rest, Drain(g, rank, o, next), Polling(0));
      k := rest + 1;
    }
  }

  lemma DrainTickOn(g: Graph, rank: seq<nat>, polls: seq<nat>, env: nat -> PollChoice, o: nat -> Choice, cfg: Config)
    returns (next: Config)
    requires Fits(g, cfg) && Ids(g, polls) && Ranked(g, rank) && !Halted(cfg)
    ensures Fits(g, next) && Drain(g, rank, o, cfg) == Drain(g, rank, o, next)
    ensures WorkAll(g, rank, NodesOf(next.stack)) < WorkAll(g, rank, NodesOf(cfg.stack))
    ensures Ticker(g, polls, env, o)(Machine(Draining, cfg)) == Machine(Draining, next)
  {
    StepWork(g, rank, o, cfg);
    next := Step(g, o, cfg);
  }

  lemma GetsOn(step: Machine -> Machine, m: Machine, next: Machine, k: nat, cfg: Config, phase: Phase)
    requires step(m) == next && Gets(step, next, k, cfg, phase)
    ensures Gets(step, m, k + 1, cfg, phase)
  {
  }

  lemma DrainFailed(g: Graph, rank: seq<nat>, o: nat -> Choice, cfg: Config)
    requires Fits(g, cfg) && Ranked(g, rank) && cfg.world.failed
    ensures Drain(g, rank, o, cfg) == cfg
  {
  }

  lemma RoundTicks(g: Graph, rank: seq<nat>, polls: seq<nat>, env: nat -> PollChoice, o: nat -> Choice, cfg: Config)
    returns (k: nat)
    requires Fits(g, cfg) && Ids(g, polls) && Ranked(g, rank)
    ensures Gets(Ticker(g, polls, env, o), Machine(Polling(0), cfg), k, Round(g, rank, polls, env, o, cfg), Polling(0))
  {
    assert polls[0..] == polls;
    var a := PollTicks(g, polls, env, o, cfg, 0);
    var polled := PollAll(g, polls, env, cfg);
    if polled.world.failed {
      DrainFailed(g, rank, o, polled);
    }
    var b := DrainTicks(g, rank, polls, env, o, polled);
    var step, start := Ticker(g, polls, env, o), Machine(Polling(0), cfg);
    k := GetsThen(step, start, a, polled, Draining, b, Drain(g, rank, o, polled), Polling(0));
  }

  lemma RoundsStep(g: Graph, rank: seq<nat>, polls: seq<nat>, env: nat -> PollChoice, o: nat -> Choice, cfg: Config,
                   n: nat)
    requires Fits(g, cfg) && Ids(g, polls) && Ranked(g, rank) && n > 0 && !cfg.world.failed
    ensures Rounds(g, rank, polls, env, o, cfg, n) ==
            Rounds(g, rank, polls, env, o, Round(g, rank, polls, env, o, cfg), n - 1)
  {
  }

  lemma RoundsEnd(g: Graph, rank: seq<nat>, polls: seq<nat>, env: nat -> PollChoice, o: nat -> Choice, cfg: Config,
                  n: nat)
    requires Fits(g, cfg) && Ids(g, polls) && Ranked(g, rank) && (n == 0 || cfg.world.failed)
    ensures Rounds(g, rank, polls, env, o, cfg, n) == cfg
  {
  }

  ghost function Repeated(f: Config -> Config, cfg: Config, n: nat): Config
    decreases n
  {
    if n == 0 || cfg.world.failed then cfg else Repeated(f, f(cfg), n - 1)
  }

  ghost predicate CanFollow(step: Machine -> Machine, c: Config, end: Config) {
    exists k: nat :: Gets(step, Machine(Polling(0), c), k, end, Polling(0))
  }

  lemma FollowsThen(step: Machine -> Machine, c: Config, next: Config, end: Config)
    requires CanFollow(step, c, next) && (if next.world.failed then end == next else CanFollow(step, next, end))
    ensures CanFollow(step, c, end)
  {
    var a: nat :| Gets(step, Machine(Polling(0), c), a, next, Polling(0));
    if !next.world.failed {
      var b: nat :| Gets(step, Machine(Polling(0), next), b, end, Polling(0));
      var k := GetsThen(step, Machine(Polling(0), c), a, next, Polling(0), b, end, Polling(0));
    }
  }

  lemma {:induction false} RepeatedFollow(step: Machine -> Machine, f: Config -> Config, cfg: Config, n: nat)
    requires forall c: Config :: CanFollow(step, c, f(c))
    ensures CanFollow(step, cfg, Repeated(f, cfg, n))
    decreases n
  {
    if n == 0 || cfg.world.failed {
      assert Gets(step, Machine(Polling(0), cfg), 0, cfg, Polling(0));
    } else {
      RepeatedFollow(step, f, f(cfg), n - 1);
      FollowsThen(step, cfg, f(cfg), Repeated(f, f(cfg), n - 1));
    }
  }

  /** A round, as a function on all configurations. */
  ghost function RoundOf(g: Graph, rank: seq<nat>, polls: seq<nat>, env: nat -> PollChoice, o: nat -> Choice)
    : Config -> Config
    requires Ids(g, polls) && Ranked(g, rank)
  {
    c => if Fits(g, c) then Round(g, rank, polls, env, o, c) else c
  }

  lemma {:induction false} RoundsAreRepeated(g: Graph, rank: seq<nat>, polls: seq<nat>, env: nat -> PollChoice,
                                             o: nat -> Choice, f: Config -> Config, cfg: Config, n: nat)
    requires Fits(g, cfg) && Ids(g, polls) && Ranked(g, rank) && f == RoundOf(g, rank, polls, env, o)
    ensures Rounds(g, rank, polls, env, o, cfg, n) == Repeated(f, cfg, n)
    decreases n
  {
    if n > 0 && !cfg.world.failed {
      RoundsAreRepeated(g, rank, polls, env, o, f, Round(g, rank, polls, env, o, cfg), n - 1);
    }
  }

  lemma RoundFollows(g: Graph, rank: seq<nat>, polls: seq<nat>, env: nat -> PollChoice, o: nat -> Choice, c: Config)
    requires Ids(g, polls) && Ranked(g, rank)
    ensures CanFollow(Ticker(g, polls, env, o), c, RoundOf(g, rank, polls, env, o)(c))
  {
    if Fits(g, c) {
      var k := RoundTicks(g, rank, polls, env, o, c);
    } else {
      assert Gets(Ticker(g, polls, env, o), Machine(Polling(0), c), 0, c, Polling(0));
    }
  }

  /** Every state that whole rounds reach is a state of the machine, so what holds at every tick
      holds of `Rounds`. */
  lemma RoundsAreTicks(g: Graph, rank: seq<nat>, polls: seq<nat>, env: nat -> PollChoice, o: nat -> Choice, cfg: Config,
                       n: nat)
    returns (k: nat)
    requires Fits(g, cfg) && Ids(g, polls) && Ranked(g, rank)
    ensures var end := Rounds(g, rank, polls, env, o, cfg, n);
            Gets(Ticker(g, polls, env, o), Machine(Polling(0), cfg), k, end, Polling(0))
  {
    var step, f := Ticker(g, polls, env, o), RoundOf(g, rank, polls, env, o);
    forall c: Config ensures CanFollow(step, c, f(c)) {
      RoundFollows(g, rank, polls, env, o, c);
    }
    RepeatedFollow(step, f, cfg, n);
    RoundsAreRepeated(g, rank, polls, env, o, f, cfg, n);
    k :| Gets(step, Machine(Polling(0), cfg), k, Repeated(f, cfg, n), Polling(0));
  }

  // ----- the height of the task array -----

  const TASK_QUEUE_SIZE: nat := 2048
  const MAX_NODES: nat := 32
  const MAX_LINKS: nat := 4
  const MAX_POLLED: nat := 8

  /** No growing cycle can be reached from where polled packets go. */
  ghost predicate CalmPolls(g: Graph, polls: seq<nat>)
    requires Ids(g, polls)
  {
    forall i :: 0 <= i < |polls| ==> CalmNodes(g, g[polls[i]].links)
  }

  ghost predicate CalmNodes(g: Graph, ns: seq<nat>) {
    forall i :: 0 <= i < |ns| ==> Growth.Calm(g, ns[i])
  }

  lemma {:induction false} FanChainCalm(g: Graph, links: seq<nat>, pkts: seq<PacketId>)
    requires CalmNodes(g, links)
    ensures CalmNodes(g, NodesOf(FanChain(links, pkts)))
    decreases |links|
  {
    if links != [] {
      FanChainCalm(g, links[..|links| - 1], pkts);
    }
  }

  lemma PollStepCalm(g: Graph, n: nat, c: PollChoice, cfg: Config)
    requires Fits(g, cfg) && n < |g| && CalmNodes(g, NodesOf(cfg.stack)) && CalmNodes(g, g[n].links)
    ensures CalmNodes(g, NodesOf(PollStep(g, n, c, cfg).stack))
  {
    var r := Poll(g[n].kind, c, cfg.world.mem, cfg.world.tx);
    if r.polled.Chain? {
      FanChainCalm(g, g[n].links, r.polled.pkts);
      var fan := FanChain(g[n].links, r.polled.pkts);
      assert NodesOf(cfg.stack + fan) == NodesOf(cfg.stack) + NodesOf(fan);
    }
  }

  /** What bounds the stack: while polling, the bursts pushed so far; while draining, the potential
      of the tasks. */
  ghost predicate Bounded(g: Graph, f: nat, polls: seq<nat>, room: nat, m: Machine)
    requires Ids(g, polls)
  {
    var polled := NIC_BURST * PolledLinks(g, polls);
    match m.phase
    case Polling(i) =>
      i <= |polls| && CalmNodes(g, NodesOf(m.cfg.stack)) &&
          |m.cfg.stack| + NIC_BURST * PolledLinks(g, polls[i..]) <= polled
    case Draining => Growth.UnderBound(g, f, NodesOf(m.cfg.stack), polled + room)
  }

  lemma PollTickBounded(g: Graph, f: nat, polls: seq<nat>, room: nat, env: nat -> PollChoice, o: nat -> Choice,
                        m: Machine)
    requires Fits(g, m.cfg) && Ids(g, polls) && CalmPolls(g, polls) && room == f * |g|
    requires m.phase.Polling? && Bounded(g, f, polls, room, m)
    ensures Bounded(g, f, polls, room, Tick(g, polls, env, o, m))
  {
    var i := m.phase.next;
    if i < |polls| {
      var c := env(m.cfg.world.polls);
      PollStepHeight(g, polls[i], c, m.cfg);
      PollStepCalm(g, polls[i], c, m.cfg);
      assert polls[i..][0] == polls[i] && polls[i..][1..] == polls[i + 1..];
    } else {
      assert polls[i..] == [];
      Growth.CalmStackBelow(g, f, NodesOf(m.cfg.stack));
    }
  }

  lemma TickBounded(g: Graph, f: nat, polls: seq<nat>, room: nat, env: nat -> PollChoice, o: nat -> Choice)
    requires Closed(g) && Ids(g, polls) && CalmPolls(g, polls) && FanoutAtMost(g, f + 1) && room == f * |g|
    ensures Keeps(Ticker(g, polls, env, o), m => Bounded(g, f, polls, room, m))
  {
    forall m: Machine | Fits(g, m.cfg) && Bounded(g, f, polls, room, m)
      ensures Bounded(g, f, polls, room, Tick(g, polls, env, o, m))
    {
      if m.phase.Polling? {
        PollTickBounded(g, f, polls, room, env, o, m);
      } else if m.cfg.stack == [] {
        assert polls[0..] == polls;
      } else {
        Growth.StepBelow(g, f, o, m.cfg, NIC_BURST * PolledLinks(g, polls) + room);
      }
    }
  }

  lemma BoundedHeight(g: Graph, f: nat, polls: seq<nat>, room: nat, m: Machine)
    requires Ids(g, polls) && Bounded(g, f, polls, room, m)
    ensures |m.cfg.stack| <= NIC_BURST * PolledLinks(g, polls) + room
  {
    if m.phase.Draining? {
      Growth.BelowHeight(g, f, NodesOf(m.cfg.stack), NIC_BURST * PolledLinks(g, polls) + room);
    }
  }

  lemma StartBounded(g: Graph, f: nat, polls: seq<nat>, room: nat, w: World)
    requires Ids(g, polls)
    ensures Bounded(g, f, polls, room, Machine(Polling(0), Config([], w)))
  {
    assert polls[0..] == polls;
  }

  /** The height of every run: when no growing cycle can be reached from the polled nodes' links,
      then at every tick of every run, whether the drains end or not, the stack holds at most 64
      tasks per polled link plus f per node, in a graph of fan-out f + 1. */
  lemma HeightAlways(g: Graph, f: nat, polls: seq<nat>, env: nat -> PollChoice, o: nat -> Choice, w: World, k: nat)
    requires Closed(g) && Ids(g, polls) && CalmPolls(g, polls) && FanoutAtMost(g, f + 1)
    ensures |Ticks(g, polls, env, o, Machine(Polling(0), Config([], w)), k).cfg.stack| <=
            NIC_BURST * PolledLinks(g, polls) + f * |g|
  {
    var m := Machine(Polling(0), Config([], w));
    var room := f * |g|;
    StartBounded(g, f, polls, room, w);
    TickBounded(g, f, polls, room, env, o);
    IterateKeeps(Ticker(g, polls, env, o), m => Bounded(g, f, polls, room, m), m, k);
    BoundedHeight(g, f, polls, room, Ticks(g, polls, env, o, m, k));
  }

  /** The capacities the worker's own arrays impose on a graph. */
  ghost predicate WithinCapacity(g: Graph, polls: seq<nat>) {
    |g| <= MAX_NODES && FanoutAtMost(g, MAX_LINKS) && |polls| <= MAX_POLLED
  }

  /** Within the worker's own capacities, a graph from whose polled links no growing cycle can be
      reached never overruns the 2048-slot task array at any tick of any run, if the polled nodes
      have at most 30 of the 32 out-links they could have. */
  lemma TaskArrayNeverOverrun(g: Graph, polls: seq<nat>, env: nat -> PollChoice, o: nat -> Choice, w: World, k: nat)
    requires Closed(g) && Ids(g, polls) && CalmPolls(g, polls) && WithinCapacity(g, polls) &&
             PolledLinks(g, polls) <= 30
    ensures |Ticks(g, polls, env, o, Machine(Polling(0), Config([], w)), k).cfg.stack| < TASK_QUEUE_SIZE
  {
    HeightAlways(g, 3, polls, env, o, w, k);
  }

  /** The poll phase alone never overruns the array, whatever the graph. */
  lemma PollsNeverOverrun(g: Graph, polls: seq<nat>, env: nat -> PollChoice, w: World)
    requires Closed(g) && Ids(g, polls) && WithinCapacity(g, polls)
    ensures |PollAll(g, polls, env, Config([], w)).stack| <= TASK_QUEUE_SIZE
  {
    PolledLinksBound(g, polls, MAX_LINKS);
    PollPhaseHeight(g, polls, env, Config([], w));
  }

  /** Graphs on which the drain ends, and of them those conservation holds on, are within the
      hypotheses of `TaskArrayNeverOverrun`. */
  lemma RankedIsCalm(g: Graph, rank: seq<nat>, polls: seq<nat>)
    requires Ranked(g, rank) && Ids(g, polls)
    ensures CalmPolls(g, polls)
    ensures Sound(g, polls) && |polls| <= MAX_POLLED ==> PolledLinks(g, polls) <= MAX_POLLED
  {
    Growth.RankedDoesNotGrow(g, rank);
    if Sound(g, polls) {
      PolledLinksBound(g, polls, 1);
    }
  }

  lemma DoublingTick(env: nat -> PollChoice, ts: seq<Task>, w: World)
    requires ts != [] && !w.failed && forall i :: 0 <= i < |ts| ==> ts[i].node == 1
    ensures var r := Ticker(Growth.DoublingGraph(), [0], env, AllGood())(Machine(Draining, Config(ts, w)));
            && r.phase.Draining? && |r.cfg.stack| == |ts| + 1 && !r.cfg.world.failed
            && forall i :: 0 <= i < |r.cfg.stack| ==> r.cfg.stack[i].node == 1
  {
    Growth.DoublingStep(ts, w);
  }

  lemma {:induction false} DoublingTicks(env: nat -> PollChoice, ts: seq<Task>, w: World, k: nat)
    requires ts != [] && !w.failed && forall i :: 0 <= i < |ts| ==> ts[i].node == 1
    ensures var step := Ticker(Growth.DoublingGraph(), [0], env, AllGood());
            |Iterate(step, Machine(Draining, Config(ts, w)), k).cfg.stack| == |ts| + k
    decreases k
  {
    if k > 0 {
      DoublingTick(env, ts, w);
      var next := Ticker(Growth.DoublingGraph(), [0], env, AllGood())(Machine(Draining, Config(ts, w)));
      DoublingTicks(env, next.cfg.stack, next.cfg.world, k - 1);
      assert Machine(Draining, Config(next.cfg.stack, next.cfg.world)) == next;
    }
  }

  /** The first poll of the doubling graph. */
  lemma DoublingPoll(picks: seq<PacketId>, c: PollChoice, w: World)
    requires !w.failed && c.picks == picks && Grants(w.mem, picks, USER_BURST)
    ensures Fits(Growth.DoublingGraph(), Config([], w))
    ensures var r := PollStep(Growth.DoublingGraph(), 0, c, Config([], w));
            r.stack == Column(1, picks) && !r.world.failed
  {
    FillFromGranted(w.mem, picks, Locals(USER_BURST), 0);
    assert [1][..0] == [] && FanChain([], picks) == [];
    assert FanChain([1], picks) == Column(1, picks);
  }

  /** A run from an empty stack that overruns the task array: one poll of 32 packets, then every
      tick adds a task. */
  lemma DoublingRun(picks: seq<PacketId>, w: World, k: nat)
    requires !w.failed && Grants(w.mem, picks, USER_BURST)
    ensures Closed(Growth.DoublingGraph())
    ensures var start := Machine(Polling(0), Config([], w));
            var env := (_: nat) => PollChoice(picks, [], [], true);
            |Ticks(Growth.DoublingGraph(), [0], env, AllGood(), start, k + 2).cfg.stack| == 32 + k
  {
    var g := Growth.DoublingGraph();
    var c := PollChoice(picks, [], [], true);
    var env := (_: nat) => c;
    var step := Ticker(g, [0], env, AllGood());
    var start := Machine(Polling(0), Config([], w));
    DoublingPoll(picks, c, w);
    var polled := PollStep(g, 0, c, Config([], w));
    assert step(start) == Machine(Polling(1), polled);
    assert step(Machine(Polling(1), polled)) == Machine(Draining, polled);
    assert Iterate(step, start, k + 2) == Iterate(step, Machine(Draining, polled), k);
    DoublingTicks(env, polled.stack, polled.world, k);
    assert Config(polled.stack, polled.world) == polled;
  }

  /** A graph the worker can run without overrunning its array: within capacity, polled only where a
      module polls, and with room for what is polled. */
  ghost predicate Deployable(g: Graph, polls: seq<nat>) {
    && Ids(g, polls) && WithinCapacity(g, polls) && PolledLinks(g, polls) <= 30
    && forall i :: 0 <= i < |polls| ==> CanPoll(g[polls[i]].kind)
  }

  /** The stacked tasks plus fan-out 4 along at most 31 links. */
  lemma PeakWithinCapacity(g: Graph, rank: seq<nat>, ns: seq<nat>)
    requires |g| <= MAX_NODES && FanoutAtMost(g, MAX_LINKS) && Ranked(g, rank) && Ids(g, ns)
    ensures PeakAll(g, rank, ns) <= |ns| + 93
  {
    if ns != [] {
      assert ns[0] < |g|;
      PeakAllBound(g, rank, MAX_LINKS, ns);
      Acyclic.HeightAllBelow(g, rank, ns);
    }
  }

  // ----- the shipped graph -----

  /** The shipped graph meets every hypothesis of the run theorems. */
  lemma UdpGraphRuns()
    ensures var g := Acyclic.UdpGraph();
            && Sound(g, [0, 7]) && Deployable(g, [0, 7]) && PolledLinks(g, [0, 7]) == 2
            && CalmPolls(g, [0, 7]) && SettledPolls(g, [0, 7])
  {
    UdpSound();
    TwoPolls(Acyclic.UdpGraph(), 0, 7);
    UdpCalm();
  }

  lemma UdpCalm()
    ensures CalmPolls(Acyclic.UdpGraph(), [0, 7]) && SettledPolls(Acyclic.UdpGraph(), [0, 7])
  {
    Acyclic.UdpGraphDrains();
    RankedIsCalm(Acyclic.UdpGraph(), [0, 1, 3, 2, 2, 3, 1, 0], [0, 7]);
    RankedIsSettled(Acyclic.UdpGraph(), [0, 1, 3, 2, 2, 3, 1, 0], [0, 7]);
  }

  lemma TwoPolls(g: Graph, a: nat, b: nat)
    requires a < |g| && b < |g|
    ensures PolledLinks(g, [a, b]) == |g[a].links| + |g[b].links|
  {
    assert [a, b][1..] == [b] && [b][1..] == [];
    assert PolledLinks(g, []) == 0 && PolledLinks(g, [b]) == |g[b].links|;
  }

  lemma UdpSound()
    ensures Sound(Acyclic.UdpGraph(), [0, 7]) && WithinCapacity(Acyclic.UdpGraph(), [0, 7])
  {
    Acyclic.UdpGraphDrains();
    assert forall n :: 0 <= n < 8 ==> |Acyclic.UdpGraph()[n].links| == 1;
  }

  /** On a graph that can be ranked every poll is settled. */
  lemma RankedIsSettled(g: Graph, rank: seq<nat>, polls: seq<nat>)
    requires Ranked(g, rank) && Ids(g, polls)
    ensures SettledPolls(g, polls) && Acyclic.Tame(g) == g
  {
    Acyclic.RankXorTrap(g);
    assert Acyclic.Rankable(g);
  }

  /** Conservation of a run of the shipped graph from a freshly initialised pool of any size, at every
      instant and for every environment. */
  lemma UdpRunConserves(env: nat -> PollChoice, o: nat -> Choice, n: nat, k: nat)
    ensures Closed(Acyclic.UdpGraph())
    ensures var w := World(FreshMemory(n), multiset{}, [], 0, false);
            Accountable(Below(n), Ticks(Acyclic.UdpGraph(), [0, 7], env, o, Machine(Polling(0), Config([], w)), k))
  {
    UdpGraphRuns();
    FreshConserved(n);
    FreshAccounted(n);
    var w := World(FreshMemory(n), multiset{}, [], 0, false);
    AlwaysAccounted(Acyclic.UdpGraph(), [0, 7], env, o, Machine(Polling(0), Config([], w)), k);
  }

  lemma FreshAccounted(n: nat)
    ensures Accounted(Config([], World(FreshMemory(n), multiset{}, [], 0, false)))
  {
    FreshConserved(n);
    assert PacketsOf([]) == [];
    assert Refs([]) + multiset{} == multiset{};
  }

  // ----- runs whose drains end, although the graph has a forwarding cycle elsewhere -----

  /** No packet polled at these nodes can be forwarded forever. */
  ghost predicate SettledPolls(g: Graph, polls: seq<nat>)
    requires Ids(g, polls)
  {
    forall i :: 0 <= i < |polls| ==> Acyclic.Settled(g, g[polls[i]].links)
  }

  lemma {:induction false} FanChainSettled(g: Graph, links: seq<nat>, pkts: seq<PacketId>)
    requires Acyclic.Settled(g, links)
    ensures Acyclic.Settled(g, NodesOf(FanChain(links, pkts)))
    decreases |links|
  {
    if links != [] {
      FanChainSettled(g, links[..|links| - 1], pkts);
    }
  }

  /** A node that cannot forward is in no trap. */
  lemma AbsorbingOutside(g: Graph, n: nat)
    requires n < |g| && !CanForward(g[n].kind)
    ensures n !in Acyclic.Core(g, |g|)
  {
  }

  lemma PollStepTame(g: Graph, n: nat, c: PollChoice, cfg: Config)
    requires Fits(g, cfg) && n < |g|
    ensures Fits(Acyclic.Tame(g), cfg) && PollStep(Acyclic.Tame(g), n, c, cfg) == PollStep(g, n, c, cfg)
  {
    Acyclic.TameFits(g, cfg);
    if !CanForward(g[n].kind) {
      AbsorbingOutside(g, n);
    }
  }

  lemma PollStepSettled(g: Graph, n: nat, c: PollChoice, cfg: Config)
    requires Fits(g, cfg) && n < |g|
    requires Acyclic.Settled(g, NodesOf(cfg.stack)) && Acyclic.Settled(g, g[n].links)
    ensures Acyclic.Settled(g, NodesOf(PollStep(g, n, c, cfg).stack))
  {
    var r := Poll(g[n].kind, c, cfg.world.mem, cfg.world.tx);
    if r.polled.Chain? {
      FanChainSettled(g, g[n].links, r.polled.pkts);
      var fan := FanChain(g[n].links, r.polled.pkts);
      assert NodesOf(cfg.stack + fan) == NodesOf(cfg.stack) + NodesOf(fan);
    }
  }

  lemma {:induction false} PollAllTame(g: Graph, polls: seq<nat>, env: nat -> PollChoice, cfg: Config)
    requires Fits(g, cfg) && Ids(g, polls) && SettledPolls(g, polls) && Acyclic.Settled(g, NodesOf(cfg.stack))
    ensures Fits(Acyclic.Tame(g), cfg) && PollAll(Acyclic.Tame(g), polls, env, cfg) == PollAll(g, polls, env, cfg)
    ensures Acyclic.Settled(g, NodesOf(PollAll(g, polls, env, cfg).stack))
    decreases |polls|
  {
    Acyclic.TameFits(g, cfg);
    if polls != [] && !cfg.world.failed {
      var c := env(cfg.world.polls);
      PollStepTame(g, polls[0], c, cfg);
      PollStepSettled(g, polls[0], c, cfg);
      PollAllTame(g, polls[1..], env, PollStep(g, polls[0], c, cfg));
    }
  }

  ghost predicate SettledMachine(g: Graph, m: Machine) {
    Fits(g, m.cfg) && Acyclic.Settled(g, NodesOf(m.cfg.stack))
  }

  lemma TickTame(g: Graph, polls: seq<nat>, env: nat -> PollChoice, o: nat -> Choice, m: Machine)
    requires Ids(g, polls) && SettledPolls(g, polls) && SettledMachine(g, m)
    ensures Fits(Acyclic.Tame(g), m.cfg)
    ensures Tick(Acyclic.Tame(g), polls, env, o, m) == Tick(g, polls, env, o, m)
    ensures SettledMachine(g, Tick(g, polls, env, o, m))
  {
    Acyclic.TameFits(g, m.cfg);
    if m.phase.Draining? {
      Acyclic.StepTame(g, o, m.cfg);
    } else if m.phase.next < |polls| {
      var n, c := polls[m.phase.next], env(m.cfg.world.polls);
      PollStepTame(g, n, c, m.cfg);
      PollStepSettled(g, n, c, m.cfg);
    }
  }

  /** On settled polls the run never uses the links taken away. */
  lemma TicksTame(g: Graph, polls: seq<nat>, env: nat -> PollChoice, o: nat -> Choice, m: Machine, k: nat)
    requires Ids(g, polls) && SettledPolls(g, polls) && SettledMachine(g, m)
    ensures Iterate(Ticker(Acyclic.Tame(g), polls, env, o), m, k) == Iterate(Ticker(g, polls, env, o), m, k)
  {
    var step, other := Ticker(g, polls, env, o), Ticker(Acyclic.Tame(g), polls, env, o);
    forall x: Machine | SettledMachine(g, x) ensures step(x) == other(x) && SettledMachine(g, step(x)) {
      TickTame(g, polls, env, o, x);
    }
    IterateSame(step, other, m => SettledMachine(g, m), m, k);
  }
}
