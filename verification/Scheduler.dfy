/**
 The worker's scheduler (engine.rs) as functions: the LIFO drain of `(node, packet)` tasks
 through a module graph, the poll phase that feeds it, and whole runs of both.

 What a module decides from packet bytes, what the NIC reports and what the allocator grants are
 environment answers: arbitrary functions of the number of calls made so far.
 */
module Scheduler {
  import opened Common
  import opened Packets

  datatype Kind =
    | IoNode | EthSender | EthReceiver | Ipv4Sender | Ipv4Receiver | UdpSender | UdpReceiver | UserNode

  datatype Node = Node(kind: Kind, links: seq<nat>)
  type Graph = seq<Node>
  datatype Task = Task(node: nat, pkt: PacketId)

  /** `IoNode` and `UserNode` absorb every packet they process. */
  predicate CanForward(k: Kind) {
    !k.IoNode? && !k.UserNode?
  }

  predicate CanPoll(k: Kind) {
    k.IoNode? || k.UserNode?
  }

  datatype Verdict = Forward | Release | Transmit | TransmitFailed

  /** One environment answer to a `process` call: whether it goes well, and which transmissions
      the NIC finishes while it runs. */
  datatype Choice = Choice(ok: bool, done: seq<PacketId>)

  /** What `process` of each module does with the packet it is given. */
  function Decide(k: Kind, ok: bool): (v: Verdict)
    ensures v.Forward? ==> CanForward(k)
    ensures ok && CanForward(k) ==> v.Forward?
  {
    match k
    case IoNode => if ok then Transmit else TransmitFailed
    case UserNode => Release
    case Ipv4Receiver => if ok then Forward else Release
    case _ => Forward
  }

  /** Everything but the task stack.  `calls` logs the `process` calls, `polls` counts polls,
      `failed` is set when the worker's `run` returns an error. */
  datatype World = World(mem: Memory, tx: multiset<PacketId>, calls: seq<Task>, polls: nat, failed: bool)
  datatype Config = Config(stack: seq<Task>, world: World)

  predicate Closed(g: Graph) {
    forall n, i :: 0 <= n < |g| && 0 <= i < |g[n].links| ==> g[n].links[i] < |g|
  }

  predicate InRange(g: Graph, ts: seq<Task>) {
    forall i :: 0 <= i < |ts| ==> ts[i].node < |g|
  }

  function Fan(links: seq<nat>, p: PacketId): (r: seq<Task>)
    ensures |r| == |links| && forall i :: 0 <= i < |r| ==> r[i] == Task(links[i], p)
  {
    seq(|links|, i requires 0 <= i < |links| => Task(links[i], p))
  }

  function Handle(g: Graph, c: Choice, t: Task, w: World): World
    requires t.node < |g|
  {
    var v := Decide(g[t.node].kind, c.ok);
    var mem := match v
      case Forward => Fork(w.mem, t.pkt, |g[t.node].links|)
      case Release => Deallocate(w.mem, t.pkt)
      case _ => w.mem;
    var tx := if v.Transmit? || v.TransmitFailed? then w.tx + multiset{t.pkt} else w.tx;
    var (mem', tx') := Complete(mem, tx, c.done);
    World(mem', tx', w.calls + [t], w.polls, v.TransmitFailed?)
  }

  function Children(g: Graph, c: Choice, t: Task): seq<Task>
    requires t.node < |g|
  {
    if Decide(g[t.node].kind, c.ok).Forward? then Fan(g[t.node].links, t.pkt) else []
  }

  predicate Halted(cfg: Config) {
    cfg.stack == [] || cfg.world.failed
  }

  predicate Fits(g: Graph, cfg: Config) {
    Closed(g) && InRange(g, cfg.stack)
  }

  /** One iteration of the drain loop. */
  function Step(g: Graph, o: nat -> Choice, cfg: Config): (r: Config)
    requires Fits(g, cfg)
    ensures Fits(g, r)
  {
    if Halted(cfg) then cfg
    else
      var t := cfg.stack[|cfg.stack| - 1];
      var c := o(|cfg.world.calls|);
      Config(cfg.stack[..|cfg.stack| - 1] + Children(g, c, t), Handle(g, c, t, cfg.world))
  }

  /** The configuration after `k` iterations. */
  function After(g: Graph, o: nat -> Choice, cfg: Config, k: nat): (r: Config)
    requires Fits(g, cfg)
    ensures Fits(g, r)
    decreases k
  {
    if k == 0 then cfg else After(g, o, Step(g, o, cfg), k - 1)
  }

  lemma {:induction false} AfterHalted(g: Graph, o: nat -> Choice, cfg: Config, k: nat)
    requires Fits(g, cfg) && Halted(cfg)
    ensures After(g, o, cfg, k) == cfg
    decreases k
  {
    if k > 0 {
      AfterHalted(g, o, Step(g, o, cfg), k - 1);
    }
  }

  // ----- what each module does with the reference it is given -----

  /** Only the counter of `p` changes, to `n`. */
  ghost predicate Counts(mem: Memory, mem': Memory, p: PacketId, n: nat)
    requires p in mem.cells
  {
    mem' == mem.(cells := mem.cells[p := mem.cells[p].(refcnt := n)])
  }

  /** `p` goes back to the pool with the receive mbuf it carries, and nothing else changes. */
  ghost predicate Returns(mem: Memory, mem': Memory, p: PacketId)
    requires p in mem.cells
  {
    && mem'.cells == mem.cells && mem'.pool == mem.pool + {p} && mem'.loose == mem.loose
    && forall m :: m in mem'.rx <==> m in mem.rx && mem.cells[p].buf != Mbuf(m)
  }

  /** The module passes its packet on to its links. */
  predicate PassesOn(k: Kind, ok: bool) {
    match k
    case IoNode => false
    case UserNode => false
    case Ipv4Receiver => ok
    case EthSender => true
    case EthReceiver => true
    case Ipv4Sender => true
    case UdpSender => true
    case UdpReceiver => true
  }

  /** Module by module, what becomes of a task's reference: the I/O node hands it to the driver, and
      only there can the worker fail; the user node, and the IPv4 receiver for a bad header, release
      it, which with the last reference returns the packet to the pool; all others turn it into one
      per link, with one task for each. */
  lemma ProcessMeaning(g: Graph, ok: bool, t: Task, w: World)
    requires t.node < |g| && t.pkt in w.mem.cells && w.mem.cells[t.pkt].refcnt >= 1
    ensures var w' := Handle(g, Choice(ok, []), t, w);
            var kids := Children(g, Choice(ok, []), t);
            var k, n, links := g[t.node].kind, w.mem.cells[t.pkt].refcnt, g[t.node].links;
            && w'.calls == w.calls + [t] && w'.polls == w.polls
            && (w'.failed <==> k.IoNode? && !ok)
            && w'.tx == w.tx + (if k.IoNode? then multiset{t.pkt} else multiset{})
            && (k.IoNode? ==> w'.mem == w.mem)
            && (k.UserNode? || (k.Ipv4Receiver? && !ok) ==>
                  if n == 1 then Returns(w.mem, w'.mem, t.pkt) else Counts(w.mem, w'.mem, t.pkt, n - 1))
            && (PassesOn(k, ok) ==>
                  && Counts(w.mem, w'.mem, t.pkt, n + |links| - 1)
                  && |kids| == |links| && forall i :: 0 <= i < |links| ==> kids[i] == Task(links[i], t.pkt))
            && (!PassesOn(k, ok) ==> kids == [])
  {
  }

  /** Transmissions that finish during the call are released after that. */
  lemma CallbacksAfter(g: Graph, c: Choice, t: Task, w: World)
    requires t.node < |g|
    ensures var w0 := Handle(g, Choice(c.ok, []), t, w);
            var (mem, tx) := Complete(w0.mem, w0.tx, c.done);
            Handle(g, c, t, w) == w0.(mem := mem, tx := tx)
  {
  }

  // ----- ranked graphs: work, height, peak -----

  /** `rank` strictly decreases along every link a packet can be forwarded over. */
  ghost predicate Ranked(g: Graph, rank: seq<nat>) {
    && Closed(g)
    && |rank| == |g|
    && forall n, i :: 0 <= n < |g| && CanForward(g[n].kind) && 0 <= i < |g[n].links| ==> rank[g[n].links[i]] < rank[n]
  }

  predicate Ids(g: Graph, ns: seq<nat>) {
    forall i :: 0 <= i < |ns| ==> ns[i] < |g|
  }

  /** One more than the largest rank in `ns`. */
  ghost function Top(rank: seq<nat>, ns: seq<nat>): nat
    requires forall i :: 0 <= i < |ns| ==> ns[i] < |rank|
  {
    if ns == [] then 0 else Max(Top(rank, ns[..|ns| - 1]), rank[ns[|ns| - 1]] + 1)
  }

  lemma {:induction false} TopBound(rank: seq<nat>, ns: seq<nat>, b: nat)
    requires forall i :: 0 <= i < |ns| ==> ns[i] < |rank| && rank[ns[i]] < b
    ensures Top(rank, ns) <= b
    decreases |ns|
  {
    if ns != [] {
      TopBound(rank, ns[..|ns| - 1], b);
    }
  }

  /** The number of `process` calls a task at `n` causes when nothing is dropped. */
  ghost function Work(g: Graph, rank: seq<nat>, n: nat): (w: nat)
    requires Ranked(g, rank) && n < |g|
    ensures w >= 1
    decreases rank[n], |g[n].links| + 1
  {
    if CanForward(g[n].kind) then
      TopBound(rank, g[n].links, rank[n]);
      1 + WorkAll(g, rank, g[n].links)
    else 1
  }

  ghost function WorkAll(g: Graph, rank: seq<nat>, ns: seq<nat>): nat
    requires Ranked(g, rank) && Ids(g, ns)
    decreases Top(rank, ns), |ns|
  {
    if ns == [] then 0 else WorkAll(g, rank, ns[..|ns| - 1]) + Work(g, rank, ns[|ns| - 1])
  }

  /** The longest path of forwarding links out of `n`. */
  ghost function Height(g: Graph, rank: seq<nat>, n: nat): nat
    requires Ranked(g, rank) && n < |g|
    decreases rank[n], |g[n].links| + 1
  {
    if CanForward(g[n].kind) && g[n].links != [] then
      TopBound(rank, g[n].links, rank[n]);
      1 + HeightAll(g, rank, g[n].links)
    else 0
  }

  ghost function HeightAll(g: Graph, rank: seq<nat>, ns: seq<nat>): nat
    requires Ranked(g, rank) && Ids(g, ns)
    decreases Top(rank, ns), |ns|
  {
    if ns == [] then 0 else Max(HeightAll(g, rank, ns[..|ns| - 1]), Height(g, rank, ns[|ns| - 1]))
  }

  /** The greatest stack height a single task at `n` causes when nothing is dropped. */
  ghost function Peak(g: Graph, rank: seq<nat>, n: nat): (r: nat)
    requires Ranked(g, rank) && n < |g|
    ensures r >= 1
    decreases rank[n], |g[n].links| + 1
  {
    if CanForward(g[n].kind) then
      TopBound(rank, g[n].links, rank[n]);
      Max(1, PeakAll(g, rank, g[n].links))
    else 1
  }

  ghost function PeakAll(g: Graph, rank: seq<nat>, ns: seq<nat>): (r: nat)
    requires Ranked(g, rank) && Ids(g, ns)
    ensures r >= |ns|
    decreases Top(rank, ns), |ns|
  {
    if ns == [] then 0
    else Max(PeakAll(g, rank, ns[..|ns| - 1]), |ns| - 1 + Peak(g, rank, ns[|ns| - 1]))
  }

  function NodesOf(ts: seq<Task>): (r: seq<nat>)
    ensures |r| == |ts| && forall i :: 0 <= i < |r| ==> r[i] == ts[i].node
  {
    seq(|ts|, i requires 0 <= i < |ts| => ts[i].node)
  }

  lemma {:induction false} WorkAllConcat(g: Graph, rank: seq<nat>, a: seq<nat>, b: seq<nat>)
    requires Ranked(g, rank) && Ids(g, a) && Ids(g, b)
    ensures WorkAll(g, rank, a + b) == WorkAll(g, rank, a) + WorkAll(g, rank, b)
    decreases |b|
  {
    if b == [] {
      assert a + b == a;
    } else {
      var b' := b[..|b| - 1];
      assert (a + b)[..|a + b| - 1] == a + b';
      WorkAllConcat(g, rank, a, b');
    }
  }

  lemma {:induction false} PeakAllConcat(g: Graph, rank: seq<nat>, a: seq<nat>, b: seq<nat>)
    requires Ranked(g, rank) && Ids(g, a) && Ids(g, b)
    ensures PeakAll(g, rank, a + b) == Max(PeakAll(g, rank, a), |a| + PeakAll(g, rank, b))
    decreases |b|
  {
    if b == [] {
      assert a + b == a;
    } else {
      var b' := b[..|b| - 1];
      assert (a + b)[..|a + b| - 1] == a + b';
      PeakAllConcat(g, rank, a, b');
    }
  }

  /** Replacing the top node by nodes it forwards to (or by nothing). */
  lemma PopPush(g: Graph, rank: seq<nat>, base: seq<nat>, n: nat, kids: seq<nat>)
    requires Ranked(g, rank) && Ids(g, base) && n < |g|
    requires kids == [] || (CanForward(g[n].kind) && kids == g[n].links)
    ensures WorkAll(g, rank, base + kids) < WorkAll(g, rank, base + [n])
    ensures PeakAll(g, rank, base + kids) <= PeakAll(g, rank, base + [n])
    ensures (CanForward(g[n].kind) ==> kids == g[n].links) ==>
              && WorkAll(g, rank, base + kids) + 1 == WorkAll(g, rank, base + [n])
              && Max(|base| + 1, PeakAll(g, rank, base + kids)) == PeakAll(g, rank, base + [n])
  {
    assert (base + [n])[..|base|] == base;
    WorkAllConcat(g, rank, base, kids);
    PeakAllConcat(g, rank, base, kids);
  }

  lemma StepNodes(g: Graph, o: nat -> Choice, cfg: Config) returns (base: seq<nat>, n: nat, kids: seq<nat>)
    requires Fits(g, cfg) && !Halted(cfg)
    ensures Ids(g, base) && n < |g|
    ensures NodesOf(cfg.stack) == base + [n] && NodesOf(Step(g, o, cfg).stack) == base + kids
    ensures kids == [] || (CanForward(g[n].kind) && kids == g[n].links)
    ensures o(|cfg.world.calls|).ok && CanForward(g[n].kind) ==> kids == g[n].links
    ensures |Step(g, o, cfg).world.calls| == |cfg.world.calls| + 1
  {
    var t := cfg.stack[|cfg.stack| - 1];
    base := NodesOf(cfg.stack[..|cfg.stack| - 1]);
    n := t.node;
    kids := NodesOf(Children(g, o(|cfg.world.calls|), t));
    if Decide(g[n].kind, o(|cfg.world.calls|).ok).Forward? {
      assert kids == g[n].links;
    }
  }

  /** One iteration uses up work: exactly one call's worth when nothing is dropped. */
  lemma StepWork(g: Graph, rank: seq<nat>, o: nat -> Choice, cfg: Config)
    requires Fits(g, cfg) && Ranked(g, rank) && !Halted(cfg)
    ensures var cfg' := Step(g, o, cfg);
            && WorkAll(g, rank, NodesOf(cfg'.stack)) < WorkAll(g, rank, NodesOf(cfg.stack))
            && |cfg'.world.calls| == |cfg.world.calls| + 1
            && (o(|cfg.world.calls|).ok ==>
                  WorkAll(g, rank, NodesOf(cfg'.stack)) + 1 == WorkAll(g, rank, NodesOf(cfg.stack)))
  {
    var base, n, kids := StepNodes(g, o, cfg);
    PopPush(g, rank, base, n, kids);
  }

  /** One iteration never raises the peak still ahead, and keeps it when nothing is dropped. */
  lemma StepPeak(g: Graph, rank: seq<nat>, o: nat -> Choice, cfg: Config)
    requires Fits(g, cfg) && Ranked(g, rank) && !Halted(cfg)
    ensures var cfg' := Step(g, o, cfg);
            && PeakAll(g, rank, NodesOf(cfg'.stack)) <= PeakAll(g, rank, NodesOf(cfg.stack))
            && (o(|cfg.world.calls|).ok ==>
                  Max(|cfg.stack|, PeakAll(g, rank, NodesOf(cfg'.stack))) == PeakAll(g, rank, NodesOf(cfg.stack)))
  {
    var base, n, kids := StepNodes(g, o, cfg);
    PopPush(g, rank, base, n, kids);
  }

  // ----- the drain terminates, and is run-to-completion -----

  ghost function Drain(g: Graph, rank: seq<nat>, o: nat -> Choice, cfg: Config): (r: Config)
    requires Fits(g, cfg) && Ranked(g, rank)
    ensures Halted(r) && Fits(g, r)
    decreases WorkAll(g, rank, NodesOf(cfg.stack))
  {
    if Halted(cfg) then cfg
    else
      StepWork(g, rank, o, cfg);
      Drain(g, rank, o, Step(g, o, cfg))
  }

  /** The loop halts within `WorkAll` iterations whatever the environment answers. */
  lemma {:induction false} DrainTerminates(g: Graph, rank: seq<nat>, o: nat -> Choice, cfg: Config, k: nat)
    requires Fits(g, cfg) && Ranked(g, rank) && k >= WorkAll(g, rank, NodesOf(cfg.stack))
    ensures After(g, o, cfg, k) == Drain(g, rank, o, cfg)
    decreases k
  {
    if Halted(cfg) {
      AfterHalted(g, o, cfg, k);
    } else {
      StepWork(g, rank, o, cfg);
      DrainTerminates(g, rank, o, Step(g, o, cfg), k - 1);
    }
  }

  lemma {:induction false} DrainCallsBound(g: Graph, rank: seq<nat>, o: nat -> Choice, cfg: Config)
    requires Fits(g, cfg) && Ranked(g, rank)
    ensures |Drain(g, rank, o, cfg).world.calls| <= |cfg.world.calls| + WorkAll(g, rank, NodesOf(cfg.stack))
    decreases WorkAll(g, rank, NodesOf(cfg.stack))
  {
    if !Halted(cfg) {
      StepWork(g, rank, o, cfg);
      DrainCallsBound(g, rank, o, Step(g, o, cfg));
    }
  }

  function AllGood(): nat -> Choice {
    _ => Choice(true, [])
  }

  lemma GoodNeverFails(g: Graph, cfg: Config)
    requires Fits(g, cfg) && !cfg.world.failed
    ensures !Step(g, AllGood(), cfg).world.failed
  {
  }

  /** The bound is exact: when every answer is good the loop makes `WorkAll` calls. */
  lemma {:induction false} DrainCallsExact(g: Graph, rank: seq<nat>, cfg: Config)
    requires Fits(g, cfg) && Ranked(g, rank) && !cfg.world.failed
    ensures |Drain(g, rank, AllGood(), cfg).world.calls| == |cfg.world.calls| + WorkAll(g, rank, NodesOf(cfg.stack))
    ensures !Drain(g, rank, AllGood(), cfg).world.failed
    decreases WorkAll(g, rank, NodesOf(cfg.stack))
  {
    if cfg.stack == [] {
      assert NodesOf(cfg.stack) == [];
    } else {
      StepWork(g, rank, AllGood(), cfg);
      GoodNeverFails(g, cfg);
      DrainCallsExact(g, rank, Step(g, AllGood(), cfg));
    }
  }

  /** Recursive run-to-completion of one task: process it, then each packet copy it produced,
      last link first, each to the end before the next. */
  ghost function Visit(g: Graph, rank: seq<nat>, o: nat -> Choice, t: Task, w: World): World
    requires Ranked(g, rank) && t.node < |g|
    decreases Work(g, rank, t.node), 0, 0
  {
    if w.failed then w
    else
      var c := o(|w.calls|);
      var kids := Children(g, c, t);
      assert kids != [] ==> NodesOf(kids) == g[t.node].links;
      assert kids == [] ==> NodesOf(kids) == [];
      VisitAll(g, rank, o, kids, Handle(g, c, t, w))
  }

  ghost function VisitAll(g: Graph, rank: seq<nat>, o: nat -> Choice, ts: seq<Task>, w: World): World
    requires Ranked(g, rank) && InRange(g, ts)
    decreases WorkAll(g, rank, NodesOf(ts)), 1, |ts|
  {
    if ts == [] then w
    else
      var ns := NodesOf(ts);
      assert ns[..|ns| - 1] == NodesOf(ts[..|ts| - 1]);
      VisitAll(g, rank, o, ts[..|ts| - 1], Visit(g, rank, o, ts[|ts| - 1], w))
  }

  lemma {:induction false} VisitAllFailed(g: Graph, rank: seq<nat>, o: nat -> Choice, ts: seq<Task>, w: World)
    requires Ranked(g, rank) && InRange(g, ts) && w.failed
    ensures VisitAll(g, rank, o, ts, w) == w
    decreases |ts|
  {
    if ts != [] {
      VisitAllFailed(g, rank, o, ts[..|ts| - 1], w);
    }
  }

  lemma {:induction false} VisitAllConcat(g: Graph, rank: seq<nat>, o: nat -> Choice, a: seq<Task>, b: seq<Task>,
                                          w: World)
    requires Ranked(g, rank) && InRange(g, a) && InRange(g, b)
    ensures VisitAll(g, rank, o, a + b, w) == VisitAll(g, rank, o, a, VisitAll(g, rank, o, b, w))
    decreases |b|
  {
    if b == [] {
      assert a + b == a;
    } else {
      var b' := b[..|b| - 1];
      assert (a + b)[..|a + b| - 1] == a + b';
      VisitAllConcat(g, rank, o, a, b', Visit(g, rank, o, b[|b| - 1], w));
    }
  }

  /** The iterative drain of a stack is the recursive run-to-completion of its tasks from the top
      down: same `process` calls in the same order, same packet memory, same outcome. */
  lemma {:induction false} DrainIsRunToCompletion(g: Graph, rank: seq<nat>, o: nat -> Choice, cfg: Config)
    requires Fits(g, cfg) && Ranked(g, rank)
    ensures Drain(g, rank, o, cfg).world == VisitAll(g, rank, o, cfg.stack, cfg.world)
    decreases WorkAll(g, rank, NodesOf(cfg.stack))
  {
    if cfg.world.failed {
      VisitAllFailed(g, rank, o, cfg.stack, cfg.world);
    } else if cfg.stack != [] {
      StepWork(g, rank, o, cfg);
      var base := cfg.stack[..|cfg.stack| - 1];
      var t := cfg.stack[|cfg.stack| - 1];
      var c := o(|cfg.world.calls|);
      DrainIsRunToCompletion(g, rank, o, Step(g, o, cfg));
      VisitAllConcat(g, rank, o, base, Children(g, c, t), Handle(g, c, t, cfg.world));
    }
  }

  // ----- stack height -----

  lemma {:induction false} PeakBoundsRun(g: Graph, rank: seq<nat>, o: nat -> Choice, cfg: Config, k: nat, b: nat)
    requires Fits(g, cfg) && Ranked(g, rank) && PeakAll(g, rank, NodesOf(cfg.stack)) <= b
    ensures |After(g, o, cfg, k).stack| <= b
    decreases k
  {
    if k == 0 {
      PeakHeight(g, rank, NodesOf(cfg.stack), b);
    } else {
      var next := PeakFalls(g, rank, o, cfg, k - 1, b);
      PeakBoundsRun(g, rank, o, next, k - 1, b);
    }
  }

  lemma PeakHeight(g: Graph, rank: seq<nat>, ns: seq<nat>, b: nat)
    requires Ranked(g, rank) && Ids(g, ns) && PeakAll(g, rank, ns) <= b
    ensures |ns| <= b
  {
  }

  lemma PeakFalls(g: Graph, rank: seq<nat>, o: nat -> Choice, cfg: Config, k: nat, b: nat) returns (next: Config)
    requires Fits(g, cfg) && Ranked(g, rank) && PeakAll(g, rank, NodesOf(cfg.stack)) <= b
    ensures Fits(g, next) && After(g, o, cfg, k + 1) == After(g, o, next, k)
    ensures PeakAll(g, rank, NodesOf(next.stack)) <= b
  {
    next := Step(g, o, cfg);
    if !Halted(cfg) {
      StepPeak(g, rank, o, cfg);
    }
  }

  lemma {:induction false} PeakReached(g: Graph, rank: seq<nat>, cfg: Config) returns (k: nat)
    requires Fits(g, cfg) && Ranked(g, rank) && !cfg.world.failed
    ensures |After(g, AllGood(), cfg, k).stack| == PeakAll(g, rank, NodesOf(cfg.stack))
    decreases WorkAll(g, rank, NodesOf(cfg.stack))
  {
    if PeakAll(g, rank, NodesOf(cfg.stack)) == |cfg.stack| {
      k := 0;
    } else {
      assert |NodesOf(cfg.stack)| == |cfg.stack|;
      StepWork(g, rank, AllGood(), cfg);
      StepPeak(g, rank, AllGood(), cfg);
      k := PeakReached(g, rank, Step(g, AllGood(), cfg));
      k := k + 1;
    }
  }

  /** A task array of `cap` slots is never overrun, whatever the environment answers, if and only
      if the peak of the initial stack is at most `cap`. */
  lemma StackSafeIff(g: Graph, rank: seq<nat>, cfg: Config, cap: nat)
    requires Fits(g, cfg) && Ranked(g, rank) && !cfg.world.failed
    ensures (forall o: nat -> Choice, k: nat :: |After(g, o, cfg, k).stack| <= cap)
            <==> PeakAll(g, rank, NodesOf(cfg.stack)) <= cap
  {
    if PeakAll(g, rank, NodesOf(cfg.stack)) <= cap {
      forall o: nat -> Choice, k: nat ensures |After(g, o, cfg, k).stack| <= cap {
        PeakBoundsRun(g, rank, o, cfg, k, cap);
      }
    } else {
      var k := PeakReached(g, rank, cfg);
      assert |After(g, AllGood(), cfg, k).stack| > cap;
    }
  }

  ghost predicate FanoutAtMost(g: Graph, f: nat) {
    forall n :: 0 <= n < |g| ==> |g[n].links| <= f
  }

  lemma MulMono(a: nat, b: nat, c: nat)
    requires b <= c
    ensures a * b <= a * c
  {
    assert a * c == a * b + a * (c - b);
  }

  lemma {:induction false} PeakBound(g: Graph, rank: seq<nat>, f: nat, n: nat)
    requires Ranked(g, rank) && n < |g| && FanoutAtMost(g, f) && f >= 1
    ensures Peak(g, rank, n) <= 1 + (f - 1) * Height(g, rank, n)
    decreases rank[n], |g[n].links| + 1
  {
    if CanForward(g[n].kind) && g[n].links != [] {
      TopBound(rank, g[n].links, rank[n]);
      PeakAllBound(g, rank, f, g[n].links);
      OneMore(f - 1, HeightAll(g, rank, g[n].links));
    }
  }

  lemma OneMore(a: nat, h: nat)
    ensures a * (1 + h) == a + a * h
  {
  }

  /** The closed form: a stack of P tasks never grows past P + (F - 1) * D, where F is the largest
      fan-out and D the longest forwarding path out of the stacked nodes. */
  lemma {:induction false} PeakAllBound(g: Graph, rank: seq<nat>, f: nat, ns: seq<nat>)
    requires Ranked(g, rank) && Ids(g, ns) && FanoutAtMost(g, f) && f >= 1
    ensures PeakAll(g, rank, ns) <= |ns| + (f - 1) * HeightAll(g, rank, ns)
    decreases Top(rank, ns), |ns|
  {
    if ns != [] {
      var ns' := ns[..|ns| - 1];
      var n := ns[|ns| - 1];
      PeakAllBound(g, rank, f, ns');
      PeakBound(g, rank, f, n);
      MulMono(f - 1, HeightAll(g, rank, ns'), HeightAll(g, rank, ns));
      MulMono(f - 1, Height(g, rank, n), HeightAll(g, rank, ns));
    }
  }

  // ----- conservation along the drain -----

  function PacketsOf(ts: seq<Task>): (r: seq<PacketId>)
    ensures |r| == |ts| && forall i :: 0 <= i < |r| ==> r[i] == ts[i].pkt
  {
    seq(|ts|, i requires 0 <= i < |ts| => ts[i].pkt)
  }

  /** The references held by queued tasks. */
  ghost function Refs(ts: seq<Task>): multiset<PacketId> {
    multiset(PacketsOf(ts))
  }

  lemma RefsConcat(a: seq<Task>, b: seq<Task>)
    ensures Refs(a + b) == Refs(a) + Refs(b)
  {
    assert PacketsOf(a + b) == PacketsOf(a) + PacketsOf(b);
  }

  lemma RefsLast(ts: seq<Task>)
    requires ts != []
    ensures Refs(ts) == Refs(ts[..|ts| - 1]) + multiset{ts[|ts| - 1].pkt}
  {
    assert PacketsOf(ts) == PacketsOf(ts[..|ts| - 1]) + [ts[|ts| - 1].pkt];
  }

  lemma {:induction false} RefsFan(links: seq<nat>, p: PacketId)
    ensures Refs(Fan(links, p)) == Copies(p, |links|)
    decreases |links|
  {
    if links == [] {
      assert PacketsOf(Fan(links, p)) == [];
    } else {
      RefsFan(links[..|links| - 1], p);
      RefsLast(Fan(links, p));
      assert Fan(links, p)[..|links| - 1] == Fan(links[..|links| - 1], p);
    }
  }

  /** Every reference is accounted for: queued tasks plus transmit references. */
  ghost predicate Accounted(cfg: Config) {
    Conserved(Refs(cfg.stack) + cfg.world.tx, cfg.world.mem)
  }

  /** Every node that can forward has an out-link. */
  ghost predicate Productive(g: Graph) {
    forall n :: 0 <= n < |g| && CanForward(g[n].kind) ==> g[n].links != []
  }

  /** Handling a task turns its reference into those of the tasks it causes and of the driver,
      whoever holds the other references. */
  lemma HandleConserves(g: Graph, c: Choice, refs: multiset<PacketId>, t: Task, w: World)
    requires t.node < |g| && Productive(g) && Conserved(refs + w.tx + multiset{t.pkt}, w.mem)
    ensures var w' := Handle(g, c, t, w);
            && Conserved(refs + Refs(Children(g, c, t)) + w'.tx, w'.mem)
            && w'.mem.cells.Keys == w.mem.cells.Keys
  {
    var others := refs + w.tx;
    var kids := Children(g, c, t);
    match Decide(g[t.node].kind, c.ok)
    case Forward =>
      var links := g[t.node].links;
      ForkConservesIff(others, w.mem, t.pkt, |links|);
      RefsFan(links, t.pkt);
      assert others + Copies(t.pkt, |links|) == refs + Refs(kids) + w.tx;
      CompleteConserves(refs + Refs(kids), Fork(w.mem, t.pkt, |links|), w.tx, c.done);
    case Release =>
      DeallocateConserves(others, w.mem, t.pkt);
      NoRefs(refs, kids);
      CompleteConserves(refs, Packets.Deallocate(w.mem, t.pkt), w.tx, c.done);
    case _ =>
      NoRefs(refs, kids);
      var tx1 := w.tx + multiset{t.pkt};
      assert others + multiset{t.pkt} == refs + tx1;
      CompleteConserves(refs, w.mem, tx1, c.done);
  }

  lemma NoRefs(refs: multiset<PacketId>, kids: seq<Task>)
    requires kids == []
    ensures refs + Refs(kids) == refs
  {
    assert PacketsOf(kids) == [];
  }

  /** The same for one iteration of the drain, over any references held elsewhere. */
  lemma StepConserves(g: Graph, o: nat -> Choice, others: multiset<PacketId>, cfg: Config)
    requires Fits(g, cfg) && Productive(g) && Conserved(others + Refs(cfg.stack) + cfg.world.tx, cfg.world.mem)
    ensures var r := Step(g, o, cfg);
            && Conserved(others + Refs(r.stack) + r.world.tx, r.world.mem)
            && r.world.mem.cells.Keys == cfg.world.mem.cells.Keys
  {
    if !Halted(cfg) {
      var base := cfg.stack[..|cfg.stack| - 1];
      var t := cfg.stack[|cfg.stack| - 1];
      var c := o(|cfg.world.calls|);
      RefsLast(cfg.stack);
      TakeOut(others, Refs(base), multiset{t.pkt}, cfg.world.tx);
      HandleConserves(g, c, others + Refs(base), t, cfg.world);
      RefsConcat(base, Children(g, c, t));
      TakeOut(others, Refs(base), Refs(Children(g, c, t)), multiset{});
    }
  }

  lemma TakeOut(a: multiset<PacketId>, b: multiset<PacketId>, x: multiset<PacketId>, c: multiset<PacketId>)
    ensures a + (b + x) + c == a + b + c + x && a + (b + x) == a + b + x
  {
  }

  lemma StepAccounted(g: Graph, o: nat -> Choice, cfg: Config)
    requires Fits(g, cfg) && Productive(g) && Accounted(cfg)
    ensures Accounted(Step(g, o, cfg))
    ensures Step(g, o, cfg).world.mem.cells.Keys == cfg.world.mem.cells.Keys
  {
    NoOthers(Refs(cfg.stack));
    NoOthers(Refs(Step(g, o, cfg).stack));
    StepConserves(g, o, multiset{}, cfg);
  }

  lemma NoOthers(refs: multiset<PacketId>)
    ensures multiset{} + refs == refs
  {
  }

  /** Between any two drain steps of any run each live packet's counter is the number of its
      queued tasks plus its unfreed transmit references, each free packet's counter is 1, nothing
      was released twice, and the universe of packets is unchanged. */
  lemma {:induction false} DrainAccounted(g: Graph, o: nat -> Choice, cfg: Config, k: nat)
    requires Fits(g, cfg) && Productive(g) && Accounted(cfg)
    ensures Accounted(After(g, o, cfg, k))
    ensures After(g, o, cfg, k).world.mem.cells.Keys == cfg.world.mem.cells.Keys
    decreases k
  {
    if k > 0 {
      StepAccounted(g, o, cfg);
      DrainAccounted(g, o, Step(g, o, cfg), k - 1);
    }
  }
}
