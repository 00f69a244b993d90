/**
 When does the drain loop terminate?  Exactly when the links over which packets can be forwarded
 have no cycle, which is decided by sieving the node set.  Also: forwarding paths are shorter than
 the node count, and the shipped UDP graph qualifies although its links form a cycle.
 */
module Acyclic {
  import opened Common
  import opened Scheduler

  /** A set of forwarding nodes each of which has a link back into the set. */
  ghost predicate Trap(g: Graph, t: set<nat>) {
    && t != {} && Below(|g|) >= t
    && forall n {:trigger LinksInto(g, n, t)} :: n in t ==> n < |g| && CanForward(g[n].kind) && LinksInto(g, n, t)
  }

  predicate LinksInto(g: Graph, n: nat, t: set<nat>)
    requires n < |g|
  {
    exists l :: l in t && l in g[n].links
  }

  ghost predicate Holds(t: set<nat>, ns: seq<nat>) {
    exists n :: n in t && n in ns
  }

  lemma TrapHolds(g: Graph, t: set<nat>, cfg: Config)
    requires Fits(g, cfg) && Trap(g, t) && Holds(t, NodesOf(cfg.stack)) && !cfg.world.failed
    ensures Holds(t, NodesOf(Step(g, AllGood(), cfg).stack))
  {
    var base, n, kids := StepNodes(g, AllGood(), cfg);
    var m :| m in t && m in base + [n];
    if m in base {
      assert m in base + kids;
    } else {
      assert m == n && LinksInto(g, n, t);
      var l :| l in t && l in g[n].links;
      assert l in base + kids;
    }
  }

  /** Once a task sits in a trap, an environment that drops nothing never lets the loop end. */
  lemma {:induction false} TrapNeverDrains(g: Graph, t: set<nat>, cfg: Config, k: nat)
    requires Fits(g, cfg) && Trap(g, t) && Holds(t, NodesOf(cfg.stack)) && !cfg.world.failed
    ensures !Halted(After(g, AllGood(), cfg, k))
    decreases k
  {
    if k > 0 {
      TrapHolds(g, t, cfg);
      GoodNeverFails(g, cfg);
      TrapNeverDrains(g, t, Step(g, AllGood(), cfg), k - 1);
    }
  }

  lemma {:induction false} RankedHasNoTrap(g: Graph, rank: seq<nat>, t: set<nat>, n: nat)
    requires Ranked(g, rank) && Trap(g, t) && n in t
    ensures false
    decreases rank[n]
  {
    assert LinksInto(g, n, t);
    var l :| l in t && l in g[n].links;
    RankedHasNoTrap(g, rank, t, l);
  }

  /** The nodes left after `k` rounds of removing nodes that cannot forward into what is left. */
  function Core(g: Graph, k: nat): (r: set<nat>)
    ensures forall n :: n in r ==> n < |g|
    decreases k
  {
    if k == 0 then Below(|g|)
    else set n | n in Core(g, k - 1) && CanForward(g[n].kind) && LinksInto(g, n, Core(g, k - 1))
  }

  lemma {:induction false} CoreShrinks(g: Graph, j: nat, k: nat)
    requires j <= k
    ensures Core(g, k) <= Core(g, j)
    decreases k
  {
    if j < k {
      CoreShrinks(g, j, k - 1);
    }
  }

  /** Either the sieve reaches a fixpoint within `k` rounds, or it removed a node each round. */
  lemma {:induction false} SieveProgress(g: Graph, k: nat) returns (fix: Option<nat>)
    ensures fix.Some? ==> fix.value < k && Core(g, fix.value + 1) == Core(g, fix.value)
    ensures fix.None? ==> |Core(g, k)| + k <= |g|
    decreases k
  {
    if k == 0 {
      fix := None;
    } else {
      fix := SieveProgress(g, k - 1);
      if fix.None? {
        CoreShrinks(g, k - 1, k);
        if Core(g, k) == Core(g, k - 1) {
          fix := Some(k - 1);
        } else {
          ProperSubsetSmaller(Core(g, k), Core(g, k - 1));
        }
      }
    }
  }

  lemma {:induction false} FixpointStays(g: Graph, f: nat, k: nat)
    requires Core(g, f + 1) == Core(g, f) && f <= k
    ensures Core(g, k) == Core(g, f)
    decreases k
  {
    if f < k {
      FixpointStays(g, f, k - 1);
    }
  }

  lemma FixpointIsTrap(g: Graph, f: nat)
    requires Core(g, f + 1) == Core(g, f) && Core(g, f) != {}
    ensures Trap(g, Core(g, f))
  {
    forall n | n in Core(g, f) ensures CanForward(g[n].kind) && LinksInto(g, n, Core(g, f)) {
      assert n in Core(g, f + 1);
    }
  }

  lemma SieveStops(g: Graph) returns (f: nat)
    requires Core(g, |g|) != {}
    ensures f <= |g| && Core(g, f + 1) == Core(g, f)
  {
    var fix := SieveProgress(g, |g|);
    f := if fix.Some? then fix.value else 0;
  }

  /** What the sieve leaves after |g| rounds is a trap, unless it is empty. */
  lemma CoreIsTrap(g: Graph)
    requires Core(g, |g|) != {}
    ensures Trap(g, Core(g, |g|))
  {
    var f := SieveStops(g);
    FixpointStays(g, f, |g|);
    FixpointIsTrap(g, f);
  }

  /** The first round in which `n` is gone. */
  function Removed(g: Graph, n: nat, k: nat): (r: nat)
    requires n !in Core(g, k)
    ensures r <= k && n !in Core(g, r) && (r > 0 ==> n in Core(g, r - 1))
    decreases k
  {
    if k > 0 && n !in Core(g, k - 1) then Removed(g, n, k - 1) else k
  }

  /** Links out of a removed node lead to nodes removed earlier. */
  lemma RemovedEarlier(g: Graph, n: nat, i: nat)
    requires Closed(g) && n < |g| && n !in Core(g, |g|) && CanForward(g[n].kind) && i < |g[n].links|
    ensures g[n].links[i] !in Core(g, |g|) && Removed(g, g[n].links[i], |g|) < Removed(g, n, |g|)
  {
    var k := RemovedAfter(g, n);
    LinksGoneBefore(g, n, i, k);
    CoreShrinks(g, k, |g|);
    NotBefore(g, g[n].links[i], k);
  }

  lemma RemovedAfter(g: Graph, n: nat) returns (k: nat)
    requires n < |g| && n !in Core(g, |g|)
    ensures k < |g| && Removed(g, n, |g|) == k + 1 && n in Core(g, k) && n !in Core(g, k + 1)
  {
    assert n in Core(g, 0);
    k := Removed(g, n, |g|) - 1;
  }

  lemma LinksGoneBefore(g: Graph, n: nat, i: nat, k: nat)
    requires n < |g| && CanForward(g[n].kind) && i < |g[n].links| && n in Core(g, k) && n !in Core(g, k + 1)
    ensures g[n].links[i] !in Core(g, k)
  {
    assert !LinksInto(g, n, Core(g, k));
    assert g[n].links[i] in g[n].links;
  }

  lemma NotBefore(g: Graph, l: nat, k: nat)
    requires l !in Core(g, |g|) && l !in Core(g, k)
    ensures Removed(g, l, |g|) <= k
  {
    var q := Removed(g, l, |g|);
    if k < q {
      CoreShrinks(g, k, q - 1);
    }
  }

  /** The graph with the links out of the nodes the sieve leaves taken away. */
  function Tame(g: Graph): (r: Graph)
    ensures |r| == |g|
    ensures forall n :: 0 <= n < |g| ==> r[n] == if n in Core(g, |g|) then Node(g[n].kind, []) else g[n]
  {
    seq(|g|, n requires 0 <= n < |g| => if n in Core(g, |g|) then Node(g[n].kind, []) else g[n])
  }

  /** What is left can always be ranked. */
  lemma TameRanked(g: Graph) returns (rank: seq<nat>)
    requires Closed(g)
    ensures Ranked(Tame(g), rank)
  {
    rank := seq(|g|, n requires 0 <= n < |g| => if n in Core(g, |g|) then 0 else Removed(g, n, |g|));
    var t := Tame(g);
    forall n, i | 0 <= n < |t| && CanForward(t[n].kind) && 0 <= i < |t[n].links|
      ensures rank[t[n].links[i]] < rank[n]
    {
      RemovedEarlier(g, n, i);
    }
    forall n, i | 0 <= n < |t| && 0 <= i < |t[n].links| ensures t[n].links[i] < |t| {
      assert g[n].links[i] < |g|;
    }
  }

  lemma RankFromSieve(g: Graph) returns (rank: seq<nat>)
    requires Closed(g) && Core(g, |g|) == {}
    ensures Ranked(g, rank)
  {
    rank := TameRanked(g);
    assert Tame(g) == g;
  }

  ghost predicate Rankable(g: Graph) {
    exists rank: seq<nat> :: Ranked(g, rank)
  }

  /** For every graph: the forwarding links can be ranked, or they contain a trap, never both;
      and the sieve decides which. */
  lemma RankXorTrap(g: Graph)
    requires Closed(g)
    ensures Rankable(g) <==> Core(g, |g|) == {}
    ensures Rankable(g) <==> !exists t: set<nat> :: Trap(g, t)
  {
    if Core(g, |g|) == {} {
      var rank := RankFromSieve(g);
      forall t: set<nat> | Trap(g, t) ensures false {
        var n :| n in t;
        RankedHasNoTrap(g, rank, t, n);
      }
    } else {
      CoreIsTrap(g);
      forall rank: seq<nat> | Ranked(g, rank) ensures false {
        var n :| n in Core(g, |g|);
        RankedHasNoTrap(g, rank, Core(g, |g|), n);
      }
    }
  }

  ghost predicate HaltsFrom(g: Graph, o: nat -> Choice, cfg: Config)
    requires Fits(g, cfg)
  {
    exists k: nat :: Halted(After(g, o, cfg, k))
  }

  /** The drain loop ends from every stack under every environment if and only if the forwarding
      links can be ranked. */
  lemma DrainHaltsIff(g: Graph, w: World)
    requires Closed(g) && !w.failed
    ensures (forall o: nat -> Choice, ts: seq<Task> :: InRange(g, ts) ==> HaltsFrom(g, o, Config(ts, w)))
            <==> Rankable(g)
  {
    RankXorTrap(g);
    if Rankable(g) {
      var rank: seq<nat> :| Ranked(g, rank);
      forall o: nat -> Choice, ts: seq<Task> | InRange(g, ts) ensures HaltsFrom(g, o, Config(ts, w)) {
        var k := WorkAll(g, rank, NodesOf(ts));
        DrainTerminates(g, rank, o, Config(ts, w), k);
        assert Halted(After(g, o, Config(ts, w), k));
      }
    } else {
      var t: set<nat> :| Trap(g, t);
      var n :| n in t;
      var ts := [Task(n, 0)];
      assert n in NodesOf(ts) by { assert NodesOf(ts)[0] == n; }
      forall k: nat ensures !Halted(After(g, AllGood(), Config(ts, w), k)) {
        TrapNeverDrains(g, t, Config(ts, w), k);
      }
      assert InRange(g, ts) && !HaltsFrom(g, AllGood(), Config(ts, w));
    }
  }

  // ----- termination from a given stack -----

  /** The sieve leaves exactly the nodes that are in some trap. */
  lemma {:induction false} TrapInCore(g: Graph, t: set<nat>, k: nat)
    requires Trap(g, t)
    ensures t <= Core(g, k)
    decreases k
  {
    if k > 0 {
      TrapInCore(g, t, k - 1);
      forall n | n in t ensures n in Core(g, k) {
        assert LinksInto(g, n, t);
        var l :| l in t && l in g[n].links;
        assert l in Core(g, k - 1);
      }
    }
  }

  lemma CoreMeaning(g: Graph, n: nat)
    ensures n in Core(g, |g|) <==> exists t: set<nat> :: Trap(g, t) && n in t
  {
    if n in Core(g, |g|) {
      CoreIsTrap(g);
    }
    forall t: set<nat> | Trap(g, t) && n in t ensures n in Core(g, |g|) {
      TrapInCore(g, t, |g|);
    }
  }

  /** No listed node is in a trap. */
  ghost predicate Settled(g: Graph, ns: seq<nat>) {
    forall i :: 0 <= i < |ns| ==> ns[i] !in Core(g, |g|)
  }

  lemma TameFits(g: Graph, cfg: Config)
    requires Fits(g, cfg)
    ensures Fits(Tame(g), cfg)
  {
    var rank := TameRanked(g);
  }

  /** From a settled stack an iteration does not use the links taken away, and leaves a settled
      stack. */
  lemma StepTame(g: Graph, o: nat -> Choice, cfg: Config)
    requires Fits(g, cfg) && Settled(g, NodesOf(cfg.stack))
    ensures Fits(Tame(g), cfg) && Step(Tame(g), o, cfg) == Step(g, o, cfg)
    ensures Settled(g, NodesOf(Step(g, o, cfg).stack))
  {
    TameFits(g, cfg);
    if !Halted(cfg) {
      var t := cfg.stack[|cfg.stack| - 1];
      assert NodesOf(cfg.stack)[|cfg.stack| - 1] == t.node;
      assert Tame(g)[t.node] == g[t.node];
      var base, n, kids := StepNodes(g, o, cfg);
      assert NodesOf(cfg.stack)[|base|] == n == t.node;
      SettledStep(g, base, n, kids);
    }
  }

  lemma SettledStep(g: Graph, base: seq<nat>, n: nat, kids: seq<nat>)
    requires Closed(g) && n < |g| && Settled(g, base + [n])
    requires kids == [] || (CanForward(g[n].kind) && kids == g[n].links)
    ensures Settled(g, base + kids)
  {
    assert (base + [n])[|base|] == n;
    forall i | 0 <= i < |base + kids| ensures (base + kids)[i] !in Core(g, |g|) {
      if i < |base| {
        assert (base + [n])[i] == base[i];
      } else {
        RemovedEarlier(g, n, i - |base|);
      }
    }
  }

  lemma {:induction false} AfterTame(g: Graph, o: nat -> Choice, cfg: Config, k: nat)
    requires Fits(g, cfg) && Settled(g, NodesOf(cfg.stack))
    ensures Fits(Tame(g), cfg) && After(Tame(g), o, cfg, k) == After(g, o, cfg, k)
    decreases k
  {
    StepTame(g, o, cfg);
    if k > 0 {
      AfterTame(g, o, Step(g, o, cfg), k - 1);
    }
  }

  lemma SettledHalts(g: Graph, o: nat -> Choice, cfg: Config)
    requires Fits(g, cfg) && Settled(g, NodesOf(cfg.stack))
    ensures HaltsFrom(g, o, cfg)
  {
    var rank := TameRanked(g);
    TameFits(g, cfg);
    var k := WorkAll(Tame(g), rank, NodesOf(cfg.stack));
    DrainTerminates(Tame(g), rank, o, cfg, k);
    AfterTame(g, o, cfg, k);
    assert Halted(After(g, o, cfg, k));
  }

  lemma UnsettledRuns(g: Graph, ts: seq<Task>, w: World)
    requires Closed(g) && InRange(g, ts) && !w.failed && !Settled(g, NodesOf(ts))
    ensures !HaltsFrom(g, AllGood(), Config(ts, w))
  {
    var i :| 0 <= i < |ts| && NodesOf(ts)[i] in Core(g, |g|);
    CoreIsTrap(g);
    assert Holds(Core(g, |g|), NodesOf(ts));
    forall k: nat ensures !Halted(After(g, AllGood(), Config(ts, w), k)) {
      TrapNeverDrains(g, Core(g, |g|), Config(ts, w), k);
    }
  }

  /** For every closed graph and every stack: the drain ends under every environment if and only if
      no task names a node from which packets can be forwarded forever. */
  lemma HaltsFromIff(g: Graph, ts: seq<Task>, w: World)
    requires Closed(g) && InRange(g, ts) && !w.failed
    ensures (forall o: nat -> Choice :: HaltsFrom(g, o, Config(ts, w))) <==> Settled(g, NodesOf(ts))
  {
    if Settled(g, NodesOf(ts)) {
      forall o: nat -> Choice ensures HaltsFrom(g, o, Config(ts, w)) {
        SettledHalts(g, o, Config(ts, w));
      }
    } else {
      UnsettledRuns(g, ts, w);
    }
  }

  // ----- forwarding paths are shorter than the node count -----

  lemma {:induction false} TallestLink(g: Graph, rank: seq<nat>, ns: seq<nat>) returns (i: nat)
    requires Ranked(g, rank) && Ids(g, ns) && ns != []
    ensures i < |ns| && Height(g, rank, ns[i]) == HeightAll(g, rank, ns)
    decreases |ns|
  {
    i := |ns| - 1;
    if Height(g, rank, ns[i]) != HeightAll(g, rank, ns) {
      var ns' := ns[..|ns| - 1];
      if ns' == [] {
        assert HeightAll(g, rank, []) == 0;
        assert false;
      }
      i := TallestLink(g, rank, ns');
    }
  }

  lemma {:induction false} HeightAttained(g: Graph, rank: seq<nat>, n: nat, v: nat) returns (m: nat)
    requires Ranked(g, rank) && n < |g| && v <= Height(g, rank, n)
    ensures m < |g| && Height(g, rank, m) == v
    decreases rank[n]
  {
    m := n;
    if v < Height(g, rank, n) {
      var i := TallestLink(g, rank, g[n].links);
      m := HeightAttained(g, rank, g[n].links[i], v);
    }
  }

  ghost function Low(g: Graph, rank: seq<nat>, v: nat): set<nat>
    requires Ranked(g, rank)
  {
    set n | 0 <= n < |g| && Height(g, rank, n) <= v
  }

  lemma {:induction false} LowGrows(g: Graph, rank: seq<nat>, n: nat, v: nat)
    requires Ranked(g, rank) && n < |g| && v <= Height(g, rank, n)
    ensures |Low(g, rank, v)| >= v + 1
    decreases v
  {
    var m := HeightAttained(g, rank, n, v);
    assert m in Low(g, rank, v);
    if v > 0 {
      LowGrows(g, rank, n, v - 1);
      ProperSubsetSmaller(Low(g, rank, v - 1), Low(g, rank, v));
    }
  }

  /** A forwarding path visits no node twice. */
  lemma HeightBelowNodeCount(g: Graph, rank: seq<nat>, n: nat)
    requires Ranked(g, rank) && n < |g|
    ensures Height(g, rank, n) < |g|
  {
    var h := Height(g, rank, n);
    LowGrows(g, rank, n, h);
    SubsetSize(Low(g, rank, h), Below(|g|));
  }

  lemma {:induction false} HeightAllBelow(g: Graph, rank: seq<nat>, ns: seq<nat>)
    requires Ranked(g, rank) && Ids(g, ns) && |g| >= 1
    ensures HeightAll(g, rank, ns) <= |g| - 1
    decreases |ns|
  {
    if ns != [] {
      HeightAllBelow(g, rank, ns[..|ns| - 1]);
      HeightBelowNodeCount(g, rank, ns[|ns| - 1]);
    }
  }

  // ----- the shipped graph -----

  /** config/graph/udp.json. */
  function UdpGraph(): Graph {
    [Node(IoNode, [2]), Node(EthSender, [0]), Node(EthReceiver, [4]), Node(Ipv4Sender, [1]),
     Node(Ipv4Receiver, [6]), Node(UdpSender, [3]), Node(UdpReceiver, [7]), Node(UserNode, [5])]
  }

  /** The links packets are forwarded over in the shipped graph can be ranked, every forwarding
      module has an out-link, and both polled modules have exactly one. */
  lemma UdpGraphDrains()
    ensures Closed(UdpGraph()) && Productive(UdpGraph())
    ensures Ranked(UdpGraph(), [0, 1, 3, 2, 2, 3, 1, 0])
    ensures |UdpGraph()[0].links| == 1 && |UdpGraph()[7].links| == 1
  {
    var g := UdpGraph();
    assert forall n :: 0 <= n < |g| ==> |g[n].links| == 1;
  }

  /** Yet all links together form a cycle through the eight modules: no ranking decreases along
      every one of them. */
  lemma UdpGraphIsCyclic(rank: seq<nat>)
    requires |rank| == 8
    ensures exists n :: 0 <= n < 8 && !(rank[UdpGraph()[n].links[0]] < rank[n])
  {
    var g := UdpGraph();
    assert g[0].links[0] == 2 && g[2].links[0] == 4 && g[4].links[0] == 6 && g[6].links[0] == 7;
    assert g[7].links[0] == 5 && g[5].links[0] == 3 && g[3].links[0] == 1 && g[1].links[0] == 0;
  }
}
