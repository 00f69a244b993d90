/**
 How high can the stack get, in any graph?  A link is live when every link pushed above it can be
 finished under some environment; only then is it ever processed, and then exactly its position
 higher than the node it came from.  So the reachable heights are the weights of live walks, the
 stack is bounded exactly when no live cycle takes a link at a position above 0, and this needs no
 ranking.
 */
module Growth {
  import opened Common
  import opened Packets
  import opened Scheduler

  // ----- nodes whose tasks can be finished -----

  /** Some answer makes the module absorb or drop the packet. */
  predicate Droppable(k: Kind) {
    !CanForward(k) || k.Ipv4Receiver?
  }

  predicate AllIn(ns: seq<nat>, s: set<nat>) {
    forall i :: 0 <= i < |ns| ==> ns[i] in s
  }

  /** The nodes whose tasks can be finished in forwarding depth below `k`. */
  function Done(g: Graph, k: nat): (r: set<nat>)
    ensures r <= Below(|g|)
    decreases k
  {
    if k == 0 then {}
    else set n | n in Below(|g|) && (Droppable(g[n].kind) || AllIn(g[n].links, Done(g, k - 1)))
  }

  lemma {:induction false} DoneGrows(g: Graph, k: nat)
    ensures Done(g, k) <= Done(g, k + 1)
    decreases k
  {
    if k > 0 {
      DoneGrows(g, k - 1);
    }
  }

  lemma {:induction false} DoneProgress(g: Graph, k: nat) returns (fix: Option<nat>)
    ensures fix.Some? ==> fix.value < k && Done(g, fix.value + 1) == Done(g, fix.value)
    ensures fix.None? ==> |Done(g, k)| >= k
    decreases k
  {
    if k == 0 {
      fix := None;
    } else {
      fix := DoneProgress(g, k - 1);
      DoneGrows(g, k - 1);
      if fix.None? {
        if Done(g, k) == Done(g, k - 1) {
          fix := Some(k - 1);
        } else {
          ProperSubsetSmaller(Done(g, k - 1), Done(g, k));
        }
      }
    }
  }

  lemma {:induction false} DoneStays(g: Graph, f: nat, k: nat)
    requires Done(g, f + 1) == Done(g, f) && f <= k
    ensures Done(g, k) == Done(g, f)
    decreases k
  {
    if f < k {
      DoneStays(g, f, k - 1);
    }
  }

  /** Depth |g| is enough. */
  lemma DoneStable(g: Graph)
    ensures Done(g, |g| + 1) == Done(g, |g|)
  {
    var fix := DoneProgress(g, |g| + 1);
    if fix.None? {
      SubsetSize(Done(g, |g| + 1), Below(|g|));
      assert false;
    }
    DoneStays(g, fix.value, |g|);
    DoneStays(g, fix.value, |g| + 1);
  }

  predicate Finishable(g: Graph, n: nat) {
    n in Done(g, |g|)
  }

  /** A node is finishable exactly when it can drop or all its links are finishable. */
  lemma FinishableIff(g: Graph, n: nat)
    requires n < |g|
    ensures Finishable(g, n) <==> Droppable(g[n].kind) || AllIn(g[n].links, Done(g, |g|))
  {
    DoneStable(g);
    assert n in Below(|g|);
    assert n in Done(g, |g| + 1) <==> Droppable(g[n].kind) || AllIn(g[n].links, Done(g, |g|));
  }

  // ----- live walks -----

  /** Link `i` of node `n` can come to be processed. */
  predicate LiveAt(g: Graph, n: nat, i: nat) {
    && n < |g| && CanForward(g[n].kind) && i < |g[n].links|
    && forall j :: i < j < |g[n].links| ==> Finishable(g, g[n].links[j])
  }

  /** The node a list of link positions leads to. */
  function EndOf(g: Graph, n: nat, ps: seq<nat>): nat
    decreases |ps|
  {
    if ps == [] then n
    else
      var e := EndOf(g, n, ps[..|ps| - 1]);
      var i := ps[|ps| - 1];
      if e < |g| && i < |g[e].links| then g[e].links[i] else e
  }

  predicate IsWalk(g: Graph, n: nat, ps: seq<nat>)
    decreases |ps|
  {
    ps == [] || (IsWalk(g, n, ps[..|ps| - 1]) && LiveAt(g, EndOf(g, n, ps[..|ps| - 1]), ps[|ps| - 1]))
  }

  /** The sum of the positions taken. */
  function Weight(ps: seq<nat>): nat {
    if ps == [] then 0 else Weight(ps[..|ps| - 1]) + ps[|ps| - 1]
  }

  lemma {:induction false} WalkInRange(g: Graph, n: nat, ps: seq<nat>)
    requires Closed(g) && n < |g| && IsWalk(g, n, ps)
    ensures EndOf(g, n, ps) < |g|
    decreases |ps|
  {
    if ps != [] {
      WalkInRange(g, n, ps[..|ps| - 1]);
    }
  }

  lemma {:induction false} WalkConcat(g: Graph, n: nat, ps: seq<nat>, qs: seq<nat>)
    requires IsWalk(g, n, ps) && IsWalk(g, EndOf(g, n, ps), qs)
    ensures IsWalk(g, n, ps + qs)
    ensures EndOf(g, n, ps + qs) == EndOf(g, EndOf(g, n, ps), qs)
    ensures Weight(ps + qs) == Weight(ps) + Weight(qs)
    decreases |qs|
  {
    if qs == [] {
      assert ps + qs == ps;
    } else {
      var qs' := qs[..|qs| - 1];
      assert (ps + qs)[..|ps + qs| - 1] == ps + qs';
      WalkConcat(g, n, ps, qs');
    }
  }

  lemma OneStep(g: Graph, n: nat, i: nat)
    requires LiveAt(g, n, i)
    ensures IsWalk(g, n, [i]) && EndOf(g, n, [i]) == g[n].links[i] && Weight([i]) == i
  {
    assert [i][..0] == [];
    assert EndOf(g, n, []) == n && IsWalk(g, n, []) && Weight([]) == 0;
  }

  // ----- finite choice sequences -----

  /** The configuration after feeding the choices one by one. */
  function Feed(g: Graph, cs: seq<Choice>, cfg: Config): (r: Config)
    requires Fits(g, cfg)
    ensures Fits(g, r)
    decreases |cs|
  {
    if cs == [] then cfg else Feed(g, cs[1..], Step(g, _ => cs[0], cfg))
  }

  lemma {:induction false} FeedConcat(g: Graph, a: seq<Choice>, b: seq<Choice>, cfg: Config)
    requires Fits(g, cfg)
    ensures Feed(g, a + b, cfg) == Feed(g, b, Feed(g, a, cfg))
    decreases |a|
  {
    if a == [] {
      assert a + b == b;
    } else {
      assert (a + b)[1..] == a[1..] + b;
      FeedConcat(g, a[1..], b, Step(g, _ => a[0], cfg));
    }
  }

  ghost predicate Answers(o: nat -> Choice, from: nat, cs: seq<Choice>) {
    forall j :: 0 <= j < |cs| ==> o(from + j) == cs[j]
  }

  lemma SameStep(g: Graph, o: nat -> Choice, c: Choice, cfg: Config)
    requires Fits(g, cfg) && o(|cfg.world.calls|) == c
    ensures Step(g, o, cfg) == Step(g, _ => c, cfg)
  {
  }

  lemma StepCalls(g: Graph, o: nat -> Choice, cfg: Config)
    requires Fits(g, cfg)
    ensures Halted(cfg) ==> Step(g, o, cfg) == cfg
    ensures !Halted(cfg) ==> |Step(g, o, cfg).world.calls| == |cfg.world.calls| + 1
  {
  }

  lemma {:induction false} FeedHalted(g: Graph, cs: seq<Choice>, cfg: Config)
    requires Fits(g, cfg) && Halted(cfg)
    ensures Feed(g, cs, cfg) == cfg
    decreases |cs|
  {
    if cs != [] {
      FeedHalted(g, cs[1..], cfg);
    }
  }

  lemma {:induction false} FeedIsAfter(g: Graph, o: nat -> Choice, cs: seq<Choice>, cfg: Config)
    requires Fits(g, cfg) && Answers(o, |cfg.world.calls|, cs)
    ensures After(g, o, cfg, |cs|) == Feed(g, cs, cfg)
    decreases |cs|
  {
    if Halted(cfg) {
      AfterHalted(g, o, cfg, |cs|);
      FeedHalted(g, cs, cfg);
    } else if cs != [] {
      var from := |cfg.world.calls|;
      assert o(from + 0) == cs[0];
      SameStep(g, o, cs[0], cfg);
      StepCalls(g, o, cfg);
      var next := Step(g, o, cfg);
      forall j | 0 <= j < |cs| - 1 ensures o(from + 1 + j) == cs[1..][j] {
        assert o(from + (1 + j)) == cs[1 + j];
      }
      FeedIsAfter(g, o, cs[1..], next);
    }
  }

  /** Every finite choice sequence is the start of some environment. */
  lemma SomeEnvironment(g: Graph, cs: seq<Choice>, cfg: Config) returns (o: nat -> Choice)
    requires Fits(g, cfg)
    ensures After(g, o, cfg, |cs|) == Feed(g, cs, cfg)
  {
    var from := |cfg.world.calls|;
    o := (j: nat) => if from <= j < from + |cs| then cs[j - from] else Choice(true, []);
    FeedIsAfter(g, o, cs, cfg);
  }

  // ----- live walks can be taken -----

  lemma FeedOne(g: Graph, c: Choice, cfg: Config)
    requires Fits(g, cfg)
    ensures Feed(g, [c], cfg) == Step(g, _ => c, cfg)
  {
    assert [c][1..] == [];
  }

  /** Processing the top task with a chosen answer. */
  lemma StepTop(g: Graph, c: Choice, base: seq<Task>, t: Task, w: World)
    requires Closed(g) && InRange(g, base) && t.node < |g| && !w.failed
    ensures Fits(g, Config(base + [t], w))
    ensures var r := Step(g, _ => c, Config(base + [t], w));
            r.stack == base + Children(g, c, t) && r.world == Handle(g, c, t, w)
  {
    assert (base + [t])[..|base|] == base;
  }

  /** A choice that makes a droppable module finish its packet without an error. */
  function DropChoice(k: Kind): (c: Choice)
    requires Droppable(k)
    ensures !Decide(k, c.ok).Forward? && !Decide(k, c.ok).TransmitFailed?
  {
    Choice(!k.Ipv4Receiver?, [])
  }

  /** Feeding `cs` to the stack `from` in world `w` leaves `to` in world `w'`, without an error. */
  ghost predicate Leads(g: Graph, cs: seq<Choice>, from: seq<Task>, w: World, to: seq<Task>, w': World) {
    Closed(g) && InRange(g, from) && Feed(g, cs, Config(from, w)) == Config(to, w') && InRange(g, to) && !w'.failed
  }

  lemma Then(g: Graph, a: seq<Choice>, b: seq<Choice>, s0: seq<Task>, w0: World, s1: seq<Task>, w1: World,
             s2: seq<Task>, w2: World)
    requires Leads(g, a, s0, w0, s1, w1) && Leads(g, b, s1, w1, s2, w2)
    ensures Leads(g, a + b, s0, w0, s2, w2)
  {
    FeedConcat(g, a, b, Config(s0, w0));
  }

  lemma LeadsNowhere(g: Graph, ts: seq<Task>, w: World)
    requires Closed(g) && InRange(g, ts) && !w.failed
    ensures Leads(g, [], ts, w, ts, w)
  {
  }

  lemma LeadsOne(g: Graph, c: Choice, base: seq<Task>, t: Task, w: World)
    requires Closed(g) && InRange(g, base) && t.node < |g| && !w.failed && !Handle(g, c, t, w).failed
    ensures Leads(g, [c], base + [t], w, base + Children(g, c, t), Handle(g, c, t, w))
  {
    StepTop(g, c, base, t, w);
    FeedOne(g, c, Config(base + [t], w));
  }

  /** A finishable task can be finished, leaving what was below it. */
  lemma {:induction false} Finish(g: Graph, base: seq<Task>, t: Task, w: World, k: nat)
    returns (cs: seq<Choice>, w': World)
    requires Closed(g) && InRange(g, base) && t.node in Done(g, k) && !w.failed
    ensures Leads(g, cs, base + [t], w, base, w')
    decreases k, 0
  {
    assert t.node < |g|;
    if Droppable(g[t.node].kind) {
      var c := DropChoice(g[t.node].kind);
      LeadsOne(g, c, base, t, w);
      cs, w' := [c], Handle(g, c, t, w);
      assert base + [] == base;
    } else {
      var c := Choice(true, []);
      LeadsOne(g, c, base, t, w);
      var rest;
      rest, w' := FinishAll(g, base, Children(g, c, t), Handle(g, c, t, w), k - 1);
      Then(g, [c], rest, base + [t], w, base + Children(g, c, t), Handle(g, c, t, w), base, w');
      cs := [c] + rest;
    }
  }

  lemma {:induction false} FinishAll(g: Graph, base: seq<Task>, ts: seq<Task>, w: World, k: nat)
    returns (cs: seq<Choice>, w': World)
    requires Closed(g) && InRange(g, base) && !w.failed
    requires forall i :: 0 <= i < |ts| ==> ts[i].node in Done(g, k)
    ensures Leads(g, cs, base + ts, w, base, w')
    decreases k, 1, |ts|
  {
    if ts == [] {
      cs, w' := [], w;
      assert base + ts == base;
      LeadsNowhere(g, base, w);
    } else {
      var ts' := ts[..|ts| - 1];
      var t := ts[|ts| - 1];
      assert base + ts == base + ts' + [t];
      var first, w1 := Finish(g, base + ts', t, w, k);
      var rest;
      rest, w' := FinishAll(g, base, ts', w1, k);
      Then(g, first, rest, base + ts, w, base + ts', w1, base, w');
      cs := first + rest;
    }
  }

  /** Some environment gets rid of the task on top, leaving what was below it, without an error. */
  ghost predicate CanFinish(g: Graph, base: seq<Task>, t: Task, w: World)
    requires Closed(g) && InRange(g, base) && t.node < |g|
  {
    exists o: nat -> Choice, k: nat :: Finishes(g, base, t, w, o, k)
  }

  ghost predicate Finishes(g: Graph, base: seq<Task>, t: Task, w: World, o: nat -> Choice, k: nat)
    requires Closed(g) && InRange(g, base) && t.node < |g|
  {
    var r := After(g, o, Config(base + [t], w), k);
    r.stack == base && !r.world.failed
  }

  /** A node at or above height `b` that cannot be finished. */
  ghost predicate StuckAbove(g: Graph, ns: seq<nat>, b: nat) {
    exists j: nat :: b <= j < |ns| && !Finishable(g, ns[j])
  }

  lemma StuckStep(g: Graph, base: seq<nat>, n: nat, kids: seq<nat>, b: nat)
    requires n < |g| && StuckAbove(g, base + [n], b)
    requires (kids == [] && Droppable(g[n].kind)) || (CanForward(g[n].kind) && kids == g[n].links)
    ensures StuckAbove(g, base + kids, b)
  {
    var j: nat :| b <= j < |base + [n]| && !Finishable(g, (base + [n])[j]);
    if j < |base| {
      assert (base + kids)[j] == (base + [n])[j];
    } else {
      FinishableIff(g, n);
      var i :| 0 <= i < |kids| && kids[i] !in Done(g, |g|);
      assert (base + kids)[|base| + i] == kids[i];
    }
  }

  lemma StuckOn(g: Graph, o: nat -> Choice, cfg: Config, b: nat)
    requires Fits(g, cfg) && StuckAbove(g, NodesOf(cfg.stack), b)
    ensures StuckAbove(g, NodesOf(Step(g, o, cfg).stack), b)
  {
    if !Halted(cfg) {
      var base, n, kids := StepShape(g, o, cfg);
      StuckStep(g, base, n, kids, b);
    }
  }

  lemma StuckHeight(g: Graph, ns: seq<nat>, b: nat)
    requires StuckAbove(g, ns, b)
    ensures |ns| > b
  {
  }

  /** It stays there whatever the environment answers. */
  lemma {:induction false} StuckStays(g: Graph, o: nat -> Choice, cfg: Config, k: nat, b: nat)
    requires Fits(g, cfg) && StuckAbove(g, NodesOf(cfg.stack), b)
    ensures |After(g, o, cfg, k).stack| > b
    decreases k
  {
    if k == 0 {
      StuckHeight(g, NodesOf(cfg.stack), b);
    } else {
      StuckOn(g, o, cfg, b);
      StuckStays(g, o, Step(g, o, cfg), k - 1, b);
    }
  }

  /** What finishable means: some environment gets rid of the task and everything it causes; and
      otherwise none ever brings the stack back down. */
  lemma FinishableMeaning(g: Graph, base: seq<Task>, t: Task, w: World)
    requires Closed(g) && InRange(g, base) && t.node < |g| && !w.failed
    ensures CanFinish(g, base, t, w) <==> Finishable(g, t.node)
    ensures !Finishable(g, t.node) ==>
              forall o: nat -> Choice, k: nat :: |After(g, o, Config(base + [t], w), k).stack| > |base|
  {
    if Finishable(g, t.node) {
      var cs, w' := Finish(g, base, t, w, |g|);
      var o := SomeEnvironment(g, cs, Config(base + [t], w));
      assert Finishes(g, base, t, w, o, |cs|);
    } else {
      var ns := NodesOf(base + [t]);
      assert ns[|base|] == t.node;
      forall o: nat -> Choice, k: nat ensures |After(g, o, Config(base + [t], w), k).stack| > |base| {
        StuckStays(g, o, Config(base + [t], w), k, |base|);
      }
      forall o: nat -> Choice, k: nat ensures !Finishes(g, base, t, w, o, k) {
        assert |After(g, o, Config(base + [t], w), k).stack| > |base|;
      }
    }
  }

  /** A live link can be brought to the top, exactly its position above where its node was. */
  lemma Advance(g: Graph, base: seq<Task>, t: Task, w: World, i: nat) returns (cs: seq<Choice>, w': World)
    requires Closed(g) && InRange(g, base) && LiveAt(g, t.node, i) && !w.failed
    ensures Leads(g, cs, base + [t], w, base + Fan(g[t.node].links, t.pkt)[..i + 1], w')
  {
    var c := Choice(true, []);
    LeadsOne(g, c, base, t, w);
    var fan := Fan(g[t.node].links, t.pkt);
    var low, high := fan[..i + 1], fan[i + 1..];
    assert base + fan == base + low + high;
    var rest;
    rest, w' := FinishAll(g, base + low, high, Handle(g, c, t, w), |g|);
    Then(g, [c], rest, base + [t], w, base + fan, Handle(g, c, t, w), base + low, w');
    cs := [c] + rest;
  }

  /** A live walk can be taken: its end comes to the top, its weight higher than its start. */
  lemma {:induction false} Take(g: Graph, base: seq<Task>, t: Task, w: World, ps: seq<nat>)
    returns (cs: seq<Choice>, below: seq<Task>, w': World)
    requires Closed(g) && InRange(g, base) && t.node < |g| && IsWalk(g, t.node, ps) && !w.failed
    ensures Leads(g, cs, base + [t], w, below + [Task(EndOf(g, t.node, ps), t.pkt)], w')
    ensures |below| == |base| + Weight(ps)
    decreases |ps|
  {
    if ps == [] {
      cs, below, w' := [], base, w;
      LeadsNowhere(g, base + [t], w);
    } else {
      var first, mid, w1 := Take(g, base, t, w, ps[..|ps| - 1]);
      var e := Task(EndOf(g, t.node, ps[..|ps| - 1]), t.pkt);
      BelowInRange(g, mid, e);
      var rest, last;
      rest, below, last, w' := TakeOne(g, mid, e, w1, ps[|ps| - 1]);
      Then(g, first, rest, base + [t], w, mid + [e], w1, below + [last], w');
      cs := first + rest;
    }
  }

  /** One live link, as a step of a walk. */
  lemma TakeOne(g: Graph, base: seq<Task>, t: Task, w: World, i: nat)
    returns (cs: seq<Choice>, below: seq<Task>, e: Task, w': World)
    requires Closed(g) && InRange(g, base) && LiveAt(g, t.node, i) && !w.failed
    ensures Leads(g, cs, base + [t], w, below + [e], w')
    ensures |below| == |base| + i && e == Task(g[t.node].links[i], t.pkt)
  {
    cs, w' := Advance(g, base, t, w, i);
    var fan := Fan(g[t.node].links, t.pkt);
    below, e := base + fan[..i], fan[i];
    OneMoreTask(base, fan, i);
  }

  lemma OneMoreTask(base: seq<Task>, fan: seq<Task>, i: nat)
    requires i < |fan|
    ensures base + fan[..i + 1] == base + fan[..i] + [fan[i]]
  {
  }

  lemma BelowInRange(g: Graph, below: seq<Task>, t: Task)
    requires InRange(g, below + [t])
    ensures InRange(g, below)
  {
    assert forall i :: 0 <= i < |below| ==> (below + [t])[i] == below[i];
  }

  // ----- the exact height condition, for every closed graph -----

  /** Everything above index `j` can be finished, so the node at `j` can come to the top. */
  predicate Active(g: Graph, ns: seq<nat>, j: nat) {
    j < |ns| && forall i :: j < i < |ns| ==> Finishable(g, ns[i])
  }

  /** A live walk from an active index that ends in a forwarding node reaches this height. */
  ghost predicate Reaches(g: Graph, ns: seq<nat>, j: nat, ps: seq<nat>, height: nat) {
    && Active(g, ns, j) && IsWalk(g, ns[j], ps)
    && EndOf(g, ns[j], ps) < |g| && CanForward(g[EndOf(g, ns[j], ps)].kind)
    && height == j + Weight(ps) + |g[EndOf(g, ns[j], ps)].links|
  }

  ghost predicate HeightsWithin(g: Graph, ns: seq<nat>, cap: nat) {
    |ns| <= cap && forall j: nat, ps: seq<nat>, h: nat :: Reaches(g, ns, j, ps, h) ==> h <= cap
  }

  /** Index `j` of `now` was reached from `start` by a live walk of exactly the right weight. */
  ghost predicate Traced(g: Graph, start: seq<nat>, now: seq<nat>, j: nat)
    requires j < |now|
  {
    exists j0: nat, ps: seq<nat> :: TracedBy(g, start, now, j, j0, ps)
  }

  ghost predicate TracedBy(g: Graph, start: seq<nat>, now: seq<nat>, j: nat, j0: nat, ps: seq<nat>)
    requires j < |now|
  {
    Active(g, start, j0) && IsWalk(g, start[j0], ps) && EndOf(g, start[j0], ps) == now[j] && j == j0 + Weight(ps)
  }

  ghost predicate AllTraced(g: Graph, start: seq<nat>, now: seq<nat>) {
    forall j: nat :: Active(g, now, j) ==> Traced(g, start, now, j)
  }

  /** What lies below a popped node stays as active as it was. */
  lemma ActiveBelow(g: Graph, base: seq<nat>, n: nat, kids: seq<nat>, j: nat)
    requires n < |g| && Ids(g, base)
    requires (kids == [] && Droppable(g[n].kind)) || (CanForward(g[n].kind) && kids == g[n].links)
    requires Active(g, base + kids, j) && j < |base|
    ensures Active(g, base + [n], j)
  {
    FinishableIff(g, n);
    if kids == g[n].links {
      forall i | 0 <= i < |kids| ensures kids[i] in Done(g, |g|) {
        assert (base + kids)[|base| + i] == kids[i];
        assert Finishable(g, (base + kids)[|base| + i]);
      }
    }
    forall i | j < i < |base + [n]| ensures Finishable(g, (base + [n])[i]) {
      if i < |base| {
        assert (base + kids)[i] == base[i];
        assert Finishable(g, (base + kids)[i]);
      }
    }
  }

  /** A pushed link that is active is live. */
  lemma ActiveAbove(g: Graph, base: seq<nat>, n: nat, i: nat)
    requires n < |g| && CanForward(g[n].kind) && i < |g[n].links| && Active(g, base + g[n].links, |base| + i)
    ensures LiveAt(g, n, i)
  {
    var links := g[n].links;
    forall j | i < j < |links| ensures Finishable(g, links[j]) {
      assert (base + links)[|base| + j] == links[j];
    }
  }

  lemma TraceStep(g: Graph, start: seq<nat>, base: seq<nat>, n: nat, kids: seq<nat>, j: nat)
    requires n < |g| && Ids(g, base) && AllTraced(g, start, base + [n])
    requires (kids == [] && Droppable(g[n].kind)) || (CanForward(g[n].kind) && kids == g[n].links)
    requires Active(g, base + kids, j)
    ensures Traced(g, start, base + kids, j)
  {
    if j < |base| {
      ActiveBelow(g, base, n, kids, j);
      assert Traced(g, start, base + [n], j);
      var j0: nat, ps: seq<nat> :| TracedBy(g, start, base + [n], j, j0, ps);
      assert (base + kids)[j] == (base + [n])[j];
      assert TracedBy(g, start, base + kids, j, j0, ps);
    } else {
      var i := j - |base|;
      ActiveAbove(g, base, n, i);
      assert Active(g, base + [n], |base|);
      assert Traced(g, start, base + [n], |base|);
      var j0: nat, ps: seq<nat> :| TracedBy(g, start, base + [n], |base|, j0, ps);
      OneStep(g, n, i);
      WalkConcat(g, start[j0], ps, [i]);
      assert (base + kids)[j] == kids[i];
      assert TracedBy(g, start, base + kids, j, j0, ps + [i]);
    }
  }

  /** What one iteration does to the nodes of the stack. */
  lemma StepShape(g: Graph, o: nat -> Choice, cfg: Config) returns (base: seq<nat>, n: nat, kids: seq<nat>)
    requires Fits(g, cfg) && !Halted(cfg)
    ensures Ids(g, base) && n < |g|
    ensures NodesOf(cfg.stack) == base + [n] && NodesOf(Step(g, o, cfg).stack) == base + kids
    ensures (kids == [] && Droppable(g[n].kind)) || (CanForward(g[n].kind) && kids == g[n].links)
  {
    base, n, kids := StepNodes(g, o, cfg);
    var t := cfg.stack[|cfg.stack| - 1];
    assert NodesOf(cfg.stack)[|base|] == n == t.node;
    var c := o(|cfg.world.calls|);
    if !Decide(g[n].kind, c.ok).Forward? {
      assert Children(g, c, t) == [];
      assert |NodesOf(Step(g, o, cfg).stack)| == |base|;
    } else {
      assert |NodesOf(Step(g, o, cfg).stack)| == |base| + |g[n].links|;
    }
  }

  /** One iteration keeps every active node traced and the height within the capacity. */
  lemma TracedStep(g: Graph, start: seq<nat>, o: nat -> Choice, cfg: Config, cap: nat)
    requires Fits(g, cfg) && HeightsWithin(g, start, cap)
    requires AllTraced(g, start, NodesOf(cfg.stack)) && |cfg.stack| <= cap
    ensures AllTraced(g, start, NodesOf(Step(g, o, cfg).stack)) && |Step(g, o, cfg).stack| <= cap
  {
    if !Halted(cfg) {
      var base, n, kids := StepShape(g, o, cfg);
      forall j: nat | Active(g, base + kids, j) ensures Traced(g, start, base + kids, j) {
        TraceStep(g, start, base, n, kids, j);
      }
      HeightAfterPush(g, start, base, n, kids, cap);
      assert |NodesOf(Step(g, o, cfg).stack)| == |Step(g, o, cfg).stack|;
    }
  }

  lemma {:induction false} TracedWithin(g: Graph, start: seq<nat>, o: nat -> Choice, cfg: Config, k: nat, cap: nat)
    requires Fits(g, cfg) && HeightsWithin(g, start, cap)
    requires AllTraced(g, start, NodesOf(cfg.stack)) && |cfg.stack| <= cap
    ensures |After(g, o, cfg, k).stack| <= cap
    decreases k
  {
    if k > 0 {
      TracedStep(g, start, o, cfg, cap);
      TracedWithin(g, start, o, Step(g, o, cfg), k - 1, cap);
    }
  }

  lemma HeightAfterPush(g: Graph, start: seq<nat>, base: seq<nat>, n: nat, kids: seq<nat>, cap: nat)
    requires n < |g| && AllTraced(g, start, base + [n]) && HeightsWithin(g, start, cap) && |base| + 1 <= cap
    requires kids == [] || (CanForward(g[n].kind) && kids == g[n].links)
    ensures |base + kids| <= cap
  {
    if kids != [] {
      assert Active(g, base + [n], |base|);
      assert Traced(g, start, base + [n], |base|);
      var j0: nat, ps: seq<nat> :| TracedBy(g, start, base + [n], |base|, j0, ps);
      assert Reaches(g, start, j0, ps, |base| + |kids|);
    }
  }

  lemma StartTraced(g: Graph, ns: seq<nat>)
    ensures AllTraced(g, ns, ns)
  {
    forall j: nat | Active(g, ns, j) ensures Traced(g, ns, ns, j) {
      assert TracedBy(g, ns, ns, j, j, []);
    }
  }

  /** An active index can be brought to the top. */
  lemma Uncover(g: Graph, ts: seq<Task>, w: World, j: nat) returns (cs: seq<Choice>, w': World)
    requires Closed(g) && InRange(g, ts) && !w.failed && Active(g, NodesOf(ts), j)
    ensures Leads(g, cs, ts, w, ts[..j] + [ts[j]], w')
  {
    var high := SplitAt(g, ts, j);
    cs, w' := FinishAll(g, ts[..j] + [ts[j]], high, w, |g|);
  }

  lemma SplitAt(g: Graph, ts: seq<Task>, j: nat) returns (high: seq<Task>)
    requires InRange(g, ts) && Active(g, NodesOf(ts), j)
    ensures ts == ts[..j] + [ts[j]] + high && InRange(g, ts[..j] + [ts[j]])
    ensures forall i :: 0 <= i < |high| ==> high[i].node in Done(g, |g|)
  {
    high := ts[j + 1..];
    forall i | 0 <= i < |high| ensures high[i].node in Done(g, |g|) {
      assert Finishable(g, NodesOf(ts)[j + 1 + i]);
    }
  }

  /** A live walk out of an active index can be taken. */
  lemma TakeFrom(g: Graph, ts: seq<Task>, w: World, j: nat, ps: seq<nat>)
    returns (cs: seq<Choice>, below: seq<Task>, e: Task, w': World)
    requires Closed(g) && InRange(g, ts) && !w.failed && Active(g, NodesOf(ts), j) && IsWalk(g, ts[j].node, ps)
    ensures Leads(g, cs, ts, w, below + [e], w')
    ensures |below| == j + Weight(ps) && e.node == EndOf(g, ts[j].node, ps)
  {
    var first, w1 := Uncover(g, ts, w, j);
    var walk;
    walk, below, w' := Take(g, ts[..j], ts[j], w1, ps);
    e := Task(EndOf(g, ts[j].node, ps), ts[j].pkt);
    Then(g, first, walk, ts, w, ts[..j] + [ts[j]], w1, below + [e], w');
    cs := first + walk;
  }

  lemma PushOn(g: Graph, below: seq<Task>, e: Task, w: World)
    requires Closed(g) && InRange(g, below + [e]) && !w.failed && e.node < |g| && CanForward(g[e.node].kind)
    ensures var c := Choice(true, []);
            Leads(g, [c], below + [e], w, below + Fan(g[e.node].links, e.pkt), Handle(g, c, e, w))
  {
    BelowInRange(g, below, e);
    LeadsOne(g, Choice(true, []), below, e, w);
  }

  /** The height a live walk promises is really reached by some environment. */
  lemma HeightReached(g: Graph, ts: seq<Task>, w: World, j: nat, ps: seq<nat>, h: nat)
    returns (o: nat -> Choice, k: nat)
    requires Closed(g) && InRange(g, ts) && !w.failed && Reaches(g, NodesOf(ts), j, ps, h)
    ensures |After(g, o, Config(ts, w), k).stack| == h
  {
    var cs, below, e, w1 := TakeFrom(g, ts, w, j, ps);
    assert (below + [e])[|below|] == e;
    PushOn(g, below, e, w1);
    var c := Choice(true, []);
    Then(g, cs, [c], ts, w, below + [e], w1, below + Fan(g[e.node].links, e.pkt), Handle(g, c, e, w1));
    o := SomeEnvironment(g, cs + [c], Config(ts, w));
    k := |cs + [c]|;
  }

  /** For every closed graph, every initial stack and every capacity: no environment ever drives
      the stack above the capacity if and only if neither the stack itself nor any live walk out of
      it does. */
  lemma OverrunIff(g: Graph, ts: seq<Task>, w: World, cap: nat)
    requires Closed(g) && InRange(g, ts) && !w.failed
    ensures (forall o: nat -> Choice, k: nat :: |After(g, o, Config(ts, w), k).stack| <= cap)
            <==> HeightsWithin(g, NodesOf(ts), cap)
  {
    var ns := NodesOf(ts);
    if HeightsWithin(g, ns, cap) {
      StartTraced(g, ns);
      forall o: nat -> Choice, k: nat ensures |After(g, o, Config(ts, w), k).stack| <= cap {
        TracedWithin(g, ns, o, Config(ts, w), k, cap);
      }
    } else if |ns| > cap {
      assert After(g, AllGood(), Config(ts, w), 0) == Config(ts, w);
    } else {
      var j: nat, ps: seq<nat>, h: nat :| Reaches(g, ns, j, ps, h) && h > cap;
      var o, k := HeightReached(g, ts, w, j, ps, h);
      assert |After(g, o, Config(ts, w), k).stack| > cap;
    }
  }

  /** On ranked graphs the height over live walks is the peak of the scheduler. */
  lemma HeightsArePeak(g: Graph, rank: seq<nat>, ts: seq<Task>, w: World, cap: nat)
    requires Ranked(g, rank) && InRange(g, ts) && !w.failed
    ensures HeightsWithin(g, NodesOf(ts), cap) <==> PeakAll(g, rank, NodesOf(ts)) <= cap
  {
    OverrunIff(g, ts, w, cap);
    StackSafeIff(g, rank, Config(ts, w), cap);
  }

  // ----- when is the stack bounded at all? -----

  /** The nodes a live walk can lead to. */
  ghost function Reachable(g: Graph, n: nat): set<nat> {
    set m | m in Below(|g|) && WalkTo(g, n, m)
  }

  ghost predicate WalkTo(g: Graph, n: nat, m: nat) {
    exists ps: seq<nat> :: IsWalk(g, n, ps) && EndOf(g, n, ps) == m
  }

  /** Some live link above position 0 leads back to its own node. */
  ghost predicate Growing(g: Graph) {
    exists n: nat, i: nat :: GrowsAt(g, n, i)
  }

  ghost predicate GrowsAt(g: Graph, n: nat, i: nat) {
    LiveAt(g, n, i) && i > 0 && WalkTo(g, g[n].links[i], n)
  }

  /** No live walk out of `n` leads to a growing cycle. */
  ghost predicate Calm(g: Graph, n: nat) {
    forall m: nat, i: nat :: GrowsAt(g, m, i) ==> !WalkTo(g, n, m)
  }

  ghost predicate CalmStack(g: Graph, ns: seq<nat>) {
    forall j: nat :: Active(g, ns, j) ==> Calm(g, ns[j])
  }

  lemma WalkOn(g: Graph, n: nat, i: nat, m: nat)
    requires LiveAt(g, n, i) && WalkTo(g, g[n].links[i], m)
    ensures WalkTo(g, n, m)
  {
    OneStep(g, n, i);
    var ps: seq<nat> :| IsWalk(g, g[n].links[i], ps) && EndOf(g, g[n].links[i], ps) == m;
    WalkConcat(g, n, [i], ps);
  }

  lemma CalmOn(g: Graph, n: nat, i: nat)
    requires LiveAt(g, n, i) && Calm(g, n)
    ensures Calm(g, g[n].links[i]) && !GrowsAt(g, n, i)
  {
    forall m: nat, k: nat | GrowsAt(g, m, k) ensures !WalkTo(g, g[n].links[i], m) {
      if WalkTo(g, g[n].links[i], m) {
        WalkOn(g, n, i, m);
      }
    }
    assert IsWalk(g, n, []) && EndOf(g, n, []) == n;
  }

  lemma ReachableShrinks(g: Graph, n: nat, i: nat)
    requires Closed(g) && LiveAt(g, n, i)
    ensures Reachable(g, g[n].links[i]) <= Reachable(g, n) && n in Reachable(g, n)
  {
    forall m | m in Reachable(g, g[n].links[i]) ensures m in Reachable(g, n) {
      WalkOn(g, n, i, m);
    }
    assert IsWalk(g, n, []) && EndOf(g, n, []) == n;
    assert n in Below(|g|);
  }

  /** How much higher than itself a node's live walks can lead, if no live cycle gains height. */
  ghost function Potential(g: Graph, f: nat, n: nat): nat {
    f * |Reachable(g, n)|
  }

  lemma PotentialDrops(g: Graph, f: nat, n: nat, i: nat)
    requires Closed(g) && LiveAt(g, n, i) && !GrowsAt(g, n, i) && i <= f
    ensures i + Potential(g, f, g[n].links[i]) <= Potential(g, f, n)
  {
    var l := g[n].links[i];
    ReachableShrinks(g, n, i);
    var a, b := |Reachable(g, l)|, |Reachable(g, n)|;
    if i == 0 {
      SubsetSize(Reachable(g, l), Reachable(g, n));
      MulMono(f, a, b);
    } else {
      assert n !in Reachable(g, l);
      ProperSubsetSmaller(Reachable(g, l), Reachable(g, n));
      MulMono(f, a + 1, b);
      assert f * (a + 1) == f * a + f;
    }
  }

  /** Every active index is calm and within its potential of the bound. */
  ghost predicate UnderBound(g: Graph, f: nat, ns: seq<nat>, bound: nat) {
    forall j: nat :: Active(g, ns, j) ==> Calm(g, ns[j]) && j + Potential(g, f, ns[j]) < bound
  }

  lemma BelowHeight(g: Graph, f: nat, ns: seq<nat>, bound: nat)
    requires UnderBound(g, f, ns, bound)
    ensures |ns| <= bound
  {
    if ns != [] {
      assert Active(g, ns, |ns| - 1);
    }
  }

  lemma BelowStep(g: Graph, f: nat, base: seq<nat>, n: nat, kids: seq<nat>, bound: nat)
    requires Closed(g) && n < |g| && Ids(g, base) && UnderBound(g, f, base + [n], bound) && FanoutAtMost(g, f + 1)
    requires (kids == [] && Droppable(g[n].kind)) || (CanForward(g[n].kind) && kids == g[n].links)
    ensures UnderBound(g, f, base + kids, bound)
  {
    forall j: nat | Active(g, base + kids, j)
      ensures Calm(g, (base + kids)[j]) && j + Potential(g, f, (base + kids)[j]) < bound
    {
      if j < |base| {
        ActiveBelow(g, base, n, kids, j);
        assert (base + kids)[j] == (base + [n])[j];
      } else {
        var i := j - |base|;
        ActiveAbove(g, base, n, i);
        assert Active(g, base + [n], |base|);
        assert (base + kids)[j] == kids[i] && (base + [n])[|base|] == n;
        CalmOn(g, n, i);
        PotentialDrops(g, f, n, i);
      }
    }
  }

  /** One iteration keeps a bounded stack bounded. */
  lemma StepBelow(g: Graph, f: nat, o: nat -> Choice, cfg: Config, bound: nat)
    requires Fits(g, cfg) && FanoutAtMost(g, f + 1) && UnderBound(g, f, NodesOf(cfg.stack), bound)
    ensures UnderBound(g, f, NodesOf(Step(g, o, cfg).stack), bound)
  {
    if !Halted(cfg) {
      var base, n, kids := StepShape(g, o, cfg);
      BelowStep(g, f, base, n, kids, bound);
    }
  }

  lemma {:induction false} RunBelow(g: Graph, f: nat, o: nat -> Choice, cfg: Config, k: nat, bound: nat)
    requires Fits(g, cfg) && FanoutAtMost(g, f + 1) && UnderBound(g, f, NodesOf(cfg.stack), bound)
    ensures |After(g, o, cfg, k).stack| <= bound
    decreases k
  {
    if k == 0 {
      BelowHeight(g, f, NodesOf(cfg.stack), bound);
    } else {
      StepBelow(g, f, o, cfg, bound);
      RunBelow(g, f, o, Step(g, o, cfg), k - 1, bound);
    }
  }

  /** A calm stack of P nodes is within P + f * |g|. */
  lemma CalmStackBelow(g: Graph, f: nat, ns: seq<nat>)
    requires CalmStack(g, ns)
    ensures UnderBound(g, f, ns, |ns| + f * |g|)
  {
    forall j: nat | Active(g, ns, j) ensures Calm(g, ns[j]) && j + Potential(g, f, ns[j]) < |ns| + f * |g| {
      SubsetSize(Reachable(g, ns[j]), Below(|g|));
      MulMono(f, |Reachable(g, ns[j])|, |g|);
    }
  }

  /** The closed form without ranking: a stack of P tasks from which no growing cycle can be reached
      never exceeds P + f * |g| in a graph of fan-out f + 1. */
  lemma HeightWithoutGrowth(g: Graph, f: nat, o: nat -> Choice, cfg: Config, k: nat)
    requires Fits(g, cfg) && CalmStack(g, NodesOf(cfg.stack)) && FanoutAtMost(g, f + 1)
    ensures |After(g, o, cfg, k).stack| <= |cfg.stack| + f * |g|
  {
    CalmStackBelow(g, f, NodesOf(cfg.stack));
    RunBelow(g, f, o, cfg, k, |cfg.stack| + f * |g|);
  }

  function Repeat(ps: seq<nat>, k: nat): seq<nat> {
    if k == 0 then [] else Repeat(ps, k - 1) + ps
  }

  lemma {:induction false} RepeatCycle(g: Graph, n: nat, ps: seq<nat>, k: nat)
    requires IsWalk(g, n, ps) && EndOf(g, n, ps) == n && Weight(ps) >= 1
    ensures IsWalk(g, n, Repeat(ps, k)) && EndOf(g, n, Repeat(ps, k)) == n && Weight(Repeat(ps, k)) >= k
    decreases k
  {
    if k > 0 {
      RepeatCycle(g, n, ps, k - 1);
      WalkConcat(g, n, Repeat(ps, k - 1), ps);
    }
  }

  /** A growing cycle can be followed to any weight. */
  lemma GrowingWalk(g: Graph, n: nat, i: nat, weight: nat) returns (ps: seq<nat>)
    requires Closed(g) && GrowsAt(g, n, i)
    ensures IsWalk(g, n, ps) && EndOf(g, n, ps) == n && Weight(ps) >= weight
  {
    var back: seq<nat> :| IsWalk(g, g[n].links[i], back) && EndOf(g, g[n].links[i], back) == n;
    OneStep(g, n, i);
    WalkConcat(g, n, [i], back);
    RepeatCycle(g, n, [i] + back, weight);
    ps := Repeat([i] + back, weight);
  }

  /** A growing cycle within reach of an active task drives the stack above any capacity. */
  lemma GrowingOverruns(g: Graph, ts: seq<Task>, w: World, j: nat, n: nat, i: nat, cap: nat)
    returns (o: nat -> Choice, k: nat)
    requires Closed(g) && InRange(g, ts) && !w.failed
    requires Active(g, NodesOf(ts), j) && GrowsAt(g, n, i) && WalkTo(g, ts[j].node, n)
    ensures |After(g, o, Config(ts, w), k).stack| > cap
  {
    var there: seq<nat> :| IsWalk(g, ts[j].node, there) && EndOf(g, ts[j].node, there) == n;
    var turns := GrowingWalk(g, n, i, cap);
    WalkConcat(g, ts[j].node, there, turns);
    var ps := there + turns;
    var h := j + Weight(ps) + |g[n].links|;
    assert Reaches(g, NodesOf(ts), j, ps, h);
    o, k := HeightReached(g, ts, w, j, ps, h);
  }

  ghost predicate BoundedFrom(g: Graph, ts: seq<Task>, w: World)
    requires Closed(g) && InRange(g, ts)
  {
    exists cap: nat :: CapHolds(g, ts, w, cap)
  }

  ghost predicate CapHolds(g: Graph, ts: seq<Task>, w: World, cap: nat)
    requires Closed(g) && InRange(g, ts)
  {
    forall o: nat -> Choice, k: nat :: |After(g, o, Config(ts, w), k).stack| <= cap
  }

  lemma {:induction false} SomeFanout(g: Graph) returns (f: nat)
    ensures FanoutAtMost(g, f + 1)
    decreases |g|
  {
    f := 0;
    if g != [] {
      var f' := SomeFanout(g[..|g| - 1]);
      f := f' + |g[|g| - 1].links|;
      forall n | 0 <= n < |g| ensures |g[n].links| <= f + 1 {
        if n < |g| - 1 {
          assert g[..|g| - 1][n] == g[n];
        }
      }
    }
  }

  lemma CalmIsBounded(g: Graph, ts: seq<Task>, w: World)
    requires Closed(g) && InRange(g, ts) && CalmStack(g, NodesOf(ts))
    ensures BoundedFrom(g, ts, w)
  {
    var f := SomeFanout(g);
    var cap := |ts| + f * |g|;
    forall o: nat -> Choice, k: nat ensures |After(g, o, Config(ts, w), k).stack| <= cap {
      HeightWithoutGrowth(g, f, o, Config(ts, w), k);
    }
    assert CapHolds(g, ts, w, cap);
  }

  lemma RestlessIsUnbounded(g: Graph, ts: seq<Task>, w: World)
    requires Closed(g) && InRange(g, ts) && !w.failed && !CalmStack(g, NodesOf(ts))
    ensures !BoundedFrom(g, ts, w)
  {
    var j: nat :| Active(g, NodesOf(ts), j) && !Calm(g, NodesOf(ts)[j]);
    var n: nat, i: nat :| GrowsAt(g, n, i) && WalkTo(g, NodesOf(ts)[j], n);
    forall cap: nat ensures !CapHolds(g, ts, w, cap) {
      var o, k := GrowingOverruns(g, ts, w, j, n, i, cap);
    }
  }

  /** For every closed graph and every stack: the height is bounded over all environments if and
      only if no growing cycle, a live cycle that takes a link at a position above 0, is within
      live reach of an active task. */
  lemma BoundedFromIff(g: Graph, ts: seq<Task>, w: World)
    requires Closed(g) && InRange(g, ts) && !w.failed
    ensures BoundedFrom(g, ts, w) <==> CalmStack(g, NodesOf(ts))
  {
    if CalmStack(g, NodesOf(ts)) {
      CalmIsBounded(g, ts, w);
    } else {
      RestlessIsUnbounded(g, ts, w);
    }
  }

  /** The height is bounded from every stack if and only if there is no growing cycle. */
  lemma BoundedIff(g: Graph, w: World)
    requires Closed(g) && !w.failed
    ensures (forall ts: seq<Task> :: InRange(g, ts) ==> BoundedFrom(g, ts, w)) <==> !Growing(g)
  {
    if !Growing(g) {
      forall ts: seq<Task> | InRange(g, ts) ensures BoundedFrom(g, ts, w) {
        BoundedFromIff(g, ts, w);
      }
    } else {
      var n: nat, i: nat :| GrowsAt(g, n, i);
      var ts := [Task(n, 0)];
      assert IsWalk(g, n, []) && EndOf(g, n, []) == n;
      assert Active(g, NodesOf(ts), 0) && !Calm(g, NodesOf(ts)[0]);
      BoundedFromIff(g, ts, w);
    }
  }

  lemma {:induction false} WalkRanks(g: Graph, rank: seq<nat>, n: nat, ps: seq<nat>)
    requires Ranked(g, rank) && n < |g| && IsWalk(g, n, ps)
    ensures EndOf(g, n, ps) < |g| && rank[EndOf(g, n, ps)] <= rank[n]
    decreases |ps|
  {
    if ps != [] {
      WalkRanks(g, rank, n, ps[..|ps| - 1]);
    }
  }

  /** Graphs on which the drain terminates have no growing cycle. */
  lemma RankedDoesNotGrow(g: Graph, rank: seq<nat>)
    requires Ranked(g, rank)
    ensures !Growing(g)
  {
    if Growing(g) {
      var n: nat, i: nat :| GrowsAt(g, n, i);
      var back: seq<nat> :| IsWalk(g, g[n].links[i], back) && EndOf(g, g[n].links[i], back) == n;
      WalkRanks(g, rank, g[n].links[i], back);
    }
  }

  // ----- a configuration whose stack grows without end -----

  /** Two modules; the receiver, which touches no bytes, forwards every packet to itself twice. */
  function DoublingGraph(): Graph {
    [Node(UserNode, [1]), Node(EthReceiver, [1, 1])]
  }

  lemma DoublingStep(ts: seq<Task>, w: World)
    requires ts != [] && !w.failed && forall i :: 0 <= i < |ts| ==> ts[i].node == 1
    ensures Fits(DoublingGraph(), Config(ts, w))
    ensures var r := Step(DoublingGraph(), AllGood(), Config(ts, w));
            && |r.stack| == |ts| + 1 && !r.world.failed
            && forall i :: 0 <= i < |r.stack| ==> r.stack[i].node == 1
  {
    var g := DoublingGraph();
    assert g[1].links == [1, 1] && g[0].links == [1];
    var t := ts[|ts| - 1];
    assert Children(g, AllGood()(|w.calls|), t) == Fan([1, 1], t.pkt);
  }

  /** Every step adds a task, so 2048 of them carry one packet past the end of the task array. */
  lemma {:induction false} DoublingGrows(ts: seq<Task>, w: World, k: nat)
    requires ts != [] && !w.failed && forall i :: 0 <= i < |ts| ==> ts[i].node == 1
    ensures Fits(DoublingGraph(), Config(ts, w))
    ensures |After(DoublingGraph(), AllGood(), Config(ts, w), k).stack| == |ts| + k
    decreases k
  {
    DoublingStep(ts, w);
    if k > 0 {
      var next := Step(DoublingGraph(), AllGood(), Config(ts, w));
      DoublingGrows(next.stack, next.world, k - 1);
      assert Config(next.stack, next.world) == next;
    }
  }

  lemma DoublingIsGrowing()
    ensures GrowsAt(DoublingGraph(), 1, 1) && Growing(DoublingGraph())
  {
    var g := DoublingGraph();
    assert LiveAt(g, 1, 1);
    assert IsWalk(g, 1, []) && EndOf(g, 1, []) == 1;
    assert g[1].links[1] == 1;
    assert WalkTo(g, g[1].links[1], 1);
    assert GrowsAt(g, 1, 1);
  }
}
