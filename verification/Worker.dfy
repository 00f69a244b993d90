/**
 The worker as it runs (engine.rs, user.rs, the receive loop of dpdk.rs, packet.rs): a fixed task
 array with an index, packet memory updated in place, and the nested loops of the poll phase and
 the drain.  Each method is proved to compute its counterpart in Scheduler and Runs, and every
 array access to be in range.
 */
module Workers {
  import opened Common
  import opened Packets
  import opened Scheduler
  import opened Runs
  import opened GraphBuild
  import opened Acyclic

  /** The nodes below `i` that can be polled, in order. */
  function PollList(g: Graph, i: nat): (r: seq<nat>)
    requires i <= |g|
    ensures forall j :: 0 <= j < |r| ==> r[j] < i && CanPoll(g[r[j]].kind)
    ensures forall n :: 0 <= n < i && CanPoll(g[n].kind) ==> n in r
    ensures forall j, k :: 0 <= j < k < |r| ==> r[j] < r[k]
  {
    if i == 0 then []
    else if CanPoll(g[i - 1].kind) then PollList(g, i - 1) + [i - 1]
    else PollList(g, i - 1)
  }

  lemma {:induction false} PollListPrefix(g: Graph, i: nat)
    requires i <= |g|
    ensures |PollList(g, i)| <= |PollList(g, |g|)|
    decreases |g| - i
  {
    if i < |g| {
      PollListPrefix(g, i + 1);
    }
  }

  class Worker {
    const graph: Graph
    const taskQueue: array<Task>
    var index: nat
    var nodesToPoll: seq<nat>
    var world: World

    ghost predicate Valid()
      reads this, taskQueue
    {
      && taskQueue.Length == TASK_QUEUE_SIZE
      && index <= taskQueue.Length
      && Fits(graph, View())
      && Ids(graph, nodesToPoll)
    }

    ghost function View(): Config
      reads this, taskQueue
      requires index <= taskQueue.Length
    {
      Config(taskQueue[..index], world)
    }

    constructor (g: Graph, w: World)
      requires Closed(g)
      ensures Valid() && graph == g && View() == Config([], w) && nodesToPoll == [] && fresh(taskQueue)
    {
      graph := g;
      taskQueue := new Task[TASK_QUEUE_SIZE](_ => Task(0, 0));
      index := 0;
      nodesToPoll := [];
      world := w;
    }

    /** The first loop of `run`: list the nodes to poll.  Fails exactly when there are more than
        the list can hold. */
    method CollectPolls() returns (ok: bool)
      requires Valid() && nodesToPoll == []
      modifies this`nodesToPoll
      ensures Valid()
      ensures ok <==> |PollList(graph, |graph|)| <= MAX_POLLED
      ensures ok ==> nodesToPoll == PollList(graph, |graph|)
    {
      for i := 0 to |graph|
        invariant nodesToPoll == PollList(graph, i) && |nodesToPoll| <= MAX_POLLED
      {
        if CanPoll(graph[i].kind) {
          if |nodesToPoll| == MAX_POLLED {
            PollListPrefix(graph, i + 1);
            return false;
          }
          nodesToPoll := nodesToPoll + [i];
        }
      }
      return true;
    }

    // ----- packet memory -----

    method Deallocate(p: PacketId)
      modifies this`world
      ensures world == old(world).(mem := Packets.Deallocate(old(world).mem, p))
    {
      var mem := world.mem;
      if p !in mem.cells {
        mem := mem.(faulty := true);
      } else if mem.cells[p].refcnt == 1 {
        if mem.cells[p].buf.Mbuf? {
          mem := FreeMbuf(mem, mem.cells[p].buf.m);
        }
        mem := PutPacket(mem, p);
      } else {
        mem := mem.(cells := mem.cells[p := mem.cells[p].(refcnt := Decrement(mem.cells[p].refcnt))]);
      }
      world := world.(mem := mem);
    }

    /** The free callbacks of finished transmissions. */
    method RunCallbacks(done: seq<PacketId>)
      modifies this`world
      ensures var (mem, tx) := Complete(old(world).mem, old(world).tx, done);
              world == old(world).(mem := mem, tx := tx)
    {
      var i := 0;
      while i < |done|
        invariant i <= |done|
        invariant Complete(world.mem, world.tx, done[i..]) == Complete(old(world).mem, old(world).tx, done)
        invariant world == old(world).(mem := world.mem, tx := world.tx)
      {
        assert done[i..][1..] == done[i + 1..];
        if done[i] in world.tx {
          world := world.(tx := world.tx - multiset{done[i]});
          Deallocate(done[i]);
        }
        i := i + 1;
      }
      assert done[i..] == [];
    }

    /** The reverse loop shared by `UserNode::poll` and `Dpdk::recv`: link packet i in front of the
        list built so far. */
    method BuildChain(picks: seq<PacketId>, bufs: seq<BufType>) returns (ok: bool, head: Option<PacketId>)
      requires |picks| == |bufs|
      modifies this`world
      ensures world == old(world).(mem := FillFrom(old(world).mem, picks, bufs, 0).0)
      ensures ok == FillFrom(old(world).mem, picks, bufs, 0).1
      ensures ok ==> IsChain(world.mem.cells, head, picks)
    {
      head := None;
      var i: nat := |bufs|;
      while i != 0
        invariant i <= |bufs|
        invariant world == old(world).(mem := FillFrom(old(world).mem, picks, bufs, i).0)
        invariant FillFrom(old(world).mem, picks, bufs, i).1
        invariant head == Head(picks, i)
      {
        i := i - 1;
        if picks[i] !in world.mem.pool || picks[i] !in world.mem.cells {
          FillStuck(old(world).mem, picks, bufs, i);
          return false, head;
        }
        world := world.(mem := Fill(world.mem, picks[i], head, bufs[i]));
        head := Some(picks[i]);
      }
      ok := true;
      FillFromChain(old(world).mem, picks, bufs, 0);
      assert picks[0..] == picks;
    }

    /** `poll` of the module at `node`. */
    method PollNode(node: nat, c: PollChoice) returns (r: Polled, head: Option<PacketId>)
      requires node < |graph| && CanPoll(graph[node].kind)
      modifies this`world
      ensures var want := Poll(graph[node].kind, c, old(world).mem, old(world).tx);
              && r == want.polled
              && world == old(world).(mem := want.mem, tx := want.tx, polls := old(world).polls + 1)
      ensures r.Chain? ==> IsChain(world.mem.cells, head, r.pkts)
    {
      head := None;
      world := world.(polls := world.polls + 1);
      if graph[node].kind.UserNode? {
        if !Grants(world.mem, c.picks, USER_BURST) {
          return Failed, None;
        }
        var ok;
        ok, head := BuildChain(c.picks, Locals(USER_BURST));
        r := if ok then Chain(c.picks) else Failed;
      } else {
        RunCallbacks(c.done);
        if !c.flushOk {
          return Failed, None;
        }
        if c.mbufs == [] || |c.picks| != |c.mbufs| || !RxContract(world.mem, c.mbufs) {
          return Nop, None;
        }
        world := world.(mem := world.mem.(loose := world.mem.loose + set m | m in c.mbufs));
        var ok;
        ok, head := BuildChain(c.picks, Mbufs(c.mbufs));
        r := if ok then Chain(c.picks) else Failed;
      }
    }

    // ----- the poll phase -----

    /** Walk the list from `head` and push one task per packet, in list order. */
    method PushChain(node: nat, head: Option<PacketId>, ghost pkts: seq<PacketId>)
      requires taskQueue.Length == TASK_QUEUE_SIZE
      requires IsChain(world.mem.cells, head, pkts) && index + |pkts| <= TASK_QUEUE_SIZE
      modifies this`index, taskQueue
      ensures index == old(index) + |pkts|
      ensures taskQueue[..index] == old(taskQueue[..index]) + Column(node, pkts)
    {
      var pkt := head;
      ghost var i := 0;
      while pkt.Some?
        invariant i <= |pkts| && index == old(index) + i
        invariant IsChain(world.mem.cells, pkt, pkts[i..])
        invariant taskQueue[..index] == old(taskQueue[..index]) + Column(node, pkts[..i])
        decreases |pkts| - i
      {
        taskQueue[index] := Task(node, pkt.value);
        index := index + 1;
        assert pkts[i..][1..] == pkts[i + 1..];
        assert Column(node, pkts[..i + 1]) == Column(node, pkts[..i]) + [Task(node, pkts[i])];
        assert taskQueue[..index] == taskQueue[..index - 1] + [Task(node, pkts[i])];
        pkt := world.mem.cells[pkt.value].next;
        i := i + 1;
      }
      assert pkts[..i] == pkts;
    }

    /** Push the whole chain once for every link, links in order. */
    method PushFan(links: seq<nat>, head: Option<PacketId>, ghost pkts: seq<PacketId>)
      requires taskQueue.Length == TASK_QUEUE_SIZE
      requires IsChain(world.mem.cells, head, pkts) && index + |FanChain(links, pkts)| <= TASK_QUEUE_SIZE
      modifies this`index, taskQueue
      ensures index == old(index) + |FanChain(links, pkts)|
      ensures taskQueue[..index] == old(taskQueue[..index]) + FanChain(links, pkts)
    {
      assert links[..0] == [];
      for i := 0 to |links|
        invariant index == old(index) + |FanChain(links[..i], pkts)| <= TASK_QUEUE_SIZE
        invariant taskQueue[..index] == old(taskQueue[..index]) + FanChain(links[..i], pkts)
      {
        FanRoom(links, pkts, i);
        PushChain(links[i], head, pkts);
      }
      assert links[..|links|] == links;
    }

    /** Poll one node and push what it returned. */
    method PollOne(node: nat, c: PollChoice)
      requires Valid() && !world.failed
      requires node < |graph| && CanPoll(graph[node].kind)
      requires index + NIC_BURST * |graph[node].links| <= TASK_QUEUE_SIZE
      modifies this`index, this`world, taskQueue
      ensures Valid() && View() == PollStep(graph, node, c, old(View()))
    {
      ghost var prev := View();
      PollStepHeight(graph, node, c, prev);
      var r, head := PollNode(node, c);
      if r.Failed? {
        world := world.(failed := true);
      } else if r.Chain? {
        assert |prev.stack + FanChain(graph[node].links, r.pkts)| <= TASK_QUEUE_SIZE;
        PushFan(graph[node].links, head, r.pkts);
      }
      assert View() == PollStep(graph, node, c, prev);
    }

    /** The poll phase.  With room for a burst per polled link it never leaves the task array. */
    method PollPhase(env: nat -> PollChoice)
      requires Valid() && !world.failed
      requires forall i :: 0 <= i < |nodesToPoll| ==> CanPoll(graph[nodesToPoll[i]].kind)
      requires index + NIC_BURST * PolledLinks(graph, nodesToPoll) <= TASK_QUEUE_SIZE
      modifies this`index, this`world, taskQueue
      ensures Valid()
      ensures View() == PollAll(graph, nodesToPoll, env, old(View()))
    {
      ghost var total := PollAll(graph, nodesToPoll, env, View());
      assert nodesToPoll[0..] == nodesToPoll;
      var i := 0;
      while i < |nodesToPoll| && !world.failed
        invariant i <= |nodesToPoll| && Valid()
        invariant !world.failed ==> index + NIC_BURST * PolledLinks(graph, nodesToPoll[i..]) <= TASK_QUEUE_SIZE
        invariant PollAll(graph, nodesToPoll[i..], env, View()) == total
      {
        PollAllStep(graph, nodesToPoll, i, env, View());
        PollStepHeight(graph, nodesToPoll[i], env(world.polls), View());
        PollOne(nodesToPoll[i], env(world.polls));
        i := i + 1;
      }
    }

    // ----- the drain -----

    /** `process` of the module a task names, with the counter update that follows an `Ok`. */
    method Process(c: Choice, t: Task) returns (v: Verdict)
      requires t.node < |graph|
      modifies this`world
      ensures v == Decide(graph[t.node].kind, c.ok)
      ensures world == Handle(graph, c, t, old(world))
    {
      v := Decide(graph[t.node].kind, c.ok);
      world := world.(calls := world.calls + [t], failed := v.TransmitFailed?);
      match v
      case Forward =>
        world := world.(mem := Fork(world.mem, t.pkt, |graph[t.node].links|));
        RunCallbacks(c.done);
      case Release =>
        Deallocate(t.pkt);
        RunCallbacks(c.done);
      case Transmit =>
        world := world.(tx := world.tx + multiset{t.pkt});
        RunCallbacks(c.done);
      case TransmitFailed =>
        world := world.(tx := world.tx + multiset{t.pkt});
        RunCallbacks(c.done);
    }

    /** The drain loop, from any stack from which it must end (`HaltsFromIff`).  It is safe in the
        task array whenever the peak of the initial stack fits, halts within `WorkAll` iterations,
        and computes the recursive run-to-completion. */
    method DrainQueue(o: nat -> Choice, ghost rank: seq<nat>)
      requires Valid() && Settled(graph, NodesOf(taskQueue[..index])) && Ranked(Tame(graph), rank)
      requires PeakAll(Tame(graph), rank, NodesOf(taskQueue[..index])) <= TASK_QUEUE_SIZE
      modifies this`index, this`world, taskQueue
      ensures Valid()
      ensures View() == Drain(Tame(graph), rank, o, old(View()))
      ensures world == VisitAll(Tame(graph), rank, o, old(View()).stack, old(View()).world)
      ensures !world.failed ==> index == 0
    {
      DrainIsRunToCompletion(Tame(graph), rank, o, View());
      while index != 0 && !world.failed
        invariant Valid() && Settled(graph, NodesOf(taskQueue[..index]))
        invariant PeakAll(Tame(graph), rank, NodesOf(taskQueue[..index])) <= TASK_QUEUE_SIZE
        invariant Drain(Tame(graph), rank, o, View()) == Drain(Tame(graph), rank, o, old(View()))
        decreases WorkAll(Tame(graph), rank, NodesOf(taskQueue[..index]))
      {
        ghost var before := View();
        StepTame(graph, o, before);
        StepWork(Tame(graph), rank, o, before);
        StepPeak(Tame(graph), rank, o, before);
        DrainOnce(o);
      }
    }

    /** Push one task per out-link, links in order. */
    method PushLinks(links: seq<nat>, p: PacketId)
      requires taskQueue.Length == TASK_QUEUE_SIZE && index + |links| <= TASK_QUEUE_SIZE
      modifies this`index, taskQueue
      ensures index == old(index) + |links|
      ensures taskQueue[..index] == old(taskQueue[..index]) + Fan(links, p)
    {
      ghost var fan := Fan(links, p);
      for i := 0 to |links|
        invariant index == old(index) + i
        invariant taskQueue[..index] == old(taskQueue[..index]) + fan[..i]
      {
        taskQueue[index] := Task(links[i], p);
        index := index + 1;
        assert taskQueue[..index] == taskQueue[..index - 1] + [fan[i]];
      }
      assert fan[..|links|] == fan;
    }

    /** One iteration of the drain loop. */
    method DrainOnce(o: nat -> Choice)
      requires Valid() && !Halted(View())
      requires |Step(graph, o, View()).stack| <= TASK_QUEUE_SIZE
      modifies this`index, this`world, taskQueue
      ensures Valid() && View() == Step(graph, o, old(View()))
    {
      ghost var before := View();
      ghost var after := Step(graph, o, before);
      index := index - 1;
      var t := taskQueue[index];
      var c := o(|world.calls|);
      ghost var kids := Children(graph, c, t);
      assert taskQueue[..index] == before.stack[..|before.stack| - 1];
      assert after == Config(taskQueue[..index] + kids, Handle(graph, c, t, before.world));
      var v := Process(c, t);
      if v.Forward? {
        PushLinks(graph[t.node].links, t.pkt);
      }
      assert taskQueue[..index] == after.stack;
      assert View() == after;
    }

    /** What a run needs to stay in its array and end its drains. */
    ghost predicate Deployed(rank: seq<nat>)
      reads this`nodesToPoll
    {
      Deployable(graph, nodesToPoll) && SettledPolls(graph, nodesToPoll) && Ranked(Tame(graph), rank)
    }

    ghost predicate Runnable(rank: seq<nat>)
      reads this, taskQueue
    {
      Valid() && (!world.failed ==> index == 0) && Deployed(rank)
    }

    /** One iteration of `while !should_stop()`. */
    method RunBody(env: nat -> PollChoice, o: nat -> Choice, ghost rank: seq<nat>)
      requires Runnable(rank) && !world.failed
      modifies this`index, this`world, taskQueue
      ensures Runnable(rank)
      ensures View() == Round(Tame(graph), rank, nodesToPoll, env, o, old(View()))
    {
      PollPhaseHeight(graph, nodesToPoll, env, View());
      PollAllTame(graph, nodesToPoll, env, View());
      PollPhase(env);
      if world.failed {
        return;
      }
      PeakWithinCapacity(Tame(graph), rank, NodesOf(taskQueue[..index]));
      DrainQueue(o, rank);
    }

    /** What the loop will have computed when `left` more rounds are allowed. */
    ghost predicate Heading(env: nat -> PollChoice, o: nat -> Choice, rank: seq<nat>, left: nat, total: Config)
      reads this, taskQueue
      requires Deployed(rank)
    {
      && Valid() && (!world.failed ==> index == 0)
      && Rounds(Tame(graph), rank, nodesToPoll, env, o, View(), left) == total
    }

    method RunNext(env: nat -> PollChoice, o: nat -> Choice, ghost rank: seq<nat>, ghost left: nat, ghost total: Config)
      requires Deployed(rank) && Heading(env, o, rank, left + 1, total) && !world.failed
      modifies this`index, this`world, taskQueue
      ensures Heading(env, o, rank, left, total)
    {
      RoundsStep(Tame(graph), rank, nodesToPoll, env, o, View(), left + 1);
      RunBody(env, o, rank);
    }

    /** The loop: any number of iterations, up to the first error. */
    method RunLoop(rounds: nat, env: nat -> PollChoice, o: nat -> Choice, ghost rank: seq<nat>, ghost total: Config)
      returns (ghost left: nat)
      requires Deployed(rank) && Heading(env, o, rank, rounds, total)
      modifies this`index, this`world, taskQueue
      ensures Heading(env, o, rank, left, total) && (left == 0 || world.failed)
    {
      var togo := rounds;
      while togo > 0 && !world.failed
        invariant Heading(env, o, rank, togo, total)
      {
        togo := togo - 1;
        RunNext(env, o, rank, togo, total);
      }
      left := togo;
    }

    /** `while !should_stop()`: the whole loop computes `Rounds`. */
    method Run(rounds: nat, env: nat -> PollChoice, o: nat -> Choice, ghost rank: seq<nat>)
      requires Runnable(rank) && !world.failed
      modifies this`index, this`world, taskQueue
      ensures Runnable(rank)
      ensures View() == Rounds(Tame(graph), rank, nodesToPoll, env, o, old(View()), rounds)
    {
      ghost var total := Rounds(Tame(graph), rank, nodesToPoll, env, o, View(), rounds);
      ghost var left := RunLoop(rounds, env, o, rank, total);
      RoundsEnd(Tame(graph), rank, nodesToPoll, env, o, View(), left);
    }

    /** Where the loop ends is a state of the run of single polls and drain iterations over the
        worker's own graph.  On a graph that conservation asks for, every reference is accounted for
        there unless an error ended the run. */
    method RunTicks(rounds: nat, env: nat -> PollChoice, o: nat -> Choice, ghost rank: seq<nat>) returns (ghost k: nat)
      requires Runnable(rank) && !world.failed
      modifies this`index, this`world, taskQueue
      ensures Runnable(rank)
      ensures View() == Ticks(graph, nodesToPoll, env, o, Machine(Polling(0), old(View())), k).cfg
      ensures Sound(graph, nodesToPoll) && Accounted(old(View())) ==>
                world.failed || (Accounted(View()) && world.mem.cells.Keys == old(world).mem.cells.Keys)
    {
      ghost var start := View();
      k := RoundsAreTicks(Tame(graph), rank, nodesToPoll, env, o, start, rounds);
      TicksTame(graph, nodesToPoll, env, o, Machine(Polling(0), start), k);
      AccountedAt(graph, nodesToPoll, env, o, start, k);
      Run(rounds, env, o, rank);
    }
  }

  lemma AccountedAt(g: Graph, polls: seq<nat>, env: nat -> PollChoice, o: nat -> Choice, cfg: Config, k: nat)
    requires Fits(g, cfg) && Ids(g, polls)
    ensures Sound(g, polls) && Accounted(cfg) ==>
              Accountable(cfg.world.mem.cells.Keys, Ticks(g, polls, env, o, Machine(Polling(0), cfg), k))
  {
    if Sound(g, polls) && Accounted(cfg) {
      AlwaysAccounted(g, polls, env, o, Machine(Polling(0), cfg), k);
    }
  }

  lemma {:induction false} FanGrows(links: seq<nat>, pkts: seq<PacketId>, i: nat)
    requires i <= |links|
    ensures |FanChain(links[..i], pkts)| <= |FanChain(links, pkts)|
    decreases |links|
  {
    if i == |links| {
      assert links[..i] == links;
    } else {
      FanGrows(links[..|links| - 1], pkts, i);
      assert links[..|links| - 1][..i] == links[..i];
    }
  }

  /** One more link adds one more copy of the chain, and there is room for it. */
  lemma FanRoom(links: seq<nat>, pkts: seq<PacketId>, i: nat)
    requires i < |links|
    ensures FanChain(links[..i + 1], pkts) == FanChain(links[..i], pkts) + Column(links[i], pkts)
    ensures |FanChain(links[..i], pkts)| + |pkts| <= |FanChain(links, pkts)|
  {
    assert links[..i + 1][..i] == links[..i];
    FanGrows(links, pkts, i + 1);
  }

  lemma PollAllStep(g: Graph, polls: seq<nat>, i: nat, env: nat -> PollChoice, cfg: Config)
    requires Fits(g, cfg) && Ids(g, polls) && i < |polls| && !cfg.world.failed
    ensures PollAll(g, polls[i..], env, cfg)
         == PollAll(g, polls[i + 1..], env, PollStep(g, polls[i], env(cfg.world.polls), cfg))
  {
    assert polls[i..][0] == polls[i] && polls[i..][1..] == polls[i + 1..];
  }

  /** Once an allocation fails the burst ends where it is. */
  lemma {:induction false} FillStuck(mem: Memory, picks: seq<PacketId>, bufs: seq<BufType>, i: nat)
    requires |picks| == |bufs| && i <= |bufs| && !FillFrom(mem, picks, bufs, i).1
    ensures FillFrom(mem, picks, bufs, 0) == FillFrom(mem, picks, bufs, i)
    decreases i
  {
    if i > 0 {
      FillStuck(mem, picks, bufs, i - 1);
    }
  }

  /** From a configuration to a worker that is ready to run: built, and its poll list collected.
      It succeeds exactly on the configurations none of whose capacities is exceeded; the result is
      the configured graph and within all of them. */
  method Launch(modules: seq<string>, links: seq<Link>, w: World) returns (r: Option<Worker>)
    ensures r.Some? ==> Buildable(modules, links) && fresh(r.value) && fresh(r.value.taskQueue)
    ensures r.None? && Buildable(modules, links) ==>
              MAX_POLLED < |set n | 0 <= n < |modules| && CanPoll(KindOf(modules[n]).value)|
    ensures r.Some? ==>
              && r.value.Valid() && r.value.View() == Config([], w)
              && WithinCapacity(r.value.graph, r.value.nodesToPoll)
              && Describes(modules, links, r.value.graph)
              && r.value.nodesToPoll == PollList(r.value.graph, |r.value.graph|)
              && (forall n :: n in r.value.nodesToPoll <==> 0 <= n < |modules| && CanPoll(r.value.graph[n].kind))
  {
    var g := BuildGraph(modules, links);
    if g.None? {
      return None;
    }
    var worker := new Worker(g.value, w);
    var ok := worker.CollectPolls();
    if !ok {
      PollListCounts(modules, g.value);
      return None;
    }
    return Some(worker);
  }

  lemma PollListCounts(modules: seq<string>, g: Graph)
    requires |g| == |modules|
    requires forall n :: 0 <= n < |modules| ==> Some(g[n].kind) == KindOf(modules[n])
    ensures |set n | 0 <= n < |modules| && CanPoll(KindOf(modules[n]).value)| == |PollList(g, |g|)|
  {
    var polls := PollList(g, |g|);
    DistinctSize(polls);
    assert (set n | 0 <= n < |modules| && CanPoll(KindOf(modules[n]).value)) == Members(polls);
  }

  /** The poll list of the shipped graph. */
  lemma UdpPolls()
    ensures PollList(UdpGraph(), 8) == [0, 7]
  {
    EndsPolled(UdpGraph());
  }

  lemma EndsPolled(g: Graph)
    requires |g| == 8 && CanPoll(g[0].kind) && CanPoll(g[7].kind) && forall n :: 1 <= n < 7 ==> !CanPoll(g[n].kind)
    ensures PollList(g, 8) == [0, 7]
  {
    PollListNext(g, 0);
    NotPolled(g, 1, 7);
    PollListNext(g, 7);
  }

  lemma PollListNext(g: Graph, i: nat)
    requires i < |g|
    ensures PollList(g, i + 1) == PollList(g, i) + if CanPoll(g[i].kind) then [i] else []
  {
  }

  lemma {:induction false} NotPolled(g: Graph, i: nat, j: nat)
    requires i <= j <= |g| && forall n :: i <= n < j ==> !CanPoll(g[n].kind)
    ensures PollList(g, j) == PollList(g, i)
    decreases j
  {
    if i < j {
      PollListNext(g, j - 1);
      NotPolled(g, i, j - 1);
    }
  }
}
