/**
 Several workers over one packet pool: packet.rs names the pool after the socket, so all workers of
 a socket share it.  Their polls and drain iterations interleave in any order.
 */
module Cluster {
  import opened Common
  import opened Packets
  import opened Scheduler
  import opened Runs

  /** What a worker runs: its graph, the nodes it polls, and what its environment answers. */
  datatype Job = Job(graph: Graph, polls: seq<nat>, env: nat -> PollChoice, o: nat -> Choice)

  /** A worker without the memory it shares. */
  datatype Worker = Worker(
    phase: Phase, stack: seq<Task>, tx: multiset<PacketId>, calls: seq<Task>, count: nat, failed: bool)

  datatype Cluster = Cluster(mem: Memory, workers: seq<Worker>)

  function MachineOf(c: Cluster, i: nat): Machine
    requires i < |c.workers|
  {
    var w := c.workers[i];
    Machine(w.phase, Config(w.stack, World(c.mem, w.tx, w.calls, w.count, w.failed)))
  }

  function WorkerOf(m: Machine): Worker {
    Worker(m.phase, m.cfg.stack, m.cfg.world.tx, m.cfg.world.calls, m.cfg.world.polls, m.cfg.world.failed)
  }

  /** Every worker's tasks name nodes of its graph. */
  predicate AllFit(jobs: seq<Job>, c: Cluster) {
    && |jobs| == |c.workers|
    && forall i :: 0 <= i < |jobs| ==>
         Closed(jobs[i].graph) && InRange(jobs[i].graph, c.workers[i].stack) && Ids(jobs[i].graph, jobs[i].polls)
  }

  /** One poll or drain iteration of worker `i`. */
  function TickOf(jobs: seq<Job>, c: Cluster, i: nat): (r: Cluster)
    requires AllFit(jobs, c) && i < |jobs|
    ensures AllFit(jobs, r)
  {
    var j := jobs[i];
    var m := Tick(j.graph, j.polls, j.env, j.o, MachineOf(c, i));
    Cluster(m.cfg.world.mem, c.workers[i := WorkerOf(m)])
  }

  /** Any interleaving. */
  function Run(jobs: seq<Job>, c: Cluster, schedule: seq<nat>): (r: Cluster)
    requires AllFit(jobs, c)
    ensures AllFit(jobs, r)
    decreases |schedule|
  {
    if schedule == [] then c
    else if schedule[0] < |jobs| then Run(jobs, TickOf(jobs, c, schedule[0]), schedule[1..])
    else Run(jobs, c, schedule[1..])
  }

  // ----- the references of all workers -----

  ghost function Own(w: Worker): multiset<PacketId> {
    Refs(w.stack) + w.tx
  }

  ghost function Owns(ws: seq<Worker>): (r: seq<multiset<PacketId>>)
    ensures |r| == |ws| && forall i :: 0 <= i < |r| ==> r[i] == Own(ws[i])
  {
    seq(|ws|, i requires 0 <= i < |ws| => Own(ws[i]))
  }

  function Sum(ms: seq<multiset<PacketId>>): multiset<PacketId> {
    if ms == [] then multiset{} else Sum(ms[..|ms| - 1]) + ms[|ms| - 1]
  }

  ghost function Total(ws: seq<Worker>): multiset<PacketId> {
    Sum(Owns(ws))
  }

  /** The references of all workers but one. */
  ghost function Others(ws: seq<Worker>, i: nat): multiset<PacketId>
    requires i < |ws|
  {
    Sum(Owns(ws)[i := multiset{}])
  }

  lemma {:induction false} SumWith(ms: seq<multiset<PacketId>>, i: nat, x: multiset<PacketId>)
    requires i < |ms|
    ensures Sum(ms[i := x]) == Sum(ms[i := multiset{}]) + x
    decreases |ms|
  {
    var init, last := ms[..|ms| - 1], ms[|ms| - 1];
    if i == |ms| - 1 {
      SumLast(ms[i := x], init, x);
      SumLast(ms[i := multiset{}], init, multiset{});
    } else {
      SumWith(init, i, x);
      SumLast(ms[i := x], init[i := x], last);
      SumLast(ms[i := multiset{}], init[i := multiset{}], last);
      Swap(Sum(init[i := multiset{}]), x, last);
    }
  }

  lemma SumLast(ms: seq<multiset<PacketId>>, init: seq<multiset<PacketId>>, last: multiset<PacketId>)
    requires ms == init + [last]
    ensures Sum(ms) == Sum(init) + last
  {
    assert ms[..|init|] == init;
  }

  lemma Swap(a: multiset<PacketId>, b: multiset<PacketId>, c: multiset<PacketId>)
    ensures a + b + c == a + c + b
  {
  }

  lemma TotalWith(ws: seq<Worker>, i: nat, x: Worker)
    requires i < |ws|
    ensures Total(ws[i := x]) == Others(ws, i) + Own(x)
  {
    assert Owns(ws[i := x]) == Owns(ws)[i := Own(x)];
    SumWith(Owns(ws), i, Own(x));
  }

  predicate AnyFailed(ws: seq<Worker>) {
    exists i :: 0 <= i < |ws| && ws[i].failed
  }

  /** A fatal error occurred, or all references are accounted for over the universe `keys`. */
  ghost predicate Balances(keys: set<PacketId>, c: Cluster) {
    AnyFailed(c.workers) || (Conserved(Total(c.workers), c.mem) && c.mem.cells.Keys == keys)
  }

  ghost predicate AllSound(jobs: seq<Job>) {
    forall i :: 0 <= i < |jobs| ==> Sound(jobs[i].graph, jobs[i].polls)
  }

  /** A tick of one machine, over the references others hold. */
  lemma TickConserves(j: Job, others: multiset<PacketId>, m: Machine)
    requires Fits(j.graph, m.cfg) && Sound(j.graph, j.polls)
    requires Conserved(others + Refs(m.cfg.stack) + m.cfg.world.tx, m.cfg.world.mem)
    ensures var r := Tick(j.graph, j.polls, j.env, j.o, m).cfg;
            !r.world.failed ==>
              && Conserved(others + Refs(r.stack) + r.world.tx, r.world.mem)
              && r.world.mem.cells.Keys == m.cfg.world.mem.cells.Keys
  {
    if m.cfg.world.failed {
    } else if m.phase.Draining? {
      StepConserves(j.graph, j.o, others, m.cfg);
    } else if m.phase.next < |j.polls| {
      PollStepConserves(j.graph, j.polls[m.phase.next], j.env(m.cfg.world.polls), others, m.cfg);
    }
  }

  lemma Regroup(a: multiset<PacketId>, b: multiset<PacketId>, c: multiset<PacketId>)
    ensures a + (b + c) == a + b + c
  {
  }

  lemma TickBalances(jobs: seq<Job>, c: Cluster, i: nat)
    requires AllFit(jobs, c) && AllSound(jobs) && i < |jobs| && !AnyFailed(c.workers) &&
             Conserved(Total(c.workers), c.mem)
    ensures Balances(c.mem.cells.Keys, TickOf(jobs, c, i))
  {
    var m := MachineOf(c, i);
    var r := Tick(jobs[i].graph, jobs[i].polls, jobs[i].env, jobs[i].o, m);
    var ws, others := c.workers, Others(c.workers, i);
    TotalWith(ws, i, ws[i]);
    assert ws[i := ws[i]] == ws;
    Regroup(others, Refs(ws[i].stack), ws[i].tx);
    TickConserves(jobs[i], others, m);
    TotalWith(ws, i, WorkerOf(r));
    Regroup(others, Refs(r.cfg.stack), r.cfg.world.tx);
    if r.cfg.world.failed {
      assert ws[i := WorkerOf(r)][i].failed;
    }
  }

  lemma FailedStaysFailed(jobs: seq<Job>, c: Cluster, i: nat)
    requires AllFit(jobs, c) && i < |jobs| && AnyFailed(c.workers)
    ensures AnyFailed(TickOf(jobs, c, i).workers)
  {
    var k :| 0 <= k < |c.workers| && c.workers[k].failed;
    assert TickOf(jobs, c, i).workers[k].failed;
  }

  /** Conservation in every interleaving: after any schedule of the polls and drain iterations of any
      number of workers over one pool, for any environments, each live packet is held by exactly
      `refcnt` tasks and transmit references of all workers together, until one of them fails. */
  lemma {:induction false} ClusterConserves(jobs: seq<Job>, c: Cluster, schedule: seq<nat>, keys: set<PacketId>)
    requires AllFit(jobs, c) && AllSound(jobs) && Balances(keys, c)
    ensures Balances(keys, Run(jobs, c, schedule))
    decreases |schedule|
  {
    if schedule != [] {
      var i := schedule[0];
      if i < |jobs| {
        if AnyFailed(c.workers) {
          FailedStaysFailed(jobs, c, i);
        } else {
          TickBalances(jobs, c, i);
        }
        ClusterConserves(jobs, TickOf(jobs, c, i), schedule[1..], keys);
      } else {
        ClusterConserves(jobs, c, schedule[1..], keys);
      }
    }
  }

  /** Workers that have not started. */
  function Idle(n: nat): (r: seq<Worker>)
    ensures |r| == n && forall i :: 0 <= i < n ==> r[i] == Worker(Polling(0), [], multiset{}, [], 0, false)
  {
    seq(n, _ => Worker(Polling(0), [], multiset{}, [], 0, false))
  }

  lemma {:induction false} SumNothing(ms: seq<multiset<PacketId>>)
    requires forall i :: 0 <= i < |ms| ==> ms[i] == multiset{}
    ensures Sum(ms) == multiset{}
    decreases |ms|
  {
    if ms != [] {
      SumNothing(ms[..|ms| - 1]);
    }
  }

  lemma IdleHoldsNothing(ws: seq<Worker>)
    requires forall i :: 0 <= i < |ws| ==> ws[i].stack == [] && ws[i].tx == multiset{}
    ensures Total(ws) == multiset{}
  {
    assert PacketsOf([]) == [];
    SumNothing(Owns(ws));
  }

  /** In particular from a freshly initialised pool. */
  lemma FreshClusterConserves(jobs: seq<Job>, packets: nat, schedule: seq<nat>)
    requires AllSound(jobs)
    ensures AllFit(jobs, Cluster(FreshMemory(packets), Idle(|jobs|)))
    ensures Balances(Below(packets), Run(jobs, Cluster(FreshMemory(packets), Idle(|jobs|)), schedule))
  {
    FreshConserved(packets);
    IdleHoldsNothing(Idle(|jobs|));
    ClusterConserves(jobs, Cluster(FreshMemory(packets), Idle(|jobs|)), schedule, Below(packets));
  }

  // ----- each worker runs as it would alone -----

  /** A tick of worker `i` is a tick of its machine over the shared memory, and leaves the state of
      every other worker alone. */
  lemma TickIsLocal(jobs: seq<Job>, c: Cluster, i: nat)
    requires AllFit(jobs, c) && i < |jobs|
    ensures var j := jobs[i];
            MachineOf(TickOf(jobs, c, i), i) == Tick(j.graph, j.polls, j.env, j.o, MachineOf(c, i))
    ensures forall k :: 0 <= k < |jobs| && k != i ==> TickOf(jobs, c, i).workers[k] == c.workers[k]
  {
  }

  /** Scheduled on its own, a worker runs exactly as the machine of one worker does. */
  lemma {:induction false} AloneIsTicks(jobs: seq<Job>, c: Cluster, i: nat, k: nat)
    requires AllFit(jobs, c) && i < |jobs|
    ensures var j := jobs[i];
            MachineOf(Run(jobs, c, seq(k, _ => i)), i) == Ticks(j.graph, j.polls, j.env, j.o, MachineOf(c, i), k)
    decreases k
  {
    if k > 0 {
      TickIsLocal(jobs, c, i);
      assert seq(k, _ => i)[1..] == seq(k - 1, _ => i);
      AloneIsTicks(jobs, TickOf(jobs, c, i), i, k - 1);
    }
  }
}
