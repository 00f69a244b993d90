/**
 Start-up in every interleaving (`IoNode::init` in nio.rs, `Dpdk::init` and `port_init` in
 modules/dpdk.rs): the shared queue counter, the process-wide once-guard around `port_init`, and
 the flag everybody spins on.  Workers run concurrently; each initialises the I/O nodes of its graph
 one after the other.
 */
module Startup {
  import opened Common

  /** Where an I/O node's initialisation is.  `InOnce`: about to call the once-guard for its `nic`-th
      NIC; `Initing`: running `port_init` under it; `Spinning`: past the guard, waiting for the flag;
      `Looking`: about to look up the port's mbuf pool; `Up`: all NICs done; `Panicked`: the pool does
      not exist. */
  datatype Pc = Fresh | InOnce(nic: nat) | Initing(nic: nat) | Spinning(nic: nat) | Looking(nic: nat) | Up | Panicked

  datatype IoInit = IoInit(pc: Pc, queue: nat)

  datatype Once = NotStarted | Running | Finished

  /** One I/O node to initialise: the queue count it would configure, and whether it is the first of
      its worker; otherwise it comes right after the one listed before it. */
  datatype Task = Task(numQueues: nat, first: bool)

  /** `ports[i]`: port of NIC i. */
  datatype Config = Config(ports: seq<nat>, tasks: seq<Task>)

  function Counts(c: Config): (r: seq<nat>)
    ensures |r| == |c.tasks| && forall i :: 0 <= i < |r| ==> r[i] == c.tasks[i].numQueues
  {
    seq(|c.tasks|, i requires 0 <= i < |c.tasks| => c.tasks[i].numQueues)
  }

  /** `counter`: QUEUE_ID.  `flag`: INIT_DONE_FLAG.  `ready`: ports that `port_init` has finished,
      each with the queue count it configured; `inits` counts its calls. */
  datatype State = State(nodes: seq<IoInit>, counter: nat, once: Once, flag: bool, ready: map<nat, nat>, inits: nat)

  function Initial(c: Config): State {
    State(seq(|c.tasks|, _ => IoInit(Fresh, 0)), 0, NotStarted, false, map[], 0)
  }

  predicate IsFirst(c: Config, w: nat)
    requires w < |c.tasks|
  {
    w == 0 || c.tasks[w].first
  }

  /** Its worker is still busy with the node before it. */
  predicate Waits(c: Config, s: State, w: nat)
    requires w < |s.nodes| == |c.tasks|
  {
    !IsFirst(c, w) && !s.nodes[w - 1].pc.Up?
  }

  /** Position of the next NIC, or done. */
  function NextNic(c: Config, i: nat): Pc {
    if i < |c.ports| then InOnce(i) else Up
  }

  function SetPc(s: State, w: nat, pc: Pc): State
    requires w < |s.nodes|
  {
    s.(nodes := s.nodes[w := s.nodes[w].(pc := pc)])
  }

  /** One step of I/O node `w`; a blocked or finished one does not move. */
  function Step(c: Config, s: State, w: nat): State
    requires w < |s.nodes| == |c.tasks|
  {
    var me := s.nodes[w];
    match me.pc
    case Fresh =>
      if Waits(c, s, w) then s else
      s.(nodes := s.nodes[w := IoInit(NextNic(c, 0), s.counter)], counter := (s.counter + 1) % U16)
    case InOnce(i) =>
      if s.once.NotStarted? then SetPc(s, w, Initing(i)).(once := Running, inits := s.inits + 1)
      else if s.once.Finished? then SetPc(s, w, Spinning(i))
      else s
    case Initing(i) =>
      if i < |c.ports| then
        SetPc(s, w, Spinning(i)).(once := Finished, flag := true, ready := s.ready[c.ports[i] := c.tasks[w].numQueues])
      else s
    case Spinning(i) => if s.flag then SetPc(s, w, Looking(i)) else s
    case Looking(i) =>
      if i < |c.ports| && c.ports[i] in s.ready then SetPc(s, w, NextNic(c, i + 1)) else SetPc(s, w, Panicked)
    case _ => s
  }

  /** Any schedule of steps. */
  function Run(c: Config, s: State, schedule: seq<nat>): (r: State)
    requires |s.nodes| == |c.tasks|
    ensures |r.nodes| == |c.tasks|
    decreases |schedule|
  {
    if schedule == [] then s
    else if schedule[0] < |s.nodes| then Run(c, Step(c, s, schedule[0]), schedule[1..])
    else Run(c, s, schedule[1..])
  }

  // ----- what every interleaving keeps -----

  predicate Drawn(w: IoInit) {
    !w.pc.Fresh?
  }

  function CountDrawn(ws: seq<IoInit>): nat {
    if ws == [] then 0 else CountDrawn(ws[..|ws| - 1]) + if Drawn(ws[|ws| - 1]) then 1 else 0
  }

  lemma {:induction false} CountBound(ws: seq<IoInit>)
    ensures CountDrawn(ws) <= |ws|
    ensures CountDrawn(ws) == |ws| <==> forall i :: 0 <= i < |ws| ==> Drawn(ws[i])
    decreases |ws|
  {
    if ws != [] {
      CountBound(ws[..|ws| - 1]);
    }
  }

  lemma {:induction false} CountUpdate(ws: seq<IoInit>, w: nat, x: IoInit)
    requires w < |ws|
    ensures CountDrawn(ws[w := x]) == CountDrawn(ws) - (if Drawn(ws[w]) then 1 else 0) + (if Drawn(x) then 1 else 0)
    decreases |ws|
  {
    var ws' := ws[w := x];
    if w == |ws| - 1 {
      assert ws'[..|ws| - 1] == ws[..|ws| - 1];
    } else {
      assert ws'[..|ws| - 1] == ws[..|ws| - 1][w := x];
      CountUpdate(ws[..|ws| - 1], w, x);
    }
  }

  /** Queue ids: the counter is the number of I/O nodes that have drawn, and every one of them has
      its own id below it. */
  ghost predicate QueuesOk(ws: seq<IoInit>, counter: nat) {
    && counter == CountDrawn(ws)
    && (forall i :: 0 <= i < |ws| && Drawn(ws[i]) ==> ws[i].queue < counter)
    && (forall i, j :: 0 <= i < j < |ws| && Drawn(ws[i]) && Drawn(ws[j]) ==> ws[i].queue != ws[j].queue)
  }

  /** How many NICs the I/O node has been through. */
  function Passed(c: Config, pc: Pc): nat {
    match pc
    case Fresh => 0
    case Up => |c.ports|
    case Panicked => 0
    case _ => pc.nic
  }

  predicate PortReady(c: Config, ready: map<nat, nat>, i: nat) {
    i < |c.ports| && c.ports[i] in ready
  }

  /** Where an I/O node can be, given the guard: busy with an existing NIC, running `port_init` only
      while the guard runs, past the guard only once it has finished, through only those NICs whose
      port is ready, and panicked only over one that is not. */
  ghost predicate NodeOk(c: Config, once: Once, ready: map<nat, nat>, pc: Pc) {
    && (pc.InOnce? || pc.Initing? || pc.Spinning? || pc.Looking? ==> pc.nic < |c.ports|)
    && (pc.Initing? ==> once.Running?)
    && (pc.Spinning? || pc.Looking? || pc.Panicked? || Passed(c, pc) > 0 ==> once.Finished?)
    && (forall i: nat :: i < Passed(c, pc) ==> PortReady(c, ready, i))
    && (pc.Panicked? ==> exists i: nat :: i < |c.ports| && !PortReady(c, ready, i))
  }

  /** The once-guard: `port_init` is called at most once, and the flag, a finished guard and one
      configured port are the same thing. */
  ghost predicate GuardOk(c: Config, s: State) {
    && s.inits == (if s.once.NotStarted? then 0 else 1)
    && (s.flag <==> s.once.Finished?)
    && |s.ready| == (if s.once.Finished? then 1 else 0)
    && (forall p :: p in s.ready ==> p in c.ports && s.ready[p] in Counts(c))
    && (forall i, j :: 0 <= i < j < |s.nodes| ==> !(s.nodes[i].pc.Initing? && s.nodes[j].pc.Initing?))
    && (forall i :: 0 <= i < |s.nodes| ==> NodeOk(c, s.once, s.ready, s.nodes[i].pc))
  }

  ghost predicate Safe(c: Config, s: State) {
    |s.nodes| == |c.tasks| && |s.nodes| < U16 && QueuesOk(s.nodes, s.counter) && GuardOk(c, s)
  }

  lemma {:induction false} NobodyDrawn(ws: seq<IoInit>)
    requires forall i :: 0 <= i < |ws| ==> !Drawn(ws[i])
    ensures CountDrawn(ws) == 0
    decreases |ws|
  {
    if ws != [] {
      NobodyDrawn(ws[..|ws| - 1]);
    }
  }

  lemma InitialSafe(c: Config)
    requires |c.tasks| < U16
    ensures Safe(c, Initial(c))
  {
    NobodyDrawn(Initial(c).nodes);
  }

  lemma DrawKeepsQueues(ws: seq<IoInit>, counter: nat, w: nat, pc: Pc)
    requires QueuesOk(ws, counter) && w < |ws| && ws[w].pc.Fresh? && !pc.Fresh?
    ensures QueuesOk(ws[w := IoInit(pc, counter)], counter + 1) && counter < |ws|
  {
    CountUpdate(ws, w, IoInit(pc, counter));
    CountBound(ws);
  }

  lemma MoveKeepsQueues(ws: seq<IoInit>, counter: nat, w: nat, pc: Pc)
    requires QueuesOk(ws, counter) && w < |ws| && !ws[w].pc.Fresh? && !pc.Fresh?
    ensures QueuesOk(ws[w := ws[w].(pc := pc)], counter)
  {
    CountUpdate(ws, w, ws[w].(pc := pc));
  }

  lemma StepQueues(c: Config, s: State, w: nat)
    requires Safe(c, s) && w < |s.nodes|
    ensures QueuesOk(Step(c, s, w).nodes, Step(c, s, w).counter)
  {
    var s' := Step(c, s, w);
    if s.nodes[w].pc.Fresh? && !Waits(c, s, w) {
      DrawKeepsQueues(s.nodes, s.counter, w, NextNic(c, 0));
    } else if !s.nodes[w].pc.Fresh? {
      MoveKeepsQueues(s.nodes, s.counter, w, s'.nodes[w].pc);
      assert s'.nodes == s.nodes[w := s.nodes[w].(pc := s'.nodes[w].pc)];
    }
  }

  /** Finishing `port_init` keeps every other I/O node's place. */
  lemma FinishKeeps(c: Config, ready: map<nat, nat>, p: nat, n: nat, pc: Pc)
    requires NodeOk(c, Running, ready, pc) && !pc.Initing?
    ensures NodeOk(c, Finished, ready[p := n], pc)
  {
  }

  lemma StepGuard(c: Config, s: State, w: nat)
    requires Safe(c, s) && w < |s.nodes|
    ensures GuardOk(c, Step(c, s, w))
  {
    var s' := Step(c, s, w);
    var pc, pc' := s.nodes[w].pc, s'.nodes[w].pc;
    assert NodeOk(c, s.once, s.ready, pc);
    assert s'.nodes == s.nodes[w := s'.nodes[w]];
    if pc.Initing? {
      assert s.ready == map[];
      assert s'.ready == map[c.ports[pc.nic] := c.tasks[w].numQueues];
    }
    StepNode(c, s, w);
    forall i | 0 <= i < |s.nodes| && i != w ensures NodeOk(c, s'.once, s'.ready, s'.nodes[i].pc) {
      assert NodeOk(c, s.once, s.ready, s.nodes[i].pc);
      if pc.Initing? {
        FinishKeeps(c, s.ready, c.ports[pc.nic], c.tasks[w].numQueues, s.nodes[i].pc);
      }
    }
  }

  lemma StepNode(c: Config, s: State, w: nat)
    requires Safe(c, s) && w < |s.nodes|
    ensures var s' := Step(c, s, w); NodeOk(c, s'.once, s'.ready, s'.nodes[w].pc)
  {
    var pc := s.nodes[w].pc;
    assert NodeOk(c, s.once, s.ready, pc);
    if pc.Looking? && c.ports[pc.nic] !in s.ready {
      assert !PortReady(c, s.ready, pc.nic);
    }
  }

  /** Every interleaving keeps all of the above. */
  lemma {:induction false} RunSafe(c: Config, s: State, schedule: seq<nat>)
    requires Safe(c, s)
    ensures Safe(c, Run(c, s, schedule))
    decreases |schedule|
  {
    if schedule != [] {
      if schedule[0] < |s.nodes| {
        StepQueues(c, s, schedule[0]);
        StepGuard(c, s, schedule[0]);
        RunSafe(c, Step(c, s, schedule[0]), schedule[1..]);
      } else {
        RunSafe(c, s, schedule[1..]);
      }
    }
  }

  // ----- consequences, for every schedule -----

  ghost predicate Holds(ws: seq<IoInit>, q: nat) {
    exists i :: 0 <= i < |ws| && ws[i].queue == q
  }

  ghost predicate AllDrawn(ws: seq<IoInit>) {
    forall i :: 0 <= i < |ws| ==> Drawn(ws[i])
  }

  /** Every queue drawn is one of the `n` a port was configured with. */
  ghost predicate QueuesFit(ws: seq<IoInit>, n: nat) {
    forall i :: 0 <= i < |ws| ==> ws[i].queue < n
  }

  /** Once all k I/O nodes have drawn, their queue ids are pairwise distinct and exactly 0..k-1, and
      they fit the queue count a port was configured with if and only if that is at least k. */
  lemma QueueIds(c: Config, schedule: seq<nat>)
    requires |c.tasks| < U16
    ensures var s := Run(c, Initial(c), schedule);
            AllDrawn(s.nodes) ==>
              && (forall i, j :: 0 <= i < j < |s.nodes| ==> s.nodes[i].queue != s.nodes[j].queue)
              && (forall q: nat :: Holds(s.nodes, q) <==> q < |s.nodes|)
              && (forall p :: p in s.ready ==> (QueuesFit(s.nodes, s.ready[p]) <==> |s.nodes| <= s.ready[p]))
  {
    InitialSafe(c);
    RunSafe(c, Initial(c), schedule);
    var s := Run(c, Initial(c), schedule);
    CountBound(s.nodes);
    if AllDrawn(s.nodes) {
      forall q: nat ensures Holds(s.nodes, q) <==> q < |s.nodes| {
        if q < |s.nodes| {
          EveryIdHeld(s.nodes, q);
        }
      }
      forall p | p in s.ready && s.ready[p] < |s.nodes| ensures !QueuesFit(s.nodes, s.ready[p]) {
        assert Holds(s.nodes, |s.nodes| - 1);
      }
    }
  }

  // ----- queue counts come from one graph entry each -----

  /** A graph entry of the stack: the number of its cpus, and of the I/O nodes in its graph. */
  datatype Entry = Entry(cpus: nat, ioNodes: nat)

  /** The I/O nodes of `workers` workers of an entry; each would configure one queue per cpu of the
      entry. */
  function TasksOf(e: Entry, workers: nat): (r: seq<Task>)
    ensures |r| == workers * e.ioNodes && forall i :: 0 <= i < |r| ==> r[i].numQueues == e.cpus
  {
    if workers == 0 then []
    else
      assert workers * e.ioNodes == (workers - 1) * e.ioNodes + e.ioNodes;
      TasksOf(e, workers - 1) + seq(e.ioNodes, k => Task(e.cpus, k == 0))
  }

  /** Every cpu of every entry gets a worker. */
  function Tasks(entries: seq<Entry>): seq<Task> {
    if entries == [] then []
    else Tasks(entries[..|entries| - 1]) + TasksOf(entries[|entries| - 1], entries[|entries| - 1].cpus)
  }

  /** The entry initialises some I/O node. */
  predicate Busy(e: Entry) {
    e.cpus != 0 && e.ioNodes != 0
  }

  /** At most one entry initialises I/O nodes, and its graph has one. */
  ghost predicate OneQueueEach(entries: seq<Entry>) {
    && (forall i, j :: 0 <= i < j < |entries| ==> !(Busy(entries[i]) && Busy(entries[j])))
    && (forall i :: 0 <= i < |entries| && Busy(entries[i]) ==> entries[i].ioNodes == 1)
  }

  ghost predicate SomeBusy(entries: seq<Entry>) {
    exists i :: 0 <= i < |entries| && Busy(entries[i])
  }

  lemma EntryTasks(e: Entry)
    ensures |TasksOf(e, e.cpus)| == e.cpus * e.ioNodes
    ensures |TasksOf(e, e.cpus)| >= e.cpus || e.ioNodes == 0
    ensures |TasksOf(e, e.cpus)| == 0 <==> !Busy(e)
    ensures Busy(e) ==> (|TasksOf(e, e.cpus)| <= e.cpus <==> e.ioNodes == 1)
  {
    if Busy(e) {
      assert e.cpus * e.ioNodes == e.cpus + e.cpus * (e.ioNodes - 1);
      if e.ioNodes > 1 {
        assert e.cpus * (e.ioNodes - 1) >= e.cpus * 1 by { MulLe(e.cpus, 1, e.ioNodes - 1); }
      }
    }
  }

  lemma MulLe(a: nat, b: nat, c: nat)
    requires b <= c
    ensures a * b <= a * c
  {
    assert a * c == a * b + a * (c - b);
  }

  lemma {:induction false} TasksBusy(entries: seq<Entry>)
    ensures Tasks(entries) != [] <==> SomeBusy(entries)
    decreases |entries|
  {
    if entries != [] {
      var init, e := entries[..|entries| - 1], entries[|entries| - 1];
      TasksBusy(init);
      assert entries == init + [e];
      TasksBusyNext(init, e);
    }
  }

  lemma TasksBusyNext(init: seq<Entry>, e: Entry)
    requires Tasks(init) != [] <==> SomeBusy(init)
    ensures Tasks(init + [e]) != [] <==> SomeBusy(init + [e])
  {
    EntryTasks(e);
    TasksLast(init, e);
    BusyLast(init, e);
  }

  lemma TasksLast(init: seq<Entry>, e: Entry)
    ensures Tasks(init + [e]) == Tasks(init) + TasksOf(e, e.cpus)
  {
    assert (init + [e])[..|init|] == init;
  }

  lemma BusyLast(init: seq<Entry>, e: Entry)
    ensures SomeBusy(init + [e]) <==> SomeBusy(init) || Busy(e)
    ensures OneQueueEach(init + [e]) <==>
              OneQueueEach(init) && (Busy(e) ==> !SomeBusy(init) && e.ioNodes == 1)
  {
    var es := init + [e];
    assert forall i :: 0 <= i < |init| ==> es[i] == init[i];
    assert es[|init|] == e;
    if SomeBusy(init) {
      var i :| 0 <= i < |init| && Busy(init[i]);
      assert Busy(es[i]);
    }
  }

  ghost predicate Configures(tasks: seq<Task>, n: nat) {
    exists i :: 0 <= i < |tasks| && tasks[i].numQueues == n
  }

  /** A count that some I/O node would configure covers all of them exactly under that condition. */
  lemma {:induction false} CountsFit(entries: seq<Entry>, n: nat)
    requires Configures(Tasks(entries), n)
    ensures n <= |Tasks(entries)| && (|Tasks(entries)| <= n <==> OneQueueEach(entries))
    decreases |entries|
  {
    var init, e := entries[..|entries| - 1], entries[|entries| - 1];
    var last := TasksOf(e, e.cpus);
    assert entries == init + [e];
    var i :| 0 <= i < |Tasks(entries)| && Tasks(entries)[i].numQueues == n;
    TasksBusy(init);
    EntryTasks(e);
    BusyLast(init, e);
    if i < |Tasks(init)| {
      assert Tasks(init)[i].numQueues == n;
      CountsFit(init, n);
    } else {
      assert last[i - |Tasks(init)|].numQueues == n == e.cpus;
      if Tasks(init) == [] {
        NothingBusy(init);
      }
    }
  }

  lemma NothingBusy(entries: seq<Entry>)
    requires !SomeBusy(entries)
    ensures OneQueueEach(entries)
  {
  }

  /** Queue ids are drawn from one counter per process, once for every I/O node, but a port is
      configured for one queue per cpu of one entry: once all I/O nodes have drawn, their ids fit a
      configured port if and only if at most one entry initialises I/O nodes and its graph has
      exactly one. */
  lemma QueuesFitIff(c: Config, entries: seq<Entry>, schedule: seq<nat>, p: nat)
    requires c.tasks == Tasks(entries) && |c.tasks| < U16
    requires var s := Run(c, Initial(c), schedule); AllDrawn(s.nodes) && p in s.ready
    ensures var s := Run(c, Initial(c), schedule);
            QueuesFit(s.nodes, s.ready[p]) <==> OneQueueEach(entries)
  {
    InitialSafe(c);
    RunSafe(c, Initial(c), schedule);
    QueueIds(c, schedule);
    var n := Run(c, Initial(c), schedule).ready[p];
    var i :| 0 <= i < |c.tasks| && Counts(c)[i] == n;
    assert c.tasks[i].numQueues == n;
    CountsFit(entries, n);
  }

  /** The I/O nodes of one entry whose graph has one always fit. */
  lemma OneEntryFits(c: Config, cpus: nat, schedule: seq<nat>, p: nat)
    requires c.tasks == Tasks([Entry(cpus, 1)]) && |c.tasks| < U16
    requires var s := Run(c, Initial(c), schedule); AllDrawn(s.nodes) && p in s.ready
    ensures var s := Run(c, Initial(c), schedule); QueuesFit(s.nodes, s.ready[p])
  {
    QueuesFitIff(c, [Entry(cpus, 1)], schedule, p);
  }

  lemma RunTwo(c: Config, s: State, v: nat, w: nat, rest: seq<nat>)
    requires |s.nodes| == |c.tasks| && v < |s.nodes| && w < |s.nodes|
    ensures Run(c, s, [v, w] + rest) == Run(c, Step(c, Step(c, s, v), w), rest)
  {
    RunCons(c, Step(c, s, v), w, rest);
    RunCons(c, s, v, [w] + rest);
    assert [v] + ([w] + rest) == [v, w] + rest;
  }

  lemma TwoEntriesTasks()
    ensures Tasks([Entry(1, 1), Entry(1, 1)]) == [Task(1, true), Task(1, true)]
  {
    var e := Entry(1, 1);
    assert [e, e][..1] == [e] && [e][..0] == [] && Tasks([]) == [] && TasksOf(e, 0) == [];
    assert TasksOf(e, 1) == [Task(1, true)];
    assert Tasks([e]) == [Task(1, true)];
  }

  /** Both I/O nodes have drawn and the first is about to enter the guard. */
  function BothDrawn(): State {
    State([IoInit(InOnce(0), 0), IoInit(InOnce(0), 1)], 2, NotStarted, false, map[], 0)
  }

  lemma BothDraw(c: Config)
    requires c == Config([0], [Task(1, true), Task(1, true)])
    ensures Step(c, Step(c, Initial(c), 0), 1) == BothDrawn()
  {
    assert Initial(c).nodes == [IoInit(Fresh, 0), IoInit(Fresh, 0)];
    assert Step(c, Initial(c), 0).nodes == [IoInit(InOnce(0), 0), IoInit(Fresh, 0)];
    assert Step(c, Step(c, Initial(c), 0), 1).nodes == BothDrawn().nodes;
  }

  lemma OneConfigures(c: Config)
    requires c == Config([0], [Task(1, true), Task(1, true)])
    ensures Step(c, Step(c, BothDrawn(), 0), 0)
         == State([IoInit(Spinning(0), 0), IoInit(InOnce(0), 1)], 2, Finished, true, map[0 := 1], 1)
  {
    assert Step(c, BothDrawn(), 0)
        == State([IoInit(Initing(0), 0), IoInit(InOnce(0), 1)], 2, Running, false, map[], 1);
  }

  /** Two entries of one cpu and one I/O node each: the port is configured with one queue and
      somebody draws queue 1. */
  lemma TwoEntriesOverflow()
    ensures var c := Config([0], Tasks([Entry(1, 1), Entry(1, 1)]));
            var s := Run(c, Initial(c), [0, 1, 0, 0]);
            AllDrawn(s.nodes) && s.ready == map[0 := 1] && !QueuesFit(s.nodes, 1)
  {
    TwoEntriesTasks();
    var c := Config([0], [Task(1, true), Task(1, true)]);
    RunTwo(c, Initial(c), 0, 1, [0, 0]);
    BothDraw(c);
    RunTwo(c, BothDrawn(), 0, 0, []);
    OneConfigures(c);
    assert [0, 1] + [0, 0] == [0, 1, 0, 0] && [0, 0] + [] == [0, 0];
    var s := State([IoInit(Spinning(0), 0), IoInit(InOnce(0), 1)], 2, Finished, true, map[0 := 1], 1);
    assert Run(c, s, []) == s;
    assert s.nodes[1].queue == 1;
  }

  lemma TwoIoNodesTasks()
    ensures Tasks([Entry(1, 2)]) == [Task(1, true), Task(1, false)]
  {
    var e := Entry(1, 2);
    assert [e][..0] == [] && Tasks([]) == [] && TasksOf(e, 0) == [];
    assert TasksOf(e, 1) == [Task(1, true), Task(1, false)];
  }

  lemma FirstOfTwo(c: Config)
    requires c == Config([0], [Task(1, true), Task(1, false)])
    ensures Step(c, Step(c, Initial(c), 0), 0)
         == State([IoInit(Initing(0), 0), IoInit(Fresh, 0)], 1, Running, false, map[], 1)
  {
    assert Initial(c).nodes == [IoInit(Fresh, 0), IoInit(Fresh, 0)];
    assert Step(c, Initial(c), 0)
        == State([IoInit(InOnce(0), 0), IoInit(Fresh, 0)], 1, NotStarted, false, map[], 0);
  }

  lemma FirstIsPast(c: Config, s: State)
    requires c == Config([0], [Task(1, true), Task(1, false)])
    requires s == State([IoInit(Initing(0), 0), IoInit(Fresh, 0)], 1, Running, false, map[], 1)
    ensures Step(c, Step(c, s, 0), 0)
         == State([IoInit(Looking(0), 0), IoInit(Fresh, 0)], 1, Finished, true, map[0 := 1], 1)
  {
    assert Step(c, s, 0) == State([IoInit(Spinning(0), 0), IoInit(Fresh, 0)], 1, Finished, true, map[0 := 1], 1);
  }

  lemma SecondDraws(c: Config, s: State)
    requires c == Config([0], [Task(1, true), Task(1, false)])
    requires s == State([IoInit(Looking(0), 0), IoInit(Fresh, 0)], 1, Finished, true, map[0 := 1], 1)
    ensures Step(c, Step(c, s, 0), 1)
         == State([IoInit(Up, 0), IoInit(InOnce(0), 1)], 2, Finished, true, map[0 := 1], 1)
  {
    assert Step(c, s, 0) == State([IoInit(Up, 0), IoInit(Fresh, 0)], 1, Finished, true, map[0 := 1], 1);
  }

  /** One entry, one cpu, two I/O nodes in the graph: the second one draws queue 1 of a port with one
      queue, in the only order its worker can take. */
  lemma TwoIoNodesOverflow()
    ensures var c := Config([0], Tasks([Entry(1, 2)]));
            var s := Run(c, Initial(c), [0, 0, 0, 0, 0, 1]);
            AllDrawn(s.nodes) && s.ready == map[0 := 1] && !QueuesFit(s.nodes, 1)
  {
    TwoIoNodesTasks();
    var c := Config([0], [Task(1, true), Task(1, false)]);
    var s2 := Step(c, Step(c, Initial(c), 0), 0);
    var s4 := Step(c, Step(c, s2, 0), 0);
    var s6 := Step(c, Step(c, s4, 0), 1);
    FirstOfTwo(c);
    FirstIsPast(c, s2);
    SecondDraws(c, s4);
    RunTwo(c, Initial(c), 0, 0, [0, 0, 0, 1]);
    RunTwo(c, s2, 0, 0, [0, 1]);
    RunTwo(c, s4, 0, 1, []);
    assert [0, 0] + [0, 0, 0, 1] == [0, 0, 0, 0, 0, 1] && [0, 0] + [0, 1] == [0, 0, 0, 1] && [0, 1] + [] == [0, 1];
    assert Run(c, s6, []) == s6;
    assert s6.nodes[1].queue == 1;
  }

  lemma EveryIdHeld(ws: seq<IoInit>, q: nat)
    requires forall i, j :: 0 <= i < j < |ws| ==> ws[i].queue != ws[j].queue
    requires q < |ws| && forall i :: 0 <= i < |ws| ==> ws[i].queue < |ws|
    ensures Holds(ws, q)
  {
    var ids := seq(|ws|, i requires 0 <= i < |ws| => ws[i].queue);
    DistinctIsOnto(ids, q);
    var i :| 0 <= i < |ids| && ids[i] == q;
    assert ws[i].queue == q;
  }

  /** `port_init` is called at most once.  An I/O node past the guard for any NIC sees it
      finished, and the port configured with the queue count of one of them. */
  lemma NobodyPastUnfinishedInit(c: Config, schedule: seq<nat>, w: nat)
    requires |c.tasks| < U16 && w < |c.tasks|
    ensures var s := Run(c, Initial(c), schedule);
            var pc := s.nodes[w].pc;
            && s.inits <= 1
            && (pc.Spinning? || pc.Looking? || (pc.Up? && c.ports != []) || (pc.InOnce? && pc.nic > 0) ==>
                  s.once.Finished? && exists p :: p in s.ready && p in c.ports && s.ready[p] in Counts(c))
  {
    InitialSafe(c);
    RunSafe(c, Initial(c), schedule);
    var s := Run(c, Initial(c), schedule);
    assert NodeOk(c, s.once, s.ready, s.nodes[w].pc);
    if s.once.Finished? {
      assert s.ready.Keys != {};
      var p :| p in s.ready;
    }
  }

  /** I/O node `w` is running `port_init` for its first NIC, or has done so and that is what is
      configured. */
  ghost predicate ConfiguredBy(c: Config, s: State, w: nat) {
    && w < |c.tasks| && c.ports != [] && !s.once.NotStarted?
    && (s.once.Running? ==> |s.nodes| == |c.tasks| && s.nodes[w].pc == Initing(0))
    && (s.once.Finished? ==> s.ready == map[c.ports[0] := c.tasks[w].numQueues])
  }

  lemma StepConfigured(c: Config, s: State, w: nat, v: nat)
    requires Safe(c, s) && ConfiguredBy(c, s, w) && v < |s.nodes|
    ensures ConfiguredBy(c, Step(c, s, v), w)
  {
    assert NodeOk(c, s.once, s.ready, s.nodes[v].pc);
    if s.once.Running? && s.nodes[v].pc.Initing? {
      assert v == w;
      assert s.ready == map[];
    }
  }

  lemma {:induction false} RunConfigured(c: Config, s: State, w: nat, schedule: seq<nat>)
    requires Safe(c, s) && ConfiguredBy(c, s, w)
    ensures ConfiguredBy(c, Run(c, s, schedule), w)
    decreases |schedule|
  {
    if schedule != [] {
      if schedule[0] < |s.nodes| {
        StepQueues(c, s, schedule[0]);
        StepGuard(c, s, schedule[0]);
        StepConfigured(c, s, w, schedule[0]);
        RunConfigured(c, Step(c, s, schedule[0]), w, schedule[1..]);
      } else {
        RunConfigured(c, s, w, schedule[1..]);
      }
    }
  }

  /** Whoever is seen inside `port_init`, in any interleaving, decides what the process configures:
      one port, that of the first NIC, with the queue count that this I/O node brings. */
  lemma InitialiserConfigures(c: Config, before: seq<nat>, after: seq<nat>, w: nat)
    requires |c.tasks| < U16 && w < |c.tasks| && Run(c, Initial(c), before).nodes[w].pc.Initing?
    ensures var s := Run(c, Initial(c), before + after);
            s.once.Finished? ==> c.ports != [] && s.ready == map[c.ports[0] := c.tasks[w].numQueues]
  {
    InitialSafe(c);
    RunSafe(c, Initial(c), before);
    var s := Run(c, Initial(c), before);
    assert NodeOk(c, s.once, s.ready, s.nodes[w].pc);
    RunConfigured(c, s, w, after);
    RunConcat(c, Initial(c), before, after);
  }

  ghost predicate OnePort(c: Config) {
    forall i, j :: 0 <= i < |c.ports| && 0 <= j < |c.ports| ==> c.ports[i] == c.ports[j]
  }

  /** The guard is per process, not per port, so only one port is ever initialised: an I/O node
      comes up only when all NICs share one port, and when they do none panics. */
  lemma StartupNeedsOnePort(c: Config, schedule: seq<nat>, w: nat)
    requires |c.tasks| < U16 && w < |c.tasks|
    ensures var pc := Run(c, Initial(c), schedule).nodes[w].pc;
            (pc.Up? ==> OnePort(c)) && (pc.Panicked? ==> !OnePort(c))
  {
    InitialSafe(c);
    RunSafe(c, Initial(c), schedule);
    var s := Run(c, Initial(c), schedule);
    var pc := s.nodes[w].pc;
    assert NodeOk(c, s.once, s.ready, pc);
    if pc.Up? {
      forall i, j | 0 <= i < |c.ports| && 0 <= j < |c.ports| ensures c.ports[i] == c.ports[j] {
        assert PortReady(c, s.ready, i) && PortReady(c, s.ready, j);
        AtMostOne(s.ready.Keys, c.ports[i], c.ports[j]);
      }
    } else if pc.Panicked? {
      assert s.ready.Keys != {};
      var p :| p in s.ready;
      var i: nat :| i < |c.ports| && !PortReady(c, s.ready, i);
      var j :| 0 <= j < |c.ports| && c.ports[j] == p;
      assert c.ports[i] != c.ports[j];
    }
  }

  /** Nobody is inside the guard. */
  predicate Idle(c: Config, s: State) {
    s.once.NotStarted? || (s.once.Finished? && s.flag && (c.ports != [] ==> c.ports[0] in s.ready))
  }

  /** An I/O node about to enter the guard for NIC `i`, with nobody inside it. */
  predicate Entering(c: Config, s: State, w: nat, i: nat) {
    && |s.nodes| == |c.tasks| && w < |s.nodes| && i <= |c.ports|
    && s.nodes[w].pc == NextNic(c, i) && Idle(c, s)
  }

  /** It has come up, with nobody inside the guard and everybody else where they were. */
  ghost predicate CameUp(c: Config, s: State, w: nat, r: State)
    requires |s.nodes| == |r.nodes| && w < |s.nodes|
  {
    r.nodes[w].pc.Up? && Idle(c, r) && forall v :: 0 <= v < |s.nodes| && v != w ==> r.nodes[v] == s.nodes[v]
  }

  /** On one port, an I/O node running alone gets through all its NICs. */
  lemma {:induction false} AloneComesUp(c: Config, s: State, w: nat, i: nat) returns (schedule: seq<nat>)
    requires OnePort(c) && Entering(c, s, w, i)
    ensures CameUp(c, s, w, Run(c, s, schedule))
    decreases |c.ports| - i
  {
    if i == |c.ports| {
      schedule := [];
    } else {
      var s1 := Step(c, s, w);
      var s2 := Step(c, s1, w);
      var s3 := Step(c, s2, w);
      var done := if s.once.NotStarted? then Step(c, s3, w) else s3;
      assert c.ports[i] == c.ports[0];
      var rest := AloneComesUp(c, done, w, i + 1);
      if s.once.NotStarted? {
        RunTwo(c, s2, w, w, rest);
        RunTwo(c, s, w, w, [w, w] + rest);
        schedule := [w, w] + ([w, w] + rest);
      } else {
        RunCons(c, s2, w, rest);
        RunTwo(c, s, w, w, [w] + rest);
        schedule := [w, w] + ([w] + rest);
      }
    }
  }

  lemma RunCons(c: Config, s: State, w: nat, rest: seq<nat>)
    requires |s.nodes| == |c.tasks| && w < |s.nodes|
    ensures Run(c, s, [w] + rest) == Run(c, Step(c, s, w), rest)
  {
    assert ([w] + rest)[1..] == rest;
  }

  lemma {:induction false} RunConcat(c: Config, s: State, a: seq<nat>, b: seq<nat>)
    requires |s.nodes| == |c.tasks|
    ensures Run(c, s, a + b) == Run(c, Run(c, s, a), b)
    decreases |a|
  {
    if a == [] {
      assert a + b == b;
    } else {
      assert (a + b)[1..] == a[1..] + b;
      RunConcat(c, if a[0] < |s.nodes| then Step(c, s, a[0]) else s, a[1..], b);
    }
  }

  /** An I/O node that need not wait draws and comes up. */
  lemma StartsAndComesUp(c: Config, s: State, w: nat) returns (schedule: seq<nat>)
    requires OnePort(c) && |s.nodes| == |c.tasks| && w < |s.nodes| && s.nodes[w].pc.Fresh? && !Waits(c, s, w) &&
             Idle(c, s)
    ensures CameUp(c, s, w, Run(c, s, schedule))
  {
    var rest := AloneComesUp(c, Step(c, s, w), w, 0);
    RunCons(c, s, w, rest);
    schedule := [w] + rest;
  }

  /** On one port the I/O nodes of a worker come up one after the other. */
  lemma {:induction false} ChainComesUp(c: Config, w: nat) returns (schedule: seq<nat>)
    requires OnePort(c) && w < |c.tasks|
    ensures var r := Run(c, Initial(c), schedule);
            r.nodes[w].pc.Up? && Idle(c, r) && forall v :: w < v < |c.tasks| ==> r.nodes[v].pc.Fresh?
    decreases w
  {
    if IsFirst(c, w) {
      schedule := StartsAndComesUp(c, Initial(c), w);
    } else {
      var before := ChainComesUp(c, w - 1);
      var s := Run(c, Initial(c), before);
      var rest := StartsAndComesUp(c, s, w);
      RunConcat(c, Initial(c), before, rest);
      schedule := before + rest;
    }
  }

  ghost predicate CanComeUp(c: Config, w: nat)
    requires w < |c.tasks|
  {
    exists schedule: seq<nat> :: Run(c, Initial(c), schedule).nodes[w].pc.Up?
  }

  /** An I/O node can come up if and only if all NICs share one port. */
  lemma ComesUpIff(c: Config, w: nat)
    requires |c.tasks| < U16 && w < |c.tasks|
    ensures CanComeUp(c, w) <==> OnePort(c)
  {
    if CanComeUp(c, w) {
      var schedule: seq<nat> :| Run(c, Initial(c), schedule).nodes[w].pc.Up?;
      StartupNeedsOnePort(c, schedule, w);
    }
    if OnePort(c) {
      var schedule := ChainComesUp(c, w);
      assert Run(c, Initial(c), schedule).nodes[w].pc.Up?;
    }
  }

  /** Where an I/O node running alone is before NIC `i`, when `k` is the first on another port. */
  predicate Heading(c: Config, s: State, w: nat, i: nat, k: nat) {
    && Entering(c, s, w, i) && i <= k < |c.ports| && c.ports[k] != c.ports[0] && s.ready.Keys <= {c.ports[0]}
    && (i == 0 || s.once.Finished?)
    && forall j :: 0 <= j < k ==> c.ports[j] == c.ports[0]
  }

  /** Otherwise it panics over the first NIC on another port. */
  lemma {:induction false} AlonePanics(c: Config, s: State, w: nat, i: nat, k: nat) returns (schedule: seq<nat>)
    requires Heading(c, s, w, i, k)
    ensures Run(c, s, schedule).nodes[w].pc.Panicked?
    decreases k - i
  {
    var s1 := Step(c, s, w);
    var s2 := Step(c, s1, w);
    var s3 := Step(c, s2, w);
    if i == k {
      RunCons(c, s2, w, []);
      RunTwo(c, s, w, w, [w] + []);
      schedule := [w, w] + ([w] + []);
    } else if s.once.NotStarted? {
      var rest := AlonePanics(c, Step(c, s3, w), w, i + 1, k);
      RunTwo(c, s2, w, w, rest);
      RunTwo(c, s, w, w, [w, w] + rest);
      schedule := [w, w] + ([w, w] + rest);
    } else {
      var rest := AlonePanics(c, s3, w, i + 1, k);
      RunCons(c, s2, w, rest);
      RunTwo(c, s, w, w, [w] + rest);
      schedule := [w, w] + ([w] + rest);
    }
  }

  ghost predicate CanPanic(c: Config, w: nat)
    requires w < |c.tasks|
  {
    exists schedule: seq<nat> :: Run(c, Initial(c), schedule).nodes[w].pc.Panicked?
  }

  lemma {:induction false} FirstOther(c: Config, k: nat) returns (first: nat)
    requires k < |c.ports| && c.ports[k] != c.ports[0]
    ensures first < |c.ports| && c.ports[first] != c.ports[0]
    ensures forall j :: 0 <= j < first ==> c.ports[j] == c.ports[0]
    decreases k
  {
    first := k;
    if j :| 0 <= j < k && c.ports[j] != c.ports[0] {
      first := FirstOther(c, j);
    }
  }

  /** Nobody overtakes the node before it in its worker. */
  ghost predicate InOrder(c: Config, s: State) {
    && |s.nodes| == |c.tasks|
    && forall w: nat :: w < |s.nodes| && Drawn(s.nodes[w]) && !IsFirst(c, w) ==> s.nodes[w - 1].pc.Up?
  }

  lemma {:induction false} RunInOrder(c: Config, s: State, schedule: seq<nat>)
    requires InOrder(c, s)
    ensures InOrder(c, Run(c, s, schedule))
    decreases |schedule|
  {
    if schedule != [] {
      RunInOrder(c, if schedule[0] < |s.nodes| then Step(c, s, schedule[0]) else s, schedule[1..]);
    }
  }

  /** An I/O node can panic over a missing pool if and only if the NICs are on different ports and it
      is the first of its worker. */
  lemma PanicsIff(c: Config, w: nat)
    requires |c.tasks| < U16 && w < |c.tasks|
    ensures CanPanic(c, w) <==> !OnePort(c) && IsFirst(c, w)
  {
    if CanPanic(c, w) {
      var schedule: seq<nat> :| Run(c, Initial(c), schedule).nodes[w].pc.Panicked?;
      StartupNeedsOnePort(c, schedule, w);
      RunInOrder(c, Initial(c), schedule);
      if !IsFirst(c, w) {
        StartupNeedsOnePort(c, schedule, w - 1);
      }
    }
    if !OnePort(c) && IsFirst(c, w) {
      var k :| 0 <= k < |c.ports| && c.ports[k] != c.ports[0];
      var first := FirstOther(c, k);
      var rest := AlonePanics(c, Step(c, Initial(c), w), w, 0, first);
      RunCons(c, Initial(c), w, rest);
      assert Run(c, Initial(c), [w] + rest).nodes[w].pc.Panicked?;
    }
  }

  /** One I/O node and NICs on ports 0 and 1: it can panic and cannot come up. */
  lemma TwoPortsPanic()
    ensures CanPanic(Config([0, 1], [Task(1, true)]), 0) && !CanComeUp(Config([0, 1], [Task(1, true)]), 0)
  {
    var c := Config([0, 1], [Task(1, true)]);
    assert c.ports[0] != c.ports[1];
    PanicsIff(c, 0);
    ComesUpIff(c, 0);
  }

  lemma AtMostOne(a: set<nat>, x: nat, y: nat)
    requires |a| <= 1 && x in a && y in a
    ensures x == y
  {
    if x != y {
      SubsetSize({x, y}, a);
    }
  }
}
