/**
 Building a worker's graph from its configuration (`Graph::new` in engine.rs, plus the node
 capacity of `Worker::new`).  A configuration that makes the original panic yields `None`.
 */
module GraphBuild {
  import opened Common
  import opened Scheduler
  import opened Runs
  import Acyclic
  import Growth

  type Link = (string, string)

  /** The registered modules. */
  function KindOf(name: string): Option<Kind> {
    if name == "IoNode" then Some(IoNode)
    else if name == "EthSender" then Some(EthSender)
    else if name == "EthReceiver" then Some(EthReceiver)
    else if name == "Ipv4Sender" then Some(Ipv4Sender)
    else if name == "Ipv4Receiver" then Some(Ipv4Receiver)
    else if name == "UdpSender" then Some(UdpSender)
    else if name == "UdpReceiver" then Some(UdpReceiver)
    else if name == "UserNode" then Some(UserNode)
    else None
  }

  /** The position of the first module called `name`, searching from position `i`. */
  function Find(modules: seq<string>, name: string, i: nat): (r: Option<nat>)
    requires i <= |modules|
    ensures r.Some? ==> i <= r.value < |modules| && modules[r.value] == name
                        && forall j :: i <= j < r.value ==> modules[j] != name
    ensures r.None? ==> forall j :: i <= j < |modules| ==> modules[j] != name
    decreases |modules| - i
  {
    if i == |modules| then None
    else if modules[i] == name then Some(i)
    else Find(modules, name, i + 1)
  }

  predicate Resolved(modules: seq<string>, link: Link) {
    link.0 in modules && link.1 in modules
  }

  /** The out-links of node `n` after the first links of the configuration were added. */
  function LinksOf(modules: seq<string>, links: seq<Link>, n: nat): (r: seq<nat>)
    ensures forall i :: 0 <= i < |r| ==> r[i] < |modules|
  {
    if links == [] then []
    else
      var init := LinksOf(modules, links[..|links| - 1], n);
      var last := links[|links| - 1];
      var target := Find(modules, last.1, 0);
      if Find(modules, last.0, 0) == Some(n) && target.Some? then init + [target.value] else init
  }

  /** Links of a node only accumulate while the configuration is read. */
  lemma {:induction false} LinksOfGrow(modules: seq<string>, links: seq<Link>, n: nat, k: nat)
    requires k <= |links|
    ensures |LinksOf(modules, links[..k], n)| <= |LinksOf(modules, links, n)|
    decreases |links|
  {
    if k == |links| {
      assert links[..k] == links;
    } else {
      LinksOfGrow(modules, links[..|links| - 1], n, k);
      assert links[..|links| - 1][..k] == links[..k];
    }
  }

  /** Reading one more link adds it to its source. */
  lemma LinkAdded(modules: seq<string>, links: seq<Link>, k: nat, n: nat)
    requires k < |links| && Find(modules, links[k].1, 0).Some?
    ensures LinksOf(modules, links[..k + 1], n)
         == LinksOf(modules, links[..k], n)
            + if Find(modules, links[k].0, 0) == Some(n) then [Find(modules, links[k].1, 0).value] else []
  {
    assert links[..k + 1][..k] == links[..k];
  }

  /** `at` is an increasing list of configuration positions, consisting of exactly the links whose
      source resolves to `n`, and `out` lists the first modules named by their targets. */
  ghost predicate Lists(modules: seq<string>, links: seq<Link>, n: nat, at: seq<nat>, out: seq<nat>) {
    && |at| == |out|
    && (forall i, j :: 0 <= i < j < |at| ==> at[i] < at[j])
    && (forall j :: 0 <= j < |at| ==> at[j] < |links| && Find(modules, links[at[j]].0, 0) == Some(n))
    && (forall j :: 0 <= j < |at| ==> at[j] < |links| && Find(modules, links[at[j]].1, 0) == Some(out[j]))
    && (forall k :: 0 <= k < |links| && Find(modules, links[k].0, 0) == Some(n) ==> k in at)
  }

  lemma ListsNext(modules: seq<string>, links: seq<Link>, n: nat, at: seq<nat>, out: seq<nat>, last: Link, target: nat)
    requires Lists(modules, links, n, at, out) && Find(modules, last.1, 0) == Some(target)
    ensures if Find(modules, last.0, 0) == Some(n)
            then Lists(modules, links + [last], n, at + [|links|], out + [target])
            else Lists(modules, links + [last], n, at, out)
  {
    assert forall k :: 0 <= k < |links| ==> (links + [last])[k] == links[k];
  }

  /** What the out-links of a node are, in order. */
  lemma {:induction false} LinksOfMeaning(modules: seq<string>, links: seq<Link>, n: nat) returns (at: seq<nat>)
    requires forall k :: 0 <= k < |links| ==> Resolved(modules, links[k])
    ensures Lists(modules, links, n, at, LinksOf(modules, links, n))
    decreases |links|
  {
    if links == [] {
      at := [];
    } else {
      var init, last := links[..|links| - 1], links[|links| - 1];
      at := LinksOfMeaning(modules, init, n);
      assert Resolved(modules, last);
      ListsNext(modules, init, n, at, LinksOf(modules, init, n), last, Find(modules, last.1, 0).value);
      assert links == init + [last];
      if Find(modules, last.0, 0) == Some(n) {
        at := at + [|links| - 1];
      }
    }
  }

  /** `g` is the graph a configuration describes. */
  ghost predicate Describes(modules: seq<string>, links: seq<Link>, g: Graph) {
    && |g| == |modules|
    && forall n :: 0 <= n < |modules| ==>
        Some(g[n].kind) == KindOf(modules[n]) && g[n].links == LinksOf(modules, links, n)
  }

  /** The configurations that are built without a panic. */
  ghost predicate Buildable(modules: seq<string>, links: seq<Link>) {
    && (forall i :: 0 <= i < |modules| ==> KindOf(modules[i]).Some?)
    && (forall k :: 0 <= k < |links| ==> Resolved(modules, links[k]))
    && (forall n :: 0 <= n < |modules| ==> |LinksOf(modules, links, n)| <= MAX_LINKS)
    && |modules| <= MAX_NODES
  }

  /** Add the links one by one to nodes that start without any. */
  method AddLinks(modules: seq<string>, links: seq<Link>) returns (r: Option<seq<seq<nat>>>)
    ensures r.Some? <==>
              && (forall k :: 0 <= k < |links| ==> Resolved(modules, links[k]))
              && (forall n :: 0 <= n < |modules| ==> |LinksOf(modules, links, n)| <= MAX_LINKS)
    ensures r.Some? ==> |r.value| == |modules|
                        && forall n :: 0 <= n < |modules| ==> r.value[n] == LinksOf(modules, links, n)
  {
    var out: seq<seq<nat>> := seq(|modules|, _ => []);
    for k := 0 to |links|
      invariant |out| == |modules|
      invariant forall j :: 0 <= j < k ==> Resolved(modules, links[j])
      invariant forall n :: 0 <= n < |modules| ==> out[n] == LinksOf(modules, links[..k], n) && |out[n]| <= MAX_LINKS
    {
      var src := Find(modules, links[k].0, 0);
      var dst := Find(modules, links[k].1, 0);
      if src.None? || dst.None? {
        assert !Resolved(modules, links[k]);
        return None;
      }
      forall n | 0 <= n < |modules|
        ensures LinksOf(modules, links[..k + 1], n) == out[n] + if n == src.value then [dst.value] else []
      {
        LinkAdded(modules, links, k, n);
      }
      if |out[src.value]| == MAX_LINKS {
        LinksOfGrow(modules, links, src.value, k + 1);
        assert |LinksOf(modules, links, src.value)| > MAX_LINKS;
        return None;
      }
      out := out[src.value := out[src.value] + [dst.value]];
    }
    assert links[..|links|] == links;
    return Some(out);
  }

  /** `Graph::new`.  It succeeds exactly on the buildable configurations; then node n has the n-th
      module and, in configuration order, the links out of it, and every link leads to a node. */
  method BuildGraph(modules: seq<string>, links: seq<Link>) returns (r: Option<Graph>)
    ensures r.Some? <==> Buildable(modules, links)
    ensures r.Some? ==>
              && Describes(modules, links, r.value)
              && Closed(r.value) && FanoutAtMost(r.value, MAX_LINKS) && |r.value| <= MAX_NODES
  {
    var g: Graph := [];
    for i := 0 to |modules|
      invariant |g| == i
      invariant forall n :: 0 <= n < i ==> KindOf(modules[n]) == Some(g[n].kind) && g[n].links == []
    {
      var kind := KindOf(modules[i]);
      if kind.None? {
        return None;
      }
      g := g + [Node(kind.value, [])];
    }
    if |modules| > MAX_NODES {
      return None;
    }
    var out := AddLinks(modules, links);
    if out.None? {
      return None;
    }
    for i := 0 to |modules|
      invariant |g| == |modules|
      invariant forall n :: 0 <= n < |modules| ==> KindOf(modules[n]) == Some(g[n].kind)
      invariant forall n :: 0 <= n < i ==> g[n].links == LinksOf(modules, links, n)
    {
      g := g[i := g[i].(links := out.value[i])];
    }
    return Some(g);
  }

  // ----- two configurations -----

  lemma {:induction false} NoLink(modules: seq<string>, links: seq<Link>, n: nat)
    requires forall k :: 0 <= k < |links| ==> Find(modules, links[k].0, 0) != Some(n)
    ensures LinksOf(modules, links, n) == []
    decreases |links|
  {
    if links != [] {
      NoLink(modules, links[..|links| - 1], n);
    }
  }

  /** A node that is the source of one configured link has that one out-link. */
  lemma {:induction false} OnlyLink(modules: seq<string>, links: seq<Link>, n: nat, at: nat, t: nat)
    requires at < |links| && Find(modules, links[at].0, 0) == Some(n) && Find(modules, links[at].1, 0) == Some(t)
    requires forall k :: 0 <= k < |links| && k != at ==> Find(modules, links[k].0, 0) != Some(n)
    ensures LinksOf(modules, links, n) == [t]
    decreases |links|
  {
    var init := links[..|links| - 1];
    if at == |links| - 1 {
      NoLink(modules, init, n);
    } else {
      OnlyLink(modules, init, n, at, t);
    }
  }

  lemma DescribedIsBuildable(modules: seq<string>, links: seq<Link>, g: Graph)
    requires Describes(modules, links, g) && FanoutAtMost(g, MAX_LINKS) && |g| <= MAX_NODES
    requires forall k :: 0 <= k < |links| ==> Find(modules, links[k].0, 0).Some? && Find(modules, links[k].1, 0).Some?
    ensures Buildable(modules, links)
  {
    forall k | 0 <= k < |links| ensures Resolved(modules, links[k]) {
      assert Find(modules, links[k].0, 0).Some?;
    }
    forall n | 0 <= n < |modules| ensures KindOf(modules[n]).Some? {
      assert Some(g[n].kind) == KindOf(modules[n]);
    }
  }

  /** config/graph/udp.json. */
  function UdpModules(): seq<string> {
    ["IoNode", "EthSender", "EthReceiver", "Ipv4Sender", "Ipv4Receiver", "UdpSender", "UdpReceiver", "UserNode"]
  }

  function UdpLinks(): seq<Link> {
    [("UserNode", "UdpSender"), ("UdpSender", "Ipv4Sender"), ("Ipv4Sender", "EthSender"), ("EthSender", "IoNode"),
     ("IoNode", "EthReceiver"), ("EthReceiver", "Ipv4Receiver"), ("Ipv4Receiver", "UdpReceiver"),
     ("UdpReceiver", "UserNode")]
  }

  /** The first module of a name in a configuration that lists no name twice. */
  lemma FoundAt(modules: seq<string>, i: nat)
    requires i < |modules| && forall j :: 0 <= j < i ==> modules[j] != modules[i]
    ensures Find(modules, modules[i], 0) == Some(i)
  {
  }

  lemma UdpKinds(i: nat)
    requires i < 8
    ensures KindOf(UdpModules()[i]) == Some(Acyclic.UdpGraph()[i].kind)
  {
  }

  lemma UdpFound(i: nat)
    requires i < 8
    ensures Find(UdpModules(), UdpModules()[i], 0) == Some(i)
  {
    forall j | 0 <= j < i ensures UdpModules()[j] != UdpModules()[i] {
      UdpKinds(i);
      UdpKinds(j);
    }
    FoundAt(UdpModules(), i);
  }

  lemma UdpEnds(k: nat)
    requires k < 8
    ensures Find(UdpModules(), UdpLinks()[k].0, 0) == Some([7, 5, 3, 1, 0, 2, 4, 6][k])
    ensures Find(UdpModules(), UdpLinks()[k].1, 0) == Some([5, 3, 1, 0, 2, 4, 6, 7][k])
  {
    var src := [7, 5, 3, 1, 0, 2, 4, 6][k];
    var dst := [5, 3, 1, 0, 2, 4, 6, 7][k];
    assert UdpLinks()[k] == (UdpModules()[src], UdpModules()[dst]);
    UdpFound(src);
    UdpFound(dst);
  }

  lemma UdpSource(n: nat, k: nat)
    requires n < 8 && k < 8
    ensures Find(UdpModules(), UdpLinks()[k].0, 0) == Some(n) <==> k == [4, 3, 5, 2, 6, 1, 7, 0][n]
  {
    UdpEnds(k);
  }

  lemma UdpTarget(n: nat)
    requires n < 8
    ensures Find(UdpModules(), UdpLinks()[[4, 3, 5, 2, 6, 1, 7, 0][n]].1, 0) == Some([2, 0, 4, 1, 6, 3, 7, 5][n])
    ensures Acyclic.UdpGraph()[n].links == [[2, 0, 4, 1, 6, 3, 7, 5][n]]
  {
    UdpEnds([4, 3, 5, 2, 6, 1, 7, 0][n]);
  }

  lemma UdpLinksAt(n: nat)
    requires n < 8
    ensures LinksOf(UdpModules(), UdpLinks(), n) == Acyclic.UdpGraph()[n].links
  {
    var at: nat := [4, 3, 5, 2, 6, 1, 7, 0][n];
    var ms, ls := UdpModules(), UdpLinks();
    assert |ls| == 8;
    forall k: nat | k < 8 ensures Find(ms, ls[k].0, 0) == Some(n) <==> k == at {
      UdpSource(n, k);
    }
    UdpTarget(n);
    OnlyLink(ms, ls, n, at, [2, 0, 4, 1, 6, 3, 7, 5][n]);
  }

  lemma UdpFanout()
    ensures |Acyclic.UdpGraph()| == 8 && FanoutAtMost(Acyclic.UdpGraph(), 1)
  {
  }

  /** The shipped configuration is built into `UdpGraph`. */
  lemma UdpConfigured()
    ensures Buildable(UdpModules(), UdpLinks()) && Describes(UdpModules(), UdpLinks(), Acyclic.UdpGraph())
  {
    var ms, ls, g := UdpModules(), UdpLinks(), Acyclic.UdpGraph();
    assert |ms| == 8 && |ls| == 8;
    UdpFanout();
    forall n: nat | n < 8 ensures Some(g[n].kind) == KindOf(ms[n]) && g[n].links == LinksOf(ms, ls, n) {
      UdpKinds(n);
      UdpLinksAt(n);
    }
    forall k: nat | k < 8 ensures Find(ms, ls[k].0, 0).Some? && Find(ms, ls[k].1, 0).Some? {
      UdpEnds(k);
    }
    DescribedIsBuildable(ms, ls, g);
  }

  function DoublingModules(): seq<string> {
    ["UserNode", "EthReceiver"]
  }

  function DoublingLinks(): seq<Link> {
    [("UserNode", "EthReceiver"), ("EthReceiver", "EthReceiver"), ("EthReceiver", "EthReceiver")]
  }

  lemma DoublingFound()
    ensures Find(DoublingModules(), "UserNode", 0) == Some(0) && Find(DoublingModules(), "EthReceiver", 0) == Some(1)
  {
    assert KindOf("UserNode") != KindOf("EthReceiver");
    FoundAt(DoublingModules(), 0);
    FoundAt(DoublingModules(), 1);
  }

  lemma DoublingLinksAt()
    ensures LinksOf(DoublingModules(), DoublingLinks(), 0) == [1]
    ensures LinksOf(DoublingModules(), DoublingLinks(), 1) == [1, 1]
  {
    var ms, ls := DoublingModules(), DoublingLinks();
    DoublingFound();
    OnlyLink(ms, ls, 0, 0, 1);
    var two := ls[..2];
    assert two == [("UserNode", "EthReceiver"), ("EthReceiver", "EthReceiver")];
    OnlyLink(ms, two, 1, 1, 1);
  }

  /** Nothing in the program refuses a configuration whose stack grows with every step: the doubling
      graph is built, */
  lemma DoublingConfigured()
    ensures Buildable(DoublingModules(), DoublingLinks())
    ensures Describes(DoublingModules(), DoublingLinks(), Growth.DoublingGraph())
  {
    DoublingFound();
    DoublingLinksAt();
    DescribedIsBuildable(DoublingModules(), DoublingLinks(), Growth.DoublingGraph());
  }

  /** and it is within every capacity. */
  lemma DoublingDeployable()
    ensures Sound(Growth.DoublingGraph(), [0]) && Deployable(Growth.DoublingGraph(), [0])
  {
    var g := Growth.DoublingGraph();
    assert [0][1..] == [] && PolledLinks(g, []) == 0;
    assert PolledLinks(g, [0]) == 1;
  }

  /** A graph may list the I/O node twice. */
  lemma TwoIoNodesConfigured()
    ensures Buildable(["IoNode", "IoNode"], [])
    ensures Describes(["IoNode", "IoNode"], [], [Node(IoNode, []), Node(IoNode, [])])
  {
    var ms := ["IoNode", "IoNode"];
    assert KindOf("IoNode") == Some(IoNode);
    DescribedIsBuildable(ms, [], [Node(IoNode, []), Node(IoNode, [])]);
  }
}
