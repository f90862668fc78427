/** Nested execution: a run of a graph starts further runs, one per parallel
    branch and one per embedded sub-graph, sub-flow, iteration item or sub-graph
    call of a model. Only the embedded runs are held back by the depth limit. */
module Nesting {
  import opened Options
  import opened Graphs
  import opened FanOut

  /** What happens at one visit of a node: how far an iteration gets through its items,
      which flow the store has under the node's id, which graphs a model's tool calls
      carry, and after how many of these the model leaves plan mode, if it does. */
  datatype Visit = Visit(node: string, items: nat, flow: Option<Graph>, calls: seq<string>, exits: Option<nat>)

  /** Everything a run does not decide for itself: what a text parses to and, for each
      run separately, by its address, whether its graph puts it in plan mode, the nodes it
      visits and what happens there. */
  datatype World = World(maxDepth: nat, parse: string -> Option<Graph>, plans: seq<nat> -> bool, visits: seq<nat> -> seq<Visit>)

  datatype Origin = Top | Forked(fork: string) | Embedded

  /** One run of a graph, with the runs it started, in order, and whether it starts in
      plan mode. Its address is its parent's, the number of the visit, and the number of
      the run at that visit. */
  datatype Run = Run(origin: Origin, graph: Graph, depth: nat, plan: bool, at: seq<nat>, kids: seq<Run>)

  /** How many more levels of embedding the limit allows. */
  function Room(w: World, depth: nat): nat {
    if depth < w.maxDepth then w.maxDepth - depth else 0
  }

  /** The graph a branch runs, as a value. */
  ghost function BranchGraph(g: Graph, target: string, avoid: set<string>): Graph {
    var keep := set n | n in g.nodes && Reaches(g, avoid, target, n);
    Graph(map n | n in keep :: g.nodes[n], Induced(g.edges, keep), target)
  }

  /** It is the graph `BuildBranchSubgraph` builds. */
  lemma BranchGraphIsBuilt(g: Graph, target: string, avoid: set<string>, sub: Graph)
    requires IsBranch(g, target, avoid, sub) && target != ""
    ensures sub == BranchGraph(g, target, avoid)
  {
    var keep := set n | n in g.nodes && Reaches(g, avoid, target, n);
    assert sub.nodes.Keys == keep;
    assert sub.nodes == map n | n in keep :: g.nodes[n];
  }

  lemma BranchIsSmaller(g: Graph, target: string, avoid: set<string>, p: string)
    requires p in g.nodes && p in avoid
    ensures BranchGraph(g, target, avoid).nodes.Keys <= g.nodes.Keys - {p}
    ensures |BranchGraph(g, target, avoid).nodes| < |g.nodes|
  {
    var b := BranchGraph(g, target, avoid);
    assert forall k: nat :: Walk(g, avoid, target, p, k) ==> p !in avoid;
    assert p !in b.nodes;
    SmallerMap(b.nodes.Keys, g.nodes.Keys, p);
  }

  /** A run starts in the plan mode of the run that starts it, or in its graph's own; a
      branch graph has none. */
  predicate StartsIn(w: World, origin: Origin, inherited: bool, at: seq<nat>) {
    inherited || (!origin.Forked? && w.plans(at))
  }

  /** Nodes where a model makes tool calls. */
  predicate Converses(c: NodeConfig) { c.Plain? && c.kind in {"llm", "rag"} }

  /** Whether plan mode is still on before visit n. */
  predicate PlanBefore(w: World, g: Graph, plan: bool, at: seq<nat>, n: nat)
    requires n <= |w.visits(at)|
  {
    if n == 0 then plan
    else
      var v := w.visits(at)[n - 1];
      PlanBefore(w, g, plan, at, n - 1) && !(v.node in g.nodes && Converses(g.nodes[v.node]) && v.exits.Some?)
  }

  /** The dispatcher takes the graph: it is well formed, and has a model if it needs one. */
  ghost predicate Dispatches(g: Graph) { Validates(g) && HasModel(g) }

  // The measure is lexicographic: the room left under the limit, then the size
  // of the graph. A branch may use up room or not, but it always drops its fork.

  ghost function Execute(w: World, origin: Origin, g: Graph, depth: nat, plan: bool, at: seq<nat>): Run
    decreases Room(w, depth), |g.nodes|, 3, 0
  {
    var starts := StartsIn(w, origin, plan, at);
    Run(origin, g, depth, starts, at, if Dispatches(g) then VisitAll(w, g, depth, starts, at, |w.visits(at)|) else [])
  }

  /** The runs started by the first n visits. */
  ghost function VisitAll(w: World, g: Graph, depth: nat, plan: bool, at: seq<nat>, n: nat): seq<Run>
    requires n <= |w.visits(at)|
    decreases Room(w, depth), |g.nodes|, 2, n
  {
    if n == 0 then []
    else
      var v := w.visits(at)[n - 1];
      var on := PlanBefore(w, g, plan, at, n - 1);
      VisitAll(w, g, depth, plan, at, n - 1) + (if v.node in g.nodes then VisitNode(w, g, depth, on, at + [n - 1], v) else [])
  }

  ghost function VisitNode(w: World, g: Graph, depth: nat, plan: bool, at: seq<nat>, v: Visit): seq<Run>
    requires v.node in g.nodes
    decreases Room(w, depth), |g.nodes|, 1, 0
  {
    match g.nodes[v.node]
    case Parallel =>
      var out := Outgoing(g, v.node);
      if plan || |out| < 2 then []
      else Branches(w, g, depth, plan, at, v.node, Excluded(MergeNode(g, out), v.node), out)
    case c => Embed(w, depth, g, plan && !Converses(c), at, Loads(w, c, plan, v))
  }

  ghost function Branches(w: World, g: Graph, depth: nat, plan: bool, at: seq<nat>, id: string, avoid: set<string>, out: seq<Edge>): seq<Run>
    requires id in g.nodes && id in avoid
    decreases Room(w, depth), |g.nodes|, 0, |out|
  {
    if out == [] then []
    else
      var n := |out| - 1;
      var t := out[n].target;
      BranchIsSmaller(g, t, avoid, id);
      Branches(w, g, depth, plan, at, id, avoid, out[..n])
      + (if t in g.nodes && t !in avoid then [Execute(w, Forked(id), BranchGraph(g, t, avoid), depth + 1, plan, at + [n])] else [])
  }

  /** The graphs a node tries to run, in order: its own text once, or once per item,
      the stored flow, or whatever a model's sub-graph calls carry. Plan mode holds these
      calls back until the model leaves it. */
  function Loads(w: World, c: NodeConfig, plan: bool, v: Visit): seq<Option<Graph>> {
    match c
    case SubGraph(json) => [w.parse(json)]
    case SubFlow(_) => [v.flow]
    case Iteration(json) => seq(v.items, _ => w.parse(json))
    case Plain(_, _) => if Converses(c) then Called(w, plan, v) else []
    case _ => []
  }

  function Called(w: World, plan: bool, v: Visit): seq<Option<Graph>> {
    seq(|v.calls|, i requires 0 <= i < |v.calls| =>
      if plan && (v.exits.None? || i < v.exits.value) then None else w.parse(v.calls[i]))
  }

  /** An embedded graph runs only below the depth limit. */
  ghost function Embed(w: World, depth: nat, g: Graph, plan: bool, at: seq<nat>, subs: seq<Option<Graph>>): seq<Run>
    decreases Room(w, depth), |g.nodes|, 0, |subs|
  {
    if subs == [] then []
    else
      var n := |subs| - 1;
      Embed(w, depth, g, plan, at, subs[..n])
      + (if depth < w.maxDepth && subs[n].Some? then [Execute(w, Embedded, subs[n].value, depth + 1, plan, at + [n])] else [])
  }

  // ---- what every tree of runs is like ----

  /** A run started by a run of g at this depth: one level below; within the limit if
      it is embedded; on a part of g without the fork, and not in plan mode, if it is a
      branch; in plan mode only if its parent started in it or its own graph says so. */
  ghost predicate Started(w: World, g: Graph, depth: nat, plan: bool, k: Run) {
    && (k.plan ==> !k.origin.Forked? && (plan || w.plans(k.at)))
    && k.depth == depth + 1 && !k.origin.Top?
    && (k.origin.Embedded? ==> depth < w.maxDepth)
    && (k.origin.Forked? ==>
          k.origin.fork in g.nodes && k.graph.nodes.Keys <= g.nodes.Keys - {k.origin.fork} && |k.graph.nodes| < |g.nodes|)
  }

  ghost predicate WellNested(w: World, r: Run) {
    forall k | k in r.kids :: Started(w, r.graph, r.depth, r.plan, k) && WellNested(w, k)
  }

  ghost predicate AllStarted(w: World, g: Graph, depth: nat, plan: bool, rs: seq<Run>) {
    forall k | k in rs :: Started(w, g, depth, plan, k) && WellNested(w, k)
  }

  lemma {:induction false} RunsAreNested(w: World, origin: Origin, g: Graph, depth: nat, plan: bool, at: seq<nat>)
    ensures WellNested(w, Execute(w, origin, g, depth, plan, at))
    decreases Room(w, depth), |g.nodes|, 3, 0
  {
    VisitsStart(w, g, depth, StartsIn(w, origin, plan, at), at, |w.visits(at)|);
  }

  lemma {:induction false} VisitsStart(w: World, g: Graph, depth: nat, plan: bool, at: seq<nat>, n: nat)
    requires n <= |w.visits(at)|
    ensures AllStarted(w, g, depth, plan, VisitAll(w, g, depth, plan, at, n))
    decreases Room(w, depth), |g.nodes|, 2, n
  {
    if n > 0 {
      var v := w.visits(at)[n - 1];
      VisitsStart(w, g, depth, plan, at, n - 1);
      PlanOnlyEnds(w, g, plan, at, n - 1);
      if v.node in g.nodes { NodeStarts(w, g, depth, PlanBefore(w, g, plan, at, n - 1), at + [n - 1], v); }
    }
  }

  lemma {:induction false} PlanOnlyEnds(w: World, g: Graph, plan: bool, at: seq<nat>, n: nat)
    requires n <= |w.visits(at)|
    ensures PlanBefore(w, g, plan, at, n) ==> plan
  {
    if n > 0 { PlanOnlyEnds(w, g, plan, at, n - 1); }
  }

  lemma {:induction false} NodeStarts(w: World, g: Graph, depth: nat, plan: bool, at: seq<nat>, v: Visit)
    requires v.node in g.nodes
    ensures AllStarted(w, g, depth, plan, VisitNode(w, g, depth, plan, at, v))
    decreases Room(w, depth), |g.nodes|, 1, 0
  {
    match g.nodes[v.node]
    case Parallel =>
      var out := Outgoing(g, v.node);
      if !plan { BranchesStart(w, g, depth, plan, at, v.node, Excluded(MergeNode(g, out), v.node), out); }
    case c => EmbedStarts(w, depth, g, plan && !Converses(c), at, Loads(w, c, plan, v));
  }

  lemma {:induction false} BranchesStart(w: World, g: Graph, depth: nat, plan: bool, at: seq<nat>, id: string, avoid: set<string>, out: seq<Edge>)
    requires id in g.nodes && id in avoid && !plan
    ensures AllStarted(w, g, depth, plan, Branches(w, g, depth, plan, at, id, avoid, out))
    decreases Room(w, depth), |g.nodes|, 0, |out|
  {
    hide Execute, WellNested, Started, BranchGraph;
    if out != [] {
      var n := |out| - 1;
      var t := out[n].target;
      BranchesStart(w, g, depth, plan, at, id, avoid, out[..n]);
      BranchIsSmaller(g, t, avoid, id);
      if t in g.nodes && t !in avoid {
        RunsAreNested(w, Forked(id), BranchGraph(g, t, avoid), depth + 1, plan, at + [n]);
        StartedBranch(w, g, depth, id, BranchGraph(g, t, avoid), at + [n]);
      }
    }
  }

  lemma {:induction false} EmbedStarts(w: World, depth: nat, g: Graph, plan: bool, at: seq<nat>, subs: seq<Option<Graph>>)
    ensures AllStarted(w, g, depth, plan, Embed(w, depth, g, plan, at, subs))
    decreases Room(w, depth), |g.nodes|, 0, |subs|
  {
    hide Execute, WellNested, Started;
    if subs != [] {
      var n := |subs| - 1;
      EmbedStarts(w, depth, g, plan, at, subs[..n]);
      if depth < w.maxDepth && subs[n].Some? {
        RunsAreNested(w, Embedded, subs[n].value, depth + 1, plan, at + [n]);
        StartedEmbedded(w, g, depth, plan, subs[n].value, at + [n]);
      }
    }
  }

  lemma StartedEmbedded(w: World, g: Graph, depth: nat, plan: bool, sub: Graph, at: seq<nat>)
    requires depth < w.maxDepth
    ensures Started(w, g, depth, plan, Execute(w, Embedded, sub, depth + 1, plan, at))
  {
  }

  lemma StartedBranch(w: World, g: Graph, depth: nat, fork: string, b: Graph, at: seq<nat>)
    requires fork in g.nodes && b.nodes.Keys <= g.nodes.Keys - {fork} && |b.nodes| < |g.nodes|
    ensures Started(w, g, depth, false, Execute(w, Forked(fork), b, depth + 1, false, at))
  {
  }

  // ---- plan mode ----

  /** No run at this address or below leaves plan mode. */
  ghost predicate StaysPlanning(w: World, at: seq<nat>) {
    forall a, n | at <= a && 0 <= n < |w.visits(a)| :: w.visits(a)[n].exits.None?
  }

  /** Every run of the tree starts in plan mode, is embedded, and is no model's doing. */
  ghost predicate AllPlanning(rs: seq<Run>) {
    forall k | k in rs :: k.plan && k.origin.Embedded? && AllPlanning(k.kids)
  }

  /** Read-only exploration reaches every depth: while nobody leaves plan mode, all that
      is nested in a run that starts in it starts in it too, and nothing is nested but by
      nodes of the graphs: there are no parallel branches and no sub-graphs of a model. */
  lemma {:induction false} PlanModeReachesAll(w: World, origin: Origin, g: Graph, depth: nat, at: seq<nat>)
    requires StaysPlanning(w, at)
    ensures AllPlanning(Execute(w, origin, g, depth, true, at).kids)
    decreases Room(w, depth), |g.nodes|, 3, 0
  {
    VisitsPlan(w, g, depth, at, |w.visits(at)|);
  }

  lemma {:induction false} VisitsPlan(w: World, g: Graph, depth: nat, at: seq<nat>, n: nat)
    requires StaysPlanning(w, at) && n <= |w.visits(at)|
    ensures PlanBefore(w, g, true, at, n) && AllPlanning(VisitAll(w, g, depth, true, at, n))
    decreases Room(w, depth), |g.nodes|, 2, n
  {
    if n > 0 {
      var v := w.visits(at)[n - 1];
      VisitsPlan(w, g, depth, at, n - 1);
      if v.node in g.nodes && !g.nodes[v.node].Parallel? {
        PlanningBelow(w, at, n - 1);
        NothingLoads(w, g.nodes[v.node], v);
        EmbedsPlan(w, depth, g, at + [n - 1], Loads(w, g.nodes[v.node], true, v), !Converses(g.nodes[v.node]));
      }
    }
  }

  /** In plan mode the calls of a model load nothing. */
  lemma NothingLoads(w: World, c: NodeConfig, v: Visit)
    requires v.exits.None?
    ensures Converses(c) ==> forall s | s in Loads(w, c, true, v) :: s == None
  {
  }

  lemma PlanningBelow(w: World, at: seq<nat>, n: nat)
    requires StaysPlanning(w, at)
    ensures StaysPlanning(w, at + [n])
  {
    forall a, i | at + [n] <= a && 0 <= i < |w.visits(a)| ensures w.visits(a)[i].exits.None? {
      assert a[..|at|] == (at + [n])[..|at|] == at;
    }
  }

  lemma {:induction false} EmbedsPlan(w: World, depth: nat, g: Graph, at: seq<nat>, subs: seq<Option<Graph>>, plan: bool)
    requires StaysPlanning(w, at) && (plan || forall s | s in subs :: s == None)
    ensures AllPlanning(Embed(w, depth, g, plan, at, subs))
    decreases Room(w, depth), |g.nodes|, 0, |subs|
  {
    hide Execute, StaysPlanning, AllPlanning;
    NonePlanning();
    if subs != [] {
      var n := |subs| - 1;
      assert subs[n] in subs && forall s | s in subs[..n] :: s in subs;
      EmbedsPlan(w, depth, g, at, subs[..n], plan);
      NonePlanning();
      var rest := Embed(w, depth, g, plan, at, subs[..n]);
      if depth < w.maxDepth && subs[n].Some? {
        var r := Execute(w, Embedded, subs[n].value, depth + 1, plan, at + [n]);
        PlanningBelow(w, at, n);
        PlanModeReachesAll(w, Embedded, subs[n].value, depth + 1, at + [n]);
        ExecuteIs(w, Embedded, subs[n].value, depth + 1, true, at + [n]);
        OneMorePlanning(rest, r);
      } else {
        assert rest + [] == rest;
      }
    }
  }

  lemma NonePlanning()
    ensures AllPlanning([])
  {
  }

  lemma OneMorePlanning(rs: seq<Run>, k: Run)
    requires AllPlanning(rs) && k.plan && k.origin.Embedded? && AllPlanning(k.kids)
    ensures AllPlanning(rs + [k])
  {
  }

  // ---- how tall it can be ----

  ghost function Height(r: Run): nat { 1 + Tallest(r.kids) }

  ghost function Tallest(rs: seq<Run>): nat {
    if rs == [] then 0 else Max(Height(rs[0]), Tallest(rs[1..]))
  }

  /** The size of the largest graph that is run. */
  ghost function Largest(r: Run): nat { Max(|r.graph.nodes|, LargestOf(r.kids)) }

  ghost function LargestOf(rs: seq<Run>): nat {
    if rs == [] then 0 else Max(Largest(rs[0]), LargestOf(rs[1..]))
  }

  function Max(a: nat, b: nat): nat { if a > b then a else b }

  /** Tallest tree of runs that can hang off a run of a graph of some size, if no
      graph in it has more than n nodes. */
  function Bound(w: World, size: nat, depth: nat, n: nat): nat {
    if depth < w.maxDepth then w.maxDepth - depth + n else size
  }

  lemma {:induction false} NestedIsLow(w: World, r: Run, n: nat)
    requires WellNested(w, r) && Largest(r) <= n
    ensures Height(r) <= Bound(w, |r.graph.nodes|, r.depth, n) + 1
    decreases r, 0
  {
    KidsAreLow(w, r, r.kids, n);
  }

  lemma {:induction false} KidsAreLow(w: World, r: Run, rs: seq<Run>, n: nat)
    requires AllStarted(w, r.graph, r.depth, r.plan, rs) && LargestOf(rs) <= n && |r.graph.nodes| <= n
    requires forall k | k in rs :: k in r.kids
    ensures Tallest(rs) <= Bound(w, |r.graph.nodes|, r.depth, n)
    decreases r, 0, |rs|
  {
    if rs != [] {
      assert rs[0] in r.kids;
      NestedIsLow(w, rs[0], n);
      KidsAreLow(w, r, rs[1..], n);
    }
  }

  /** Nested execution is finite in every world, with flows that load themselves and
      models that write graphs as they go: the tree of runs is no taller than the room
      left under the limit plus the size of the largest graph in it, plus one. */
  lemma NestingIsBounded(w: World, origin: Origin, g: Graph, depth: nat, plan: bool, at: seq<nat>)
    ensures var r := Execute(w, origin, g, depth, plan, at);
      WellNested(w, r) && Height(r) <= Room(w, depth) + Largest(r) + 1
  {
    var r := Execute(w, origin, g, depth, plan, at);
    RunsAreNested(w, origin, g, depth, plan, at);
    NestedIsLow(w, r, Largest(r));
  }

  // ---- every run has an address of its own ----

  /** At the first number in which they differ, the one address has the lower. */
  ghost predicate Precedes(a: seq<nat>, b: seq<nat>) {
    exists k | 0 <= k < |a| && k < |b| :: a[k] < b[k] && a[..k] == b[..k]
  }

  /** Addresses that extend `at` by numbers below n, each before the next. */
  ghost predicate Numbered(at: seq<nat>, rs: seq<Run>, n: nat) {
    && (forall k | k in rs :: |k.at| > |at| && k.at[..|at|] == at && k.at[|at|] < n)
    && (forall i, j | 0 <= i < j < |rs| :: Precedes(rs[i].at, rs[j].at))
  }

  /** Runs of the next number are apart from those before it. */
  lemma NumberedMore(at: seq<nat>, rs: seq<Run>, more: seq<Run>, n: nat)
    requires Numbered(at, rs, n) && (forall k | k in more :: at + [n] <= k.at)
    requires forall i, j | 0 <= i < j < |more| :: Precedes(more[i].at, more[j].at)
    ensures Numbered(at, rs + more, n + 1)
  {
    forall k | k in more ensures |k.at| > |at| && k.at[..|at|] == at && k.at[|at|] == n {
      assert k.at[..|at| + 1] == at + [n];
      assert k.at[..|at|] == k.at[..|at| + 1][..|at|] == at;
    }
    var all := rs + more;
    forall i, j | 0 <= i < j < |all| ensures Precedes(all[i].at, all[j].at) {
      if i < |rs| <= j {
        assert all[i] in rs && all[j] in more;
        assert all[i].at[|at|] < all[j].at[|at|] && all[i].at[..|at|] == all[j].at[..|at|];
      } else if j < |rs| {
        assert all[i] == rs[i] && all[j] == rs[j];
      } else {
        assert all[i] == more[i - |rs|] && all[j] == more[j - |rs|];
      }
    }
  }

  /** The runs started by one run have addresses in order, no two alike, and each extends the
      parent's: the world answers every run of the tree on its own. */
  lemma OwnAddresses(w: World, origin: Origin, g: Graph, depth: nat, plan: bool, at: seq<nat>)
    ensures Numbered(at, Execute(w, origin, g, depth, plan, at).kids, |w.visits(at)|)
  {
    VisitsNumbered(w, g, depth, StartsIn(w, origin, plan, at), at, |w.visits(at)|);
  }

  lemma {:induction false} VisitsNumbered(w: World, g: Graph, depth: nat, plan: bool, at: seq<nat>, n: nat)
    requires n <= |w.visits(at)|
    ensures Numbered(at, VisitAll(w, g, depth, plan, at, n), n)
    decreases n
  {
    if n > 0 {
      var v := w.visits(at)[n - 1];
      var rest := VisitAll(w, g, depth, plan, at, n - 1);
      VisitsNumbered(w, g, depth, plan, at, n - 1);
      if v.node in g.nodes {
        NodeNumbered(w, g, depth, PlanBefore(w, g, plan, at, n - 1), at + [n - 1], v);
        var more := VisitNode(w, g, depth, PlanBefore(w, g, plan, at, n - 1), at + [n - 1], v);
        forall k | k in more ensures at + [n - 1] <= k.at { }
        NumberedMore(at, rest, more, n - 1);
      } else {
        NumberedMore(at, rest, [], n - 1);
      }
    }
  }

  lemma NodeNumbered(w: World, g: Graph, depth: nat, plan: bool, at: seq<nat>, v: Visit)
    requires v.node in g.nodes
    ensures exists n :: Numbered(at, VisitNode(w, g, depth, plan, at, v), n)
  {
    match g.nodes[v.node]
    case Parallel =>
      var out := Outgoing(g, v.node);
      if plan || |out| < 2 {
        assert Numbered(at, VisitNode(w, g, depth, plan, at, v), 0);
      } else {
        BranchesNumbered(w, g, depth, plan, at, v.node, Excluded(MergeNode(g, out), v.node), out);
        assert Numbered(at, VisitNode(w, g, depth, plan, at, v), |out|);
      }
    case c =>
      var subs := Loads(w, c, plan, v);
      EmbedNumbered(w, depth, g, plan && !Converses(c), at, subs);
      assert Numbered(at, VisitNode(w, g, depth, plan, at, v), |subs|);
  }

  lemma {:induction false} BranchesNumbered(w: World, g: Graph, depth: nat, plan: bool, at: seq<nat>, id: string, avoid: set<string>, out: seq<Edge>)
    requires id in g.nodes && id in avoid
    ensures Numbered(at, Branches(w, g, depth, plan, at, id, avoid, out), |out|)
  {
    if out != [] {
      var n := |out| - 1;
      var t := out[n].target;
      BranchesNumbered(w, g, depth, plan, at, id, avoid, out[..n]);
      BranchIsSmaller(g, t, avoid, id);
      var rest := Branches(w, g, depth, plan, at, id, avoid, out[..n]);
      NumberedMore(at, rest,
        if t in g.nodes && t !in avoid then [Execute(w, Forked(id), BranchGraph(g, t, avoid), depth + 1, plan, at + [n])] else [], n);
    }
  }

  lemma {:induction false} EmbedNumbered(w: World, depth: nat, g: Graph, plan: bool, at: seq<nat>, subs: seq<Option<Graph>>)
    ensures Numbered(at, Embed(w, depth, g, plan, at, subs), |subs|)
  {
    if subs != [] {
      var n := |subs| - 1;
      EmbedNumbered(w, depth, g, plan, at, subs[..n]);
      var rest := Embed(w, depth, g, plan, at, subs[..n]);
      NumberedMore(at, rest,
        if depth < w.maxDepth && subs[n].Some? then [Execute(w, Embedded, subs[n].value, depth + 1, plan, at + [n])] else [], n);
    }
  }

  // ---- exactly which runs a run starts ----

  /** The run has been in plan mode since it started: no model it visited has left it. */
  ghost predicate StillPlanning(w: World, r: Run, n: nat) {
    && r.plan && n <= |w.visits(r.at)|
    && forall m | 0 <= m < n :: var v := w.visits(r.at)[m];
         v.node in r.graph.nodes && IsModel(r.graph.nodes[v.node]) ==> v.exits.None?
  }

  predicate IsModel(c: NodeConfig) { c.Plain? && (c.kind == "llm" || c.kind == "rag") }

  /** What a branch to `t` keeps out of, and where it may not begin. */
  ghost function ForkAndFanIn(g: Graph, fork: string): set<string> {
    var merge := MergeNode(g, Outgoing(g, fork));
    {fork} + if merge == "" then {} else {merge}
  }

  /** `k` is the run that visit n of `r` starts as its i-th: for each edge of a fork to a
      node other than fork and fan-in node, unless plan mode is on or the edge is the only
      one; for the text of a sub-graph node, the stored flow of a flow node, each item of an
      iteration, and each call of a model that is not held back by plan mode, if there is a
      graph and room for it. */
  ghost predicate Starts(w: World, r: Run, n: nat, i: nat, k: Run) {
    && Dispatches(r.graph) && n < |w.visits(r.at)| && w.visits(r.at)[n].node in r.graph.nodes
    && var v, on := w.visits(r.at)[n], StillPlanning(w, r, n);
    match r.graph.nodes[v.node]
    case Start => false
    case Parallel => !on && StartsBranch(w, r, v.node, n, i, k)
    case SubGraph(json) => i == 0 && StartsEmbedded(w, r, w.parse(json), on, n, i, k)
    case SubFlow(_) => i == 0 && StartsEmbedded(w, r, v.flow, on, n, i, k)
    case Iteration(json) => i < v.items && StartsEmbedded(w, r, w.parse(json), on, n, i, k)
    case Plain(kind, _) =>
      && (kind == "llm" || kind == "rag") && i < |v.calls|
      && (on ==> v.exits.Some? && v.exits.value <= i)
      && StartsEmbedded(w, r, w.parse(v.calls[i]), false, n, i, k)
  }

  ghost predicate StartsBranch(w: World, r: Run, fork: string, n: nat, i: nat, k: Run) {
    && var out := Outgoing(r.graph, fork);
    && |out| >= 2 && i < |out| && out[i].target in r.graph.nodes && out[i].target !in ForkAndFanIn(r.graph, fork)
    && IsBranch(r.graph, out[i].target, ForkAndFanIn(r.graph, fork), k.graph) && k.graph.start == out[i].target
    && k == Execute(w, Forked(fork), k.graph, r.depth + 1, false, r.at + [n, i])
  }

  ghost predicate StartsEmbedded(w: World, r: Run, sub: Option<Graph>, on: bool, n: nat, i: nat, k: Run) {
    && r.depth < w.maxDepth && sub.Some?
    && k == Execute(w, Embedded, sub.value, r.depth + 1, on, r.at + [n, i])
  }

  /** A run starts these runs and no others, each once: visit by visit, and at each visit
      in the order of edges, items and calls. */
  lemma KidsAre(w: World, origin: Origin, g: Graph, depth: nat, plan: bool, at: seq<nat>)
    ensures var r := Execute(w, origin, g, depth, plan, at);
      && r.origin == origin && r.graph == g && r.depth == depth && r.at == at
      && (r.plan <==> plan || (!origin.Forked? && w.plans(at)))
      && (forall k :: k in r.kids <==> exists n, i :: Starts(w, r, n, i, k))
      && (forall x, y, n, i, m, j | InOrder(w, r, x, y, n, i, m, j) :: x < y <==> n < m || (n == m && i < j))
  {
    hide Starts;
    var r := Execute(w, origin, g, depth, plan, at);
    forall k ensures k in r.kids <==> exists n, i :: Starts(w, r, n, i, k) {
      KidIs(w, origin, g, depth, plan, at, k);
    }
    forall x, y, n, i, m, j | InOrder(w, r, x, y, n, i, m, j) ensures x < y <==> n < m || (n == m && i < j) {
      OwnAddresses(w, origin, g, depth, plan, at);
      KidsInOrder(w, r, x, y, n, i, m, j);
    }
  }

  /** The x-th kid is the i-th start of visit n, the y-th the j-th of visit m. */
  ghost predicate InOrder(w: World, r: Run, x: nat, y: nat, n: nat, i: nat, m: nat, j: nat) {
    x < |r.kids| && y < |r.kids| && Starts(w, r, n, i, r.kids[x]) && Starts(w, r, m, j, r.kids[y])
  }

  lemma KidsInOrder(w: World, r: Run, x: nat, y: nat, n: nat, i: nat, m: nat, j: nat)
    requires InOrder(w, r, x, y, n, i, m, j) && Numbered(r.at, r.kids, |w.visits(r.at)|)
    ensures x < y <==> n < m || (n == m && i < j)
  {
    StartsAt(w, r, n, i, r.kids[x]);
    StartsAt(w, r, m, j, r.kids[y]);
    PairPrecedes(r.at, n, i, m, j);
    PairPrecedes(r.at, m, j, n, i);
    hide Starts, Precedes;
    assert x < y ==> Precedes(r.kids[x].at, r.kids[y].at);
    assert y < x ==> Precedes(r.kids[y].at, r.kids[x].at);
  }

  lemma StartsAt(w: World, r: Run, n: nat, i: nat, k: Run)
    requires Starts(w, r, n, i, k)
    ensures k.at == r.at + [n, i]
  {
  }

  lemma KidIs(w: World, origin: Origin, g: Graph, depth: nat, plan: bool, at: seq<nat>, k: Run)
    ensures var r := Execute(w, origin, g, depth, plan, at);
      k in r.kids <==> exists n, i :: Starts(w, r, n, i, k)
  {
    hide Starts, VisitNode;
    var r := Execute(w, origin, g, depth, plan, at);
    if Dispatches(g) { InVisits(w, g, depth, r.plan, at, |w.visits(at)|, k); }
    forall n: nat | Dispatches(g) && n < |w.visits(at)| && w.visits(at)[n].node in g.nodes
      ensures k in VisitNode(w, g, depth, PlanBefore(w, g, r.plan, at, n), at + [n], w.visits(at)[n]) <==> exists i :: Starts(w, r, n, i, k)
    {
      StillOn(w, r, n);
      InNode(w, r, n, k);
    }
    forall n: nat, i: nat | Starts(w, r, n, i, k) ensures Dispatches(g) && n < |w.visits(at)| && w.visits(at)[n].node in g.nodes { StartsThere(w, r, n, i, k); }
  }

  lemma StartsThere(w: World, r: Run, n: nat, i: nat, k: Run)
    requires Starts(w, r, n, i, k)
    ensures Dispatches(r.graph) && n < |w.visits(r.at)| && w.visits(r.at)[n].node in r.graph.nodes
  {
  }

  lemma {:induction false} StillOn(w: World, r: Run, n: nat)
    requires n <= |w.visits(r.at)|
    ensures PlanBefore(w, r.graph, r.plan, r.at, n) == StillPlanning(w, r, n)
  {
    if n > 0 { StillOn(w, r, n - 1); }
  }

  lemma {:induction false} InVisits(w: World, g: Graph, depth: nat, plan: bool, at: seq<nat>, n: nat, k: Run)
    requires n <= |w.visits(at)|
    ensures k in VisitAll(w, g, depth, plan, at, n) <==>
      exists m: nat :: m < n && w.visits(at)[m].node in g.nodes
        && k in VisitNode(w, g, depth, PlanBefore(w, g, plan, at, m), at + [m], w.visits(at)[m])
  {
    hide VisitNode, PlanBefore;
    if n > 0 { InVisits(w, g, depth, plan, at, n - 1, k); }
  }

  lemma InNode(w: World, r: Run, n: nat, k: Run)
    requires Dispatches(r.graph) && n < |w.visits(r.at)| && w.visits(r.at)[n].node in r.graph.nodes
    ensures k in VisitNode(w, r.graph, r.depth, StillPlanning(w, r, n), r.at + [n], w.visits(r.at)[n])
      <==> exists i :: Starts(w, r, n, i, k)
  {
    if r.graph.nodes[w.visits(r.at)[n].node].Parallel? {
      InFork(w, r, n, k);
    } else {
      InOther(w, r, n, k);
    }
  }

  lemma InFork(w: World, r: Run, n: nat, k: Run)
    requires Dispatches(r.graph) && n < |w.visits(r.at)| && w.visits(r.at)[n].node in r.graph.nodes
    requires r.graph.nodes[w.visits(r.at)[n].node].Parallel?
    ensures k in VisitNode(w, r.graph, r.depth, StillPlanning(w, r, n), r.at + [n], w.visits(r.at)[n])
      <==> exists i :: Starts(w, r, n, i, k)
  {
    hide StillPlanning, Execute, BranchAt, MergeNode, Outgoing, Dispatches, Branches;
    var v := w.visits(r.at)[n];
    var out, avoid := Outgoing(r.graph, v.node), ForkAndFanIn(r.graph, v.node);
    assert avoid == Excluded(MergeNode(r.graph, out), v.node);
    InBranches(w, r, v.node, n, avoid, out, k);
    forall i: nat ensures Starts(w, r, n, i, k) <==> !StillPlanning(w, r, n) && StartsBranch(w, r, v.node, n, i, k) { }
    hide Starts;
    forall i: nat | |out| >= 2 && i < |out| { BranchIsIt(w, r, v.node, n, i, k); }
  }

  lemma InOther(w: World, r: Run, n: nat, k: Run)
    requires Dispatches(r.graph) && n < |w.visits(r.at)| && w.visits(r.at)[n].node in r.graph.nodes
    requires !r.graph.nodes[w.visits(r.at)[n].node].Parallel?
    ensures k in VisitNode(w, r.graph, r.depth, StillPlanning(w, r, n), r.at + [n], w.visits(r.at)[n])
      <==> exists i :: Starts(w, r, n, i, k)
  {
    hide StillPlanning, Execute, Dispatches, Embed, Starts, Loads;
    var v, on := w.visits(r.at)[n], StillPlanning(w, r, n);
    var c := r.graph.nodes[v.node];
    InEmbed(w, r.depth, r.graph, on && !Converses(c), r.at + [n], Loads(w, c, on, v), k);
    forall i: nat { LoadedAt(w, r, n, i, k); }
  }

  lemma LoadedAt(w: World, r: Run, n: nat, i: nat, k: Run)
    requires Dispatches(r.graph) && n < |w.visits(r.at)| && w.visits(r.at)[n].node in r.graph.nodes
    requires !r.graph.nodes[w.visits(r.at)[n].node].Parallel?
    ensures var v, on := w.visits(r.at)[n], StillPlanning(w, r, n);
      var c := r.graph.nodes[v.node];
      var subs := Loads(w, c, on, v);
      Starts(w, r, n, i, k) <==> (
        && i < |subs| && r.depth < w.maxDepth && subs[i].Some?
        && k == Execute(w, Embedded, subs[i].value, r.depth + 1, on && !Converses(c), r.at + [n] + [i]))
  {
    hide StillPlanning, Execute, Dispatches;
    assert r.at + [n] + [i] == r.at + [n, i];
  }

  lemma PairPrecedes(at: seq<nat>, n: nat, i: nat, m: nat, j: nat)
    ensures Precedes(at + [n, i], at + [m, j]) <==> n < m || (n == m && i < j)
  {
    var a, b := at + [n, i], at + [m, j];
    assert a[..|at|] == at == b[..|at|];
    assert a[..|at| + 1] == at + [n] && b[..|at| + 1] == at + [m];
    assert a[|at|] == n && b[|at|] == m && a[|at| + 1] == i && b[|at| + 1] == j;
    forall k | 0 <= k < |at| ensures a[k] == b[k] {
    }
    if n < m { assert a[|at|] < b[|at|]; }
    if n == m && i < j { assert a[|at| + 1] < b[|at| + 1]; }
    if Precedes(a, b) {
      var k :| 0 <= k < |a| && k < |b| && a[k] < b[k] && a[..k] == b[..k];
      assert k == |at| || (k == |at| + 1 && a[..k][|at|] == b[..k][|at|]);
    }
  }

  lemma {:induction false} InEmbed(w: World, depth: nat, g: Graph, plan: bool, at: seq<nat>, subs: seq<Option<Graph>>, k: Run)
    ensures k in Embed(w, depth, g, plan, at, subs) <==>
      depth < w.maxDepth && exists i | 0 <= i < |subs| :: subs[i].Some? && k == Execute(w, Embedded, subs[i].value, depth + 1, plan, at + [i])
  {
    hide Execute;
    if subs != [] {
      var n := |subs| - 1;
      InEmbed(w, depth, g, plan, at, subs[..n], k);
      EmbedStep(w, depth, g, plan, at, subs, k);
      assert forall i | 0 <= i < n :: subs[..n][i] == subs[i];
    }
  }

  lemma EmbedStep(w: World, depth: nat, g: Graph, plan: bool, at: seq<nat>, subs: seq<Option<Graph>>, k: Run)
    requires subs != []
    ensures var n := |subs| - 1;
      k in Embed(w, depth, g, plan, at, subs) <==> (
        || k in Embed(w, depth, g, plan, at, subs[..n])
        || (depth < w.maxDepth && subs[n].Some? && k == Execute(w, Embedded, subs[n].value, depth + 1, plan, at + [n])))
  {
    hide Execute;
  }

  lemma {:induction false} InBranches(w: World, r: Run, fork: string, n: nat, avoid: set<string>, out: seq<Edge>, k: Run)
    requires fork in r.graph.nodes && fork in avoid
    ensures k in Branches(w, r.graph, r.depth, false, r.at + [n], fork, avoid, out) <==>
      exists i | 0 <= i < |out| :: BranchAt(w, r, fork, n, i, avoid, out[i].target, k)
  {
    hide BranchAt, Execute, BranchGraph;
    if out != [] {
      var last := |out| - 1;
      InBranches(w, r, fork, n, avoid, out[..last], k);
      BranchesStep(w, r, fork, n, avoid, out, k);
    }
  }

  lemma BranchesStep(w: World, r: Run, fork: string, n: nat, avoid: set<string>, out: seq<Edge>, k: Run)
    requires fork in r.graph.nodes && fork in avoid && out != []
    ensures var last := |out| - 1;
      k in Branches(w, r.graph, r.depth, false, r.at + [n], fork, avoid, out) <==> (
        || k in Branches(w, r.graph, r.depth, false, r.at + [n], fork, avoid, out[..last])
        || BranchAt(w, r, fork, n, last, avoid, out[last].target, k))
  {
    hide Execute, BranchGraph;
    var last := |out| - 1;
    BranchIsSmaller(r.graph, out[last].target, avoid, fork);
    assert r.at + [n] + [last] == r.at + [n, last];
  }

  ghost predicate BranchAt(w: World, r: Run, fork: string, n: nat, i: nat, avoid: set<string>, t: string, k: Run) {
    t in r.graph.nodes && t !in avoid && k == Execute(w, Forked(fork), BranchGraph(r.graph, t, avoid), r.depth + 1, false, r.at + [n, i])
  }

  /** A branch run is given the branch graph, and no other graph is one. */
  lemma BranchIsIt(w: World, r: Run, fork: string, n: nat, i: nat, k: Run)
    requires Dispatches(r.graph)
    requires var out := Outgoing(r.graph, fork); |out| >= 2 && i < |out|
    ensures StartsBranch(w, r, fork, n, i, k)
      <==> BranchAt(w, r, fork, n, i, ForkAndFanIn(r.graph, fork), Outgoing(r.graph, fork)[i].target, k)
  {
    hide Execute, Outgoing, MergeNode, ForkAndFanIn;
    var t, avoid := Outgoing(r.graph, fork)[i].target, ForkAndFanIn(r.graph, fork);
    if t in r.graph.nodes { BranchGraphIs(r.graph, t, avoid); }
    if IsBranch(r.graph, t, avoid, k.graph) && k.graph.start == t {
      BranchGraphOnly(r.graph, t, avoid, k.graph);
    }
    ExecuteIs(w, Forked(fork), BranchGraph(r.graph, t, avoid), r.depth + 1, false, r.at + [n, i]);
  }

  lemma ExecuteIs(w: World, origin: Origin, g: Graph, depth: nat, plan: bool, at: seq<nat>)
    ensures var r := Execute(w, origin, g, depth, plan, at); r.graph == g && r.origin == origin && (plan ==> r.plan)
  {
  }

  lemma BranchGraphIs(g: Graph, target: string, avoid: set<string>)
    requires WellEdged(g) && target in g.nodes
    ensures IsBranch(g, target, avoid, BranchGraph(g, target, avoid))
  {
    forall n | Reaches(g, avoid, target, n) ensures n in g.nodes {
      var k: nat :| Walk(g, avoid, target, n, k);
      WalksStayOnNodes(g, avoid, target, n, k);
    }
    assert BranchGraph(g, target, avoid).nodes.Keys == set n | n in g.nodes && Reaches(g, avoid, target, n);
  }

  lemma BranchGraphOnly(g: Graph, target: string, avoid: set<string>, sub: Graph)
    requires IsBranch(g, target, avoid, sub) && sub.start == target
    ensures sub == BranchGraph(g, target, avoid)
  {
    var keep := set n | n in g.nodes && Reaches(g, avoid, target, n);
    assert sub.nodes.Keys == keep;
    assert sub.nodes == map n | n in keep :: g.nodes[n];
  }
}
