/** Parallel fan-out: the search for the node where branches meet again, and the
    sub-graph each branch runs. */
module FanOut {
  import opened Graphs

  // ---- the fan-in node ----

  /** Reachable from every branch target and itself no branch target. */
  ghost predicate FanIn(g: Graph, outgoing: seq<Edge>, n: string) {
    && n !in Targets(outgoing)
    && forall i | 0 <= i < |outgoing| :: Reaches(g, {}, outgoing[i].target, n)
  }

  ghost function FirstFanIn(g: Graph, outgoing: seq<Edge>, order: seq<string>): string {
    if order == [] then ""
    else if FanIn(g, outgoing, order[0]) then order[0]
    else FirstFanIn(g, outgoing, order[1..])
  }

  /** The fan-in node that the first branch discovers first; "" when there is none. */
  ghost function MergeNode(g: Graph, outgoing: seq<Edge>): string {
    if |outgoing| < 2 then "" else FirstFanIn(g, outgoing, DiscoveryOrder(g, outgoing[0].target))
  }

  method ReachableFrom(g: Graph, start: string) returns (visited: set<string>, order: seq<string>)
    ensures order == DiscoveryOrder(g, start)
    ensures forall b :: b in visited <==> Reaches(g, {}, start, b)
  {
    ghost var u := Universe(g, start);
    visited, order := {}, [];
    var queue := [start];
    while queue != []
      invariant forall q | q in queue :: q in u
      invariant order + Search(g, queue, visited, u) == DiscoveryOrder(g, start)
      invariant forall b :: b in visited <==> b in order
      decreases u - visited, |queue|
    {
      var cur := queue[0];
      queue := queue[1..];
      if cur in visited { continue; }
      visited := visited + {cur};
      order := order + [cur];
      ghost var rest := queue;
      var out := Outgoing(g, cur);
      for i := 0 to |out|
        invariant queue == rest + Targets(out)[..i]
      {
        queue := queue + [out[i].target];
      }
      assert Targets(out)[..|out|] == Targets(out);
      TargetsAreLinked(g, cur);
    }
    assert order == DiscoveryOrder(g, start);
    var _ := DiscoveryIsByDistance(g, start);
  }

  method FindMergeNode(g: Graph, outgoing: seq<Edge>) returns (r: string)
    ensures r == MergeNode(g, outgoing)
  {
    if |outgoing| < 2 { return ""; }
    var common, order := ReachableFrom(g, outgoing[0].target);
    for i := 1 to |outgoing|
      invariant forall b :: b in common <==> forall j | 0 <= j < i :: Reaches(g, {}, outgoing[j].target, b)
    {
      var s, _ := ReachableFrom(g, outgoing[i].target);
      common := common * s;
    }
    common := common - (set t | t in Targets(outgoing));
    assert forall b :: b in common <==> FanIn(g, outgoing, b);
    if common == {} {
      NoFanIn(g, outgoing, order);
      return "";
    }
    assert order[0..] == order;
    for i := 0 to |order|
      invariant FirstFanIn(g, outgoing, order[i..]) == MergeNode(g, outgoing)
    {
      if order[i] in common { return order[i]; }
      assert order[i..][1..] == order[i + 1..];
    }
    return "";
  }

  lemma {:induction false} NoFanIn(g: Graph, outgoing: seq<Edge>, order: seq<string>)
    requires forall b | b in order :: !FanIn(g, outgoing, b)
    ensures FirstFanIn(g, outgoing, order) == ""
  {
    if order != [] { NoFanIn(g, outgoing, order[1..]); }
  }

  lemma {:induction false} FirstFanInIs(g: Graph, outgoing: seq<Edge>, order: seq<string>) returns (i: nat)
    ensures i <= |order| && forall j | 0 <= j < i :: !FanIn(g, outgoing, order[j])
    ensures i < |order| ==> FanIn(g, outgoing, order[i]) && FirstFanIn(g, outgoing, order) == order[i]
    ensures i == |order| ==> FirstFanIn(g, outgoing, order) == ""
  {
    if order == [] || FanIn(g, outgoing, order[0]) {
      i := 0;
    } else {
      var k := FirstFanInIs(g, outgoing, order[1..]);
      i := k + 1;
      assert forall j | 1 <= j < i :: order[j] == order[1..][j - 1];
    }
  }

  /** The merge search is exact on every graph, cyclic or not: it finds nothing
      iff there is no fan-in node, and otherwise a fan-in node at least as near to
      the first branch's target as every other. */
  lemma MergeIsNearestFanIn(g: Graph, outgoing: seq<Edge>)
    requires |outgoing| >= 2
    ensures var r := MergeNode(g, outgoing);
      || (r == "" && forall n :: !FanIn(g, outgoing, n))
      || (FanIn(g, outgoing, r) && exists d: nat ::
            Distance(g, {}, outgoing[0].target, r, d)
            && forall n, k: nat :: FanIn(g, outgoing, n) && Distance(g, {}, outgoing[0].target, n, k) ==> d <= k)
  {
    hide DiscoveryOrder, FirstFanIn, Distance, Reaches, Walk;
    var t := outgoing[0].target;
    var order := DiscoveryOrder(g, t);
    var level := DiscoveryIsByDistance(g, t);
    var i := FirstFanInIs(g, outgoing, order);
    forall n | FanIn(g, outgoing, n) ensures n in order {
      assert Reaches(g, {}, outgoing[0].target, n);
    }
    if i < |order| {
      var d := level[i];
      forall n, k: nat | FanIn(g, outgoing, n) && Distance(g, {}, t, n, k) ensures d <= k {
        var j :| 0 <= j < |order| && order[j] == n;
        DistanceUnique(g, t, n, k, level[j]);
      }
    }
  }

  lemma DistanceUnique(g: Graph, a: string, b: string, m: nat, n: nat)
    requires Distance(g, {}, a, b, m) && Distance(g, {}, a, b, n)
    ensures m == n
  {
  }

  // ---- the sub-graph of one branch ----

  datatype BranchResult = NoBranch | MissingNode | Branch(sub: Graph)

  function Excluded(merge: string, parallel: string): set<string> {
    if merge != "" then {merge, parallel} else {parallel}
  }

  function Induced(edges: seq<Edge>, keep: set<string>): seq<Edge> {
    if edges == [] then []
    else if edges[0].source in keep && edges[0].target in keep then [edges[0]] + Induced(edges[1..], keep)
    else Induced(edges[1..], keep)
  }

  /** The edges among the kept nodes, each as often as it stands in the list, in list order. */
  lemma {:induction false} InducedInOrder(edges: seq<Edge>, keep: set<string>) returns (places: seq<nat>)
    ensures Picks(edges, places, Induced(edges, keep))
    ensures forall j: nat | j < |edges| :: j in places <==> edges[j].source in keep && edges[j].target in keep
  {
    hide Picks;
    if edges == [] {
      places := NoPlaces();
    } else {
      var e := edges[0];
      var rest := InducedInOrder(edges[1..], keep);
      places := PicksMore(edges[1..], rest, Induced(edges[1..], keep), e, e.source in keep && e.target in keep);
      assert [e] + edges[1..] == edges;
      assert (if e.source in keep && e.target in keep then [e] else []) + Induced(edges[1..], keep) == Induced(edges, keep);
      assert forall j: nat | 0 < j < |edges| :: edges[j] == edges[1..][j - 1];
    }
  }

  /** `sub` is the part of `g` that a branch can reach from `target` without
      entering `avoid`: exactly those nodes, with the edges among them in order. */
  ghost predicate IsBranch(g: Graph, target: string, avoid: set<string>, sub: Graph) {
    && (forall n :: n in sub.nodes <==> Reaches(g, avoid, target, n))
    && (forall n | n in sub.nodes :: n in g.nodes && sub.nodes[n] == g.nodes[n])
    && sub.edges == Induced(g.edges, sub.nodes.Keys)
    && (target != "" ==> sub.start == target)
  }

  /** A set holding `target` and closed under edges that do not enter `avoid`
      holds everything a walk can reach. */
  lemma {:induction false} ClosedHoldsWalks(g: Graph, avoid: set<string>, target: string, s: set<string>, b: string, n: nat)
    requires target in s && Walk(g, avoid, target, b, n)
    requires forall v, w | v in s && Linked(g, v, w) && w !in avoid :: w in s
    ensures b in s
    decreases n
  {
    if n > 0 {
      var m :| Walk(g, avoid, target, m, n - 1) && Linked(g, m, b);
      ClosedHoldsWalks(g, avoid, target, s, m, n - 1);
    }
  }

  lemma ReachStep(g: Graph, avoid: set<string>, a: string, m: string, b: string)
    requires Reaches(g, avoid, a, m) && Linked(g, m, b) && b !in avoid
    ensures Reaches(g, avoid, a, b)
  {
    var n: nat :| Walk(g, avoid, a, m, n);
    assert Walk(g, avoid, a, b, n + 1);
  }

  method BuildBranchSubgraph(g: Graph, target: string, merge: string, parallel: string) returns (r: BranchResult)
    ensures r.NoBranch? <==> target !in g.nodes || target in Excluded(merge, parallel)
    ensures r.MissingNode? <==> !r.NoBranch? && exists n :: n !in g.nodes && Reaches(g, Excluded(merge, parallel), target, n)
    ensures r.Branch? ==> IsBranch(g, target, Excluded(merge, parallel), r.sub)
  {
    if target !in g.nodes { return NoBranch; }
    var excluded := Excluded(merge, parallel);
    var branchNodes := CollectBranch(g, target, excluded);
    TargetReached(g, target, excluded);
    if branchNodes == {} {
      return NoBranch;
    }
    assert Reaches(g, excluded, target, target) by {
      var n :| n in branchNodes;
      StartAllowed(g, excluded, target, n);
    }
    var copied := CopyNodes(g, target, branchNodes);
    if copied.MissingNode? { return MissingNode; }
    var edges := CopyEdges(g.edges, branchNodes);
    return Branch(copied.sub.(edges := edges));
  }

  /** Copies the edges with both ends among the collected nodes, in order. */
  method CopyEdges(edges: seq<Edge>, ids: set<string>) returns (r: seq<Edge>)
    ensures r == Induced(edges, ids)
  {
    r := [];
    assert edges[0..] == edges;
    for i := 0 to |edges|
      invariant r + Induced(edges[i..], ids) == Induced(edges, ids)
    {
      var e := edges[i];
      assert edges[i..][1..] == edges[i + 1..];
      if e.source in ids && e.target in ids { r := r + [e]; }
    }
  }

  /** Copies the collected nodes, in any order; an id that is no node is fatal. */
  method CopyNodes(g: Graph, start: string, ids: set<string>) returns (r: BranchResult)
    ensures r.MissingNode? <==> exists n :: n in ids && n !in g.nodes
    ensures !r.NoBranch?
    ensures r.Branch? ==>
      && r.sub.nodes.Keys == ids && (forall n | n in ids :: r.sub.nodes[n] == g.nodes[n])
      && r.sub.edges == [] && (start != "" ==> r.sub.start == start)
  {
    var sub := Graph(map[], [], start);
    var todo := ids;
    while todo != {}
      invariant todo <= ids && sub.nodes.Keys == ids - todo && sub.edges == []
      invariant forall n | n in sub.nodes :: n in g.nodes && sub.nodes[n] == g.nodes[n]
      invariant start != "" ==> sub.start == start
      decreases todo
    {
      var nid :| nid in todo;
      if nid !in g.nodes { return MissingNode; }
      sub := AddNode(sub, nid, g.nodes[nid]);
      todo := todo - {nid};
    }
    return Branch(sub);
  }

  /** `add_node`: a graph without a start takes the first start node it gets. */
  function AddNode(g: Graph, id: string, config: NodeConfig): Graph {
    g.(nodes := g.nodes[id := config], start := if g.start == "" && config.Start? then id else g.start)
  }

  lemma {:induction false} StartAllowed(g: Graph, avoid: set<string>, a: string, b: string)
    requires Reaches(g, avoid, a, b)
    ensures a !in avoid && Reaches(g, avoid, a, a)
  {
    var n: nat :| Walk(g, avoid, a, b, n);
    WalkStarts(g, avoid, a, b, n);
    assert Walk(g, avoid, a, a, 0);
  }

  lemma {:induction false} WalkStarts(g: Graph, avoid: set<string>, a: string, b: string, n: nat)
    requires Walk(g, avoid, a, b, n)
    ensures a !in avoid
    decreases n
  {
    if n > 0 {
      var m :| Walk(g, avoid, a, m, n - 1) && Linked(g, m, b);
      WalkStarts(g, avoid, a, m, n - 1);
    }
  }

  lemma TargetReached(g: Graph, target: string, avoid: set<string>)
    ensures target !in avoid ==> Reaches(g, avoid, target, target)
  {
    assert target !in avoid ==> Walk(g, avoid, target, target, 0);
  }

  method CollectBranch(g: Graph, target: string, excluded: set<string>) returns (branchNodes: set<string>)
    ensures forall n :: n in branchNodes <==> Reaches(g, excluded, target, n)
  {
    ghost var u := Universe(g, target);
    branchNodes := {};
    var queue := [target];
    TargetReached(g, target, excluded);
    while queue != []
      invariant branchNodes <= u && forall q | q in queue :: q in u
      invariant forall n | n in branchNodes :: Reaches(g, excluded, target, n)
      invariant forall q | q in queue && q !in excluded :: Reaches(g, excluded, target, q)
      invariant target in branchNodes || target in queue || target in excluded
      invariant forall v, w | v in branchNodes && Linked(g, v, w) && w !in excluded :: w in branchNodes || w in queue
      decreases u - branchNodes, |queue|
    {
      var cur := queue[0];
      ghost var before := queue;
      queue := queue[1..];
      if cur in branchNodes || cur in excluded {
        assert before == [cur] + queue;
        continue;
      }
      branchNodes := branchNodes + {cur};
      var out := Outgoing(g, cur);
      TargetsAreLinked(g, cur);
      ghost var rest := queue;
      assert before == [cur] + rest;
      for i := 0 to |out|
        invariant rest <= queue && forall q | q in queue :: q in rest || (q !in excluded && Linked(g, cur, q))
        invariant forall j | 0 <= j < i && out[j].target !in excluded :: out[j].target in queue
      {
        assert Targets(out)[i] == out[i].target;
        if out[i].target !in excluded { queue := queue + [out[i].target]; }
      }
      forall q | q in queue ensures q in u && (q !in excluded ==> Reaches(g, excluded, target, q)) {
        if q !in rest { ReachStep(g, excluded, target, cur, q); }
      }
      forall w | Linked(g, cur, w) && w !in excluded ensures w in queue {
        var j :| 0 <= j < |out| && Targets(out)[j] == w;
        assert out[j].target == w;
      }
      assert forall q :: q in rest ==> q in queue;
    }
    forall n | Reaches(g, excluded, target, n) ensures n in branchNodes {
      StartAllowed(g, excluded, target, n);
      var k: nat :| Walk(g, excluded, target, n, k);
      ClosedHoldsWalks(g, excluded, target, branchNodes, n, k);
    }
  }

  // ---- what the branch graphs are good for ----

  lemma {:induction false} InducedAre(edges: seq<Edge>, keep: set<string>, e: Edge)
    ensures e in Induced(edges, keep) <==> e in edges && e.source in keep && e.target in keep
  {
    if edges != [] {
      InducedAre(edges[1..], keep, e);
      assert edges == [edges[0]] + edges[1..];
    }
  }

  /** A branch is left only into the nodes it must avoid. */
  lemma BranchIsClosed(g: Graph, target: string, avoid: set<string>, sub: Graph, e: Edge)
    requires IsBranch(g, target, avoid, sub) && e in g.edges && e.source in sub.nodes
    ensures e in sub.edges || e.target in avoid
  {
    if e.target !in avoid {
      ReachStep(g, avoid, target, e.source, e.target);
    }
    InducedAre(g.edges, sub.nodes.Keys, e);
  }

  /** Every edge joins nodes of the graph. */
  predicate WellEdged(g: Graph) {
    forall e | e in g.edges :: e.source in g.nodes && e.target in g.nodes
  }

  /** The structural part of `validate`: the dispatcher refuses anything else. */
  ghost predicate Validates(g: Graph) {
    && g.start != "" && g.start in g.nodes && WellEdged(g)
    && forall n | n in g.nodes :: Reaches(g, {}, g.start, n)
  }

  lemma {:induction false} WalkInside(g: Graph, avoid: set<string>, target: string, sub: Graph, b: string, n: nat)
    requires IsBranch(g, target, avoid, sub) && Walk(g, avoid, target, b, n)
    ensures Walk(sub, {}, target, b, n)
    decreases n
  {
    if n > 0 {
      var m :| Walk(g, avoid, target, m, n - 1) && Linked(g, m, b);
      WalkInside(g, avoid, target, sub, m, n - 1);
      var e :| e in g.edges && e.source == m && e.target == b;
      assert Reaches(g, avoid, target, m) && Reaches(g, avoid, target, b);
      InducedAre(g.edges, sub.nodes.Keys, e);
      assert Linked(sub, m, b);
    }
  }

  /** The graph cut out for a branch passes the dispatcher's validation. */
  lemma BranchValidates(g: Graph, target: string, avoid: set<string>, sub: Graph)
    requires IsBranch(g, target, avoid, sub) && target != "" && target !in avoid
    ensures Validates(sub)
  {
    TargetReached(g, target, avoid);
    forall e | e in sub.edges ensures e.source in sub.nodes && e.target in sub.nodes {
      InducedAre(g.edges, sub.nodes.Keys, e);
    }
    forall n | n in sub.nodes ensures Reaches(sub, {}, sub.start, n) {
      var k: nat :| Walk(g, avoid, target, n, k);
      WalkInside(g, avoid, target, sub, n, k);
    }
  }

  // ---- a model to run with ----

  predicate IsLlm(c: NodeConfig) { c.Plain? && c.kind == "llm" }

  /** The dispatcher takes its model from the nodes, and insists on one if any of them is
      an LLM node. */
  ghost predicate HasModel(g: Graph) {
    (exists n :: n in g.nodes && IsLlm(g.nodes[n])) ==> exists n :: n in g.nodes && IsLlm(g.nodes[n]) && g.nodes[n].model != ""
  }

  /** A branch is turned away for want of a model exactly when it comes by an LLM node and
      by none that names a model, wherever else in the graph one is named. */
  lemma BranchLacksModelIff(g: Graph, target: string, avoid: set<string>, sub: Graph)
    requires IsBranch(g, target, avoid, sub)
    ensures !HasModel(sub) <==>
      && (exists n :: n in g.nodes && IsLlm(g.nodes[n]) && Reaches(g, avoid, target, n))
      && (forall n :: n in g.nodes && IsLlm(g.nodes[n]) && Reaches(g, avoid, target, n) ==> g.nodes[n].model == "")
  {
    assert forall n :: n in sub.nodes <==> n in g.nodes && Reaches(g, avoid, target, n);
    if n :| n in g.nodes && IsLlm(g.nodes[n]) && Reaches(g, avoid, target, n) {
      assert n in sub.nodes && IsLlm(sub.nodes[n]);
    }
  }

  /** Two LLM nodes behind a fork, of which only one names a model. */
  function HalfNamed(p: string, a: string, b: string, model: string): Graph {
    Graph(map[p := Parallel, a := Plain("llm", model), b := Plain("llm", "")], [Edge(p, a, ""), Edge(p, b, "")], p)
  }

  /** So a graph that runs can have a branch that does not. */
  lemma NamelessBranch(p: string, a: string, b: string, model: string, sub: Graph)
    requires p != "" && b != "" && p != a && p != b && a != b && model != ""
    requires var g := HalfNamed(p, a, b, model); IsBranch(g, b, Excluded(MergeNode(g, Outgoing(g, p)), p), sub)
    ensures var g := HalfNamed(p, a, b, model); Validates(g) && HasModel(g) && Validates(sub) && !HasModel(sub)
  {
    var g := HalfNamed(p, a, b, model);
    assert IsLlm(g.nodes[a]);
    assert Walk(g, {}, p, p, 0) && g.edges[0] in g.edges && g.edges[1] in g.edges;
    assert Linked(g, p, a) && Linked(g, p, b);
    assert Walk(g, {}, p, a, 1) && Walk(g, {}, p, b, 1);
    HalfNamedMerges(p, a, b, model);
    var avoid := Excluded("", p);
    BranchValidates(g, b, avoid, sub);
    BranchLacksModelIff(g, b, avoid, sub);
    assert Walk(g, avoid, b, b, 0);
    forall n | Reaches(g, avoid, b, n) ensures n == b {
      var k: nat :| Walk(g, avoid, b, n, k);
      ClosedHoldsWalks(g, avoid, b, {b}, n, k);
    }
  }

  lemma HalfNamedMerges(p: string, a: string, b: string, model: string)
    requires p != a && p != b && a != b
    ensures var g := HalfNamed(p, a, b, model); MergeNode(g, Outgoing(g, p)) == ""
  {
    var g := HalfNamed(p, a, b, model);
    var es := g.edges;
    assert Outgoing(g, p) == es by {
      assert es[1..] == [es[1]] && es[1..][1..] == [];
      assert EdgesFrom(es[1..], p) == [es[1]];
    }
    assert Targets(es)[0] == a && Targets(es)[1] == b;
    MergeIsNearestFanIn(g, es);
    forall n | Reaches(g, {}, a, n) ensures n == a {
      var k: nat :| Walk(g, {}, a, n, k);
      ClosedHoldsWalks(g, {}, a, {a}, n, k);
    }
  }

  lemma {:induction false} WalksStayOnNodes(g: Graph, avoid: set<string>, a: string, b: string, n: nat)
    requires WellEdged(g) && a in g.nodes && Walk(g, avoid, a, b, n)
    ensures b in g.nodes
  {
    if n > 0 {
      var m :| Walk(g, avoid, a, m, n - 1) && Linked(g, m, b);
    }
  }

  /** Fan-out at node `p` of a well-edged graph, branch by branch: the build fails
      only for an edge from `p` to itself, never for a missing node, and what it
      builds validates, avoids both `p` and the merge node, is strictly smaller
      than the graph, and is left only into those two. */
  lemma FanOutIsSound(g: Graph, p: string, i: nat)
    requires WellEdged(g) && i < |Outgoing(g, p)| && |Outgoing(g, p)| >= 2
    ensures var t := Outgoing(g, p)[i].target;
      var merge := MergeNode(g, Outgoing(g, p));
      var avoid := Excluded(merge, p);
      && p in g.nodes && t in g.nodes
      && (t in avoid <==> t == p)
      && (forall n :: Reaches(g, avoid, t, n) ==> n in g.nodes)
      && forall sub | t != p && t != "" && IsBranch(g, t, avoid, sub) ::
           && Validates(sub)
           && p !in sub.nodes && (merge != "" ==> merge !in sub.nodes)
           && |sub.nodes| < |g.nodes|
           && forall e | e in g.edges && e.source in sub.nodes && e !in sub.edges :: e.target == p || e.target == merge
  {
    var out := Outgoing(g, p);
    var t, merge := out[i].target, MergeNode(g, out);
    var avoid := Excluded(merge, p);
    EdgesFromAre(g.edges, p, out[i]);
    MergeIsNearestFanIn(g, out);
    assert Targets(out)[i] == t;
    forall n | Reaches(g, avoid, t, n) ensures n in g.nodes {
      var k: nat :| Walk(g, avoid, t, n, k);
      WalksStayOnNodes(g, avoid, t, n, k);
    }
    forall sub | t != p && t != "" && IsBranch(g, t, avoid, sub)
      ensures Validates(sub) && p !in sub.nodes && (merge != "" ==> merge !in sub.nodes)
      ensures |sub.nodes| < |g.nodes|
      ensures forall e | e in g.edges && e.source in sub.nodes && e !in sub.edges :: e.target == p || e.target == merge
    {
      BranchValidates(g, t, avoid, sub);
      assert p in avoid && forall n: string, k: nat :: Walk(g, avoid, t, n, k) ==> n !in avoid;
      SmallerMap(sub.nodes.Keys, g.nodes.Keys, p);
      forall e | e in g.edges && e.source in sub.nodes && e !in sub.edges ensures e.target in avoid {
        BranchIsClosed(g, t, avoid, sub, e);
      }
    }
  }

  lemma SmallerMap(a: set<string>, b: set<string>, x: string)
    requires a <= b && x in b && x !in a
    ensures |a| < |b|
  {
    assert a <= b - {x};
    Subset(a, b - {x});
  }

  lemma {:induction false} Subset(a: set<string>, b: set<string>)
    requires a <= b
    ensures |a| <= |b|
  {
    if x :| x in a { Subset(a - {x}, b - {x}); }
  }

  /** No fan-in node but p is discovered before p from the first branch. */
  ghost predicate FirstToMerge(g: Graph, outgoing: seq<Edge>, p: string) {
    exists i :: FirstAt(g, outgoing, p, i)
  }

  ghost predicate FirstAt(g: Graph, outgoing: seq<Edge>, p: string, i: nat)
  {
    |outgoing| > 0 &&
    var order := DiscoveryOrder(g, outgoing[0].target);
    i < |order| && order[i] == p && forall j | 0 <= j < i :: !FanIn(g, outgoing, order[j])
  }

  /** The search follows edges back through the fork: a node, the fork itself not
      excepted, is taken for the fan-in node exactly when it is one and no other is
      discovered before it. The fork is one when no edge joins it to itself and every
      branch loops back to it. */
  lemma ForkMergesAtItselfIff(g: Graph, p: string)
    requires |Outgoing(g, p)| >= 2 && p != ""
    ensures var out := Outgoing(g, p);
      && (MergeNode(g, out) == p <==> FanIn(g, out, p) && FirstToMerge(g, out, p))
      && (FanIn(g, out, p) <==> !Linked(g, p, p) && forall i | 0 <= i < |out| :: Reaches(g, {}, out[i].target, p))
  {
    var out := Outgoing(g, p);
    var order := DiscoveryOrder(g, out[0].target);
    var level := DiscoveryIsByDistance(g, out[0].target);
    var i := FirstFanInIs(g, out, order);
    TargetsAreLinked(g, p);
    if MergeNode(g, out) == p {
      assert i < |order| && FirstAt(g, out, p, i);
    }
    if FanIn(g, out, p) && FirstToMerge(g, out, p) {
      var k: nat :| FirstAt(g, out, p, k);
      assert order[k] == p && FanIn(g, out, order[k]);
      assert i == k;
    }
  }

  /** So a fork that all branches loop back to, with every other fan-in node farther
      from the first branch, is its own fan-in node; with one that is nearer, it is not. */
  lemma NearForkMergesAtItself(g: Graph, p: string, d: nat)
    requires |Outgoing(g, p)| >= 2 && p != ""
    requires var out := Outgoing(g, p); FanIn(g, out, p) && Distance(g, {}, out[0].target, p, d)
    ensures var out := Outgoing(g, p); var t := out[0].target;
      && ((forall n, k: nat :: n != p && FanIn(g, out, n) && Distance(g, {}, t, n, k) ==> d < k) ==> MergeNode(g, out) == p)
      && ((exists n, k: nat :: FanIn(g, out, n) && Distance(g, {}, t, n, k) && k < d) ==> MergeNode(g, out) != p)
  {
    var out := Outgoing(g, p);
    var t := out[0].target;
    MergeIsNearestFanIn(g, out);
    var r := MergeNode(g, out);
    assert FanIn(g, out, r);
    var m: nat :| Distance(g, {}, t, r, m)
      && forall n, k: nat :: FanIn(g, out, n) && Distance(g, {}, t, n, k) ==> m <= k;
    if r == p { DistanceUnique(g, t, p, d, m); }
  }

  /** Two LLM nodes behind a fork that lead straight back to it. */
  function LoopBack(p: string, a: string, b: string, model: string): Graph {
    Graph(map[p := Parallel, a := Plain("llm", model), b := Plain("llm", model)],
      [Edge(p, a, ""), Edge(p, b, ""), Edge(a, p, ""), Edge(b, p, "")], p)
  }

  lemma LoopBackForks(p: string, a: string, b: string, model: string)
    requires p != a && p != b && a != b
    ensures var g := LoopBack(p, a, b, model); Outgoing(g, p) == [Edge(p, a, ""), Edge(p, b, "")]
  {
    var es := LoopBack(p, a, b, model).edges;
    assert es[1..] == [es[1], es[2], es[3]] && es[1..][1..] == [es[2], es[3]];
    assert EdgesFrom([es[3]], p) == [];
    assert EdgesFrom([es[2], es[3]], p) == EdgesFrom([es[2], es[3]][1..], p) == [];
    assert EdgesFrom(es[1..], p) == [es[1]];
  }

  /** The smallest graph that takes the fork for its own fan-in node. */
  lemma LoopBackMergesAtTheFork(p: string, a: string, b: string, model: string)
    requires p != a && p != b && a != b
    ensures var g := LoopBack(p, a, b, model); MergeNode(g, Outgoing(g, p)) == p
  {
    var g := LoopBack(p, a, b, model);
    LoopBackForks(p, a, b, model);
    LoopBackFansIn(p, a, b, model);
    var out := Outgoing(g, p);
    MergeIsNearestFanIn(g, out);
    var r := MergeNode(g, out);
    assert Targets(out) == [a, b] && Targets(out)[0] == a && Targets(out)[1] == b;
    LoopBackReaches(p, a, b, model, r);
  }

  lemma LoopBackFansIn(p: string, a: string, b: string, model: string)
    requires p != a && p != b && a != b
    ensures var g := LoopBack(p, a, b, model); FanIn(g, Outgoing(g, p), p)
  {
    var g := LoopBack(p, a, b, model);
    LoopBackForks(p, a, b, model);
    hide EdgesFrom;
    assert Walk(g, {}, a, a, 0) && Walk(g, {}, b, b, 0);
    assert g.edges[2] in g.edges && g.edges[3] in g.edges;
    assert Linked(g, a, p) && Linked(g, b, p);
    assert Walk(g, {}, a, p, 1) && Walk(g, {}, b, p, 1);
    assert Targets(Outgoing(g, p)) == [a, b];
  }

  lemma LoopBackReaches(p: string, a: string, b: string, model: string, r: string)
    requires var g := LoopBack(p, a, b, model); Reaches(g, {}, a, r)
    ensures r in {a, b, p}
  {
    var g := LoopBack(p, a, b, model);
    var n: nat :| Walk(g, {}, a, r, n);
    ClosedHoldsWalks(g, {}, a, {a, b, p}, r, n);
  }
}
