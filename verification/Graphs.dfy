/** Agent graphs: nodes by id, an ordered edge list, walks and hop distance, and
    breadth-first discovery order. */
module Graphs {

  datatype Edge = Edge(source: string, target: string, tag: string)

  /** What a node does when the runtime reaches it; everything but nesting is
      abstracted to `Plain`, with the model it names, if any. */
  datatype NodeConfig =
    | Start
    | Plain(kind: string, model: string)
    | Parallel
    | SubGraph(graphJson: string)
    | SubFlow(flowId: string)
    | Iteration(graphJson: string)

  datatype Graph = Graph(nodes: map<string, NodeConfig>, edges: seq<Edge>, start: string)

  /** `get_outgoing_edges`: the edges of a node, in list order. */
  function EdgesFrom(edges: seq<Edge>, id: string): seq<Edge> {
    if edges == [] then []
    else if edges[0].source == id then [edges[0]] + EdgesFrom(edges[1..], id)
    else EdgesFrom(edges[1..], id)
  }

  function Outgoing(g: Graph, id: string): seq<Edge> { EdgesFrom(g.edges, id) }

  function Targets(edges: seq<Edge>): seq<string> {
    seq(|edges|, i requires 0 <= i < |edges| => edges[i].target)
  }

  predicate Linked(g: Graph, a: string, b: string) {
    exists e :: e in g.edges && e.source == a && e.target == b
  }

  lemma {:induction false} EdgesFromAre(edges: seq<Edge>, id: string, e: Edge)
    ensures e in EdgesFrom(edges, id) <==> e in edges && e.source == id
  {
    if edges != [] {
      EdgesFromAre(edges[1..], id, e);
      assert edges == [edges[0]] + edges[1..];
    }
  }

  /** `part` is what stands at these places of `es`, in order. */
  ghost predicate Picks(es: seq<Edge>, places: seq<nat>, part: seq<Edge>) {
    && |places| == |part|
    && (forall i | 0 <= i < |places| :: places[i] < |es| && part[i] == es[places[i]])
    && (forall i, j | 0 <= i < j < |places| :: places[i] < places[j])
  }

  lemma PicksMore(es: seq<Edge>, places: seq<nat>, part: seq<Edge>, e: Edge, kept: bool) returns (more: seq<nat>)
    requires Picks(es, places, part)
    ensures Picks([e] + es, more, (if kept then [e] else []) + part)
    ensures forall j: nat :: j in more <==> if j == 0 then kept else j - 1 in places
  {
    var shifted := Shifted(places);
    more := (if kept then [0] else []) + shifted;
  }

  lemma Shifted(places: seq<nat>) returns (shifted: seq<nat>)
    ensures |shifted| == |places| && forall i | 0 <= i < |places| :: shifted[i] == places[i] + 1
    ensures forall j: nat :: j in shifted <==> j > 0 && j - 1 in places
  {
    shifted := seq(|places|, i requires 0 <= i < |places| => places[i] + 1);
    forall j: nat ensures j in shifted <==> j > 0 && j - 1 in places {
      if j > 0 && j - 1 in places {
        var i :| 0 <= i < |places| && places[i] == j - 1;
        assert shifted[i] == j;
      }
    }
  }

  /** A node's outgoing edges are the edges that leave it, each as often as it stands in
      the list, in list order. */
  lemma {:induction false} OutgoingInOrder(edges: seq<Edge>, id: string) returns (places: seq<nat>)
    ensures Picks(edges, places, EdgesFrom(edges, id))
    ensures forall j: nat | j < |edges| :: j in places <==> edges[j].source == id
  {
    hide Picks;
    if edges == [] {
      places := NoPlaces();
    } else {
      var rest := OutgoingInOrder(edges[1..], id);
      places := PicksMore(edges[1..], rest, EdgesFrom(edges[1..], id), edges[0], edges[0].source == id);
      assert [edges[0]] + edges[1..] == edges;
      assert (if edges[0].source == id then [edges[0]] else []) + EdgesFrom(edges[1..], id) == EdgesFrom(edges, id);
      assert forall j: nat | 0 < j < |edges| :: edges[j] == edges[1..][j - 1];
    }
  }

  lemma NoPlaces() returns (places: seq<nat>)
    ensures places == [] && Picks([], places, [])
  {
    places := [];
  }

  lemma TargetsAreLinked(g: Graph, a: string)
    ensures forall b :: b in Targets(Outgoing(g, a)) <==> Linked(g, a, b)
  {
    forall e { EdgesFromAre(g.edges, a, e); }
    forall b ensures b in Targets(Outgoing(g, a)) <==> Linked(g, a, b) {
      var es := Outgoing(g, a);
      if b in Targets(es) {
        var i :| 0 <= i < |es| && Targets(es)[i] == b;
        assert es[i] in es;
      }
      if Linked(g, a, b) {
        var e :| e in g.edges && e.source == a && e.target == b;
        assert e in es;
        var i :| 0 <= i < |es| && es[i] == e;
        assert Targets(es)[i] == b;
      }
    }
  }

  // ---- walks that avoid a set of nodes ----

  /** A walk of `n` edges from `a` to `b` on which no node is in `avoid`. */
  ghost predicate Walk(g: Graph, avoid: set<string>, a: string, b: string, n: nat)
    decreases n
  {
    b !in avoid && if n == 0 then a == b else exists m :: Walk(g, avoid, a, m, n - 1) && Linked(g, m, b)
  }

  ghost predicate Reaches(g: Graph, avoid: set<string>, a: string, b: string) {
    exists n: nat :: Walk(g, avoid, a, b, n)
  }

  /** `n` is the hop distance from `a` to `b`. */
  ghost predicate Distance(g: Graph, avoid: set<string>, a: string, b: string, n: nat) {
    Walk(g, avoid, a, b, n) && forall k: nat | k < n :: !Walk(g, avoid, a, b, k)
  }

  /** Every node that can ever be queued in a search from `start`. */
  function Universe(g: Graph, start: string): set<string> {
    {start} + set e | e in g.edges :: e.target
  }

  // ---- breadth-first search ----

  /** The discovery order of the search that continues from `queue` with
      `visited` already seen; `u` bounds the ids that can turn up. */
  function Search(g: Graph, queue: seq<string>, visited: set<string>, u: set<string>): seq<string>
    requires forall q | q in queue :: q in u
    requires forall e | e in g.edges :: e.target in u
    decreases u - visited, |queue|
  {
    if queue == [] then []
    else if queue[0] in visited then Search(g, queue[1..], visited, u)
    else
      TargetsAreLinked(g, queue[0]);
      [queue[0]] + Search(g, queue[1..] + Targets(Outgoing(g, queue[0])), visited + {queue[0]}, u)
  }

  function DiscoveryOrder(g: Graph, start: string): seq<string> {
    Search(g, [start], {}, Universe(g, start))
  }

  /** Nodes are seen, and due, in order of level, and the queue spans at most
      two levels. */
  ghost predicate InOrder(seen: seq<string>, level: seq<nat>, queue: seq<string>, due: seq<nat>) {
    && |seen| == |level| && |queue| == |due|
    && (forall i, j | 0 <= i < j < |seen| :: level[i] <= level[j] && seen[i] != seen[j])
    && (forall i, j | 0 <= i < j < |queue| :: due[i] <= due[j])
    && (forall i, j | 0 <= i < |queue| && 0 <= j < |seen| :: level[j] <= due[i] <= level[|seen| - 1] + 1)
  }

  /** Levels are lengths of walks. */
  ghost predicate Walked(g: Graph, start: string, ids: seq<string>, at: seq<nat>) {
    |ids| == |at| && forall i | 0 <= i < |ids| :: Walk(g, {}, start, ids[i], at[i])
  }

  /** What a seen node links to is seen or queued one level later at most. */
  ghost predicate Closed(g: Graph, seen: seq<string>, level: seq<nat>, queue: seq<string>, due: seq<nat>) {
    && |seen| == |level| && |queue| == |due|
    && forall i, b | 0 <= i < |seen| && Linked(g, seen[i], b) :: Covered(seen, level, queue, due, b, level[i] + 1)
  }

  ghost predicate Levelled(g: Graph, start: string, seen: seq<string>, level: seq<nat>, queue: seq<string>, due: seq<nat>) {
    && InOrder(seen, level, queue, due)
    && Walked(g, start, seen, level) && Walked(g, start, queue, due)
    && Closed(g, seen, level, queue, due)
    && (if |seen| == 0 then queue == [start] && due == [0] else seen[0] == start && level[0] == 0)
  }

  /** `b` was seen, or is queued, no later than at level `n`. */
  ghost predicate Covered(seen: seq<string>, level: seq<nat>, queue: seq<string>, due: seq<nat>, b: string, n: nat)
    requires |seen| == |level| && |queue| == |due|
  {
    || (exists k :: 0 <= k < |seen| && seen[k] == b && level[k] <= n)
    || (exists k :: 0 <= k < |queue| && queue[k] == b && due[k] <= n)
  }

  /** A queued id that was already seen is dropped. */
  lemma DropQueued(g: Graph, start: string, seen: seq<string>, level: seq<nat>, queue: seq<string>, due: seq<nat>)
    requires Levelled(g, start, seen, level, queue, due) && |queue| > 0 && queue[0] in seen
    ensures Levelled(g, start, seen, level, queue[1..], due[1..])
  {
    var j :| 0 <= j < |seen| && seen[j] == queue[0];
    forall i, b | 0 <= i < |seen| && Linked(g, seen[i], b)
      ensures Covered(seen, level, queue[1..], due[1..], b, level[i] + 1)
    {
      assert Covered(seen, level, queue, due, b, level[i] + 1);
      if k :| 0 <= k < |queue| && queue[k] == b && due[k] <= level[i] + 1 {
        if k == 0 {
          assert seen[j] == b && level[j] <= level[i] + 1;
        } else {
          assert queue[1..][k - 1] == b;
        }
      }
    }
  }

  /** A queued id that is new is seen at the level it was due, and what it links
      to is queued one level later. */
  lemma SeeQueued(g: Graph, start: string, seen: seq<string>, level: seq<nat>, queue: seq<string>, due: seq<nat>)
    requires Levelled(g, start, seen, level, queue, due) && |queue| > 0 && queue[0] !in seen
    ensures var ts := Targets(Outgoing(g, queue[0]));
      Levelled(g, start, seen + [queue[0]], level + [due[0]],
               queue[1..] + ts, due[1..] + seq(|ts|, _ => due[0] + 1))
  {
    assert Walk(g, {}, start, queue[0], due[0]);
    hide Walk, Walked, Closed, Covered, Linked;
    var ts := Targets(Outgoing(g, queue[0]));
    QueueTargets(g, start, queue, due);
    CloseSeen(g, seen, level, queue, due);
    SeeOne(g, start, seen, level, queue[0], due[0]);
  }

  lemma SeeOne(g: Graph, start: string, seen: seq<string>, level: seq<nat>, cur: string, d: nat)
    requires Walked(g, start, seen, level) && Walk(g, {}, start, cur, d)
    ensures Walked(g, start, seen + [cur], level + [d])
  {
  }

  lemma QueueTargets(g: Graph, start: string, queue: seq<string>, due: seq<nat>)
    requires Walked(g, start, queue, due) && |queue| > 0
    ensures var ts := Targets(Outgoing(g, queue[0]));
      Walked(g, start, queue[1..] + ts, due[1..] + seq(|ts|, _ => due[0] + 1))
  {
    var ts := Targets(Outgoing(g, queue[0]));
    TargetsAreLinked(g, queue[0]);
    var queue', due' := queue[1..] + ts, due[1..] + seq(|ts|, _ => due[0] + 1);
    forall i | 0 <= i < |queue'| ensures Walk(g, {}, start, queue'[i], due'[i]) {
      if i >= |queue| - 1 {
        assert queue'[i] in ts;
        assert Walk(g, {}, start, queue[0], due[0]) && Linked(g, queue[0], queue'[i]);
      }
    }
  }

  lemma CloseSeen(g: Graph, seen: seq<string>, level: seq<nat>, queue: seq<string>, due: seq<nat>)
    requires Closed(g, seen, level, queue, due) && |queue| > 0
    ensures var ts := Targets(Outgoing(g, queue[0]));
      Closed(g, seen + [queue[0]], level + [due[0]], queue[1..] + ts, due[1..] + seq(|ts|, _ => due[0] + 1))
  {
    var ts := Targets(Outgoing(g, queue[0]));
    TargetsAreLinked(g, queue[0]);
    var queue', due' := queue[1..] + ts, due[1..] + seq(|ts|, _ => due[0] + 1);
    forall i, b | 0 <= i < |seen| + 1 && Linked(g, (seen + [queue[0]])[i], b)
      ensures Covered(seen + [queue[0]], level + [due[0]], queue', due', b, (level + [due[0]])[i] + 1)
    {
      if i < |seen| {
        StillCovered(seen, level, queue, due, ts, b, level[i] + 1);
      } else {
        var k :| 0 <= k < |ts| && ts[k] == b;
        assert queue'[|queue| - 1 + k] == b;
      }
    }
  }

  lemma StillCovered(seen: seq<string>, level: seq<nat>, queue: seq<string>, due: seq<nat>, ts: seq<string>, b: string, n: nat)
    requires |seen| == |level| && |queue| == |due| > 0 && Covered(seen, level, queue, due, b, n)
    ensures Covered(seen + [queue[0]], level + [due[0]], queue[1..] + ts, due[1..] + seq(|ts|, _ => due[0] + 1), b, n)
  {
    if k :| 0 <= k < |seen| && seen[k] == b && level[k] <= n {
      assert (seen + [queue[0]])[k] == b;
    } else {
      var k :| 0 <= k < |queue| && queue[k] == b && due[k] <= n;
      if k == 0 {
        assert (seen + [queue[0]])[|seen|] == b;
      } else {
        assert (queue[1..] + ts)[k - 1] == b;
      }
    }
  }

  lemma {:induction false} SearchLevels(
    g: Graph, start: string, seen: seq<string>, level: seq<nat>, queue: seq<string>, due: seq<nat>,
    visited: set<string>, u: set<string>) returns (final: seq<nat>)
    requires Levelled(g, start, seen, level, queue, due)
    requires visited == set s | s in seen
    requires forall q | q in queue :: q in u
    requires forall e | e in g.edges :: e.target in u
    ensures Levelled(g, start, seen + Search(g, queue, visited, u), final, [], [])
    decreases u - visited, |queue|
  {
    hide Walked, Closed;
    if queue == [] {
      final := level;
      assert seen + [] == seen;
    } else if queue[0] in visited {
      DropQueued(g, start, seen, level, queue, due);
      final := SearchLevels(g, start, seen, level, queue[1..], due[1..], visited, u);
    } else {
      var ts := Targets(Outgoing(g, queue[0]));
      TargetsAreLinked(g, queue[0]);
      SeeQueued(g, start, seen, level, queue, due);
      final := SearchLevels(g, start, seen + [queue[0]], level + [due[0]],
        queue[1..] + ts, due[1..] + seq(|ts|, _ => due[0] + 1), visited + {queue[0]}, u);
      assert seen + Search(g, queue, visited, u)
        == (seen + [queue[0]]) + Search(g, queue[1..] + ts, visited + {queue[0]}, u);
    }
  }

  /** Once the queue is empty, every walk's end was seen at or below its length. */
  lemma {:induction false} SeenByLength(g: Graph, start: string, seen: seq<string>, level: seq<nat>, b: string, n: nat)
    requires Levelled(g, start, seen, level, [], []) && Walk(g, {}, start, b, n)
    decreases n
    ensures exists k :: 0 <= k < |seen| && seen[k] == b && level[k] <= n
  {
    if n == 0 {
      assert seen[0] == b;
    } else {
      var m :| Walk(g, {}, start, m, n - 1) && Linked(g, m, b);
      SeenByLength(g, start, seen, level, m, n - 1);
      var i :| 0 <= i < |seen| && seen[i] == m && level[i] <= n - 1;
      assert Covered(seen, level, [], [], b, level[i] + 1);
    }
  }

  /** Breadth-first discovery is exact: it lists each reachable id once, nothing
      else, and in order of hop distance from the start. */
  lemma DiscoveryIsByDistance(g: Graph, start: string) returns (level: seq<nat>)
    ensures var order := DiscoveryOrder(g, start);
      && |level| == |order|
      && (forall i | 0 <= i < |order| :: Distance(g, {}, start, order[i], level[i]))
      && (forall i, j | 0 <= i < j < |order| :: level[i] <= level[j] && order[i] != order[j])
      && (forall b :: b in order <==> Reaches(g, {}, start, b))
  {
    hide *;
    var order := DiscoveryOrder(g, start);
    level := SearchAll(g, start);
    LevelsRise(g, start, order, level);
    forall i | 0 <= i < |order| ensures Distance(g, {}, start, order[i], level[i]) {
      LevelIsDistance(g, start, order, level, i);
    }
    forall b ensures b in order <==> Reaches(g, {}, start, b) {
      SeenIsReached(g, start, order, level, b);
    }
  }

  lemma SearchAll(g: Graph, start: string) returns (level: seq<nat>)
    ensures Levelled(g, start, DiscoveryOrder(g, start), level, [], [])
  {
    NothingSeen(g, start);
    hide Levelled, Search;
    level := SearchLevels(g, start, [], [], [start], [0], {}, Universe(g, start));
    assert [] + DiscoveryOrder(g, start) == DiscoveryOrder(g, start);
  }

  lemma NothingSeen(g: Graph, start: string)
    ensures Levelled(g, start, [], [], [start], [0])
  {
  }

  lemma LevelsRise(g: Graph, start: string, seen: seq<string>, level: seq<nat>)
    requires Levelled(g, start, seen, level, [], [])
    ensures |level| == |seen| && forall i, j | 0 <= i < j < |seen| :: level[i] <= level[j] && seen[i] != seen[j]
  {
    hide Closed, Walked, Walk;
    assert seen + [] == seen && level + [] == level;
  }

  lemma LevelIsDistance(g: Graph, start: string, seen: seq<string>, level: seq<nat>, i: nat)
    requires Levelled(g, start, seen, level, [], []) && i < |seen|
    ensures Distance(g, {}, start, seen[i], level[i])
  {
    forall n: nat | n < level[i] ensures !Walk(g, {}, start, seen[i], n) {
      if Walk(g, {}, start, seen[i], n) {
        SeenByLength(g, start, seen, level, seen[i], n);
      }
    }
  }

  lemma SeenIsReached(g: Graph, start: string, seen: seq<string>, level: seq<nat>, b: string)
    requires Levelled(g, start, seen, level, [], [])
    ensures b in seen <==> Reaches(g, {}, start, b)
  {
    if Reaches(g, {}, start, b) {
      var n: nat :| Walk(g, {}, start, b, n);
      SeenByLength(g, start, seen, level, b, n);
    }
    if b in seen {
      var i :| 0 <= i < |seen| && seen[i] == b;
      assert Walk(g, {}, start, b, level[i]);
    }
  }
}
