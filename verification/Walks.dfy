/** The outer loop of a run, which visits one node after the other within a limit, and
    what resuming a saved run makes of it. */
module Walks {
  import opened Checkpoints
  import opened Graphs
  import opened Text

  /** What a node's visit comes to: the run ends, stays at the node for another turn,
      jumps back as a loop node does, or goes on with a condition result. */
  datatype Outcome = Ends | Stays | Jumps(to: string) | GoesOn(result: string)

  /** What comes of every visit, and how many further turns an agent loop would take
      within it; each is given by the nodes visited so far, itself included. */
  datatype Outcomes = Outcomes(of: seq<string> -> Outcome, turns: seq<string> -> nat)

  const TRUTHY := {"true", "yes", "1"}
  const FALSY := {"false", "no", "0"}

  /** The target of the first edge whose label, in lower case, is one of these. */
  function Labelled(es: seq<Edge>, tags: set<string>): seq<string> {
    if es == [] then []
    else if Lower(es[0].tag) in tags then [es[0].target]
    else Labelled(es[1..], tags)
  }

  function Exactly(es: seq<Edge>, tag: string): seq<string> {
    if es == [] then []
    else if es[0].tag == tag then [es[0].target]
    else Exactly(es[1..], tag)
  }

  /** `get_next_node`: nowhere without edges, else along the only edge; among several,
      along the first that bears the result, that means the same, or has no label, or
      simply the first. */
  function NextNode(g: Graph, id: string, result: string): string {
    var es := Outgoing(g, id);
    if es == [] then ""
    else if |es| == 1 then es[0].target
    else
      var same := if Lower(result) in TRUTHY then Labelled(es, TRUTHY) else if Lower(result) in FALSY then Labelled(es, FALSY) else [];
      (Exactly(es, result) + same + Exactly(es, "") + [es[0].target])[0]
  }

  function After(g: Graph, outcomes: Outcomes, visited: seq<string>): string
    requires visited != []
  {
    var id := visited[|visited| - 1];
    match outcomes.of(visited)
    case Ends => ""
    case Stays => id
    case Jumps(to) => if to != "" && to in g.nodes then to else NextNode(g, id, "")
    case GoesOn(result) => NextNode(g, id, result)
  }

  /** Iterations to go after a visit that had `left` of them: it takes one, and one for
      each turn within it. */
  function Rest(left: nat, turns: nat): nat {
    if left > 1 + turns then left - 1 - turns else 0
  }

  /** The nodes visited once the run is at `node` with `left` iterations to go, after those
      visited before. */
  function Walked(g: Graph, outcomes: Outcomes, visited: seq<string>, node: string, left: nat): seq<string>
    decreases left
  {
    if node == "" || left == 0 || node !in g.nodes then visited
    else
      var more := visited + [node];
      Walked(g, outcomes, more, After(g, outcomes, more), Rest(left, outcomes.turns(more)))
  }

  function Left(iteration: nat, max: nat): nat { if iteration < max then max - iteration else 0 }

  /** The iterations the first i visits take, if none is cut short. */
  function Spent(outcomes: Outcomes, w: seq<string>, i: nat): nat
    requires i <= |w|
  {
    if i == 0 then 0 else Spent(outcomes, w, i - 1) + 1 + outcomes.turns(w[..i])
  }

  lemma {:induction false} SpentAlike(outcomes: Outcomes, a: seq<string>, b: seq<string>, i: nat)
    requires i <= |a| && i <= |b| && a[..i] == b[..i]
    ensures Spent(outcomes, a, i) == Spent(outcomes, b, i)
  {
    if i > 0 {
      assert a[..i - 1] == a[..i][..i - 1] == b[..i - 1];
      SpentAlike(outcomes, a, b, i - 1);
    }
  }

  /** The loop of the dispatcher, from the graph's start node, with the agent loop inside
      a visit. The count passes the limit by one at most, in an agent loop cut short. */
  method Dispatch(g: Graph, outcomes: Outcomes, iteration: nat, max: nat) returns (visited: seq<string>, count: nat)
    ensures visited == Walked(g, outcomes, [], g.start, Left(iteration, max))
    ensures count <= iteration + Spent(outcomes, visited, |visited|)
    ensures count == iteration + Spent(outcomes, visited, |visited|) || max <= count <= max + 1
  {
    visited, count := [], iteration;
    var current := g.start;
    while current != "" && count < max
      invariant Walked(g, outcomes, visited, current, Left(count, max)) == Walked(g, outcomes, [], g.start, Left(iteration, max))
      invariant count <= iteration + Spent(outcomes, visited, |visited|)
      invariant count == iteration + Spent(outcomes, visited, |visited|) || max <= count <= max + 1
      decreases Left(count, max)
    {
      if current !in g.nodes { return; }
      ghost var before, left := visited, Left(count, max);
      count := count + 1;
      visited := visited + [current];
      count := AgentLoop(outcomes.turns(visited), count, max);
      SpentAlike(outcomes, before, visited, |before|);
      assert visited[..|visited|] == visited;
      assert Left(count, max) == Rest(left, outcomes.turns(visited));
      current := After(g, outcomes, visited);
    }
  }

  /** The agent loop counts each of its turns, and gives up at the one that meets the limit. */
  method AgentLoop(turns: nat, before: nat, max: nat) returns (count: nat)
    requires before <= max
    ensures if before + turns <= max then count == before + turns else max <= count <= max + 1
  {
    count := before;
    for turn := 0 to turns
      invariant count == before + turn && count <= max
    {
      count := count + 1;
      if count >= max { break; }
    }
  }

  /** A walk adds nodes of the graph, each where the visits before it lead. */
  lemma {:induction false} WalkedOn(g: Graph, outcomes: Outcomes, visited: seq<string>, node: string, left: nat)
    ensures var w := Walked(g, outcomes, visited, node, left);
      && visited <= w && |w| <= |visited| + left
      && (|w| > |visited| ==> w[|visited|] == node)
      && (forall i | |visited| <= i < |w| :: w[i] != "" && w[i] in g.nodes)
      && (forall i | |visited| < i < |w| :: w[i] == After(g, outcomes, w[..i]))
    decreases left
  {
    if node != "" && left > 0 && node in g.nodes {
      var more := visited + [node];
      WalkedOn(g, outcomes, more, After(g, outcomes, more), Rest(left, outcomes.turns(more)));
      var w := Walked(g, outcomes, visited, node, left);
      assert w[..|more|] == more;
    }
  }

  // ---- where a visit leads ----

  /** The two groups of words that mean the same; a word of neither means only itself. */
  predicate SameMeaning(tag: string, result: string) {
    || (Lower(result) in {"true", "yes", "1"} && Lower(tag) in {"true", "yes", "1"})
    || (Lower(result) in {"false", "no", "0"} && Lower(tag) in {"false", "no", "0"})
  }

  /** The x-th of several edges is the one a result selects: the first with that very label;
      if there is none, the first with a label that means the same; if there is none, the
      first without a label; failing that, the first. */
  ghost predicate Selects(es: seq<Edge>, result: string, x: nat) {
    && x < |es|
    && if exists j | 0 <= j < |es| :: es[j].tag == result then
         es[x].tag == result && forall j | 0 <= j < x :: es[j].tag != result
       else if exists j | 0 <= j < |es| :: SameMeaning(es[j].tag, result) then
         SameMeaning(es[x].tag, result) && forall j | 0 <= j < x :: !SameMeaning(es[j].tag, result)
       else if exists j | 0 <= j < |es| :: es[j].tag == "" then
         es[x].tag == "" && forall j | 0 <= j < x :: es[j].tag != ""
       else x == 0
  }

  /** The edge a result takes from a node leads to `next`: the only edge there is or the
      selected one; nowhere if there is none. */
  ghost predicate Along(g: Graph, id: string, result: string, next: string) {
    var es := Outgoing(g, id);
    if es == [] then next == ""
    else if |es| == 1 then next == es[0].target
    else exists x: nat :: Selects(es, result, x) && next == es[x].target
  }

  /** An outcome at a node leads to `next`. */
  ghost predicate LeadsTo(g: Graph, o: Outcome, id: string, next: string) {
    match o
    case Ends => next == ""
    case Stays => next == id
    case Jumps(to) => if to == "" || to !in g.nodes then Along(g, id, "", next) else next == to
    case GoesOn(result) => Along(g, id, result, next)
  }

  /** The outcome leads to no node of the graph. */
  ghost predicate LeadsNowhere(g: Graph, o: Outcome, id: string) {
    exists next :: LeadsTo(g, o, id, next) && (next == "" || next !in g.nodes)
  }

  lemma LeadsOut(g: Graph, o: Outcome, id: string, next: string)
    requires LeadsTo(g, o, id, next)
    ensures next == "" || next !in g.nodes ==> LeadsNowhere(g, o, id)
  {
    hide LeadsTo;
  }

  /** A walk goes where its visits lead, one after the other; and it is over only when its
      last visit leads to no node of the graph, or the iterations are used up. */
  lemma WalkLeads(g: Graph, outcomes: Outcomes, left: nat)
    ensures var w := Walked(g, outcomes, [], g.start, left);
      && (w == [] <==> left == 0 || g.start == "" || g.start !in g.nodes) && (w != [] ==> w[0] == g.start)
      && (forall i | 0 < i < |w| :: LeadsTo(g, outcomes.of(w[..i]), w[i - 1], w[i]))
      && (w != [] && Spent(outcomes, w, |w|) < left ==> LeadsNowhere(g, outcomes.of(w), w[|w| - 1]))
  {
    hide After, LeadsTo, Along, LeadsNowhere;
    var w := Walked(g, outcomes, [], g.start, left);
    WalkedOn(g, outcomes, [], g.start, left);
    forall i | 0 < i < |w| ensures LeadsTo(g, outcomes.of(w[..i]), w[i - 1], w[i]) {
      AfterLeads(g, outcomes, w[..i]);
    }
    if left > 0 && g.start != "" && g.start in g.nodes {
      WalkOver(g, outcomes, [], g.start, left);
      assert Spent(outcomes, w, 0) == 0;
      AfterLeads(g, outcomes, w);
      LeadsOut(g, outcomes.of(w), w[|w| - 1], After(g, outcomes, w));
    }
  }

  lemma {:induction false} WalkOver(g: Graph, outcomes: Outcomes, visited: seq<string>, node: string, left: nat)
    requires left > 0 && node != "" && node in g.nodes
    ensures var w := Walked(g, outcomes, visited, node, left);
      && |w| > |visited| && visited <= w
      && (Spent(outcomes, w, |w|) - Spent(outcomes, w, |visited|) < left ==> After(g, outcomes, w) == "" || After(g, outcomes, w) !in g.nodes)
    decreases left
  {
    hide After;
    WalkedOn(g, outcomes, visited, node, left);
    var more := visited + [node];
    var next, rest := After(g, outcomes, more), Rest(left, outcomes.turns(more));
    WalkedOn(g, outcomes, more, next, rest);
    var w := Walked(g, outcomes, visited, node, left);
    assert w[..|more|] == more;
    SpentGrows(outcomes, w, |more|, |w|);
    if rest > 0 && next != "" && next in g.nodes {
      WalkOver(g, outcomes, more, next, rest);
    }
  }

  lemma AfterLeads(g: Graph, outcomes: Outcomes, visited: seq<string>)
    requires visited != []
    ensures LeadsTo(g, outcomes.of(visited), visited[|visited| - 1], After(g, outcomes, visited))
  {
    hide Selects, Outgoing;
    var id := visited[|visited| - 1];
    match outcomes.of(visited)
    case Ends =>
    case Stays =>
    case Jumps(to) => NextIsSelected(g, id, "");
    case GoesOn(result) => NextIsSelected(g, id, result);
  }

  lemma NextIsSelected(g: Graph, id: string, result: string)
    ensures Along(g, id, result, NextNode(g, id, result))
  {
    hide Selects, Labelled, Exactly, Lower;
    var es := Outgoing(g, id);
    if |es| > 1 {
      var x := SelectedAt(es, result);
      assert NextNode(g, id, result) == es[x].target;
    }
  }

  lemma SelectedAt(es: seq<Edge>, result: string) returns (x: nat)
    requires |es| > 1
    ensures x < |es| && Selects(es, result, x)
    ensures var same := if Lower(result) in TRUTHY then Labelled(es, TRUTHY) else if Lower(result) in FALSY then Labelled(es, FALSY) else [];
      es[x].target == (Exactly(es, result) + same + Exactly(es, "") + [es[0].target])[0]
  {
    hide Labelled, Exactly, Lower;
    var e := ExactlyAt(es, result);
    var t := LabelledAt(es, TRUTHY);
    var f := LabelledAt(es, FALSY);
    var n := ExactlyAt(es, "");
    var m := if Lower(result) in TRUTHY then t else if Lower(result) in FALSY then f else -1;
    x := if e >= 0 then e else if m >= 0 then m else if n >= 0 then n else 0;
  }

  lemma {:induction false} ExactlyAt(es: seq<Edge>, tag: string) returns (x: int)
    ensures -1 <= x < |es|
    ensures if x < 0 then Exactly(es, tag) == [] && forall j | 0 <= j < |es| :: es[j].tag != tag
      else Exactly(es, tag) == [es[x].target] && es[x].tag == tag && forall j | 0 <= j < x :: es[j].tag != tag
  {
    x := -1;
    if es != [] {
      if es[0].tag == tag {
        x := 0;
      } else {
        var y := ExactlyAt(es[1..], tag);
        x := if y < 0 then -1 else y + 1;
        assert forall j | 0 < j < |es| :: es[j] == es[1..][j - 1];
      }
    }
  }

  lemma {:induction false} LabelledAt(es: seq<Edge>, tags: set<string>) returns (x: int)
    ensures -1 <= x < |es|
    ensures if x < 0 then Labelled(es, tags) == [] && forall j | 0 <= j < |es| :: Lower(es[j].tag) !in tags
      else Labelled(es, tags) == [es[x].target] && Lower(es[x].tag) in tags && forall j | 0 <= j < x :: Lower(es[j].tag) !in tags
  {
    hide Lower;
    x := -1;
    if es != [] {
      if Lower(es[0].tag) in tags {
        x := 0;
      } else {
        var y := LabelledAt(es[1..], tags);
        x := if y < 0 then -1 else y + 1;
        assert forall j | 0 < j < |es| :: es[j] == es[1..][j - 1];
      }
    }
  }

  // ---- resuming ----

  /** From its first i visits on, a walk is led on by these outcomes too. */
  ghost predicate LedAlike(g: Graph, outcomes: Outcomes, w: seq<string>, i: nat) {
    forall j | 0 < j <= i && j < |w| :: After(g, outcomes, w[..j]) == w[j]
  }

  /** A run led alike up to visit i makes the same visits, as far as its iterations go. */
  lemma {:induction false} Follows(g: Graph, outcomes: Outcomes, w: seq<string>, i: nat, j: nat, left: nat)
    requires j <= i < |w| && LedAlike(g, outcomes, w, i) && forall k | 0 <= k < |w| :: w[k] != "" && w[k] in g.nodes
    ensures var again := Walked(g, outcomes, w[..j], w[j], left);
      if left > Spent(outcomes, w, i) - Spent(outcomes, w, j) then |again| > i && again[..i + 1] == w[..i + 1]
      else j <= |again| <= i && again == w[..|again|]
    decreases i - j
  {
    hide After;
    assert w[..j] + [w[j]] == w[..j + 1];
    SpentGrows(outcomes, w, j, i);
    if left > 0 {
      var rest := Rest(left, outcomes.turns(w[..j + 1]));
      if j == i {
        StaysAhead(g, outcomes, w[..j + 1], After(g, outcomes, w[..j + 1]), rest);
      } else {
        SpentGrows(outcomes, w, j + 1, i);
        Follows(g, outcomes, w, i, j + 1, rest);
      }
    }
  }

  lemma {:induction false} SpentGrows(outcomes: Outcomes, w: seq<string>, j: nat, i: nat)
    requires j <= i <= |w|
    ensures Spent(outcomes, w, j) + (i - j) <= Spent(outcomes, w, i)
  {
    if j < i { SpentGrows(outcomes, w, j, i - 1); }
  }

  lemma StaysAhead(g: Graph, outcomes: Outcomes, visited: seq<string>, node: string, left: nat)
    ensures var w := Walked(g, outcomes, visited, node, left); |w| >= |visited| && w[..|visited|] == visited
  {
    WalkedOn(g, outcomes, visited, node, left);
  }

  /** A run saved at its visit i, counting from 0, and resumed does not go on from there:
      it visits every node from the start to the saved one again, in order, as long as it
      is led alike, and comes back to the saved visit exactly when the iterations the first
      run had counted and those its own visits take before it are less than the limit. The
      conversation goes on with the calls that were open still open; plan mode is what the
      graph says. */
  lemma ResumedRunRepeats(g: Graph, one: Outcomes, two: Outcomes, max: nat, limit: nat, i: nat,
                          c: Context, entry: Entry, humanInputs: Variables)
    requires entry.start == g.start
    requires var w := Walked(g, one, [], g.start, max); i < |w| && c.node == w[i] && LedAlike(g, two, w, i)
    ensures var r := Resume(c, entry, humanInputs);
      var w, left := Walked(g, one, [], g.start, max), Left(r.iteration, limit);
      var again := Walked(g, two, [], r.node, left);
      && (if c.iteration + Spent(two, w, i) < limit then |again| > i && again[..i + 1] == w[..i + 1]
          else |again| <= i && again == w[..|again|])
      && PendingCalls(r.messages) == PendingCalls(c.messages) && r.planMode == entry.planMode
  {
    var w := Walked(g, one, [], g.start, max);
    WalkedOn(g, one, [], g.start, max);
    ResumeKeeps(c, entry, humanInputs);
    Follows(g, two, w, i, 0, Left(c.iteration, limit));
    assert w[..0] == [];
  }

  /** On a graph without branching every run is led alike, whatever the conditions answer,
      as long as no node stays or jumps. */
  lemma StraightLineLeadsAlike(g: Graph, one: Outcomes, two: Outcomes, max: nat, i: nat)
    requires forall id :: |Outgoing(g, id)| <= 1
    requires var w := Walked(g, one, [], g.start, max);
      i < |w| && forall j | 0 < j <= i :: one.of(w[..j]).GoesOn? && two.of(w[..j]).GoesOn?
    ensures LedAlike(g, two, Walked(g, one, [], g.start, max), i)
  {
    WalkedOn(g, one, [], g.start, max);
  }

  /** So a run of such a graph saved at visit i, `turn` turns into it, comes back to it
      exactly when twice the iterations up to there, and those turns, and one more, are
      below the limit; provided its visits take as many turns as before. */
  lemma StraightLineResume(g: Graph, one: Outcomes, two: Outcomes, max: nat, limit: nat, i: nat, turn: nat,
                           c: Context, entry: Entry, humanInputs: Variables)
    requires forall id :: |Outgoing(g, id)| <= 1
    requires entry.start == g.start
    requires var w := Walked(g, one, [], g.start, max);
      && i < |w| && c.node == w[i] && c.iteration == Spent(one, w, i) + 1 + turn
      && forall j | 0 < j <= i :: one.of(w[..j]).GoesOn? && two.of(w[..j]).GoesOn? && one.turns(w[..j]) == two.turns(w[..j])
    ensures var r := Resume(c, entry, humanInputs);
      var w, again := Walked(g, one, [], g.start, max), Walked(g, two, [], r.node, Left(r.iteration, limit));
      (|again| > i && again[..i + 1] == w[..i + 1]) <==> 2 * Spent(one, w, i) + 1 + turn < limit
  {
    var w := Walked(g, one, [], g.start, max);
    StraightLineLeadsAlike(g, one, two, max, i);
    ResumedRunRepeats(g, one, two, max, limit, i, c, entry, humanInputs);
    SpentBoth(one, two, w, i);
  }

  lemma {:induction false} SpentBoth(one: Outcomes, two: Outcomes, w: seq<string>, i: nat)
    requires i <= |w| && forall j | 0 < j <= i :: one.turns(w[..j]) == two.turns(w[..j])
    ensures Spent(one, w, i) == Spent(two, w, i)
  {
    if i > 0 { SpentBoth(one, two, w, i - 1); }
  }
}
