/** Plan mode: what runs while it is on, what it answers itself, and how a run leaves it. */
module PlanMode {
  import opened Approvals
  import opened Checkpoints
  import opened ToolCalls

  /** Whatever runs in plan mode, on any path, is a read-only tool or leaves plan mode. */
  lemma ReadOnlyWhilePlanning(rules: Rules, trace: seq<Event>, i: nat)
    requires Safe(rules, trace) && i < |trace| && trace[i].Tried? && trace[i].plan
    ensures trace[i].tool == "exit_plan_mode" || trace[i].tool in rules.readonly
  {
    ClearedAt(rules, trace, i);
  }

  /** The same events outside plan mode. */
  function Outside(h: seq<Event>): seq<Event> {
    seq(|h|, i requires 0 <= i < |h| => if h[i].Tried? then h[i].(plan := false) else h[i])
  }

  /** On the sequential path plan mode answers exactly the other calls, of which nothing
      then happens; every call it lets through is admitted, or runs as a sub-graph, and
      goes on as it would outside plan mode. */
  lemma SequentialGate(rules: Rules, plan: bool, failed: bool, k: nat, p: Parsed, h: seq<Event>, fate: Fate)
    requires SequentialCourse(rules, plan, failed, k, p, h, fate)
    ensures h == [] <==> plan && p.name != "exit_plan_mode" && p.name !in rules.readonly
    ensures h == [] ==> fate == Answered
    ensures h != [] ==> StartsRight(p, h[0])
    ensures h != [] ==> SequentialCourse(rules, false, failed, k, p, Outside(h), fate)
    ensures forall e | e in h && e.Tried? ::
      e.tool == p.name && e.plan == plan && e.path == if p.name in {"register_tool", "unregister_tool"} then Registry else Sequential
  {
    if h != [] {
      assert |h| > 1 ==> h[1..][0] == h[1] && Outside(h)[1..][0] == Outside(h)[1];
      assert |h| > 2 ==> h[2..][0] == h[2] && Outside(h)[2..][0] == Outside(h)[2];
      assert |h| > 3 ==> h[2..][1] == h[3] && h[2..][1..][0] == h[3] && Outside(h)[2..][1..][0] == Outside(h)[3];
    }
  }

  /** So it is in a repair turn. */
  lemma RepairGate(rules: Rules, plan: bool, k: nat, p: Parsed, h: seq<Event>, stopped: bool)
    requires RepairCourse(rules, plan, k, p, h, stopped)
    ensures h == [] <==> plan && p.name != "exit_plan_mode" && p.name !in rules.readonly
    ensures h == [] ==> !stopped
    ensures h != [] ==> h[0].Admitted? && !h[0].again && h[0].call == p
    ensures h != [] ==> RepairCourse(rules, false, k, p, Outside(h), stopped)
    ensures forall e | e in h && e.Tried? :: e.tool == p.name && e.plan == plan && e.path == Repair
  {
    if h != [] {
      assert |h| > 1 ==> h[1..][0] == h[1] && Outside(h)[1..][0] == Outside(h)[1];
      assert |h| > 2 ==> h[1..][1] == h[2] && h[1..][1..] == h[2..] && h[2..][0] == h[2] && Outside(h)[2..][0] == Outside(h)[2];
      assert |h| > 3 ==> h[2..][1] == h[3] && h[2..][1..] == h[3..] && h[3..][0] == h[3] && Outside(h)[3..][0] == Outside(h)[3];
    }
  }

  /** Plan mode is left exactly by running the tool for it with the result that says so. */
  lemma LeavesPlanModeIff(
    rules: Rules, trace: seq<Event>, calls: seq<ToolCall>, first: nat, failed: bool, fates: seq<Fate>, plans: seq<bool>, i: nat)
    requires Courses(rules, trace, calls, first, failed, fates, plans) && i < |fates|
    ensures plans[i + 1] ==> plans[i]
    ensures plans[i] && !plans[i + 1] <==>
      plans[i] && exists e :: e in Of(trace, first + i) && e.Tried? && e.tool == "exit_plan_mode" && e.exits
  {
    hide Of;
    CourseExits(rules, plans[i], failed || SomeRefused(fates[..i]), first + i, calls[i].parsed.value, Of(trace, first + i), fates[i]);
  }

  lemma CourseExits(rules: Rules, plan: bool, failed: bool, k: nat, p: Parsed, h: seq<Event>, fate: Fate)
    requires SequentialCourse(rules, plan, failed, k, p, h, fate)
    ensures ExitsPlan(p.name, h) <==> exists e :: e in h && e.Tried? && e.tool == "exit_plan_mode" && e.exits
  {
    if h != [] {
      assert |h| > 1 ==> h[1..][0] == h[1];
      assert |h| > 2 ==> h[2..][0] == h[2];
      assert |h| > 3 ==> h[2..][1] == h[3] && h[2..][1..][0] == h[3];
      assert h[|h| - 1] in h;
    }
  }

  /** The calls that keep a batch from running in parallel are those that cannot be read and
      those of four tools. */
  lemma SteerlessIff(calls: seq<ToolCall>)
    ensures Steerless(calls) <==> forall c | c in calls ::
      c.parsed.Some? && c.parsed.value.name !in {"__sub_graph__", "register_tool", "unregister_tool", "exit_plan_mode"}
  {
    assert Steerless(calls) <==> forall c | c in calls :: Plain(c);
  }
}
