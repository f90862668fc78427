/** The four paths on which the runtime carries out tool calls: the sequential
    loop of an LLM node, its parallel form, the self-repair retry, and the
    stand-alone tool node. The admission funnel, the humans asked and the tools
    themselves may answer anything at any time. */
module ToolCalls {
  import opened Approvals
  import opened Checkpoints
  import opened Confirmation
  import opened Options

  const EXIT := "exit_plan_mode"
  const SUB_GRAPH := "__sub_graph__"
  const REGISTRY_TOOLS := {"register_tool", "unregister_tool"}
  const CONTROL_FLOW := {"__sub_graph__", "register_tool", "unregister_tool", "exit_plan_mode"}

  /** One answer of the funnel: whether the call may run, whether it must first be
      asked about, whether a verdict to ask with is attached and itself requires
      approval, and the arguments as the hooks left them. */
  datatype Outcome = Outcome(allowed: bool, needsApproval: bool, hasVerdict: bool, required: bool, args: string)

  predicate Clear(o: Outcome) { o.allowed && !o.needsApproval }

  /** What a run decides by: the read-only tools, the graph's confirmation policy with the
      signs of danger it finds in a call, and what a timed-out ask counts as. */
  datatype Rules = Rules(readonly: set<string>, policy: Option<Policy>, signs: (string, string) -> Signs, timeoutApproves: bool)

  function CallRisk(rules: Rules, p: Parsed): real { RiskOf(rules.signs, p.name, p.args) }

  /** The policy wants the call, as the model made it, asked about. */
  predicate Wants(rules: Rules, p: Parsed) { Escalates(rules.policy, CallRisk(rules, p), p.name) }

  datatype Path = Sequential | Registry | Together | Repair | ToolNode

  /** What happened to the call with ticket `k`. A grant is the approval flow's, on
      whatever ground. */
  datatype Event =
    | Admitted(k: nat, again: bool, call: Parsed, outcome: Outcome)
    | Escalated(k: nat)
    | Granted(k: nat, ground: Ground)
    | Declined(k: nat)
    | Nested(k: nat, failed: bool)
    | Tried(k: nat, path: Path, tool: string, args: string, plan: bool, exits: bool)

  /** The events of one call, in order. */
  ghost function Of(trace: seq<Event>, k: nat): seq<Event> {
    if trace == [] then []
    else Of(trace[..|trace| - 1], k) + if trace[|trace| - 1].k == k then [trace[|trace| - 1]] else []
  }

  lemma OfAppend(trace: seq<Event>, e: Event, k: nat)
    ensures Of(trace + [e], k) == Of(trace, k) + if e.k == k then [e] else []
  {
    assert (trace + [e])[..|trace|] == trace;
  }

  /** Plan mode holds back a tool that is not read-only; leaving plan mode is free. */
  predicate Gated(rules: Rules, tool: string) {
    tool != EXIT && tool !in rules.readonly
  }

  // ---- what may run ----

  /** Let through at once, and the policy does not want it asked about. */
  ghost predicate AdmittedClear(rules: Rules, h: seq<Event>, k: nat, tool: string, args: string) {
    && |h| == 1 && h[0].Admitted? && !h[0].again && h[0].call.name == tool
    && Clear(h[0].outcome) && h[0].outcome.args == args && !Wants(rules, h[0].call)
  }

  /** A grant for this call; if nobody was asked, that is by the facts of this call. */
  ghost predicate GrantFor(rules: Rules, e: Event, k: nat, required: bool, p: Parsed) {
    && e.Granted? && e.k == k
    && (e.ground.Unasked? ==> e.ground == Unasked(required, CallRisk(rules, p), p.name))
  }

  /** To be asked about, granted, and let through by a second admission. */
  ghost predicate Readmitted(rules: Rules, h: seq<Event>, k: nat, tool: string, args: string) {
    && |h| == 3 && h[0].Admitted? && !h[0].again && h[0].call.name == tool && h[0].outcome.needsApproval
    && GrantFor(rules, h[1], k, h[0].outcome.required, h[0].call)
    && h[2].Admitted? && h[2].again && h[2].call == h[0].call && Clear(h[2].outcome) && h[2].outcome.args == args
  }

  /** To be asked about, by the funnel or by the confirmation policy, and granted. What
      the policy escalates is asked about. */
  ghost predicate GrantedOnce(rules: Rules, h: seq<Event>, k: nat, tool: string, args: string) {
    && |h| >= 2 && h[0].Admitted? && !h[0].again && h[0].call == Parsed(tool, args)
    && if h[0].outcome.needsApproval then |h| == 2 && GrantFor(rules, h[1], k, h[0].outcome.required, h[0].call)
       else |h| == 3 && h[0].outcome.allowed && h[1] == Escalated(k) && h[2].Granted? && h[2].k == k && !h[2].ground.Unasked?
  }

  /** The whole past of a call at the moment its tool runs. Only the registry tools run
      without a look at the policy. */
  ghost predicate Cleared(rules: Rules, h: seq<Event>, e: Event)
    requires e.Tried?
  {
    && (e.plan ==> !Gated(rules, e.tool))
    && match e.path
       case Sequential => AdmittedClear(rules, h, e.k, e.tool, e.args) || Readmitted(rules, h, e.k, e.tool, e.args)
       case ToolNode => AdmittedClear(rules, h, e.k, e.tool, e.args) || Readmitted(rules, h, e.k, e.tool, e.args)
       case Registry => |h| == 1 && h[0].Admitted? && !h[0].again && h[0].call == Parsed(e.tool, e.args) && Clear(h[0].outcome)
       case Together => AdmittedClear(rules, h, e.k, e.tool, e.args) && !e.plan
       case Repair => AdmittedClear(rules, h, e.k, e.tool, e.args) || GrantedOnce(rules, h, e.k, e.tool, e.args)
  }

  /** Every run of a tool in the trace was cleared by what came before it. */
  ghost predicate Safe(rules: Rules, trace: seq<Event>) {
    forall i | 0 <= i < |trace| && trace[i].Tried? :: Cleared(rules, Of(trace[..i], trace[i].k), trace[i])
  }

  lemma SafeAppend(rules: Rules, trace: seq<Event>, e: Event)
    requires Safe(rules, trace) && (e.Tried? ==> Cleared(rules, Of(trace, e.k), e))
    ensures Safe(rules, trace + [e])
  {
    var t := trace + [e];
    forall i | 0 <= i < |t| && t[i].Tried? ensures Cleared(rules, Of(t[..i], t[i].k), t[i]) {
      assert i < |trace| ==> t[..i] == trace[..i];
      assert t[..|trace|] == trace;
    }
  }

  /** An outright admission clears a run that the policy does not want asked about. */
  lemma ClearOutright(rules: Rules, k: nat, path: Path, p: Parsed, plan: bool, o: Outcome)
    requires Clear(o) && !Wants(rules, p) && !(plan && Gated(rules, p.name))
    requires path != Registry && (path == Together ==> !plan)
    ensures forall x :: Cleared(rules, [Admitted(k, false, p, o)], Tried(k, path, p.name, o.args, plan, x))
  {
  }

  /** So does a grant followed by a clear second admission. */
  lemma ClearOnReadmission(rules: Rules, k: nat, path: Path, p: Parsed, plan: bool, o: Outcome, g: Event, o2: Outcome)
    requires o.needsApproval && GrantFor(rules, g, k, o.required, p) && Clear(o2) && (path == Sequential || path == ToolNode)
    requires !(plan && Gated(rules, p.name))
    ensures forall x ::
      Cleared(rules, [Admitted(k, false, p, o), g, Admitted(k, true, p, o2)], Tried(k, path, p.name, o2.args, plan, x))
  {
  }

  /** Every grant in the trace has a ground that holds. */
  ghost predicate Grounded(rules: Rules, trace: seq<Event>) {
    forall e | e in trace && e.Granted? :: Sound(e.ground, rules.policy, rules.timeoutApproves)
  }

  lemma {:induction false} OfUnused(trace: seq<Event>, k: nat)
    requires forall e | e in trace :: e.k != k
    ensures Of(trace, k) == []
  {
    if trace != [] {
      assert trace[|trace| - 1] in trace;
      OfUnused(trace[..|trace| - 1], k);
    }
  }

  /** The last thing that happens to a call before its tool runs is an admission that lets
      it through, with the arguments it then runs with (a registry tool: with the model's);
      the second one, if it was granted. Only in a repair turn it may be the grant, and then
      it runs with the arguments it was asked about. */
  lemma LastAdmissionLetsThrough(rules: Rules, trace: seq<Event>, i: nat)
    requires Safe(rules, trace) && i < |trace| && trace[i].Tried?
    ensures var e, h := trace[i], Of(trace[..i], trace[i].k);
      && h != [] && h[0].Admitted? && h[0].call.name == e.tool
      && var last := h[|h| - 1];
      if last.Granted? then e.path == Repair && e.args == h[0].call.args
      else
        && last.Admitted? && last.call == h[0].call && last.outcome.allowed && !last.outcome.needsApproval
        && (last.again <==> WasGranted(h))
        && e.args == if e.path == Registry then last.call.args else last.outcome.args
  {
    hide Of;
    ClearedAt(rules, trace, i);
    var h := Of(trace[..i], trace[i].k);
    assert |h| > 0 ==> h[0] in h;
    assert |h| > 1 ==> h[1] in h;
    assert |h| > 2 ==> h[2] in h;
  }

  /** A call whose admissions were never clear and that the approval flow never granted
      does not run, on any path. */
  lemma NeverClearedNeverRuns(rules: Rules, trace: seq<Event>, k: nat)
    requires Safe(rules, trace)
    requires forall e | e in trace && e.k == k :: !e.Granted? && (e.Admitted? ==> !e.outcome.allowed || e.outcome.needsApproval)
    ensures forall e | e in trace && e.k == k :: !e.Tried?
  {
    forall i | 0 <= i < |trace| && trace[i].k == k ensures !trace[i].Tried? {
      OfMembers(trace[..i], k);
      if trace[i].Tried? {
        NotCleared(rules, Of(trace[..i], k), trace[i]);
      }
    }
  }

  lemma NotCleared(rules: Rules, h: seq<Event>, e: Event)
    requires e.Tried? && forall x | x in h :: !x.Granted? && (x.Admitted? ==> !Clear(x.outcome))
    ensures !Cleared(rules, h, e)
  {
    assert |h| > 0 ==> h[0] in h;
    assert |h| > 1 ==> h[1] in h;
    assert |h| > 2 ==> h[2] in h;
  }

  lemma {:induction false} OfMembers(trace: seq<Event>, k: nat)
    ensures forall e :: e in Of(trace, k) <==> e in trace && e.k == k
  {
    if trace != [] {
      var rest, last := trace[..|trace| - 1], trace[|trace| - 1];
      assert trace == rest + [last];
      OfMembers(rest, k);
    }
  }

  // ---- what becomes of a call on the sequential path ----

  /** Answered with one reply, run as a sub-graph, in which an error may have come up,
      refused by the approval flow, or granted and then passed over because the run already
      carried an error. */
  datatype Fate = Answered | AsSubGraph(failed: bool) | Refused | PassedOver

  /** An error event comes out of the call's course. */
  predicate ReportsError(f: Fate) { f == Refused || f == AsSubGraph(true) }

  /** No call but the last reported an error. */
  ghost predicate StopsAtErrors(fates: seq<Fate>) {
    forall i | 0 <= i < |fates| - 1 :: !ReportsError(fates[i])
  }

  /** The batch ended with a call that reported an error to a consumer that stops there. */
  ghost predicate Stopped(stops: bool, fates: seq<Fate>) {
    stops && fates != [] && ReportsError(fates[|fates| - 1])
  }

  lemma NoFates(stops: bool)
    ensures StopsAtErrors([]) && !Stopped(stops, []) && AnsweredIds([], []) == []
  {
  }

  lemma ErrorsAre(stops: bool, fates: seq<Fate>)
    ensures StopsAtErrors(fates) <==> forall i | 0 <= i < |fates| - 1 :: fates[i] !in {Refused, AsSubGraph(true)}
    ensures Stopped(stops, fates) <==> stops && fates != [] && fates[|fates| - 1] in {Refused, AsSubGraph(true)}
  {
  }

  lemma MoreFates(stops: bool, calls: seq<ToolCall>, c: ToolCall, fates: seq<Fate>, fate: Fate)
    requires |calls| == |fates|
    ensures stops && StopsAtErrors(fates) && !Stopped(stops, fates) ==> StopsAtErrors(fates + [fate])
    ensures Stopped(stops, fates + [fate]) == (stops && ReportsError(fate))
    ensures AnsweredIds(calls + [c], fates + [fate]) == AnsweredIds(calls, fates) + if fate == Answered then [c.id] else []
    ensures SomeRefused(fates + [fate]) == (SomeRefused(fates) || fate == Refused)
  {
    assert (calls + [c])[..|calls|] == calls && (fates + [fate])[..|fates|] == fates;
  }

  ghost predicate RanLast(t: seq<Event>, k: nat, path: Path, tool: string, args: string, plan: bool) {
    |t| == 1 && t[0].Tried? && t[0] == Tried(k, path, tool, args, plan, t[0].exits)
  }

  /** The course of a call that goes through the funnel's question and answer. */
  ghost predicate FunnelCourse(rules: Rules, path: Path, plan: bool, failed: bool, k: nat, p: Parsed, h: seq<Event>, fate: Fate) {
    && |h| > 0 && h[0].Admitted? && !h[0].again && h[0].k == k && h[0].call == p
    && var o := h[0].outcome;
    if !o.needsApproval || !o.hasVerdict then (
      && fate == Answered
      && (if Clear(o) then !Wants(rules, p) && RanLast(h[1..], k, path, p.name, o.args, plan) else h[1..] == []))
    else if |h| == 1 then false
    else if h[1] == Declined(k) then (|h| == 2 && fate == Refused)
    else if failed then (|h| == 2 && GrantFor(rules, h[1], k, o.required, p) && fate == PassedOver)
    else GrantFor(rules, h[1], k, o.required, p) && fate == Answered && ReadmissionCourse(path, plan, k, p, h[2..])
  }

  ghost predicate ReadmissionCourse(path: Path, plan: bool, k: nat, p: Parsed, h: seq<Event>) {
    && |h| > 0 && h[0].Admitted? && h[0].again && h[0].k == k && h[0].call == p
    && var o := h[0].outcome;
    if Clear(o) then RanLast(h[1..], k, path, p.name, o.args, plan) else h[1..] == []
  }

  lemma CourseOutright(rules: Rules, path: Path, plan: bool, failed: bool, k: nat, p: Parsed, o: Outcome, ran: seq<Event>)
    requires (!o.needsApproval || !o.hasVerdict) && (Clear(o) ==> !Wants(rules, p))
    requires if Clear(o) then RanLast(ran, k, path, p.name, o.args, plan) else ran == []
    ensures FunnelCourse(rules, path, plan, failed, k, p, [Admitted(k, false, p, o)] + ran, Answered)
    ensures ExitsPlan(p.name, [Admitted(k, false, p, o)] + ran) == ExitsPlan(p.name, ran)
  {
    assert ([Admitted(k, false, p, o)] + ran)[1..] == ran;
  }

  lemma NotTried(k: nat, p: Parsed, o: Outcome)
    ensures !ExitsPlan(p.name, [Admitted(k, false, p, o)])
  {
  }

  lemma CourseStopped(rules: Rules, path: Path, plan: bool, failed: bool, k: nat, p: Parsed, o: Outcome, e: Event)
    requires o.needsApproval && o.hasVerdict && (e == Declined(k) || (failed && GrantFor(rules, e, k, o.required, p)))
    ensures FunnelCourse(rules, path, plan, failed, k, p, [Admitted(k, false, p, o), e], if e.Granted? then PassedOver else Refused)
    ensures !ExitsPlan(p.name, [Admitted(k, false, p, o), e])
  {
  }

  lemma CourseReadmitted(rules: Rules, path: Path, plan: bool, k: nat, p: Parsed, o: Outcome, g: Event, o2: Outcome, ran: seq<Event>)
    requires o.needsApproval && o.hasVerdict && GrantFor(rules, g, k, o.required, p)
    requires if Clear(o2) then RanLast(ran, k, path, p.name, o2.args, plan) else ran == []
    ensures var h := [Admitted(k, false, p, o), g, Admitted(k, true, p, o2)] + ran;
      FunnelCourse(rules, path, plan, false, k, p, h, Answered) && ExitsPlan(p.name, h) == ExitsPlan(p.name, ran)
  {
    var h := [Admitted(k, false, p, o), g, Admitted(k, true, p, o2)] + ran;
    assert h[2..] == [Admitted(k, true, p, o2)] + ran && h[2..][1..] == ran;
  }

  ghost predicate RegistryCourse(plan: bool, k: nat, p: Parsed, h: seq<Event>) {
    && |h| > 0 && h[0].Admitted? && !h[0].again && h[0].k == k && h[0].call == p
    && (if Clear(h[0].outcome) then RanLast(h[1..], k, Registry, p.name, p.args, plan) else h[1..] == [])
  }

  /** The complete course of one parsable call, given the plan flag and the error
      flag it found. */
  ghost predicate SequentialCourse(
    rules: Rules, plan: bool, failed: bool, k: nat, p: Parsed, h: seq<Event>, fate: Fate)
  {
    if plan && Gated(rules, p.name) then h == [] && fate == Answered
    else if p.name == SUB_GRAPH then fate.AsSubGraph? && h == [Nested(k, fate.failed)]
    else if p.name in REGISTRY_TOOLS then (fate == Answered && RegistryCourse(plan, k, p, h))
    else FunnelCourse(rules, Sequential, plan, failed, k, p, h, fate)
  }

  ghost predicate ExitsPlan(tool: string, h: seq<Event>) {
    tool == EXIT && |h| > 0 && h[|h| - 1].Tried? && h[|h| - 1].exits
  }

  /** The ids of the answered calls, in order. */
  ghost function AnsweredIds(calls: seq<ToolCall>, fates: seq<Fate>): seq<string>
    requires |calls| == |fates|
  {
    if calls == [] then []
    else
      AnsweredIds(calls[..|calls| - 1], fates[..|calls| - 1])
      + (if fates[|calls| - 1] == Answered then [calls[|calls| - 1].id] else [])
  }

  /** An answered call counts where it stands, every other not at all. */
  lemma {:induction false} AnsweredAre(a: seq<ToolCall>, f: seq<Fate>, b: seq<ToolCall>, g: seq<Fate>, c: ToolCall, fate: Fate)
    requires |a| == |f| && |b| == |g|
    ensures AnsweredIds([], []) == [] && AnsweredIds([c], [fate]) == if fate.Answered? then [c.id] else []
    ensures AnsweredIds(a + b, f + g) == AnsweredIds(a, f) + AnsweredIds(b, g)
  {
    assert [c][..0] == [] && [fate][..0] == [];
    if b == [] {
      assert a + b == a && f + g == f;
    } else {
      var n := |b| - 1;
      assert (a + b)[..|a + b| - 1] == a + b[..n] && (f + g)[..|f + g| - 1] == f + g[..n];
      AnsweredAre(a, f, b[..n], g[..n], c, fate);
    }
  }

  ghost predicate AreReplies(rs: seq<Message>, ids: seq<string>) {
    |rs| == |ids| && forall i | 0 <= i < |rs| :: rs[i].Tool? && rs[i].callId == ids[i]
  }

  /** `now` is `before` followed by one tool reply for each id, in order. */
  ghost predicate RepliedTo(before: seq<Message>, now: seq<Message>, ids: seq<string>) {
    before <= now && AreReplies(now[|before|..], ids)
  }

  ghost predicate SomeRefused(fates: seq<Fate>) { Refused in fates }

  /** The courses of a batch's calls, each under the flags it found. */
  ghost predicate Courses(
    rules: Rules, trace: seq<Event>, calls: seq<ToolCall>, first: nat, failed: bool,
    fates: seq<Fate>, plans: seq<bool>)
  {
    && |fates| <= |calls| && |plans| == |fates| + 1
    && forall i | 0 <= i < |fates| ::
      && calls[i].parsed.Some?
      && SequentialCourse(rules, plans[i], failed || SomeRefused(fates[..i]), first + i,
           calls[i].parsed.value, Of(trace, first + i), fates[i])
      && plans[i + 1] == (plans[i] && !ExitsPlan(calls[i].parsed.value.name, Of(trace, first + i)))
  }

  lemma NoCourses(rules: Rules, trace: seq<Event>, calls: seq<ToolCall>, first: nat, failed: bool, plan: bool)
    ensures Courses(rules, trace, calls, first, failed, [], [plan])
  {
  }

  lemma MoreCourses(
    rules: Rules, before: seq<Event>, now: seq<Event>, calls: seq<ToolCall>, first: nat, failed: bool,
    fates: seq<Fate>, plans: seq<bool>, fate: Fate, plan: bool)
    requires Courses(rules, before, calls, first, failed, fates, plans) && |fates| < |calls|
    requires forall j :: j != first + |fates| ==> Of(now, j) == Of(before, j)
    requires calls[|fates|].parsed.Some?
    requires var i := |fates|;
      SequentialCourse(rules, plans[i], failed || SomeRefused(fates), first + i, calls[i].parsed.value, Of(now, first + i), fate)
    requires var i := |fates|; plan == (plans[i] && !ExitsPlan(calls[i].parsed.value.name, Of(now, first + i)))
    ensures Courses(rules, now, calls, first, failed, fates + [fate], plans + [plan])
  {
    hide SequentialCourse, ExitsPlan, Of;
    assert forall i | 0 <= i <= |fates| :: (fates + [fate])[..i] == fates[..i];
    assert fates[..|fates|] == fates;
  }

  // ---- what becomes of a call on the parallel path ----

  ghost predicate TogetherCourse(rules: Rules, k: nat, p: Parsed, h: seq<Event>) {
    && |h| > 0 && h[0].Admitted? && !h[0].again && h[0].k == k && h[0].call == p
    && (if !Clear(h[0].outcome) then h[1..] == []
        else if Wants(rules, p) then h[1..] == [Escalated(k)]
        else RanLast(h[1..], k, Together, p.name, h[0].outcome.args, false))
  }

  /** What has happened to a call by the time its coroutine is in a phase. */
  ghost predicate PhaseCourse(rules: Rules, phase: Phase, k: nat, p: Parsed, h: seq<Event>) {
    match phase
    case Waiting => h == []
    case Ready(o) => Clear(o) && !Wants(rules, p) && h == [Admitted(k, false, p, o)]
    case Done => TogetherCourse(rules, k, p, h)
  }

  ghost predicate InPhases(rules: Rules, trace: seq<Event>, first: nat, calls: seq<ToolCall>, phases: seq<Phase>) {
    && |phases| == |calls|
    && forall i | 0 <= i < |calls| ::
      calls[i].parsed.Some? && PhaseCourse(rules, phases[i], first + i, calls[i].parsed.value, Of(trace, first + i))
  }

  lemma NextPhase(rules: Rules, before: seq<Event>, now: seq<Event>, first: nat, calls: seq<ToolCall>, phases: seq<Phase>, i: nat, next: Phase)
    requires InPhases(rules, before, first, calls, phases) && i < |calls|
    requires forall j :: j != first + i ==> Of(now, j) == Of(before, j)
    requires PhaseCourse(rules, next, first + i, calls[i].parsed.value, Of(now, first + i))
    ensures InPhases(rules, now, first, calls, phases[i := next])
  {
    hide PhaseCourse, Of;
  }

  lemma AllWaiting(rules: Rules, trace: seq<Event>, first: nat, calls: seq<ToolCall>)
    requires (forall e | e in trace :: e.k < first) && forall c | c in calls :: c.parsed.Some?
    ensures InPhases(rules, trace, first, calls, seq(|calls|, _ => Waiting))
  {
    forall i | 0 <= i < |calls| ensures calls[i].parsed.Some? && Of(trace, first + i) == [] {
      assert calls[i] in calls;
      OfUnused(trace, first + i);
    }
  }

  lemma AtPhase(rules: Rules, trace: seq<Event>, first: nat, calls: seq<ToolCall>, phases: seq<Phase>, i: nat)
    requires InPhases(rules, trace, first, calls, phases) && i < |phases|
    ensures |phases| == |calls| && calls[i].parsed.Some?
    ensures PhaseCourse(rules, phases[i], first + i, calls[i].parsed.value, Of(trace, first + i))
  {
    hide PhaseCourse, Of;
  }

  lemma AllDone(rules: Rules, trace: seq<Event>, first: nat, calls: seq<ToolCall>, phases: seq<Phase>)
    requires InPhases(rules, trace, first, calls, phases) && forall i | 0 <= i < |phases| :: phases[i] == Done
    ensures forall i | 0 <= i < |calls| ::
      calls[i].parsed.Some? && TogetherCourse(rules, first + i, calls[i].parsed.value, Of(trace, first + i))
  {
    hide TogetherCourse, Of;
  }

  datatype Phase = Waiting | Ready(outcome: Outcome) | Done

  /** Steps left for the calls that run together. */
  ghost function Work(phases: seq<Phase>): nat {
    if phases == [] then 0
    else Work(phases[..|phases| - 1]) + match phases[|phases| - 1] case Waiting => 2 case Ready(_) => 1 case Done => 0
  }

  lemma {:induction false} WorkDrops(phases: seq<Phase>, i: nat, p: Phase)
    requires i < |phases| && phases[i] != Done && (p.Ready? ==> phases[i].Waiting?) && !p.Waiting?
    ensures Work(phases[i := p]) < Work(phases)
  {
    var n := |phases| - 1;
    if i == n {
      assert phases[i := p][..n] == phases[..n];
    } else {
      assert phases[i := p][..n] == phases[..n][i := p];
      WorkDrops(phases[..n], i, p);
    }
  }

  const MAX_TOOL_CALL_CHAIN := 10

  /** A readable call that does not steer the run. */
  predicate Plain(c: ToolCall) { c.parsed.Some? && c.parsed.value.name !in CONTROL_FLOW }

  predicate Steerless(calls: seq<ToolCall>) {
    forall i | 0 <= i < |calls| :: Plain(calls[i])
  }

  /** An unreadable call comes before any that steers the run. */
  predicate StopsReading(calls: seq<ToolCall>) {
    exists i | 0 <= i < |calls| :: calls[i].parsed.None? && forall j | 0 <= j < i :: Plain(calls[j])
  }

  class ToolRunner {
    var messages: seq<Message>
    var planMode: bool
    /** Whether the context carries an error. */
    var error: bool
    /** Turns with tool calls so far. */
    var chain: nat
    const rules: Rules
    const desk: SafetyDesk
    ghost var trace: seq<Event>
    ghost var ticket: nat

    /** The run so far is safe, its grants have their grounds, and tickets from `ticket`
        on are unused. */
    ghost predicate Valid()
      reads this, desk
    {
      && desk.Valid() && Safe(rules, trace) && Grounded(rules, trace)
      && forall e | e in trace :: e.k < ticket
    }

    constructor (theRules: Rules, theDesk: SafetyDesk, history: seq<Message>, plan: bool)
      requires theDesk.Valid()
      ensures Valid() && rules == theRules && desk == theDesk
      ensures trace == [] && messages == history && planMode == plan && !error && chain == 0
    {
      rules, desk := theRules, theDesk;
      messages, planMode, error, chain := history, plan, false, 0;
      trace, ticket := [], 0;
    }

    // ---- the outside world ----

    ghost method Record(e: Event)
      requires Valid() && e.k < ticket && (e.Tried? ==> Cleared(rules, Of(trace, e.k), e))
      requires e.Granted? ==> Sound(e.ground, rules.policy, rules.timeoutApproves)
      modifies this`trace
      ensures Valid() && trace == old(trace) + [e]
      ensures forall k :: Of(trace, k) == Of(old(trace), k) + if e.k == k then [e] else []
    {
      SafeAppend(rules, trace, e);
      forall k: nat { OfAppend(trace, e, k); }
      trace := trace + [e];
    }

    ghost method TakeTicket() returns (k: nat)
      requires Valid()
      modifies this`ticket
      ensures Valid() && k == old(ticket) && ticket == k + 1 && Of(trace, k) == []
    {
      OfUnused(trace, ticket);
      k := ticket;
      ticket := ticket + 1;
    }

    /** The funnel decides, as it likes; but where a question can be put (`interactive`) it
        does not let a call through at first that the policy wants asked about. */
    method Admit(ghost k: nat, again: bool, p: Parsed, interactive: bool) returns (o: Outcome)
      requires Valid() && k < ticket
      modifies this`trace
      ensures Valid() && (interactive && !again && Wants(rules, p) ==> !Clear(o))
      ensures forall j :: Of(trace, j) == Of(old(trace), j) + if j == k then [Admitted(k, again, p, o)] else []
    {
      o := *;
      if interactive && !again && Clear(o) && Wants(rules, p) {
        o := o.(needsApproval := true, hasVerdict := true, required := !o.hasVerdict || o.required);
      }
      Record(Admitted(k, again, p, o));
    }

    /** The approval flow, whatever humans and other runs of the runtime do meanwhile. It
        scores the call as the model made it. */
    method AwaitApproval(ghost k: nat, required: bool, p: Parsed) returns (granted: bool, ghost e: Event)
      requires Valid() && k < ticket
      modifies this`trace, this`error, desk
      ensures Valid() && error == (old(error) || !granted)
      ensures if granted then GrantFor(rules, e, k, required, p) else e == Declined(k)
      ensures granted && Asks(rules.policy, required, CallRisk(rules, p), p.name) ==> !e.ground.Unasked?
      ensures forall j :: Of(trace, j) == Of(old(trace), j) + if j == k then [e] else []
    {
      hide Safe, Of, Grounded;
      var actionId: string, freshId: string, meanwhile: seq<Incoming> := *, *, *;
      ghost var ground: Ground;
      granted, error, ground := desk.AwaitSafetyApproval(
        required, actionId, freshId, rules.policy, CallRisk(rules, p), p.name, meanwhile, rules.timeoutApproves, error);
      e := if granted then Granted(k, ground) else Declined(k);
      Record(e);
    }

    /** The confirmation policy's own wish to ask about a call the funnel let pass. */
    method Escalation(ghost k: nat, p: Parsed) returns (asks: bool)
      requires Valid() && k < ticket
      modifies this`trace
      ensures Valid() && asks == Wants(rules, p)
      ensures forall j :: Of(trace, j) == Of(old(trace), j) + if j == k && asks then [Escalated(k)] else []
    {
      asks := Wants(rules, p);
      if asks { Record(Escalated(k)); }
    }

    /** Looks the tool up, validates the arguments and runs it; whatever goes wrong
        becomes the result. `exits` says the result is the plan-exit sentinel. */
    method Try(ghost k: nat, path: Path, tool: string, args: string) returns (text: string, exits: bool)
      requires Valid() && k < ticket
      requires forall x :: Cleared(rules, Of(trace, k), Tried(k, path, tool, args, planMode, x))
      modifies this`trace
      ensures Valid()
      ensures forall j :: Of(trace, j) == Of(old(trace), j) + if j == k then [Tried(k, path, tool, args, planMode, exits)] else []
    {
      text, exits := *, *;
      Record(Tried(k, path, tool, args, planMode, exits));
    }

    method Reply(id: string, text: string)
      modifies this`messages
      ensures RepliedTo(old(messages), messages, [id])
    {
      messages := messages + [Tool(id, text)];
    }

    /** Something else goes wrong: a model that cannot be reached, a tool error that is to
        stop the run. */
    method Fail()
      requires Valid()
      modifies this`error
      ensures Valid() && error
    {
      error := true;
    }

    /** The error is forgotten. */
    method Forgive()
      requires Valid()
      modifies this`error
      ensures Valid() && !error
    {
      error := false;
    }

    /** The events of the runs it starts come out of this one, errors among them; the
        context keeps its own error flag. */
    method RunSubGraph(ghost k: nat) returns (failed: bool)
      requires Valid() && k < ticket
      modifies this`trace
      ensures Valid()
      ensures forall j :: Of(trace, j) == Of(old(trace), j) + if j == k then [Nested(k, failed)] else []
    {
      failed := *;
      Record(Nested(k, failed));
    }

    // ---- the sequential path ----

    /** The last leg: a call the funnel does not let through is answered with the
        reason, any other runs and is answered with its result. */
    method RunIfClear(ghost k: nat, id: string, p: Parsed, outcome: Outcome) returns (ghost ran: seq<Event>)
      requires Valid() && k < ticket
      requires Clear(outcome) ==>
        forall x :: Cleared(rules, Of(trace, k), Tried(k, Sequential, p.name, outcome.args, planMode, x))
      modifies this`messages, this`planMode, this`trace
      ensures Valid()
      ensures forall j :: Of(trace, j) == Of(old(trace), j) + if j == k then ran else []
      ensures if Clear(outcome) then RanLast(ran, k, Sequential, p.name, outcome.args, old(planMode)) else ran == []
      ensures planMode == (old(planMode) && !ExitsPlan(p.name, ran))
      ensures RepliedTo(old(messages), messages, [id])
    {
      hide Of, Safe, Grounded, SafetyDesk.Valid, Cleared, RepliedTo;
      ran := [];
      if !outcome.allowed || outcome.needsApproval {
        Reply(id, "Blocked");
        return;
      }
      var text, exits := Try(k, Sequential, p.name, outcome.args);
      ran := [Tried(k, Sequential, p.name, outcome.args, planMode, exits)];
      if p.name == EXIT && exits {
        planMode := false;
      }
      Reply(id, text);
    }

    /** Admission, question and answer, second admission, and the tool. */
    method StepFunnel(ghost k: nat, id: string, p: Parsed) returns (fate: Fate)
      requires Valid() && k < ticket && Of(trace, k) == [] && !(planMode && Gated(rules, p.name))
      modifies this`messages, this`planMode, this`error, this`trace, desk
      ensures Valid()
      ensures forall j :: j != k ==> Of(trace, j) == Of(old(trace), j)
      ensures FunnelCourse(rules, Sequential, old(planMode), old(error), k, p, Of(trace, k), fate)
      ensures planMode == (old(planMode) && !ExitsPlan(p.name, Of(trace, k)))
      ensures error == (old(error) || fate == Refused)
      ensures RepliedTo(old(messages), messages, if fate == Answered then [id] else [])
    {
      hide Of, Safe, Grounded, SafetyDesk.Valid, Cleared, RepliedTo, FunnelCourse, RanLast, ExitsPlan, Wants, Asks;
      fate := Answered;
      assert RepliedTo(messages, messages, []) by { NoReplies(messages); }
      ghost var plan, failed := planMode, error;
      var outcome := Admit(k, false, p, true);
      assert Of(trace, k) == [Admitted(k, false, p, outcome)];
      if !outcome.needsApproval {
        if Clear(outcome) { ClearOutright(rules, k, Sequential, p, planMode, outcome); }
        ghost var ran := RunIfClear(k, id, p, outcome);
        CourseOutright(rules, Sequential, plan, failed, k, p, outcome, ran);
        assert Of(trace, k) == [Admitted(k, false, p, outcome)] + ran;
        return;
      }
      if !outcome.hasVerdict {
        Reply(id, "Error: requires approval; no approval backend wired");
        CourseOutright(rules, Sequential, plan, failed, k, p, outcome, []);
        assert Of(trace, k) == [Admitted(k, false, p, outcome)] + [];
        NotTried(k, p, outcome);
        return;
      }
      var granted: bool;
      ghost var e: Event;
      granted, e := AwaitApproval(k, outcome.required, p);
      if error {
        fate := if granted then PassedOver else Refused;
        CourseStopped(rules, Sequential, plan, failed, k, p, outcome, e);
        assert Of(trace, k) == [Admitted(k, false, p, outcome), e];
        return;
      }
      StepReadmitted(k, id, p, outcome, e);
    }

    /** A granted call is admitted again, and runs if it is let through now. */
    method StepReadmitted(ghost k: nat, id: string, p: Parsed, ghost o: Outcome, ghost e: Event)
      requires Valid() && k < ticket && !(planMode && Gated(rules, p.name))
      requires o.needsApproval && o.hasVerdict && GrantFor(rules, e, k, o.required, p)
      requires Of(trace, k) == [Admitted(k, false, p, o), e]
      modifies this`messages, this`planMode, this`trace
      ensures Valid() && forall j :: j != k ==> Of(trace, j) == Of(old(trace), j)
      ensures FunnelCourse(rules, Sequential, old(planMode), false, k, p, Of(trace, k), Answered)
      ensures planMode == (old(planMode) && !ExitsPlan(p.name, Of(trace, k)))
      ensures RepliedTo(old(messages), messages, [id])
    {
      hide Of, Safe, Grounded, SafetyDesk.Valid, Cleared, RepliedTo, FunnelCourse, RanLast, ExitsPlan, GrantFor, Wants;
      ghost var plan := planMode;
      var again := Admit(k, true, p, true);
      ghost var h := [Admitted(k, false, p, o), e, Admitted(k, true, p, again)];
      assert Of(trace, k) == h;
      if Clear(again) { ClearOnReadmission(rules, k, Sequential, p, planMode, o, e, again); }
      ghost var ran := RunIfClear(k, id, p, again);
      CourseReadmitted(rules, Sequential, plan, k, p, o, e, again, ran);
      assert Of(trace, k) == h + ran;
    }

    /** Registering and unregistering tools: admitted without asking. */
    method StepRegistry(ghost k: nat, id: string, p: Parsed)
      requires Valid() && k < ticket && Of(trace, k) == [] && !(planMode && Gated(rules, p.name))
      modifies this`messages, this`trace
      ensures Valid()
      ensures forall j :: j != k ==> Of(trace, j) == Of(old(trace), j)
      ensures RegistryCourse(planMode, k, p, Of(trace, k))
      ensures RepliedTo(old(messages), messages, [id])
    {
      hide Of, Safe, Grounded, SafetyDesk.Valid;
      var outcome := Admit(k, false, p, false);
      if !outcome.allowed || outcome.needsApproval {
        Reply(id, "Blocked");
        return;
      }
      var text, _ := Try(k, Registry, p.name, p.args);
      Reply(id, text);
    }

    /** One call of the loop, from the plan gate to its reply. */
    method StepSequential(ghost k: nat, id: string, p: Parsed) returns (fate: Fate)
      requires Valid() && k < ticket && Of(trace, k) == []
      modifies this`messages, this`planMode, this`error, this`trace, desk
      ensures Valid()
      ensures forall j :: j != k ==> Of(trace, j) == Of(old(trace), j)
      ensures SequentialCourse(rules, old(planMode), old(error), k, p, Of(trace, k), fate)
      ensures planMode == (old(planMode) && !ExitsPlan(p.name, Of(trace, k)))
      ensures error == (old(error) || fate == Refused)
      ensures RepliedTo(old(messages), messages, if fate == Answered then [id] else [])
    {
      fate := Answered;
      if planMode && p.name != EXIT && p.name !in rules.readonly {
        Reply(id, "Blocked: plan_mode is active");
      } else if p.name == SUB_GRAPH {
        var failed := RunSubGraph(k);
        fate := AsSubGraph(failed);
      } else if p.name in REGISTRY_TOOLS {
        StepRegistry(k, id, p);
      } else {
        fate := StepFunnel(k, id, p);
      }
    }

    /** The batch loop. It ends at a call whose JSON cannot be read and, under a consumer
        that stops at the first error event (`stops`), after a call that reports one. Every
        call before that takes the course `SequentialCourse` lays down, and the replies are
        exactly those of the answered calls, in order. */
    method RunSequential(calls: seq<ToolCall>, stops: bool)
      returns (done: nat, ghost first: nat, ghost fates: seq<Fate>, ghost plans: seq<bool>)
      requires Valid()
      modifies this`messages, this`planMode, this`error, this`trace, this`ticket, desk
      ensures Valid() && first == old(ticket) && ticket == first + done && done <= |calls|
      ensures |fates| == done && |plans| == done + 1 && Courses(rules, trace, calls, first, old(error), fates, plans)
      ensures plans[0] == old(planMode) && plans[done] == planMode
      ensures stops ==> StopsAtErrors(fates)
      ensures stops ==> forall i | 0 <= i < done - 1 :: fates[i] !in {Refused, AsSubGraph(true)}
      ensures done < |calls| && calls[done].parsed.Some? ==> stops && done > 0 && fates[done - 1] in {Refused, AsSubGraph(true)}
      ensures done < |calls| && !Stopped(stops, fates) ==> calls[done].parsed.None?
      ensures error == (old(error) || SomeRefused(fates) || (done < |calls| && !Stopped(stops, fates)))
      ensures RepliedTo(old(messages), messages, AnsweredIds(calls[..done], fates))
      ensures planMode ==> old(planMode)
      ensures forall j: nat | j < first :: Of(trace, j) == Of(old(trace), j)
    {
      hide SequentialCourse, RepliedTo, Of, Safe, Grounded, SafetyDesk.Valid, Courses, ExitsPlan, StopsAtErrors, Stopped, ReportsError, AnsweredIds;
      NoFates(stops);
      ghost var failed := error;
      first, fates, plans, done := ticket, [], [planMode], 0;
      NoReplies(messages);
      assert calls[..done] == [];
      NoCourses(rules, trace, calls, first, failed, planMode);
      while done < |calls|
        invariant Valid() && ticket == first + done && done <= |calls|
        invariant |fates| == done && |plans| == done + 1 && Courses(rules, trace, calls, first, old(error), fates, plans)
        invariant plans[0] == old(planMode) && plans[done] == planMode
        invariant !Stopped(stops, fates) && (stops ==> StopsAtErrors(fates))
        invariant error == (old(error) || SomeRefused(fates))
        invariant RepliedTo(old(messages), messages, AnsweredIds(calls[..done], fates))
        invariant planMode ==> old(planMode)
        invariant forall j: nat | j < first :: Of(trace, j) == Of(old(trace), j)
      {
        var tc := calls[done];
        if tc.parsed.None? {
          error := true;
          ErrorsAre(stops, fates);
          return;
        }
        ghost var sofar, before := messages, trace;
        ghost var k := TakeTicket();
        var fate := StepSequential(k, tc.id, tc.parsed.value);
        MoreFates(stops, calls[..done], tc, fates, fate);
        assert calls[..done + 1] == calls[..done] + [tc];
        MoreCourses(rules, before, trace, calls, first, failed, fates, plans, fate, planMode);
        MoreReplies(old(messages), sofar, messages, AnsweredIds(calls[..done], fates), if fate == Answered then [tc.id] else []);
        fates, plans := fates + [fate], plans + [planMode];
        done := done + 1;
        if stops && ReportsError(fate) {
          ErrorsAre(stops, fates);
          return;
        }
      }
      ErrorsAre(stops, fates);
    }

    // ---- the parallel path ----

    /** One step of one of the coroutines that run together. */
    method StepTogether(ghost k: nat, p: Parsed, phase: Phase) returns (next: Phase)
      requires Valid() && k < ticket && !planMode && phase != Done && PhaseCourse(rules, phase, k, p, Of(trace, k))
      modifies this`trace
      ensures Valid() && PhaseCourse(rules, next, k, p, Of(trace, k))
      ensures !next.Waiting? && (next.Ready? ==> phase.Waiting?)
      ensures forall j :: j != k ==> Of(trace, j) == Of(old(trace), j)
    {
      hide Of, Safe, Grounded, SafetyDesk.Valid;
      match phase
      case Waiting =>
        var o := Admit(k, false, p, false);
        assert Of(trace, k) == [Admitted(k, false, p, o)];
        if o.needsApproval { return Done; }
        if !o.allowed { return Done; }
        var asks := Escalation(k, p);
        if asks {
          assert Of(trace, k) == [Admitted(k, false, p, o), Escalated(k)];
          return Done;
        }
        return Ready(o);
      case Ready(o) =>
        ClearOutright(rules, k, Together, p, planMode, o);
        var _, exits := Try(k, Together, p.name, o.args);
        assert Of(trace, k) == [Admitted(k, false, p, o), Tried(k, Together, p.name, o.args, false, exits)];
        return Done;
    }

    /** All calls at once, in whatever interleaving the scheduler picks. */
    method Gather(calls: seq<ToolCall>) returns (ghost first: nat)
      requires Valid() && !planMode && forall c | c in calls :: c.parsed.Some?
      modifies this`trace, this`ticket
      ensures Valid() && first == old(ticket) && ticket == first + |calls|
      ensures forall j: nat | j < first :: Of(trace, j) == Of(old(trace), j)
      ensures forall i | 0 <= i < |calls| :: TogetherCourse(rules, first + i, calls[i].parsed.value, Of(trace, first + i))
    {
      hide Of, Safe, Grounded, SafetyDesk.Valid, TogetherCourse, InPhases;
      first := ticket;
      AllWaiting(rules, trace, first, calls);
      ticket := ticket + |calls|;
      var phases := seq(|calls|, _ => Waiting);
      while exists i :: 0 <= i < |phases| && phases[i] != Done
        invariant Valid() && |phases| == |calls| && ticket == first + |calls|
        invariant InPhases(rules, trace, first, calls, phases)
        invariant forall j: nat | j < first :: Of(trace, j) == Of(old(trace), j)
        decreases Work(phases)
      {
        hide Work;
        ghost var before := trace;
        var i :| 0 <= i < |phases| && phases[i] != Done;
        AtPhase(rules, trace, first, calls, phases, i);
        var next := StepTogether(first + i, calls[i].parsed.value, phases[i]);
        WorkDrops(phases, i, next);
        NextPhase(rules, before, trace, first, calls, phases, i, next);
        phases := phases[i := next];
      }
      AllDone(rules, trace, first, calls, phases);
    }

    /** When all calls are done, one reply each, in the order they were given. */
    method RunTogether(calls: seq<ToolCall>) returns (ghost first: nat)
      requires Valid() && !planMode && forall c | c in calls :: c.parsed.Some?
      modifies this`messages, this`trace, this`ticket
      ensures Valid() && first == old(ticket) && ticket == first + |calls|
      ensures forall j: nat | j < first :: Of(trace, j) == Of(old(trace), j)
      ensures forall i | 0 <= i < |calls| :: TogetherCourse(rules, first + i, calls[i].parsed.value, Of(trace, first + i))
      ensures RepliedTo(old(messages), messages, seq(|calls|, i requires 0 <= i < |calls| => calls[i].id))
    {
      hide Of, Safe, Grounded, SafetyDesk.Valid, TogetherCourse, RepliedTo;
      first := Gather(calls);
      ghost var gathered := trace;
      ghost var ids := seq(|calls|, i requires 0 <= i < |calls| => calls[i].id);
      NoReplies(messages);
      assert ids[..0] == [];
      for i := 0 to |calls|
        invariant Valid() && ticket == first + |calls| && trace == gathered
        invariant RepliedTo(old(messages), messages, ids[..i])
      {
        ghost var sofar := messages;
        var text: string := *;
        Reply(calls[i].id, text);
        MoreReplies(old(messages), sofar, messages, ids[..i], [calls[i].id]);
        assert ids[..i + 1] == ids[..i] + [calls[i].id];
      }
      assert ids[..|calls|] == ids;
    }

    /** The batch of an LLM turn: refused after ten turns with tool calls; together
        exactly when the node asks for it, plan mode is off and no call steers the run;
        one after the other otherwise. Reading the calls for a parallel run ends the
        batch at an unreadable one before anything has run. */
    method RunBatch(calls: seq<ToolCall>, parallelToolCalls: bool, stops: bool)
      returns (together: bool, done: nat, ghost first: nat, ghost fates: seq<Fate>, ghost plans: seq<bool>)
      requires Valid() && calls != []
      modifies this, desk
      ensures Valid() && first == old(ticket) && chain == old(chain) + 1
      ensures forall j: nat | j < first :: Of(trace, j) == Of(old(trace), j)
      ensures planMode ==> old(planMode)
      ensures together <==> old(chain) < 10 && parallelToolCalls && !old(planMode) && Steerless(calls)
      ensures old(chain) >= MAX_TOOL_CALL_CHAIN || (parallelToolCalls && !old(planMode) && StopsReading(calls)) ==>
        done == 0 && error && trace == old(trace) && messages == old(messages)
      ensures together ==> (
        && ticket == first + |calls| && !planMode && error == old(error) && done == |calls|
        && (forall i | 0 <= i < |calls| :: TogetherCourse(rules, first + i, calls[i].parsed.value, Of(trace, first + i)))
        && RepliedTo(old(messages), messages, seq(|calls|, i requires 0 <= i < |calls| => calls[i].id)))
      ensures !together ==> (
        && ticket == first + done && done <= |calls| && |fates| == done && |plans| == done + 1
        && Courses(rules, trace, calls, first, old(error), fates, plans)
        && plans[0] == old(planMode) && plans[done] == planMode
        && RepliedTo(old(messages), messages, AnsweredIds(calls[..done], fates)))
      ensures (old(error) ==> error) && (stops && !together ==> StopsAtErrors(fates))
      ensures !together && done < |calls| && !Stopped(stops, fates) ==> error
      ensures !together && done < |calls| && !Stopped(stops, fates) && calls[done].parsed.Some? ==>
        old(chain) >= MAX_TOOL_CALL_CHAIN || (parallelToolCalls && !old(planMode) && StopsReading(calls))
    {
      hide Of, Safe, Grounded, SafetyDesk.Valid, TogetherCourse, RepliedTo, Courses;
      together, done, first, fates, plans := false, 0, ticket, [], [planMode];
      NoReplies(messages);
      NoCourses(rules, trace, calls, first, error, planMode);
      chain := chain + 1;
      if chain > MAX_TOOL_CALL_CHAIN {
        error := true;
        return;
      }
      together := parallelToolCalls && !planMode;
      if together {
        for i := 0 to |calls|
          invariant forall j | 0 <= j < i :: Plain(calls[j])
          invariant together
        {
          if calls[i].parsed.None? {
            error, together := true, false;
            return;
          }
          if calls[i].parsed.value.name in CONTROL_FLOW {
            together := false;
            break;
          }
        }
      }
      if together {
        first := RunTogether(calls);
        done := |calls|;
      } else {
        done, first, fates, plans := RunSequential(calls, stops);
      }
    }

    // ---- the self-repair path ----

    /** One call of a repair turn. There is no second admission: a granted call
        runs at once, with the arguments it was asked about. */
    method StepRepair(ghost k: nat, id: string, p: Parsed) returns (stopped: bool)
      requires Valid() && k < ticket && Of(trace, k) == []
      modifies this`messages, this`error, this`trace, desk
      ensures Valid()
      ensures forall j :: j != k ==> Of(trace, j) == Of(old(trace), j)
      ensures RepairCourse(rules, planMode, k, p, Of(trace, k), stopped)
      ensures error == (old(error) || stopped)
      ensures RepliedTo(old(messages), messages, if stopped then [] else [id])
    {
      hide Of, Safe, Grounded, SafetyDesk.Valid, Cleared, RepliedTo, RepairCourse, RanLast;
      NoReplies(messages);
      stopped := false;
      if planMode && p.name != EXIT && p.name !in rules.readonly {
        Reply(id, "Blocked: plan_mode active");
        RepairBlocked(rules, k, p);
        return;
      }
      ghost var o: Outcome;
      var ask: Ask, args: string;
      ask, args, o := AskRepair(k, p);
      if ask == Stop { return true; }
      if ask == Reject {
        Reply(id, "Blocked");
        return;
      }
      ghost var h := Of(trace, k);
      GrantClears(rules, k, p, args, planMode, o, h);
      var text, exits := Try(k, Repair, p.name, args);
      RepairRan(rules, planMode, k, p, o, h, args, exits);
      Reply(id, text);
    }

    /** Admission and, when the funnel or the policy wants it, the question. */
    method AskRepair(ghost k: nat, p: Parsed) returns (ask: Ask, args: string, ghost o: Outcome)
      requires Valid() && k < ticket && Of(trace, k) == [] && !(planMode && Gated(rules, p.name))
      modifies this`error, this`trace, desk
      ensures Valid() && forall j :: j != k ==> Of(trace, j) == Of(old(trace), j)
      ensures error == (old(error) || ask == Stop)
      ensures if ask == Go then RepairCleared(rules, k, p, o, args, Of(trace, k))
        else RepairCourse(rules, planMode, k, p, Of(trace, k), ask == Stop)
    {
      hide Of, Safe, Grounded, SafetyDesk.Valid, RanLast;
      var outcome := Admit(k, false, p, false);
      o, args, ask := outcome, outcome.args, Go;
      if Clear(outcome) {
        var escalated := Escalation(k, p);
        if !escalated {
          assert Of(trace, k) == [Admitted(k, false, p, o)];
          return;
        }
        args := p.args;
        var granted: bool;
        ghost var e: Event;
        EscalationAsks(rules.policy, CallRisk(rules, p), p.name, outcome.required);
        granted, e := AwaitApproval(k, outcome.required, p);
        assert Of(trace, k) == [Admitted(k, false, p, o), Escalated(k), e];
        ask := if granted then Go else Stop;
      } else if outcome.needsApproval && outcome.hasVerdict {
        args := p.args;
        var granted: bool;
        ghost var e: Event;
        granted, e := AwaitApproval(k, outcome.required, p);
        assert Of(trace, k) == [Admitted(k, false, p, o), e];
        ask := if granted then Go else Stop;
      } else {
        assert Of(trace, k) == [Admitted(k, false, p, o)];
        ask := Reject;
      }
    }

    /** A repair turn: unreadable calls are skipped without a reply, every other is
        answered once, and a refusal ends the turn at once, unanswered. Plan mode
        does not change, whatever the tools return. */
    method RunRepair(calls: seq<ToolCall>) returns (stopped: bool, ghost done: nat, ghost first: nat)
      requires Valid()
      modifies this`messages, this`error, this`trace, this`ticket, desk
      ensures Valid() && first == old(ticket) && done <= |calls|
      ensures ticket == first + |Readable(calls[..done])|
      ensures forall j: nat | j < first :: Of(trace, j) == Of(old(trace), j)
      ensures RepairCourses(rules, planMode, trace, first, Readable(calls[..done]), stopped)
      ensures if stopped then |Readable(calls[..done])| > 0 else done == |calls|
      ensures error == (old(error) || stopped)
      ensures var taken := Readable(calls[..done]);
        RepliedTo(old(messages), messages, CallIds(if stopped then taken[..|taken| - 1] else taken))
    {
      hide Of, Safe, Grounded, SafetyDesk.Valid, RepairCourse, RepliedTo;
      stopped, done, first := false, 0, ticket;
      ghost var taken: seq<ToolCall> := [];
      NoReplies(messages);
      assert calls[..0] == [] && CallIds(taken) == [];
      for i := 0 to |calls|
        invariant Valid() && !stopped && done == i && taken == Readable(calls[..i]) && ticket == first + |taken|
        invariant RepairCourses(rules, planMode, trace, first, taken, false)
        invariant error == old(error)
        invariant forall j: nat | j < first :: Of(trace, j) == Of(old(trace), j)
        invariant RepliedTo(old(messages), messages, CallIds(taken))
      {
        var tc := calls[i];
        assert calls[..i + 1][..i] == calls[..i];
        done := i + 1;
        if tc.parsed.None? { continue; }
        ghost var sofar, before := messages, trace;
        ghost var k := TakeTicket();
        stopped := StepRepair(k, tc.id, tc.parsed.value);
        MoreRepairs(rules, planMode, before, trace, first, taken, tc, stopped);
        MoreReplies(old(messages), sofar, messages, CallIds(taken), if stopped then [] else [tc.id]);
        assert (taken + [tc])[..|taken|] == taken;
        if stopped {
          assert CallIds(taken) + [] == CallIds(taken);
          return;
        }
        assert CallIds(taken + [tc]) == CallIds(taken) + [tc.id];
        taken := taken + [tc];
      }
      assert calls[..|calls|] == calls;
    }

    // ---- the tool node ----

    /** A tool node runs one tool, through the same question and answer as the
        sequential loop, and replies only when it ran; everything that keeps it
        from running sets the error. It never leaves plan mode. */
    method RunToolNode(p: Parsed, unsafeCommand: bool, stopOnError: bool) returns (ghost k: nat, ghost fate: Fate)
      requires Valid()
      modifies this`messages, this`error, this`trace, this`ticket, desk
      ensures Valid() && k == old(ticket) && ticket == k + 1 && (old(error) ==> error)
      ensures forall j: nat | j < k :: Of(trace, j) == Of(old(trace), j)
      ensures p.name == SUB_GRAPH ==> error == old(error) && exists failed :: Of(trace, k) == [Nested(k, failed)]
      ensures p.name != SUB_GRAPH && (unsafeCommand || (planMode && Gated(rules, p.name))) ==> Of(trace, k) == [] && error
      ensures p.name != SUB_GRAPH && !unsafeCommand && !(planMode && Gated(rules, p.name)) ==>
        FunnelCourse(rules, ToolNode, planMode, old(error), k, p, Of(trace, k), fate)
      ensures Of(trace, k) == [] <==>
        p.name != "__sub_graph__" && (unsafeCommand || (planMode && p.name != "exit_plan_mode" && p.name !in rules.readonly))
      ensures Of(trace, k) != [] ==> StartsRight(p, Of(trace, k)[0])
      ensures p.name != SUB_GRAPH && !HasRun(Of(trace, k)) ==> error
      ensures RepliedTo(old(messages), messages, if HasRun(Of(trace, k)) then ["tool_" + p.name] else [])
    {
      hide Of, Safe, Grounded, SafetyDesk.Valid, Cleared, RepliedTo, FunnelCourse, RanLast;
      fate := Answered;
      NoReplies(messages);
      k := TakeTicket();
      if p.name == SUB_GRAPH {
        var _ := RunSubGraph(k);
        return;
      }
      if unsafeCommand || (planMode && p.name !in rules.readonly && p.name != EXIT) {
        error := true;
        return;
      }
      fate := StepNode(k, p, stopOnError);
      FunnelAdmits(rules, ToolNode, planMode, old(error), k, p, Of(trace, k), fate);
    }

    /** The tool node's question: what the funnel says last, unless the call was
        stopped on the way. */
    method AskNode(ghost k: nat, p: Parsed) returns (go: bool, ghost o: Outcome, last: Outcome, ghost fate: Fate)
      requires Valid() && k < ticket && Of(trace, k) == []
      modifies this`error, this`trace, desk
      ensures Valid() && forall j :: j != k ==> Of(trace, j) == Of(old(trace), j)
      ensures go ==> error == old(error) && fate == Answered && NodeAsked(rules, old(error), k, p, o, last, Of(trace, k))
      ensures !go ==> error && FunnelCourse(rules, ToolNode, planMode, old(error), k, p, Of(trace, k), fate) && !HasRun(Of(trace, k))
    {
      hide Of, Safe, Grounded, SafetyDesk.Valid, FunnelCourse, RanLast;
      fate, go := Answered, false;
      last := Admit(k, false, p, true);
      o := last;
      ghost var h := [Admitted(k, false, p, o)];
      assert Of(trace, k) == h;
      if !last.needsApproval { return true, o, last, fate; }
      if !last.hasVerdict {
        CourseOutright(rules, ToolNode, planMode, error, k, p, o, []);
        assert h + [] == h;
        error := true;
        return;
      }
      ghost var failed := error;
      var granted: bool;
      ghost var e: Event;
      granted, e := AwaitApproval(k, last.required, p);
      h := [Admitted(k, false, p, o), e];
      assert Of(trace, k) == h;
      if error {
        fate := if granted then PassedOver else Refused;
        CourseStopped(rules, ToolNode, planMode, failed, k, p, o, e);
        return;
      }
      last := Admit(k, true, p, true);
      h := [Admitted(k, false, p, o), e, Admitted(k, true, p, last)];
      assert Of(trace, k) == h;
      go := true;
    }

    method StepNode(ghost k: nat, p: Parsed, stopOnError: bool) returns (ghost fate: Fate)
      requires Valid() && k < ticket && Of(trace, k) == [] && !(planMode && Gated(rules, p.name))
      modifies this`messages, this`error, this`trace, desk
      ensures Valid() && (old(error) ==> error)
      ensures forall j :: j != k ==> Of(trace, j) == Of(old(trace), j)
      ensures FunnelCourse(rules, ToolNode, planMode, old(error), k, p, Of(trace, k), fate)
      ensures !HasRun(Of(trace, k)) ==> error
      ensures RepliedTo(old(messages), messages, if HasRun(Of(trace, k)) then ["tool_" + p.name] else [])
    {
      hide Of, Safe, Grounded, SafetyDesk.Valid, Cleared, RepliedTo, FunnelCourse, RanLast, HasRun;
      NoReplies(messages);
      ghost var failed := error;
      ghost var o: Outcome;
      var go: bool, last: Outcome;
      go, o, last, fate := AskNode(k, p);
      if !go { return; }
      ghost var h := Of(trace, k);
      if !Clear(last) {
        error := true;
        NodeCourse(rules, planMode, failed, k, p, o, last, h, []);
        assert h + [] == h;
        return;
      }
      if o.needsApproval {
        ClearOnReadmission(rules, k, ToolNode, p, planMode, o, h[1], last);
      } else {
        ClearOutright(rules, k, ToolNode, p, planMode, last);
      }
      var text, exits := Try(k, ToolNode, p.name, last.args);
      NodeCourse(rules, planMode, failed, k, p, o, last, h, [Tried(k, ToolNode, p.name, last.args, planMode, exits)]);
      Reply("tool_" + p.name, text);
      var isError: bool := *;
      if isError && stopOnError { error := true; }
    }
  }

  // ---- the self-repair course ----

  /** The complete course of a call of a repair turn; `stopped` says a refusal
      ended the turn with it. */
  ghost predicate RepairCourse(rules: Rules, plan: bool, k: nat, p: Parsed, h: seq<Event>, stopped: bool) {
    if plan && Gated(rules, p.name) then h == [] && !stopped
    else if |h| == 0 || !h[0].Admitted? || h[0].again || h[0].k != k || h[0].call != p then false
    else
      var o := h[0].outcome;
      if Clear(o) then
        if Wants(rules, p) then |h| > 1 && h[1] == Escalated(k) && Decided(rules, plan, k, p, o, true, h[2..], stopped)
        else RanLast(h[1..], k, Repair, p.name, o.args, plan) && !stopped
      else if o.needsApproval && o.hasVerdict then Decided(rules, plan, k, p, o, false, h[1..], stopped)
      else h[1..] == [] && !stopped
  }

  ghost predicate Decided(rules: Rules, plan: bool, k: nat, p: Parsed, o: Outcome, escalated: bool, h: seq<Event>, stopped: bool) {
    if stopped then h == [Declined(k)]
    else |h| > 0 && GrantFor(rules, h[0], k, o.required, p) && (escalated ==> !h[0].ground.Unasked?) && RanLast(h[1..], k, Repair, p.name, p.args, plan)
  }

  lemma GrantClears(rules: Rules, k: nat, p: Parsed, args: string, plan: bool, o: Outcome, h: seq<Event>)
    requires !(plan && Gated(rules, p.name)) && RepairCleared(rules, k, p, o, args, h)
    ensures forall x :: Cleared(rules, h, Tried(k, Repair, p.name, args, plan, x))
  {
  }

  datatype Ask = Go | Reject | Stop

  /** Free to run: admitted outright, or granted. */
  ghost predicate RepairCleared(rules: Rules, k: nat, p: Parsed, o: Outcome, args: string, h: seq<Event>) {
    || (h == [Admitted(k, false, p, o)] && Clear(o) && !Wants(rules, p) && args == o.args)
    || (|h| == 3 && Wants(rules, p) && h[..2] == [Admitted(k, false, p, o), Escalated(k)] && GrantFor(rules, h[2], k, o.required, p)
        && !h[2].ground.Unasked? && Clear(o) && args == p.args)
    || (|h| == 2 && h[0] == Admitted(k, false, p, o) && GrantFor(rules, h[1], k, o.required, p)
        && o.needsApproval && o.hasVerdict && args == p.args)
  }

  lemma RepairBlocked(rules: Rules, k: nat, p: Parsed)
    requires Gated(rules, p.name)
    ensures RepairCourse(rules, true, k, p, [], false)
  {
  }

  lemma RepairRan(rules: Rules, plan: bool, k: nat, p: Parsed, o: Outcome, h: seq<Event>, args: string, exits: bool)
    requires !(plan && Gated(rules, p.name))
    requires RepairCleared(rules, k, p, o, args, h)
    ensures RepairCourse(rules, plan, k, p, h + [Tried(k, Repair, p.name, args, plan, exits)], false)
  {
    var t := [Tried(k, Repair, p.name, args, plan, exits)];
    if |h| == 1 {
      assert (h + t)[1..] == t;
    } else if |h| == 2 {
      assert (h + t)[1..] == [h[1]] + t && ([h[1]] + t)[1..] == t;
    } else {
      assert h[..2][0] == h[0] && h[..2][1] == h[1];
      assert (h + t)[2..] == [h[2]] + t && ([h[2]] + t)[1..] == t;
    }
  }

  function Readable(calls: seq<ToolCall>): seq<ToolCall> {
    if calls == [] then []
    else
      Readable(calls[..|calls| - 1])
      + (if calls[|calls| - 1].parsed.Some? then [calls[|calls| - 1]] else [])
  }

  /** The calls that can be read, in order. */
  lemma {:induction false} ReadableAre(a: seq<ToolCall>, b: seq<ToolCall>, c: ToolCall)
    ensures Readable([]) == [] && Readable([c]) == if c.parsed.None? then [] else [c]
    ensures Readable(a + b) == Readable(a) + Readable(b)
  {
    assert [c][..0] == [];
    if b == [] {
      assert a + b == a;
    } else {
      var n := |b| - 1;
      assert (a + b)[..|a + b| - 1] == a + b[..n];
      ReadableAre(a, b[..n], c);
    }
  }

  function CallIds(calls: seq<ToolCall>): seq<string> {
    seq(|calls|, i requires 0 <= i < |calls| => calls[i].id)
  }

  ghost predicate RepairCourses(
    rules: Rules, plan: bool, trace: seq<Event>, first: nat, taken: seq<ToolCall>, stopped: bool)
  {
    forall i | 0 <= i < |taken| :: taken[i].parsed.Some?
      && RepairCourse(rules, plan, first + i, taken[i].parsed.value, Of(trace, first + i), stopped && i == |taken| - 1)
  }

  lemma MoreRepairs(
    rules: Rules, plan: bool, before: seq<Event>, now: seq<Event>, first: nat, taken: seq<ToolCall>, c: ToolCall, stopped: bool)
    requires RepairCourses(rules, plan, before, first, taken, false) && c.parsed.Some?
    requires forall j :: j != first + |taken| ==> Of(now, j) == Of(before, j)
    requires RepairCourse(rules, plan, first + |taken|, c.parsed.value, Of(now, first + |taken|), stopped)
    ensures RepairCourses(rules, plan, now, first, taken + [c], stopped)
  {
    hide RepairCourse, Of;
  }

  // ---- the tool node's course ----

  /** The first event of a call that is not answered outright. */
  ghost predicate StartsRight(p: Parsed, e: Event) {
    if p.name == "__sub_graph__" then e.Nested? else e.Admitted? && !e.again && e.call == p
  }

  lemma FunnelAdmits(rules: Rules, path: Path, plan: bool, failed: bool, k: nat, p: Parsed, h: seq<Event>, fate: Fate)
    requires FunnelCourse(rules, path, plan, failed, k, p, h, fate)
    ensures h != [] && h[0].Admitted? && !h[0].again && h[0].call == p
  {
  }

  ghost predicate HasRun(h: seq<Event>) { |h| > 0 && h[|h| - 1].Tried? }

  /** Let through without a question, or granted and admitted again. */
  ghost predicate NodeAsked(rules: Rules, failed: bool, k: nat, p: Parsed, o: Outcome, last: Outcome, h: seq<Event>) {
    || (h == [Admitted(k, false, p, o)] && last == o && !o.needsApproval && (Clear(o) ==> !Wants(rules, p)))
    || (|h| == 3 && h == [Admitted(k, false, p, o), h[1], Admitted(k, true, p, last)] && GrantFor(rules, h[1], k, o.required, p)
        && o.needsApproval && o.hasVerdict && !failed)
  }

  lemma NodeCourse(rules: Rules, plan: bool, failed: bool, k: nat, p: Parsed, o: Outcome, last: Outcome, h: seq<Event>, ran: seq<Event>)
    requires if Clear(last) then RanLast(ran, k, ToolNode, p.name, last.args, plan) else ran == []
    requires NodeAsked(rules, failed, k, p, o, last, h)
    ensures FunnelCourse(rules, ToolNode, plan, failed, k, p, h + ran, Answered)
    ensures HasRun(h + ran) == Clear(last)
  {
    if o.needsApproval {
      CourseReadmitted(rules, ToolNode, plan, k, p, o, h[1], last, ran);
    } else {
      CourseOutright(rules, ToolNode, plan, failed, k, p, o, ran);
    }
  }

  // ---- reply discipline ----

  ghost predicate WasGranted(h: seq<Event>) { exists e :: e in h && e.Granted? }

  /** A readable call of the loop goes unanswered in exactly three cases: it ran as a
      sub-graph, the approval flow refused it, or the flow granted it after the run had
      already been marked failed. */
  lemma UnansweredIff(
    rules: Rules, trace: seq<Event>, calls: seq<ToolCall>, first: nat, failed: bool,
    fates: seq<Fate>, plans: seq<bool>, i: nat)
    requires Courses(rules, trace, calls, first, failed, fates, plans) && i < |fates|
    ensures var h, k := Of(trace, first + i), first + i;
      && (forall bad :: fates[i] == AsSubGraph(bad) <==> Nested(k, bad) in h)
      && (fates[i] == Refused <==> Declined(k) in h)
      && (fates[i] == PassedOver <==> WasGranted(h) && (failed || exists j | 0 <= j < i :: fates[j] == Refused))
  {
    hide Of;
    assert SomeRefused(fates[..i]) <==> exists j | 0 <= j < i :: fates[j] == Refused;
    CourseFate(rules, plans[i], failed || SomeRefused(fates[..i]), first + i, calls[i].parsed.value, Of(trace, first + i), fates[i]);
  }

  lemma CourseFate(rules: Rules, plan: bool, failed: bool, k: nat, p: Parsed, h: seq<Event>, fate: Fate)
    requires SequentialCourse(rules, plan, failed, k, p, h, fate)
    ensures forall bad :: fate == AsSubGraph(bad) <==> Nested(k, bad) in h
    ensures fate == Refused <==> Declined(k) in h
    ensures fate == PassedOver <==> WasGranted(h) && failed
  {
    assert forall e :: e in h <==> exists j | 0 <= j < |h| :: h[j] == e;
    assert |h| > 1 ==> h[1..][0] == h[1] && h[1] in h;
    assert |h| > 2 ==> h[1..][1] == h[2] == h[2..][0];
    assert |h| > 3 ==> h[2..][1] == h[3];
  }

  /** A granted call does not run, but in a repair turn. */
  ghost predicate GrantedIdle(h: seq<Event>) {
    WasGranted(h) ==> forall e | e in h && e.Tried? :: e.path == Repair
  }

  /** In a run that is marked failed nothing comes of a grant in a batch. */
  lemma FailedBatchIsIdle(
    rules: Rules, trace: seq<Event>, calls: seq<ToolCall>, first: nat, fates: seq<Fate>, plans: seq<bool>, i: nat)
    requires Courses(rules, trace, calls, first, true, fates, plans) && i < |fates|
    ensures GrantedIdle(Of(trace, first + i))
  {
    hide Of;
    IdleCourse(rules, plans[i], first + i, calls[i].parsed.value, Of(trace, first + i), fates[i]);
  }

  lemma IdleCourse(rules: Rules, plan: bool, k: nat, p: Parsed, h: seq<Event>, fate: Fate)
    requires SequentialCourse(rules, plan, true, k, p, h, fate)
    ensures GrantedIdle(h)
  {
    assert |h| > 1 ==> h[1..][0] == h[1];
    assert forall e | e in h :: exists j | 0 <= j < |h| :: h[j] == e;
    assert |h| <= 2;
  }

  /** Nor in a parallel batch, where nothing is granted. */
  lemma TogetherIsIdle(rules: Rules, k: nat, p: Parsed, h: seq<Event>)
    requires TogetherCourse(rules, k, p, h)
    ensures GrantedIdle(h)
  {
    assert |h| > 1 ==> h[1..][0] == h[1];
    assert |h| <= 2;
  }

  lemma RepairIsIdle(rules: Rules, plan: bool, k: nat, p: Parsed, h: seq<Event>, stopped: bool)
    requires RepairCourse(rules, plan, k, p, h, stopped)
    ensures GrantedIdle(h)
  {
    if h != [] {
      assert |h| > 1 ==> h[1..][0] == h[1];
      assert |h| > 2 ==> h[1..][1..] == h[2..] && h[2..][0] == h[2];
      assert |h| > 3 ==> h[2..][1..] == h[3..] && h[3..][0] == h[3];
      assert 1 < |h| <= 4 || h == [h[0]];
      assert forall e | e in h :: e == h[0] || (|h| > 1 && e == h[1]) || (|h| > 2 && e == h[2]) || (|h| > 3 && e == h[3]);
    }
  }

  lemma NodeIsIdle(rules: Rules, plan: bool, k: nat, p: Parsed, h: seq<Event>, fate: Fate)
    requires FunnelCourse(rules, ToolNode, plan, true, k, p, h, fate)
    ensures GrantedIdle(h)
  {
    assert |h| > 1 ==> h[1..][0] == h[1];
    assert |h| <= 2;
  }

  /** Under a consumer that stops at the first error event, only a run that was marked
      failed before the batch passes a granted call over. */
  lemma StoppedBatchPassesOverIff(
    rules: Rules, trace: seq<Event>, calls: seq<ToolCall>, first: nat, failed: bool,
    fates: seq<Fate>, plans: seq<bool>, i: nat)
    requires Courses(rules, trace, calls, first, failed, fates, plans) && i < |fates| && StopsAtErrors(fates)
    ensures fates[i] == PassedOver <==> WasGranted(Of(trace, first + i)) && failed
  {
    hide Of, Courses;
    UnansweredIff(rules, trace, calls, first, failed, fates, plans, i);
    assert forall j | 0 <= j < i :: !ReportsError(fates[j]);
  }

  /** Under one that reads on it does happen: a human refuses the first call of a batch
      and approves the second, and neither runs nor is answered. */
  lemma ApprovedIsPassedOver(rules: Rules, a: ToolCall, b: ToolCall, o: Outcome)
    requires a.parsed.Some? && a.parsed.value.name !in CONTROL_FLOW && b.parsed.Some? && b.parsed.value.name !in CONTROL_FLOW
    requires o.needsApproval && o.hasVerdict
    ensures var pa, pb := a.parsed.value, b.parsed.value;
      var trace := [Admitted(0, false, pa, o), Declined(0), Admitted(1, false, pb, o), Granted(1, ByHuman)];
      && Safe(rules, trace) && Grounded(rules, trace)
      && Courses(rules, trace, [a, b], 0, false, [Refused, PassedOver], [false, false, false])
      && AnsweredIds([a, b], [Refused, PassedOver]) == []
  {
    hide Of, Safe, Courses, AnsweredIds;
    var pa, pb := a.parsed.value, b.parsed.value;
    var trace := [Admitted(0, false, pa, o), Declined(0), Admitted(1, false, pb, o), Granted(1, ByHuman)];
    OfFour(trace[0], trace[1], trace[2], trace[3], 0);
    OfFour(trace[0], trace[1], trace[2], trace[3], 1);
    NothingTried(rules, trace);
    assert Of(trace, 0) == [Admitted(0, false, pa, o), Declined(0)];
    assert Of(trace, 1) == [Admitted(1, false, pb, o), Granted(1, ByHuman)];
    TwoCourses(rules, trace, a, b);
    NoneAnswered(a, b);
  }

  lemma NothingTried(rules: Rules, trace: seq<Event>)
    requires forall e | e in trace :: !e.Tried?
    ensures Safe(rules, trace)
  {
  }

  lemma NoneAnswered(a: ToolCall, b: ToolCall)
    ensures AnsweredIds([a, b], [Refused, PassedOver]) == []
  {
    var fates := [Refused, PassedOver];
    assert [a, b][..1] == [a] && fates[..1] == [Refused];
    assert [a][..0] == [] && [Refused][..0] == [];
    assert AnsweredIds([a], [Refused]) == [];
  }

  lemma TwoCourses(rules: Rules, trace: seq<Event>, a: ToolCall, b: ToolCall)
    requires a.parsed.Some? && b.parsed.Some?
    requires SequentialCourse(rules, false, false, 0, a.parsed.value, Of(trace, 0), Refused)
    requires SequentialCourse(rules, false, true, 1, b.parsed.value, Of(trace, 1), PassedOver)
    requires !ExitsPlan(a.parsed.value.name, Of(trace, 0)) && !ExitsPlan(b.parsed.value.name, Of(trace, 1))
    ensures Courses(rules, trace, [a, b], 0, false, [Refused, PassedOver], [false, false, false])
  {
    hide SequentialCourse, Of;
    var fates := [Refused, PassedOver];
    assert fates[..0] == [] && fates[..1] == [Refused];
  }

  lemma OfFour(a: Event, b: Event, c: Event, d: Event, k: nat)
    ensures Of([a, b, c, d], k) == (if a.k == k then [a] else []) + (if b.k == k then [b] else [])
      + (if c.k == k then [c] else []) + (if d.k == k then [d] else [])
  {
    OfAppend([], a, k);
    OfAppend([a], b, k);
    OfAppend([a, b], c, k);
    OfAppend([a, b, c], d, k);
    assert [] + [a] == [a] && [a] + [b] == [a, b] && [a, b] + [c] == [a, b, c] && [a, b, c] + [d] == [a, b, c, d];
  }

  /** A repair turn never admits a call twice: what it was granted runs as it was asked for. */
  lemma RepairAdmitsOnce(rules: Rules, plan: bool, k: nat, p: Parsed, h: seq<Event>, stopped: bool)
    requires RepairCourse(rules, plan, k, p, h, stopped)
    ensures forall e | e in h && e.Admitted? :: !e.again && e == h[0]
    ensures WasGranted(h) ==> h[|h| - 1].Tried? && h[|h| - 1].args == p.args
  {
    if h != [] {
      assert |h| > 1 ==> h[1..][0] == h[1];
      assert |h| > 2 ==> h[1..][1..] == h[2..] && h[2..][0] == h[2];
      assert |h| > 3 ==> h[2..][1..] == h[3..] && h[3..][0] == h[3];
      assert 1 < |h| <= 4 || h == [h[0]];
      assert forall e | e in h :: e == h[0] || (|h| > 1 && e == h[1]) || (|h| > 2 && e == h[2]) || (|h| > 3 && e == h[3]);
    }
  }

  /** That too happens: asked about, approved, and run on the one admission that wanted it
      asked about. */
  lemma RepairRunsOnOneAdmission(rules: Rules, a: ToolCall, o: Outcome)
    requires a.parsed.Some? && o.needsApproval && o.hasVerdict
    ensures var p := a.parsed.value;
      var trace := [Admitted(0, false, p, o), Granted(0, ByHuman), Tried(0, Repair, p.name, p.args, false, false)];
      Safe(rules, trace) && Grounded(rules, trace) && RepairCourses(rules, false, trace, 0, [a], false)
  {
    hide Of, RepairCourse;
    var p := a.parsed.value;
    var h: seq<Event> := [Admitted(0, false, p, o), Granted(0, ByHuman)];
    var t := Tried(0, Repair, p.name, p.args, false, false);
    var trace := h + [t];
    assert trace == [Admitted(0, false, p, o), Granted(0, ByHuman), t];
    TwoOf(h[0], h[1], 0);
    OfAppend(h, t, 0);
    assert Of(h, 0) == h && Of(trace, 0) == trace;
    NothingTried(rules, h);
    SafeAppend(rules, h, t);
    RepairRan(rules, false, 0, p, o, h, p.args, false);
    assert h + [t] == trace;
  }

  // ---- who let it run ----

  /** The call was to be asked about, by the funnel or by the confirmation policy. */
  ghost predicate ToBeAsked(h: seq<Event>) {
    exists e :: e in h && (e.Escalated? || (e.Admitted? && e.outcome.needsApproval))
  }

  /** The facts an ask is decided by: the verdict's wish, and the risk of the call as the
      model made it. */
  predicate MustAsk(rules: Rules, required: bool, p: Parsed) {
    Asks(rules.policy, required, CallRisk(rules, p), p.name)
  }

  ghost predicate ByPerson(e: Event, timeoutApproves: bool) {
    e.Granted? && (e.ground == ByHuman || (e.ground == ByTimeout && timeoutApproves))
  }

  /** A call that was to be asked about and ran had been granted: by a human, by a
      timeout that counts as approval, or by nobody, and then policy and verdict did not
      want this very call, as the model made it, asked about. */
  lemma AskedRunsWereGranted(rules: Rules, trace: seq<Event>, i: nat)
    requires Safe(rules, trace) && Grounded(rules, trace)
    requires i < |trace| && trace[i].Tried? && ToBeAsked(Of(trace[..i], trace[i].k))
    ensures var h := Of(trace[..i], trace[i].k);
      && h[0].Admitted? && h[0].call.name == trace[i].tool
      && ((exists e :: e in h && ByPerson(e, rules.timeoutApproves))
          || (!MustAsk(rules, h[0].outcome.required, h[0].call) && !Wants(rules, h[0].call) && WasGranted(h)))
  {
    hide Of, Safe, RiskOf, Decide;
    var h := Of(trace[..i], trace[i].k);
    OfMembers(trace[..i], trace[i].k);
    assert forall e | e in trace[..i] :: e in trace;
    ClearedAt(rules, trace, i);
    assert |h| > 1 && h[1] in h && (|h| > 2 ==> h[2] in h);
    EscalationAsks(rules.policy, CallRisk(rules, h[0].call), h[0].call.name, h[0].outcome.required);
  }

  lemma ClearedAt(rules: Rules, trace: seq<Event>, i: nat)
    requires Safe(rules, trace) && i < |trace| && trace[i].Tried?
    ensures Cleared(rules, Of(trace[..i], trace[i].k), trace[i])
  {
  }

  /** Under every policy: what must be asked about runs only by a human, or by a timeout
      where timeouts approve. */
  lemma HumansDecide(rules: Rules, trace: seq<Event>, i: nat)
    requires Safe(rules, trace) && Grounded(rules, trace)
    requires i < |trace| && trace[i].Tried? && ToBeAsked(Of(trace[..i], trace[i].k))
    requires var first := Of(trace[..i], trace[i].k)[0];
      first.Admitted? ==> MustAsk(rules, first.outcome.required, first.call) || Wants(rules, first.call)
    ensures exists e :: e in Of(trace[..i], trace[i].k) && ByPerson(e, rules.timeoutApproves)
  {
    hide *;
    AskedRunsWereGranted(rules, trace, i);
  }

  /** What the policy wants asked about runs only by a human or an approving timeout, on
      every path but the registry's, and never in parallel, where nobody can be asked. */
  lemma PolicyIsKept(rules: Rules, trace: seq<Event>, i: nat)
    requires Safe(rules, trace) && Grounded(rules, trace)
    requires i < |trace| && trace[i].Tried? && trace[i].path != Registry
    ensures var h := Of(trace[..i], trace[i].k);
      && |h| > 0 && h[0].Admitted? && h[0].call.name == trace[i].tool
      && (Wants(rules, h[0].call) ==> trace[i].path != Together && exists e :: e in h && ByPerson(e, rules.timeoutApproves))
  {
    hide Of, Safe, RiskOf, Decide;
    var h := Of(trace[..i], trace[i].k);
    OfMembers(trace[..i], trace[i].k);
    assert forall e | e in trace[..i] :: e in trace;
    ClearedAt(rules, trace, i);
    assert h[0] in h && (|h| > 1 ==> h[1] in h) && (|h| > 2 ==> h[2] in h);
    EscalationAsks(rules.policy, CallRisk(rules, h[0].call), h[0].call.name, h[0].outcome.required);
  }

  /** A registry tool the funnel lets through runs unasked, under every policy. */
  lemma RegistryAsksNobody(rules: Rules, p: Parsed, o: Outcome, exits: bool)
    requires p.name in REGISTRY_TOOLS && Clear(o)
    ensures var trace := [Admitted(0, false, p, o), Tried(0, Registry, p.name, p.args, false, exits)];
      && Safe(rules, trace) && Grounded(rules, trace)
      && SequentialCourse(rules, false, false, 0, p, Of(trace, 0), Answered)
  {
    AdmittedAndRun(rules, Admitted(0, false, p, o), Tried(0, Registry, p.name, p.args, false, exits));
  }

  lemma AdmittedAndRun(rules: Rules, a: Event, t: Event)
    requires a.Admitted? && t.Tried? && a.k == t.k && Cleared(rules, [a], t)
    ensures Safe(rules, [a, t]) && Grounded(rules, [a, t]) && Of([a, t], a.k) == [a, t]
  {
    hide Cleared;
    TwoOf(a, t, a.k);
    OfAppend([], a, a.k);
    assert [] + [a] == [a] && [a] + [t] == [a, t];
    NothingTried(rules, [a]);
    SafeAppend(rules, [a], t);
  }

  /** But what the policy scored is the call as the model made it: with arguments rewritten
      on the way, what runs in parallel can be a call the policy wants asked about. */
  lemma RewrittenIsNotScored(rules: Rules, p: Parsed, args: string)
    requires !Wants(rules, p) && Wants(rules, Parsed(p.name, args))
    ensures var trace := [Admitted(0, false, p, Outcome(true, false, false, false, args)), Tried(0, Together, p.name, args, false, false)];
      Safe(rules, trace) && Grounded(rules, trace) && TogetherCourse(rules, 0, p, Of(trace, 0))
  {
    AdmittedAndRun(rules, Admitted(0, false, p, Outcome(true, false, false, false, args)), Tried(0, Together, p.name, args, false, false));
  }

  lemma TwoOf(a: Event, b: Event, k: nat)
    ensures Of([a, b], k) == (if a.k == k then [a] else []) + (if b.k == k then [b] else [])
  {
    OfAppend([], a, k);
    OfAppend([a], b, k);
    assert [] + [a] == [a] && [a] + [b] == [a, b];
  }

  /** What a checkpoint taken after a batch reports as pending: the whole batch
      while nothing was answered, nothing once anything was. */
  lemma PendingAfterBatch(before: seq<Message>, text: string, calls: seq<ToolCall>, now: seq<Message>, ids: seq<string>)
    requires RepliedTo(before + [Assistant(text, calls)], now, ids)
    ensures PendingCalls(now) == if ids == [] then calls else []
  {
    var asked := before + [Assistant(text, calls)];
    var replies := now[|asked|..];
    assert now == asked + replies;
    assert |replies| > 0 ==> replies[0] in replies;
    PendingUntilFirstReply(before, text, calls, replies);
  }

  lemma NoReplies(ms: seq<Message>)
    ensures RepliedTo(ms, ms, [])
  {
  }

  lemma MoreReplies(a: seq<Message>, b: seq<Message>, c: seq<Message>, ids: seq<string>, more: seq<string>)
    requires RepliedTo(a, b, ids) && RepliedTo(b, c, more)
    ensures RepliedTo(a, c, ids + more)
  {
    assert c[..|a|] == c[..|b|][..|a|] == a;
    assert c[|a|..] == b[|a|..] + c[|b|..];
  }
}
