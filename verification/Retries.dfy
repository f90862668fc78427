/** The error handler's retries: it clears the error once, runs the failed node up to so
    many times, and, unlike the dispatcher, reads on past every error event. */
module Retries {
  import opened Approvals
  import opened Checkpoints
  import opened ToolCalls

  /** One attempt at the failed node: a turn of an LLM node with its batch and what the
      repair turns after it ask for, or a tool node. */
  datatype Attempt =
    | Turn(calls: seq<ToolCall>, parallelToolCalls: bool, repairs: seq<seq<ToolCall>>)
    | OneTool(call: Parsed, unsafeCommand: bool, stopOnError: bool)

  /** Grants of the calls with these tickets come to nothing, but in repair turns. */
  ghost predicate AllIdle(trace: seq<Event>, from: nat, to: nat) {
    forall k: nat | from <= k < to :: GrantedIdle(Of(trace, k))
  }

  lemma MoreIdle(a: seq<Event>, b: seq<Event>, from: nat, mid: nat, to: nat)
    requires AllIdle(a, from, mid) && AllIdle(b, mid, to)
    requires forall j: nat | j < mid :: Of(b, j) == Of(a, j)
    ensures AllIdle(b, from, to)
  {
    hide GrantedIdle, Of;
  }

  /** The batch of an LLM turn, read to its end. */
  method RunCalls(r: ToolRunner, calls: seq<ToolCall>, parallelToolCalls: bool) returns (complete: bool)
    requires r.Valid() && calls != []
    modifies r, r.desk
    ensures r.Valid() && old(r.ticket) <= r.ticket && (old(r.error) ==> r.error)
    ensures forall j: nat | j < old(r.ticket) :: Of(r.trace, j) == Of(old(r.trace), j)
    ensures old(r.error) ==> AllIdle(r.trace, old(r.ticket), r.ticket)
  {
    hide Of, Safe, Grounded, SafetyDesk.Valid, RepliedTo, TogetherCourse, GrantedIdle, Courses;
    ghost var failed := r.error;
    var together, done;
    ghost var first, fates, plans;
    together, done, first, fates, plans := r.RunBatch(calls, parallelToolCalls, false);
    complete := together || done == |calls|;
    if failed {
      forall k: nat | first <= k < r.ticket ensures GrantedIdle(Of(r.trace, k)) {
        if together {
          TogetherIsIdle(r.rules, k, calls[k - first].parsed.value, Of(r.trace, k));
        } else {
          FailedBatchIsIdle(r.rules, r.trace, calls, first, fates, plans, k - first);
        }
      }
    }
  }

  /** One repair turn. */
  method RunOneRepair(r: ToolRunner, calls: seq<ToolCall>) returns (stopped: bool)
    requires r.Valid()
    modifies r, r.desk
    ensures r.Valid() && old(r.ticket) <= r.ticket && (old(r.error) ==> r.error)
    ensures forall j: nat | j < old(r.ticket) :: Of(r.trace, j) == Of(old(r.trace), j)
    ensures AllIdle(r.trace, old(r.ticket), r.ticket)
  {
    hide Of, Safe, Grounded, SafetyDesk.Valid, RepliedTo, RepairCourse, GrantedIdle;
    ghost var done, first;
    stopped, done, first := r.RunRepair(calls);
    ghost var taken := Readable(calls[..done]);
    forall k: nat | first <= k < r.ticket ensures GrantedIdle(Of(r.trace, k)) {
      RepairIsIdle(r.rules, r.planMode, k, taken[k - first].parsed.value, Of(r.trace, k), stopped && k - first == |taken| - 1);
    }
  }

  /** A turn of the LLM node: the model may fail, its tools may, and then it may repair. */
  method RunTurn(r: ToolRunner, calls: seq<ToolCall>, parallelToolCalls: bool, repairs: seq<seq<ToolCall>>)
    requires r.Valid()
    modifies r, r.desk
    ensures r.Valid() && old(r.ticket) <= r.ticket && (old(r.error) ==> r.error)
    ensures forall j: nat | j < old(r.ticket) :: Of(r.trace, j) == Of(old(r.trace), j)
    ensures old(r.error) ==> AllIdle(r.trace, old(r.ticket), r.ticket)
  {
    hide Of, Safe, Grounded, SafetyDesk.Valid, GrantedIdle;
    var unreachable, toolErrors, stopOnError := *, *, *;
    if unreachable {
      r.Fail();
      return;
    }
    if calls == [] { return; }
    var complete := RunCalls(r, calls, parallelToolCalls);
    if !complete || !toolErrors { return; }
    if stopOnError {
      r.Fail();
      return;
    }
    for i := 0 to |repairs|
      invariant r.Valid() && old(r.ticket) <= r.ticket && (old(r.error) ==> r.error)
      invariant forall j: nat | j < old(r.ticket) :: Of(r.trace, j) == Of(old(r.trace), j)
      invariant old(r.error) ==> AllIdle(r.trace, old(r.ticket), r.ticket)
    {
      ghost var before, mid := r.trace, r.ticket;
      var stopped := RunOneRepair(r, repairs[i]);
      if old(r.error) { MoreIdle(before, r.trace, old(r.ticket), mid, r.ticket); }
      if stopped { return; }
    }
  }

  /** One attempt. In a run that is marked failed already, no grant of its batch or of its
      tool node comes to anything. */
  method RunAttempt(r: ToolRunner, attempt: Attempt)
    requires r.Valid()
    modifies r, r.desk
    ensures r.Valid() && old(r.ticket) <= r.ticket && (old(r.error) ==> r.error)
    ensures forall j: nat | j < old(r.ticket) :: Of(r.trace, j) == Of(old(r.trace), j)
    ensures old(r.error) ==> AllIdle(r.trace, old(r.ticket), r.ticket)
  {
    hide Of, Safe, Grounded, SafetyDesk.Valid, GrantedIdle, FunnelCourse, RepliedTo, HasRun;
    match attempt
    case Turn(calls, parallelToolCalls, repairs) =>
      RunTurn(r, calls, parallelToolCalls, repairs);
    case OneTool(call, unsafeCommand, stopOnError) =>
      ghost var failed := r.error;
      ghost var k, fate;
      k, fate := r.RunToolNode(call, unsafeCommand, stopOnError);
      if failed { ToolNodeIsIdle(r.rules, r.planMode, k, call, unsafeCommand, Of(r.trace, k), fate); }
  }

  lemma ToolNodeIsIdle(rules: Rules, plan: bool, k: nat, p: Parsed, unsafeCommand: bool, h: seq<Event>, fate: Fate)
    requires p.name == SUB_GRAPH ==> exists failed :: h == [Nested(k, failed)]
    requires p.name != SUB_GRAPH && (unsafeCommand || (plan && Gated(rules, p.name))) ==> h == []
    requires p.name != SUB_GRAPH && !unsafeCommand && !(plan && Gated(rules, p.name)) ==> FunnelCourse(rules, ToolNode, plan, true, k, p, h, fate)
    ensures GrantedIdle(h)
  {
    hide FunnelCourse;
    if h != [] && p.name != SUB_GRAPH {
      NodeIsIdle(rules, plan, k, p, h, fate);
    }
  }

  /** The retries. The error is cleared before the first attempt and never again, so either
      that attempt leaves none, or all of them are made, the run stays marked failed, and
      from the second on no grant of a batch or a tool node comes to anything. */
  method Retry(r: ToolRunner, attempts: seq<Attempt>) returns (made: nat, ghost second: nat)
    requires r.Valid()
    modifies r, r.desk
    ensures r.Valid() && made <= |attempts|
    ensures attempts != [] ==> made == if r.error then |attempts| else 1
    ensures attempts == [] ==> !r.error && r.trace == old(r.trace)
    ensures made <= 1 ==> second == r.ticket
    ensures old(r.ticket) <= second && AllIdle(r.trace, second, r.ticket)
  {
    hide Of, Safe, Grounded, SafetyDesk.Valid, GrantedIdle;
    r.Forgive();
    made, second := 0, r.ticket;
    while made < |attempts|
      invariant r.Valid() && made <= |attempts| && old(r.ticket) <= second <= r.ticket
      invariant if made == 0 then !r.error && r.trace == old(r.trace) && second == r.ticket else r.error
      invariant made == 1 ==> second == r.ticket
      invariant AllIdle(r.trace, second, r.ticket)
    {
      ghost var before, mid := r.trace, r.ticket;
      RunAttempt(r, attempts[made]);
      if made == 0 {
        second := r.ticket;
      } else {
        MoreIdle(before, r.trace, second, mid, r.ticket);
      }
      made := made + 1;
      if !r.error { break; }
    }
  }
}
