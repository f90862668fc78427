/** What the confirmation policy's tiers come to on the paths of a tool call. */
module Policies {
  import opened Approvals
  import opened Checkpoints
  import opened Confirmation
  import opened Options
  import opened ToolCalls

  /** The policy wants a call of these signs asked about: its tier for the tool is to always
      ask, or to ask from a threshold on that the worst of the signs reaches. */
  ghost predicate Demands(policy: Policy, tool: string, s: Signs) {
    || InTier(policy, tool, Always)
    || (InTier(policy, tool, Risk) && (
         || (s.destructive && 0.9 >= policy.threshold)
         || (!s.destructive && s.network && 0.6 >= policy.threshold)
         || (!s.destructive && !s.network && s.writeName && 0.3 >= policy.threshold)
         || 0.0 >= policy.threshold))
  }

  lemma DemandsIff(rules: Rules, p: Parsed)
    ensures Wants(rules, p) <==> rules.policy.Some? && Demands(rules.policy.value, p.name, rules.signs(p.name, p.args))
  {
    AsksIff(rules.policy, true, CallRisk(rules, p), p.name);
    ScoreIs(rules.signs, p.name, p.args, rules.signs(p.name, p.args));
    if rules.policy.Some? {
      var t :| InTier(rules.policy.value, p.name, t);
    }
  }

  /** A call runs, on any path but the registry's, only if its first admission was of that
      tool, and if the policy demands it, only by a human or an approving timeout, and not in
      parallel. */
  lemma DemandedRunsAreGranted(rules: Rules, trace: seq<Event>, i: nat)
    requires Safe(rules, trace) && Grounded(rules, trace)
    requires i < |trace| && trace[i].Tried? && trace[i].path != Registry
    ensures var h := Of(trace[..i], trace[i].k);
      && |h| > 0 && h[0].Admitted? && h[0].call.name == trace[i].tool
      && (rules.policy.Some? && Demands(rules.policy.value, h[0].call.name, rules.signs(h[0].call.name, h[0].call.args)) ==>
            trace[i].path != Together && exists e :: e in h && e.Granted? && (e.ground == ByHuman || (e.ground == ByTimeout && rules.timeoutApproves)))
  {
    hide Of, Safe, Grounded, Wants;
    PolicyIsKept(rules, trace, i);
    DemandsIff(rules, Of(trace[..i], trace[i].k)[0].call);
  }

  /** A call of a parallel batch that the funnel lets through runs exactly when the policy
      does not demand that it be asked about. */
  lemma ParallelByTier(rules: Rules, k: nat, p: Parsed, h: seq<Event>)
    requires TogetherCourse(rules, k, p, h)
    ensures |h| > 0 && h[0].Admitted? && h[0].call == p
    ensures Clear(h[0].outcome) ==>
      if rules.policy.Some? && Demands(rules.policy.value, p.name, rules.signs(p.name, p.args)) then h == [h[0], Escalated(k)]
      else |h| == 2 && h[1].Tried? && h[1].tool == p.name && h[1].args == h[0].outcome.args
  {
    DemandsIff(rules, p);
    if |h| > 1 { assert h == [h[0]] + h[1..]; }
  }

  /** In a repair turn it is asked about exactly then, and runs at once otherwise. */
  lemma RepairByTier(rules: Rules, plan: bool, k: nat, p: Parsed, h: seq<Event>, stopped: bool)
    requires RepairCourse(rules, plan, k, p, h, stopped) && h != [] && Clear(h[0].outcome)
    ensures if rules.policy.Some? && Demands(rules.policy.value, p.name, rules.signs(p.name, p.args)) then
        |h| > 2 && h[1] == Escalated(k) && (if stopped then h[2] == Declined(k) else h[2].Granted? && !h[2].ground.Unasked?)
      else |h| == 2 && h[1].Tried? && !stopped
  {
    DemandsIff(rules, p);
    assert |h| > 1 ==> h[1..][0] == h[1];
    assert |h| > 2 ==> h[2..][0] == h[2];
  }

  /** On the sequential path and at a tool node such a call is never let through at first. */
  lemma FunnelByTier(rules: Rules, path: Path, plan: bool, failed: bool, k: nat, p: Parsed, h: seq<Event>, fate: Fate)
    requires FunnelCourse(rules, path, plan, failed, k, p, h, fate)
    requires rules.policy.Some? && Demands(rules.policy.value, p.name, rules.signs(p.name, p.args))
    ensures h[0].Admitted? && !Clear(h[0].outcome)
  {
    DemandsIff(rules, p);
  }
}
