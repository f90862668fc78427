/** The confirmation policy: when an action must wait for a human. */
module Confirmation {
  import opened Options

  datatype Tier = Always | Never | Risk

  datatype Policy = Policy(tier: Tier, threshold: real, overrides: map<string, Tier>)

  datatype Decision = Confirm | Auto

  /** What the risk scorer looks for in a call: destructive text anywhere, a
      network address in the parameters, a declared read-only flag, and a tool name
      that sounds like writing. */
  datatype Signs = Signs(destructive: bool, network: bool, readonly: Option<bool>, writeName: bool)

  function RiskScore(s: Signs): real {
    if s.destructive then 0.9
    else if s.network then 0.6
    else if s.readonly == Some(true) then 0.0
    else if s.writeName then 0.3
    else if s.readonly == Some(false) then 0.3
    else 0.0
  }

  /** The risk of a call. The policy is not told whether a tool is read-only. */
  function RiskOf(signs: (string, string) -> Signs, tool: string, args: string): real {
    RiskScore(signs(tool, args).(readonly := None))
  }

  function EffectiveTier(p: Policy, tool: string): Tier {
    if tool != "" && tool in p.overrides then p.overrides[tool] else p.tier
  }

  /** The verdict of the safety gateway is passed in but does not matter. */
  function Decide(p: Policy, requiresApproval: bool, score: real, tool: string): Decision {
    match EffectiveTier(p, tool)
    case Always => Confirm
    case Never => Auto
    case Risk => if score >= p.threshold then Confirm else Auto
  }

  /** Whether a human is asked about an action. */
  predicate Asks(policy: Option<Policy>, requiresApproval: bool, score: real, tool: string) {
    match policy
    case None => requiresApproval
    case Some(p) => Decide(p, requiresApproval, score, tool) == Confirm
  }

  /** The policy's own wish to ask about a call the funnel let pass. */
  predicate Escalates(policy: Option<Policy>, score: real, tool: string) {
    policy.Some? && Decide(policy.value, false, score, tool) == Confirm
  }

  /** The tier that is in force for a tool: what it is overridden with, if it has a name
      and is, and otherwise the policy's own. */
  ghost predicate InTier(p: Policy, tool: string, t: Tier) {
    && (tool != "" && tool in p.overrides ==> t == p.overrides[tool])
    && (tool == "" || tool !in p.overrides ==> t == p.tier)
  }

  /** When a human is asked: without a policy if the verdict wants it; always, never, or
      from the threshold on, as the tier for the tool says. */
  lemma AsksIff(policy: Option<Policy>, required: bool, score: real, tool: string)
    ensures policy.None? ==> (Asks(policy, required, score, tool) <==> required) && !Escalates(policy, score, tool)
    ensures policy.Some? && InTier(policy.value, tool, Always) ==> Asks(policy, required, score, tool) && Escalates(policy, score, tool)
    ensures policy.Some? && InTier(policy.value, tool, Never) ==> !Asks(policy, required, score, tool) && !Escalates(policy, score, tool)
    ensures policy.Some? && InTier(policy.value, tool, Risk) ==>
      (Asks(policy, required, score, tool) <==> score >= policy.value.threshold) && (Escalates(policy, score, tool) <==> score >= policy.value.threshold)
    ensures policy.Some? ==> exists t :: InTier(policy.value, tool, t)
  {
    if policy.Some? { assert InTier(policy.value, tool, EffectiveTier(policy.value, tool)); }
  }

  /** The score of a call: that of the worst sign it shows. The read-only flag, of which the
      policy is not told, only vouches for a call without destructive text or an address. */
  lemma ScoreIs(signs: (string, string) -> Signs, tool: string, args: string, s: Signs)
    requires s == signs(tool, args)
    ensures s.destructive ==> RiskOf(signs, tool, args) == RiskScore(s) == 0.9
    ensures !s.destructive && s.network ==> RiskOf(signs, tool, args) == RiskScore(s) == 0.6
    ensures !s.destructive && !s.network && s.writeName ==>
      RiskOf(signs, tool, args) == 0.3 && RiskScore(s) == if s.readonly == Some(true) then 0.0 else 0.3
    ensures !s.destructive && !s.network && !s.writeName ==>
      RiskOf(signs, tool, args) == 0.0 && RiskScore(s) == if s.readonly == Some(false) then 0.3 else 0.0
  {
  }

  /** More danger never means less asking: a call that shows every sign another
      shows, and is not vouched for as read-only, is asked about whenever that one is. */
  lemma MoreSignsMoreAsking(policy: Option<Policy>, required: bool, tool: string, a: Signs, b: Signs)
    requires a.destructive ==> b.destructive
    requires a.network ==> b.network
    requires a.writeName ==> b.writeName
    requires a.readonly == b.readonly
    ensures RiskScore(a) <= RiskScore(b)
    ensures Asks(policy, required, RiskScore(a), tool) ==> Asks(policy, required, RiskScore(b), tool)
  {
    if policy.Some? {
      var t := EffectiveTier(policy.value, tool);
    }
  }

  /** Once the policy escalates a call, the approval flow does ask about it, and
      with a policy in force the gateway's wish to ask changes nothing. */
  lemma EscalationAsks(policy: Option<Policy>, score: real, tool: string, required: bool)
    ensures Escalates(policy, score, tool) ==> Asks(policy, required, score, tool)
    ensures policy.Some? ==> Asks(policy, true, score, tool) == Asks(policy, false, score, tool) == Escalates(policy, score, tool)
  {
  }
}
