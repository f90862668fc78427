/** Approval futures: an ask registers a future, answers may arrive in any order
    and number, and the wait ends with the first one that counts or a timeout. */
module Approvals {
  import opened Confirmation
  import opened Options

  datatype Status = Pending | WasApproved | WasRejected

  /** An answer from outside; `confirmed` is what the guard service says to it. */
  datatype Answer = Answer(id: string, approve: bool, confirmed: bool)

  /** Whether an answer can settle the ask for `id`: with a gateway the guard must
      confirm it. */
  predicate Counts(a: Answer, id: string, gateway: bool) {
    a.id == id && (gateway ==> a.confirmed)
  }

  /** What happens while an ask waits: an answer arrives, another ask is registered, or
      another wait ends and takes the entry of its action away. */
  datatype Incoming = Heard(answer: Answer) | Asked(id: string) | Ended(id: string)

  /** Where an ask stands: an answer can still settle its future, none can any more, or
      one has. */
  datatype Standing = Open | Cut | Settled(approve: bool)

  /** A second ask for the same action takes its answers over. A wait for the same action
      that ends takes the only entry away, unless the gateway has one too. */
  function Next(s: Standing, e: Incoming, id: string, gateway: bool): Standing {
    if s != Open then s
    else match e
      case Heard(a) => if Counts(a, id, gateway) then Settled(a.approve) else Open
      case Asked(other) => if other == id then Cut else Open
      case Ended(other) => if other == id && !gateway then Cut else Open
  }

  /** Where it stands after all that happened. */
  function After(s: Standing, es: seq<Incoming>, id: string, gateway: bool): Standing {
    if es == [] then s else Next(After(s, es[..|es| - 1], id, gateway), es[|es| - 1], id, gateway)
  }

  /** Settled by an answer or cut off: the first event that is either decides. */
  predicate Decides(e: Incoming, id: string, gateway: bool) {
    || (e.Heard? && e.answer.id == id && (e.answer.confirmed || !gateway))
    || e == Asked(id)
    || (e == Ended(id) && !gateway)
  }

  lemma {:induction false} FirstDecides(es: seq<Incoming>, id: string, gateway: bool)
    ensures After(Open, es, id, gateway) == Open <==> forall i | 0 <= i < |es| :: !Decides(es[i], id, gateway)
    ensures forall i | 0 <= i < |es| && Decides(es[i], id, gateway) && (forall j | 0 <= j < i :: !Decides(es[j], id, gateway)) ::
      After(Open, es, id, gateway) == if es[i].Heard? then Settled(es[i].answer.approve) else Cut
  {
    if es != [] {
      var rest := es[..|es| - 1];
      FirstDecides(rest, id, gateway);
      assert forall i | 0 <= i < |rest| :: rest[i] == es[i];
    }
  }

  lemma {:induction false} CutStays(es: seq<Incoming>, id: string, gateway: bool)
    ensures After(Cut, es, id, gateway) == Cut
  {
    if es != [] { CutStays(es[..|es| - 1], id, gateway); }
  }

  /** Why a run goes on after a call was to be asked about: a human approved; nobody was
      asked, with these facts; or a timeout counts as approval. */
  datatype Ground = ByHuman | Unasked(required: bool, score: real, tool: string) | ByTimeout

  /** A ground that holds under this policy and this timeout disposition. */
  predicate Sound(g: Ground, policy: Option<Policy>, timeoutApproves: bool) {
    match g
    case ByHuman => true
    case Unasked(required, score, tool) => !Asks(policy, required, score, tool)
    case ByTimeout => timeoutApproves
  }

  class SafetyDesk {
    const gateway: bool
    /** The runtime's futures by action, and the results of settled futures. */
    var futures: map<string, nat>
    var settled: map<nat, bool>
    /** The gateway's own records of actions and futures. */
    var status: map<string, Status>
    var gatewayFutures: map<string, nat>
    var created: nat

    ghost predicate Valid()
      reads this
    {
      && (forall a | a in futures :: futures[a] < created)
      && (forall a | a in gatewayFutures :: gatewayFutures[a] < created)
      && (forall f | f in settled :: f < created)
    }

    constructor (withGateway: bool)
      ensures Valid() && gateway == withGateway && futures == map[] && settled == map[] && status == map[]
      ensures gatewayFutures == map[]
    {
      gateway, futures, settled, status := withGateway, map[], map[], map[];
      gatewayFutures, created := map[], 0;
    }

    /** The gateway records an answer once, and settles its own future. */
    method GatewayResolve(a: Answer) returns (ok: bool)
      requires Valid()
      modifies this`status, this`settled
      ensures Valid()
      ensures ok == (a.confirmed && a.id in old(status) && old(status)[a.id] == Pending)
      ensures status == if ok then old(status)[a.id := if a.approve then WasApproved else WasRejected] else old(status)
      ensures settled == if ok && a.id in gatewayFutures && gatewayFutures[a.id] !in old(settled)
        then old(settled)[gatewayFutures[a.id] := a.approve] else old(settled)
    {
      ok := false;
      if !a.confirmed { return; }
      if a.id !in status { return; }
      if status[a.id] != Pending { return; }
      status := status[a.id := if a.approve then WasApproved else WasRejected];
      if a.id in gatewayFutures {
        var f := gatewayFutures[a.id];
        if f !in settled { settled := settled[f := a.approve]; }
      }
      ok := true;
    }

    /** `approve_action` and `reject_action`: the same steps with another verdict.
        A future that is done is never settled again. */
    method Resolve(a: Answer) returns (ok: bool)
      requires Valid()
      modifies this`status, this`settled, this`futures
      ensures Valid()
      ensures forall f | f in old(settled) :: f in settled && settled[f] == old(settled)[f]
      ensures ok == (if gateway then a.confirmed && a.id in old(status) && old(status)[a.id] == Pending else a.id in old(futures))
      ensures futures == if ok then old(futures) - {a.id} else old(futures)
      ensures status == if ok && gateway then old(status)[a.id := if a.approve then WasApproved else WasRejected] else old(status)
      ensures forall f | f !in old(settled) :: f in settled <==>
        ok && ((a.id in old(futures) && old(futures)[a.id] == f) || (gateway && a.id in gatewayFutures && gatewayFutures[a.id] == f))
      ensures forall f | f in settled && f !in old(settled) :: settled[f] == a.approve
    {
      if gateway {
        ok := GatewayResolve(a);
        if ok && a.id in futures {
          var f := futures[a.id];
          futures := futures - {a.id};
          if f !in settled { settled := settled[f := a.approve]; }
        }
        return;
      }
      ok := a.id in futures;
      if ok {
        var f := futures[a.id];
        futures := futures - {a.id};
        if f !in settled { settled := settled[f := a.approve]; }
      }
    }

    /** The future of the ask for `id`: settled as the standing says; while open, the
        registry that answers go by leads to it, and nothing else does; once cut off, no
        entry that an answer could reach leads to it. */
    ghost predicate Awaiting(id: string, f: nat, s: Standing)
      reads this
    {
      match s
      case Settled(v) => f in settled && settled[f] == v
      case Open =>
        && f !in settled
        && (forall a | a in futures && futures[a] == f :: a == id)
        && (forall a | a in gatewayFutures && gatewayFutures[a] == f :: a == id)
        && (id in futures ==> futures[id] == f)
        && (if gateway then id in gatewayFutures && gatewayFutures[id] == f && id in status && status[id] == Pending else id in futures)
      case Cut =>
        && f !in settled
        && (forall a | a in futures && futures[a] == f :: gateway && a in status && status[a] != Pending)
        && (forall a | gateway && a in gatewayFutures && gatewayFutures[a] == f :: a in status && status[a] != Pending)
    }

    /** The ask is registered with both registries. */
    method Register(id: string) returns (future: nat)
      requires Valid()
      modifies this`created, this`futures, this`status, this`gatewayFutures
      ensures Valid() && future == old(created) && created == future + 1
      ensures futures == old(futures)[id := future]
      ensures status == if gateway && id !in old(status) then old(status)[id := Pending] else old(status)
      ensures gatewayFutures == if gateway then old(gatewayFutures)[id := future] else old(gatewayFutures)
    {
      future := created;
      created := created + 1;
      futures := futures[id := future];
      if gateway {
        if id !in status { status := status[id := Pending]; }
        gatewayFutures := gatewayFutures[id := future];
      }
    }

    /** Another wait ends, answered or not, and its action's entry goes. */
    method EndOther(id: string)
      requires Valid()
      modifies this`futures
      ensures Valid() && futures == old(futures) - {id}
    {
      futures := futures - {id};
    }

    /** One event while the ask waits. */
    method Happens(e: Incoming, ghost id: string, ghost f: nat, ghost s: Standing)
      requires Valid() && f < created && Awaiting(id, f, s)
      modifies this`status, this`settled, this`futures, this`gatewayFutures, this`created
      ensures Valid() && f < created && Awaiting(id, f, Next(s, e, id, gateway))
      ensures forall g | g in old(settled) :: g in settled && settled[g] == old(settled)[g]
    {
      match e
      case Heard(a) => var _ := Resolve(a);
      case Asked(other) => var _ := Register(other);
      case Ended(other) => EndOther(other);
    }

    /** The wait, with whatever other waits of the runtime do meanwhile. It asks exactly
        when the policy (or, without one, the verdict) says so; the run goes on iff the
        answer that settled the ask approves, or none settled it and a timeout counts as
        approval; otherwise the error is set. No entry for the action is left behind. */
    method AwaitSafetyApproval(
        requiresApproval: bool, actionId: string, freshId: string, policy: Option<Policy>, score: real, tool: string,
        meanwhile: seq<Incoming>, timeoutApproves: bool, failed: bool) returns (granted: bool, error: bool, ghost ground: Ground)
      requires Valid()
      modifies this
      ensures Valid() && error == (failed || !granted)
      ensures policy.None? ==> (ground.Unasked? <==> !requiresApproval)
      ensures policy.Some? && InTier(policy.value, tool, Always) ==> !ground.Unasked?
      ensures policy.Some? && InTier(policy.value, tool, Never) ==> ground.Unasked?
      ensures policy.Some? && InTier(policy.value, tool, Risk) ==> (ground.Unasked? <==> score < policy.value.threshold)
      ensures ground.Unasked? ==> granted && unchanged(this)
      ensures granted ==> Sound(ground, policy, timeoutApproves)
      ensures !Asks(policy, requiresApproval, score, tool) ==>
        granted && ground == Unasked(requiresApproval, score, tool) && unchanged(this)
      ensures Asks(policy, requiresApproval, score, tool) ==>
        var id := if actionId != "" then actionId else freshId;
        var answerable := gateway ==> id !in old(status) || old(status)[id] == Pending;
        var standing := After(if answerable then Open else Cut, meanwhile, id, gateway);
        && granted == (if standing.Settled? then standing.approve else timeoutApproves)
        && (granted ==> ground == if standing.Settled? then ByHuman else ByTimeout)
        && id !in futures
      ensures forall f | f in old(settled) :: f in settled && settled[f] == old(settled)[f]
    {
      AsksIff(policy, requiresApproval, score, tool);
      ground := Unasked(requiresApproval, score, tool);
      var decision := if policy.Some? then Some(Decide(policy.value, requiresApproval, score, tool)) else None;
      if decision == Some(Auto) { return true, failed, ground; }
      var escalated := decision == Some(Confirm) && !requiresApproval;
      if !requiresApproval && !escalated { return true, failed, ground; }
      granted, error, ground := Wait(if actionId != "" then actionId else freshId, meanwhile, timeoutApproves, failed);
    }

    /** Asks, and waits for what comes of it. */
    method Wait(id: string, meanwhile: seq<Incoming>, timeoutApproves: bool, failed: bool)
      returns (granted: bool, error: bool, ghost ground: Ground)
      requires Valid()
      modifies this
      ensures Valid() && error == (failed || !granted) && ground == (if Outlook(old(status), id, meanwhile).Settled? then ByHuman else ByTimeout)
      ensures granted == match Outlook(old(status), id, meanwhile) case Settled(approve) => approve case _ => timeoutApproves
      ensures id !in futures
      ensures forall f | f in old(settled) :: f in settled && settled[f] == old(settled)[f]
    {
      var future := Register(id);
      ghost var start := if !gateway || id !in old(status) || old(status)[id] == Pending then Open else Cut;
      ghost var standing := start;
      for i := 0 to |meanwhile|
        invariant Valid() && future < created && standing == After(start, meanwhile[..i], id, gateway)
        invariant Awaiting(id, future, standing)
        invariant forall f | f in old(settled) :: f in settled && settled[f] == old(settled)[f]
      {
        assert meanwhile[..i + 1][..i] == meanwhile[..i];
        Happens(meanwhile[i], id, future, standing);
        standing := Next(standing, meanwhile[i], id, gateway);
      }
      assert meanwhile[..|meanwhile|] == meanwhile;
      ground := if standing.Settled? then ByHuman else ByTimeout;
      var approved;
      if future in settled {
        approved := settled[future];
      } else {
        futures := futures - {id};
        if !timeoutApproves { return false, true, ground; }
        approved := true;
      }
      futures := futures - {id};
      return approved, failed || !approved, ground;
    }

    /** Where the ask stands in the end, given the gateway's records when it was made. */
    ghost function Outlook(status: map<string, Status>, id: string, meanwhile: seq<Incoming>): Standing {
      After(if gateway ==> id !in status || status[id] == Pending then Open else Cut, meanwhile, id, gateway)
    }
  }
}
