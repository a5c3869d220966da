/**
 * When a tenant's worker is live without its tier (apps/api/src/workers/tenant-workers.service.ts): over every run, and
 * once the requests that overlapped a registration have settled.
 */
module TenantTiers {
  import opened Prelude
  import opened Tenants
  import opened TenantOverlaps

  /** The list shows the tenant's worker with no tier. */
  predicate TierLess(s: State, t: string) {
    Live(s, t) && t !in s.tiers
  }

  /** Exactly then does the list hold a view of the tenant without a tier. */
  lemma TierLessIsShown(s: State, t: string)
    requires Ok(s)
    ensures TierLess(s, t) <==> View(t, TenantQueueName(t), None) in List(s)
  {
    ViewsShow(s.registry.keys, s.tiers, View(t, TenantQueueName(t), None));
  }

  /** A failed unregister leaves the list as it was, and the library may fail any unregister not carried out. */
  lemma FailureKeepsList(s: State, r: nat)
    ensures Enabled(s, FailRemove(r)) <==> r in s.requests && s.requests[r].Asked?
    ensures Enabled(s, FailRemove(r)) ==> List(Apply(s, FailRemove(r))) == List(s)
  {
  }

  /** A worker of another kind can always be registered under a name that is free, and is not in the list. */
  lemma OthersAreNotListed(s: State, queue: string)
    requires Ok(s) && queue !in s.registry.keys && !("notifications." <= queue)
    ensures Enabled(s, RegisterOther(queue))
    ensures var s' := Apply(s, RegisterOther(queue)); queue in s'.registry.keys && List(s') == List(s)
  {
    ViewsSnoc(s.registry.keys, s.tiers, queue);
  }

  lemma {:induction false} ViewsSnoc(queues: seq<string>, tiers: map<string, Tier>, queue: string)
    requires !StartsWith(queue, TENANT_QUEUE_PREFIX)
    ensures Views(queues + [queue], tiers) == Views(queues, tiers)
  {
    if queues == [] {
      assert [queue][1..] == [] && [] + [queue] == [queue];
    } else {
      ConcatParts([queues[0]], queues[1..] + [queue]);
      assert queues + [queue] == [queues[0]] + (queues[1..] + [queue]);
      ViewsSnoc(queues[1..], tiers, queue);
    }
  }

  // ---- Over every run ----

  /** Some unregister of the tenant returns during the steps; `s'` is the state after them. */
  predicate SomeReturn(s': State, t: string, steps: seq<Step>) {
    exists p: nat :: Resume(p) in steps && p in s'.requests && s'.requests[p].tenantId == t
  }

  predicate RemovesFor(s: State, t: string, step: Step)
    requires Enabled(s, step)
  {
    step.Remove? && s.requests[step.r].tenantId == t
  }

  predicate ReturnsFor(s: State, t: string, step: Step)
    requires Enabled(s, step)
  {
    step.Resume? && s.requests[step.r].tenantId == t
  }

  lemma {:induction false} ReturnersKnown(s: State, steps: seq<Step>)
    requires Exec(s, steps).Some?
    ensures forall p: nat :: Resume(p) in steps ==> p in Exec(s, steps).value.requests
  {
    if steps != [] {
      ReturnersKnown(s, steps[..|steps| - 1]);
      HeadAndLast(steps);
    }
  }

  lemma TenantsStay(mid: State, last: Step, p: nat)
    requires Enabled(mid, last) && p in mid.requests
    ensures p in Apply(mid, last).requests && Apply(mid, last).requests[p].tenantId == mid.requests[p].tenantId
  {
  }

  /** One more step may add a removal or a return. */
  lemma EventsSnoc(mid: State, before: seq<Step>, last: Step, t: string)
    requires Enabled(mid, last)
    requires forall p: nat :: Remove(p) in before || Resume(p) in before ==> p in mid.requests
    ensures var s', steps := Apply(mid, last), before + [last];
      && (SomeRemoval(s', t, steps) <==> SomeRemoval(mid, t, before) || RemovesFor(mid, t, last))
      && (SomeReturn(s', t, steps) <==> SomeReturn(mid, t, before) || ReturnsFor(mid, t, last))
  {
    forall p: nat | p in mid.requests
      ensures p in Apply(mid, last).requests && Apply(mid, last).requests[p].tenantId == mid.requests[p].tenantId
    {
      TenantsStay(mid, last, p);
    }
    assert forall step :: step in before + [last] <==> step in before || step == last;
  }

  /** While the worker is live, only a removal ends it, only a return takes its tier, and registrations are refused. */
  lemma LiveStep(s: State, t: string, step: Step)
    requires Live(s, t) && Enabled(s, step) && !RemovesFor(s, t, step)
    ensures var s' := Apply(s, step);
      && Live(s', t)
      && (t in s'.tiers <==> t in s.tiers && !ReturnsFor(s, t, step))
      && (t in s'.tiers ==> s'.tiers[t] == s.tiers[t])
  {
    QueueNames(t, t);
    match step
    case Register(tenantId, _) => QueueNames(tenantId, t);
    case Remove(r) => QueueNames(s.requests[r].tenantId, t);
    case _ =>
  }

  lemma {:induction false} LiveUntilRemoved(s: State, t: string, steps: seq<Step>)
    requires Exec(s, steps).Some? && Live(s, t) && !SomeRemoval(Exec(s, steps).value, t, steps)
    ensures var s' := Exec(s, steps).value;
      && Live(s', t)
      && (t in s'.tiers <==> t in s.tiers && !SomeReturn(s', t, steps))
      && (t in s'.tiers ==> s'.tiers[t] == s.tiers[t])
  {
    if steps != [] {
      var before, last := steps[..|steps| - 1], steps[|steps| - 1];
      var mid := Exec(s, before).value;
      HeadAndLast(steps);
      RemoversKnown(s, before);
      ReturnersKnown(s, before);
      EventsSnoc(mid, before, last, t);
      LiveUntilRemoved(s, t, before);
      LiveStep(mid, t, last);
    }
  }

  /** Step `k` registers a worker for the tenant, which has none then. */
  predicate AcceptedAt(steps: seq<Step>, k: nat, t: string) {
    && k < |steps| && steps[k].Register? && steps[k].tenantId == t
    && Exec(INIT, steps[..k]).Some? && !Live(Exec(INIT, steps[..k]).value, t)
  }

  /** Step `k` is the registration in force in `s'`: it was accepted and no worker of the tenant was removed since. */
  predicate InForce(steps: seq<Step>, s': State, t: string, k: nat) {
    AcceptedAt(steps, k, t) && !SomeRemoval(s', t, steps[k + 1..])
  }

  lemma RegistrationAccepted(s: State, t: string, tier: Tier)
    requires !Live(s, t)
    ensures ShownAt(Apply(s, Register(t, tier)), t, tier)
  {
  }

  lemma SplitAt(steps: seq<Step>, k: nat)
    requires k < |steps|
    ensures steps == steps[..k + 1] + steps[k + 1..] && steps[..k + 1] == steps[..k] + [steps[k]]
    ensures steps[..k + 1][..k] == steps[..k]
  {
  }

  /** A worker whose registration is in force is live, at its tier unless some unregister returned since. */
  lemma InForceShows(steps: seq<Step>, s': State, t: string, k: nat)
    requires Exec(INIT, steps) == Some(s') && InForce(steps, s', t, k)
    ensures Live(s', t)
    ensures ViewOf(s', t).tier == if SomeReturn(s', t, steps[k + 1..]) then None else Some(steps[k].tier)
  {
    var before, since := steps[..k], steps[k + 1..];
    SplitAt(steps, k);
    var mid := Exec(INIT, before).value;
    assert Exec(INIT, steps[..k + 1]) == Some(Apply(mid, steps[k]));
    ExecAppend(INIT, steps[..k + 1], since);
    RegistrationAccepted(mid, t, steps[k].tier);
    LiveUntilRemoved(Apply(mid, steps[k]), t, since);
  }

  /** A step that leaves the worker live found it live or registered it, and did not remove it. */
  lemma LiveBefore(s: State, t: string, step: Step)
    requires Enabled(s, step) && Live(Apply(s, step), t)
    ensures !RemovesFor(s, t, step) && (Live(s, t) || (step.Register? && step.tenantId == t))
  {
    QueueNames(t, t);
    match step
    case Register(tenantId, _) => QueueNames(tenantId, t);
    case _ =>
  }

  lemma InForceKept(before: seq<Step>, steps: seq<Step>, mid: State, s': State, last: Step, t: string, k: nat)
    requires steps == before + [last] && Exec(INIT, before) == Some(mid) && Enabled(mid, last) && s' == Apply(mid, last)
    requires InForce(before, mid, t, k) && !RemovesFor(mid, t, last)
    ensures InForce(steps, s', t, k)
  {
    var since := before[k + 1..];
    DropWithin(before, [last], k + 1);
    DropWithin(before, [last], k);
    SplitAt(before, k);
    RemoversKnown(INIT, before);
    ReturnersKnown(INIT, before);
    EventsSnoc(mid, since, last, t);
  }

  /** Every live tenant worker has a registration in force. */
  lemma {:induction false} LiveIsInForce(steps: seq<Step>, s': State, t: string) returns (k: nat)
    requires Exec(INIT, steps) == Some(s') && Live(s', t)
    ensures InForce(steps, s', t, k)
  {
    var before, last := steps[..|steps| - 1], steps[|steps| - 1];
    var mid := Exec(INIT, before).value;
    HeadAndLast(steps);
    LiveBefore(mid, t, last);
    if Live(mid, t) {
      k := LiveIsInForce(before, mid, t);
      InForceKept(before, steps, mid, s', last, t, k);
    } else {
      k := |before|;
      assert steps[k + 1..] == [];
    }
  }

  /**
   * Main result: over every run, a worker is live without a tier if and only if, since its registration was accepted,
   * no worker of the tenant was removed but some unregister of the tenant returned.
   */
  lemma TierLessExactly(steps: seq<Step>, s': State, t: string)
    requires Exec(INIT, steps) == Some(s')
    ensures TierLess(s', t) <==> exists k: nat :: InForce(steps, s', t, k) && SomeReturn(s', t, steps[k + 1..])
  {
    if Live(s', t) {
      var k := LiveIsInForce(steps, s', t);
      InForceShows(steps, s', t, k);
    }
    forall k: nat | InForce(steps, s', t, k) && SomeReturn(s', t, steps[k + 1..]) ensures TierLess(s', t) {
      InForceShows(steps, s', t, k);
    }
  }

  // ---- Once what overlapped a registration has settled ----

  /** Request `r` of the tenant has been asked and has not removed. */
  predicate Asks(s: State, t: string, r: nat) {
    r in s.requests && s.requests[r].tenantId == t && s.requests[r].Asked?
  }

  lemma RemoverStep(start: State, mid: State, step: Step, t: string, r: nat)
    requires Enabled(mid, step) && Settles(step, t)
    requires Asks(mid, t, r) ==> Asks(start, t, r)
    ensures Asks(Apply(mid, step), t, r) ==> Asks(start, t, r)
    ensures step == Remove(r) && mid.requests[r].tenantId == t ==> Asks(start, t, r) && HasRemoved(Apply(mid, step), r)
    ensures HasRemoved(mid, r) ==> HasRemoved(Apply(mid, step), r)
    ensures HasRemoved(Apply(mid, step), r) && Asks(start, t, r) ==> HasRemoved(mid, r) || step == Remove(r)
  {
  }

  /** Among steps that ask for no new work, `r` removes exactly when it was asked and has removed in the end. */
  lemma {:induction false} RemovesIff(s: State, t: string, steps: seq<Step>, r: nat)
    requires Exec(s, steps).Some? && forall step :: step in steps ==> Settles(step, t)
    ensures var s' := Exec(s, steps).value;
      && (Asks(s', t, r) ==> Asks(s, t, r))
      && (Remove(r) in steps && r in s'.requests && s'.requests[r].tenantId == t
          <==> Asks(s, t, r) && HasRemoved(s', r))
  {
    if steps != [] {
      var before, last := steps[..|steps| - 1], steps[|steps| - 1];
      var mid := Exec(s, before).value;
      HeadAndLast(steps);
      assert Settles(last, t);
      RemovesIff(s, t, before, r);
      RemoverStep(s, mid, last, t, r);
      RemoversKnown(s, before);
      if r in mid.requests { TenantsStay(mid, last, r); }
      if r in s.requests { RequestsFollow(s, before, r); }
    }
  }

  predicate IsRejected(s: State, r: nat) {
    r in s.requests && s.requests[r].Rejected?
  }

  lemma SettledAsk(s: State, t: string, steps: seq<Step>, s': State, r: nat)
    requires Exec(s, steps) == Some(s') && NonePending(s', t) && Asks(s, t, r)
    ensures HasRemoved(s', r) <==> !IsRejected(s', r)
  {
    RequestsFollow(s, steps, r);
    assert !PendingFor(s', t, r);
  }

  /** After an accepted registration the worker is live in the end exactly when no unregister asked before removed. */
  lemma LiveOnceSettled(s: State, t: string, tier: Tier, steps: seq<Step>, s': State)
    requires !Live(s, t)
    requires Exec(Apply(s, Register(t, tier)), steps) == Some(s') && forall step :: step in steps ==> Settles(step, t)
    requires NonePending(s', t)
    ensures Live(s', t) <==> !SomeRemoval(s', t, steps)
    ensures Live(s', t) <==> forall r :: Asks(s, t, r) ==> IsRejected(s', r)
  {
    var after := Apply(s, Register(t, tier));
    TouchedByRemoval(after, t, steps);
    LiveAfter(after, t, steps);
    forall r: nat ensures Remove(r) in steps && r in s'.requests && s'.requests[r].tenantId == t
                     <==> Asks(s, t, r) && !IsRejected(s', r)
    {
      assert Asks(after, t, r) <==> Asks(s, t, r);
      RemovesIff(after, t, steps, r);
      if Asks(after, t, r) { SettledAsk(after, t, steps, s', r); }
    }
  }

  /**
   * Main result: once all requests for a tenant have settled, an accepted registration has lost its tier but not its
   * worker if and only if the library failed every unregister that had been asked for and had not removed when the
   * registration was accepted, and some other unregister was then between its removal and its return.
   */
  lemma TierLessOnceSettled(s: State, t: string, tier: Tier, steps: seq<Step>, s': State)
    requires !Live(s, t)
    requires Exec(Apply(s, Register(t, tier)), steps) == Some(s') && forall step :: step in steps ==> Settles(step, t)
    requires NonePending(s', t)
    ensures TierLess(s', t)
      <==> && (forall r :: Asks(s, t, r) ==> IsRejected(s', r))
           && exists r :: PendingFor(s, t, r) && s.requests[r].Removed?
  {
    var after := Apply(s, Register(t, tier));
    LiveOnceSettled(s, t, tier, steps, s');
    RegistrationHolds(s, t, tier, steps, s');
    if Live(s', t) {
      LiveUntilRemoved(after, t, steps);
      assert forall r :: PendingFor(s, t, r) ==> Asks(s, t, r) || s.requests[r].Removed?;
      forall r | PendingFor(s, t, r) && s.requests[r].Removed? ensures !IsRejected(s', r) {
        RequestsFollow(after, steps, r);
      }
    }
  }
}
