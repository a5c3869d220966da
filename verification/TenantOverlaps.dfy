/**
 * Requests for one tenant that overlap (apps/api/src/workers/tenant-workers.service.ts): when the answer of
 * `unregister` is right, and when a registration accepted meanwhile holds.
 */
module TenantOverlaps {
  import opened Prelude
  import opened Tenants

  // ---- What an unregister answers ----

  /** What the last registration or removal of the tenant left, a worker or none; `None` if there was neither. */
  function LastTouch(s: State, t: string, steps: seq<Step>): Option<bool>
    requires Exec(s, steps).Some?
  {
    if steps == [] then None
    else
      var before, last := steps[..|steps| - 1], steps[|steps| - 1];
      if last.Register? && last.tenantId == t then Some(true)
      else if last.Remove? && Exec(s, before).value.requests[last.r].tenantId == t then Some(false)
      else LastTouch(s, t, before)
  }

  lemma {:induction false} LiveAfter(s: State, t: string, steps: seq<Step>)
    requires Exec(s, steps).Some?
    ensures Live(Exec(s, steps).value, t)
         == if LastTouch(s, t, steps).Some? then LastTouch(s, t, steps).value else Live(s, t)
  {
    if steps != [] {
      var before, last := steps[..|steps| - 1], steps[|steps| - 1];
      LiveAfter(s, t, before);
      var mid := Exec(s, before).value;
      QueueNames(t, t);
      match last
      case Register(tenantId, _) => QueueNames(tenantId, t);
      case Remove(r) => QueueNames(mid.requests[r].tenantId, t);
      case _ =>
    }
  }

  /** A request keeps its tenant and what it read, and once it has removed, what it removed. */
  predicate Follows(before: Request, after: Request) {
    && after.tenantId == before.tenantId
    && (after.Asked? ==> after == before)
    && (before.Removed? ==> after == before || after == Returned(before.tenantId, before.existed, before.removed))
    && (before.Asked? && !after.Rejected? ==> after.existed == before.existed)
    && (before.Returned? || before.Rejected? ==> after == before)
  }

  lemma {:induction false} RequestsFollow(s: State, steps: seq<Step>, r: nat)
    requires Exec(s, steps).Some? && r in s.requests
    ensures r in Exec(s, steps).value.requests && Follows(s.requests[r], Exec(s, steps).value.requests[r])
  {
    if steps != [] {
      RequestsFollow(s, steps[..|steps| - 1], r);
    }
  }

  /** The state when the library comes to `r`, which was asked for `t` in `s`. */
  ghost predicate AskedThen(s: State, r: nat, t: string, steps: seq<Step>, s': State) {
    && r !in s.requests
    && Exec(Apply(s, Unregister(r, t)), steps) == Some(s') && Enabled(s', Remove(r))
  }

  /**
   * Main result: `unregister` answers truthfully, `true` exactly when it removed a worker, if and only if the last
   * registration or removal of the tenant between its read and its removal, if any, left the liveness it had read.
   */
  lemma AnswerIsRight(s: State, r: nat, t: string, steps: seq<Step>, s': State)
    requires AskedThen(s, r, t, steps, s')
    ensures var q := Apply(s', Remove(r)).requests[r];
      && q == Removed(t, Live(s, t), Live(s', t))
      && (q.existed == q.removed <==>
            var touch := LastTouch(Apply(s, Unregister(r, t)), t, steps); touch.Some? ==> touch.value == Live(s, t))
  {
    var asked := Apply(s, Unregister(r, t));
    RequestsFollow(asked, steps, r);
    LiveAfter(asked, t, steps);
  }

  /** The answer a call returns, whatever happens between its removal and its return. */
  lemma AnswerIsKept(s: State, r: nat, steps: seq<Step>)
    requires Exec(s, steps).Some? && r in s.requests && s.requests[r].Removed?
    requires r in Exec(s, steps).value.requests && Exec(s, steps).value.requests[r].Returned?
    ensures var q := s.requests[r]; Exec(s, steps).value.requests[r] == Returned(q.tenantId, q.existed, q.removed)
  {
    RequestsFollow(s, steps, r);
  }

  /** Some request of the tenant removes during the steps; `s'` is the state after them. */
  predicate SomeRemoval(s': State, t: string, steps: seq<Step>) {
    exists p: nat :: Remove(p) in steps && p in s'.requests && s'.requests[p].tenantId == t
  }

  lemma {:induction false} TouchedByRemoval(s: State, t: string, steps: seq<Step>)
    requires Exec(s, steps).Some? && forall step :: step in steps ==> !(step.Register? && step.tenantId == t)
    ensures LastTouch(s, t, steps) == if SomeRemoval(Exec(s, steps).value, t, steps) then Some(false) else None
  {
    if steps != [] {
      var before, last := steps[..|steps| - 1], steps[|steps| - 1];
      var mid, end := Exec(s, before).value, Exec(s, steps).value;
      TouchedByRemoval(s, t, before);
      assert steps == before + [last];
      forall p: nat | p in mid.requests
        ensures p in end.requests && end.requests[p].tenantId == mid.requests[p].tenantId
      {
        RequestsFollow(mid, [last], p);
      }
      RemoversKnown(s, before);
    }
  }

  lemma {:induction false} RemoversKnown(s: State, steps: seq<Step>)
    requires Exec(s, steps).Some?
    ensures forall p: nat :: Remove(p) in steps ==> p in Exec(s, steps).value.requests
  {
    if steps != [] {
      RemoversKnown(s, steps[..|steps| - 1]);
      HeadAndLast(steps);
    }
  }

  /** So for a live worker with no registration meanwhile, `true` is right exactly when no other request removed it. */
  lemma TrueIsRight(s: State, r: nat, t: string, steps: seq<Step>, s': State)
    requires AskedThen(s, r, t, steps, s') && Live(s, t)
    requires forall step :: step in steps ==> !(step.Register? && step.tenantId == t)
    ensures Apply(s', Remove(r)).requests[r] == Removed(t, true, !SomeRemoval(s', t, steps))
  {
    AnswerIsRight(s, r, t, steps, s');
    TouchedByRemoval(Apply(s, Unregister(r, t)), t, steps);
    LiveAfter(Apply(s, Unregister(r, t)), t, steps);
  }

  /** A registration falls between read and removal: `unregister` returns false although it removed the worker. */
  lemma RemovalUnreported(t: string) returns (steps: seq<Step>)
    ensures Exec(INIT, steps).Some?
    ensures var s := Exec(INIT, steps).value;
      0 in s.requests && s.requests[0] == Returned(t, false, true) && !Live(s, t)
  {
    var start, end := [Unregister(0, t), Register(t, Free)], [Remove(0), Resume(0)];
    QueueNames(t, t);
    ExecTwo(INIT, Unregister(0, t), Register(t, Free));
    var mid := Exec(INIT, start).value;
    RemoveOnce(mid, 0);
    ExecTwo(mid, Remove(0), Resume(0));
    ExecAppend(INIT, start, end);
    steps := start + end;
  }

  /** Two overlapping unregisters of one worker both return true, although only one of them removed it. */
  lemma BothReportRemoval(t: string) returns (steps: seq<Step>)
    ensures Exec(INIT, steps).Some?
    ensures var q := Exec(INIT, steps).value.requests;
      0 in q && 1 in q && q[0] == Returned(t, true, true) && q[1] == Returned(t, true, false)
  {
    steps := [Register(t, Free)];
    assert steps[..0] == [] && Exec(INIT, []) == Some(INIT);
    var live := Exec(INIT, steps).value;
    assert live == Apply(INIT, Register(t, Free));
    var more := [Unregister(0, t), Unregister(1, t)] + [Remove(0), Remove(1)] + [Resume(0), Resume(1)];
    TwoRemovals(live, t);
    ExecAppend(INIT, steps, more);
    steps := steps + more;
  }

  lemma {:induction false} ExecAppend(s: State, a: seq<Step>, b: seq<Step>)
    ensures Exec(s, a + b) == if Exec(s, a).Some? then Exec(Exec(s, a).value, b) else None
    decreases |b|
  {
    if b == [] {
      ConcatEmpty(a);
    } else {
      InitOfAppend(a, b);
      ExecAppend(s, a, b[..|b| - 1]);
    }
  }

  /** The requests 0 and 1 as given. */
  predicate Both(s: State, a: Request, b: Request) {
    0 in s.requests && 1 in s.requests && s.requests[0] == a && s.requests[1] == b
  }

  lemma BothAsk(s: State, t: string)
    requires s.requests == map[] && Live(s, t)
    ensures var r := Exec(s, [Unregister(0, t), Unregister(1, t)]);
      r.Some? && Both(r.value, Asked(t, true), Asked(t, true)) && Live(r.value, t)
  {
    ExecTwo(s, Unregister(0, t), Unregister(1, t));
  }

  lemma RemoveOnce(s: State, r: nat)
    requires Enabled(s, Remove(r))
    ensures var q := s.requests[r]; var s' := Apply(s, Remove(r));
      s'.requests == s.requests[r := Removed(q.tenantId, q.existed, Live(s, q.tenantId))] && !Live(s', q.tenantId)
  {
  }

  lemma BothRemove(s: State, t: string)
    requires Both(s, Asked(t, true), Asked(t, true)) && Live(s, t)
    ensures var r := Exec(s, [Remove(0), Remove(1)]);
      r.Some? && Both(r.value, Removed(t, true, true), Removed(t, true, false))
  {
    RemoveOnce(s, 0);
    var mid := Apply(s, Remove(0));
    RemoveOnce(mid, 1);
    ExecTwo(s, Remove(0), Remove(1));
  }

  lemma BothReturn(s: State, t: string)
    requires Both(s, Removed(t, true, true), Removed(t, true, false))
    ensures var r := Exec(s, [Resume(0), Resume(1)]);
      r.Some? && Both(r.value, Returned(t, true, true), Returned(t, true, false))
  {
    ExecTwo(s, Resume(0), Resume(1));
  }

  lemma TwoRemovals(s: State, t: string)
    requires s.requests == map[] && Live(s, t)
    ensures var r := Exec(s, [Unregister(0, t), Unregister(1, t)] + [Remove(0), Remove(1)] + [Resume(0), Resume(1)]);
      r.Some? && Both(r.value, Returned(t, true, true), Returned(t, true, false))
  {
    var ask, remove, back := [Unregister(0, t), Unregister(1, t)], [Remove(0), Remove(1)], [Resume(0), Resume(1)];
    BothAsk(s, t);
    BothRemove(Exec(s, ask).value, t);
    ExecAppend(s, ask, remove);
    BothReturn(Exec(s, ask + remove).value, t);
    ExecAppend(s, ask + remove, back);
  }

  lemma ExecTwo(s: State, x: Step, y: Step)
    requires Enabled(s, x) && Enabled(Apply(s, x), y)
    ensures Exec(s, [x, y]) == Some(Apply(Apply(s, x), y))
  {
    assert [x, y][..1] == [x] && [x][..0] == [];
    assert Exec(s, []) == Some(s);
    assert Exec(s, [x]) == Some(Apply(s, x));
  }

  // ---- Whether a registration holds ----

  /** A step that asks for no new work on the tenant. */
  predicate Settles(step: Step, tenantId: string) {
    step.Register? || step.Unregister? ==> step.tenantId != tenantId
  }

  predicate ShownAt(s: State, t: string, tier: Tier) {
    Live(s, t) && t in s.tiers && s.tiers[t] == tier
  }

  /** Request `r` has removed its tenant's worker, or tried to and found none. */
  predicate HasRemoved(s: State, r: nat) {
    r in s.requests && (s.requests[r].Removed? || s.requests[r].Returned?)
  }

  /** The registration is in force and shown, or some unregister that was under way in `start` has removed. */
  ghost predicate HoldsOrRemoved(start: State, s: State, t: string, tier: Tier) {
    && (forall p :: PendingFor(s, t, p) ==> PendingFor(start, t, p))
    && (ShownAt(s, t, tier) || exists r :: PendingFor(start, t, r) && HasRemoved(s, r))
  }

  lemma {:induction false} StaysUntilRemoved(s: State, t: string, tier: Tier, steps: seq<Step>)
    requires ShownAt(s, t, tier)
    requires Exec(s, steps).Some? && forall step :: step in steps ==> Settles(step, t)
    ensures HoldsOrRemoved(s, Exec(s, steps).value, t, tier)
  {
    if steps != [] {
      var before, last := steps[..|steps| - 1], steps[|steps| - 1];
      StaysUntilRemoved(s, t, tier, before);
      assert Settles(last, t);
      HoldsOrRemovedKept(s, Exec(s, before).value, t, tier, last);
    }
  }

  lemma HoldsOrRemovedKept(start: State, s: State, t: string, tier: Tier, step: Step)
    requires HoldsOrRemoved(start, s, t, tier) && Enabled(s, step) && Settles(step, t)
    ensures HoldsOrRemoved(start, Apply(s, step), t, tier)
  {
    var s' := Apply(s, step);
    assert forall p :: PendingFor(s', t, p) ==> PendingFor(s, t, p);
    assert forall r :: HasRemoved(s, r) ==> HasRemoved(s', r);
    QueueNames(t, t);
    match step
    case Register(tenantId, _) => QueueNames(tenantId, t);
    case Remove(r) =>
      QueueNames(s.requests[r].tenantId, t);
      assert HasRemoved(s', r) && (s.requests[r].tenantId == t ==> PendingFor(s, t, r));
    case Resume(r) =>
      assert HasRemoved(s', r) && (s.requests[r].tenantId == t ==> PendingFor(s, t, r));
    case _ =>
  }

  /** Request `r` is under way, or the library failed it, or it has returned and left no tier behind. */
  predicate LeavesNoTier(s: State, t: string, r: nat) {
    r in s.requests && s.requests[r].tenantId == t && (s.requests[r].Returned? ==> t !in s.tiers)
  }

  lemma LeavesNoTierKept(s: State, t: string, r: nat, step: Step)
    requires LeavesNoTier(s, t, r) && Enabled(s, step) && Settles(step, t)
    ensures LeavesNoTier(Apply(s, step), t, r)
    ensures Apply(s, step).requests[r].Rejected? ==> s.requests[r].Rejected? || step == FailRemove(r)
  {
  }

  lemma {:induction false} PendingEnds(s: State, t: string, r: nat, steps: seq<Step>)
    requires PendingFor(s, t, r)
    requires Exec(s, steps).Some? && forall step :: step in steps ==> Settles(step, t)
    ensures LeavesNoTier(Exec(s, steps).value, t, r)
    ensures Exec(s, steps).value.requests[r].Rejected? ==> FailRemove(r) in steps
  {
    if steps != [] {
      var before, last := steps[..|steps| - 1], steps[|steps| - 1];
      PendingEnds(s, t, r, before);
      assert Settles(last, t);
      LeavesNoTierKept(Exec(s, before).value, t, r, last);
      HeadAndLast(steps);
    }
  }

  /**
   * Main result: once all requests for a tenant have settled, an accepted registration is still in force, and shown at
   * its tier, if and only if the library failed every unregister of the tenant that was under way when it was accepted.
   */
  lemma {:induction false} RegistrationHolds(s: State, t: string, tier: Tier, steps: seq<Step>, s': State)
    requires !Live(s, t)
    requires Exec(Apply(s, Register(t, tier)), steps) == Some(s') && forall step :: step in steps ==> Settles(step, t)
    requires NonePending(s', t)
    ensures ShownAt(s', t, tier) <==> forall r :: PendingFor(s, t, r) ==> r in s'.requests && s'.requests[r].Rejected?
  {
    var after := Apply(s, Register(t, tier));
    assert forall r :: PendingFor(after, t, r) <==> PendingFor(s, t, r);
    StaysUntilRemoved(after, t, tier, steps);
    forall r | PendingFor(s, t, r)
      ensures r in s'.requests && (s'.requests[r].Rejected? || (s'.requests[r].Returned? && t !in s'.tiers))
    {
      PendingEnds(after, t, r, steps);
      assert !PendingFor(s', t, r);
    }
  }

  /** So when the library fails none of them, the registration holds exactly if none was under way. */
  lemma {:induction false} RegistrationHoldsAlone(s: State, t: string, tier: Tier, steps: seq<Step>, s': State)
    requires !Live(s, t)
    requires Exec(Apply(s, Register(t, tier)), steps) == Some(s') && forall step :: step in steps ==> Settles(step, t)
    requires NonePending(s', t) && forall r :: PendingFor(s, t, r) ==> FailRemove(r) !in steps
    ensures ShownAt(s', t, tier) <==> NonePending(s, t)
  {
    RegistrationHolds(s, t, tier, steps, s');
    var after := Apply(s, Register(t, tier));
    forall r | PendingFor(s, t, r) ensures r in s'.requests && !s'.requests[r].Rejected? {
      assert PendingFor(after, t, r);
      PendingEnds(after, t, r, steps);
    }
  }

  /** The only request is 0, as given. */
  predicate Only(s: State, q: Request) {
    s.requests == map[0 := q]
  }

  lemma RegisterThenAsk(t: string) returns (s: State)
    ensures Exec(INIT, [Register(t, Free), Unregister(0, t)]) == Some(s)
    ensures Live(s, t) && Only(s, Asked(t, true))
  {
    ExecTwo(INIT, Register(t, Free), Unregister(0, t));
    s := Apply(Apply(INIT, Register(t, Free)), Unregister(0, t));
  }

  lemma RemoveThenRegister(s: State, t: string) returns (s': State)
    requires Only(s, Asked(t, true)) && Live(s, t)
    ensures Exec(s, [Remove(0), Register(t, Premium)]) == Some(s')
    ensures Live(s', t) && Only(s', Removed(t, true, true))
  {
    RemoveOnce(s, 0);
    ExecTwo(s, Remove(0), Register(t, Premium));
    s' := Apply(Apply(s, Remove(0)), Register(t, Premium));
  }

  lemma ReturnForgets(s: State, t: string) returns (s': State)
    requires Only(s, Removed(t, true, true))
    ensures Exec(s, [Resume(0)]) == Some(s')
    ensures t !in s'.tiers && (Live(s', t) <==> Live(s, t)) && NonePending(s', t)
  {
    s' := Apply(s, Resume(0));
    assert [Resume(0)][..0] == [] && Exec(s, []) == Some(s);
  }

  /** A registration accepted between an unregister's removal and its return stays in force but loses its tier. */
  lemma TierLost(t: string) returns (steps: seq<Step>)
    ensures Exec(INIT, steps).Some?
    ensures var s := Exec(INIT, steps).value; Live(s, t) && t !in s.tiers && NonePending(s, t)
  {
    var a, b, c := [Register(t, Free), Unregister(0, t)], [Remove(0), Register(t, Premium)], [Resume(0)];
    var s := RegisterThenAsk(t);
    s := RemoveThenRegister(s, t);
    ExecAppend(INIT, a, b);
    s := ReturnForgets(s, t);
    ExecAppend(INIT, a + b, c);
    steps := a + b + c;
  }
}
