/**
 * Tenant workers (apps/api/src/workers/tenant-workers.service.ts). `register` is one atomic step; `unregister` reads
 * the registry, waits while the library removes the worker, then forgets the tier. Any number of requests interleave.
 * Of the library's registry only this is assumed: registering a queue twice is refused, and unregistering removes the
 * queue if it is there, or fails and changes nothing.
 */
module Tenants {
  import opened Prelude
  import opened JsMaps

  const TENANT_QUEUE_PREFIX := "notifications."

  datatype Tier = Premium | Free

  function TenantQueueName(tenantId: string): string { TENANT_QUEUE_PREFIX + tenantId }

  lemma QueueNames(a: string, b: string)
    ensures TenantQueueName(a) == TenantQueueName(b) <==> a == b
    ensures StartsWith(TenantQueueName(a), TENANT_QUEUE_PREFIX)
    ensures TenantQueueName(a)[|TENANT_QUEUE_PREFIX|..] == a
  {
    ConcatParts(TENANT_QUEUE_PREFIX, a);
    ConcatParts(TENANT_QUEUE_PREFIX, b);
  }

  /** An `unregister` request; `removed` is whether the library found a worker to remove. */
  datatype Request =
    | Asked(tenantId: string, existed: bool)
    | Removed(tenantId: string, existed: bool, removed: bool)
    | Returned(tenantId: string, existed: bool, removed: bool)
    | Rejected(tenantId: string)
  {
    predicate Pending() { Asked? || Removed? }
  }

  /** Live workers by queue, with the tier they were registered at (none for workers of other kinds). */
  type Registry = JsMap<string, Option<Tier>>

  datatype State = State(registry: Registry, tiers: map<string, Tier>, requests: map<nat, Request>)

  datatype Step =
    | Register(tenantId: string, tier: Tier)
    | RegisterOther(queue: string)
    | Unregister(r: nat, tenantId: string)
    | Remove(r: nat)
    | FailRemove(r: nat)
    | Resume(r: nat)

  const INIT := State(JsMap([], map[]), map[], map[])

  predicate Enabled(s: State, step: Step) {
    match step
    case Register(_, _) => true
    case RegisterOther(queue) => !StartsWith(queue, TENANT_QUEUE_PREFIX) && !s.registry.Has(queue)
    case Unregister(r, _) => r !in s.requests
    case Remove(r) => r in s.requests && s.requests[r].Asked?
    case FailRemove(r) => r in s.requests && s.requests[r].Asked?
    case Resume(r) => r in s.requests && s.requests[r].Removed?
  }

  function Apply(s: State, step: Step): State
    requires Enabled(s, step)
  {
    match step
    case Register(tenantId, tier) =>
      if s.registry.Has(TenantQueueName(tenantId)) then s
      else s.(registry := s.registry.Set(TenantQueueName(tenantId), Some(tier)), tiers := s.tiers[tenantId := tier])
    case RegisterOther(queue) => s.(registry := s.registry.Set(queue, None))
    case Unregister(r, tenantId) =>
      s.(requests := s.requests[r := Asked(tenantId, s.registry.Has(TenantQueueName(tenantId)))])
    case Remove(r) =>
      var q := s.requests[r];
      var queue := TenantQueueName(q.tenantId);
      s.(registry := s.registry.Delete(queue),
         requests := s.requests[r := Removed(q.tenantId, q.existed, s.registry.Has(queue))])
    case FailRemove(r) => s.(requests := s.requests[r := Rejected(s.requests[r].tenantId)])
    case Resume(r) =>
      var q := s.requests[r];
      s.(tiers := s.tiers - {q.tenantId}, requests := s.requests[r := Returned(q.tenantId, q.existed, q.removed)])
  }

  function Exec(s: State, steps: seq<Step>): Option<State> {
    if steps == [] then Some(s)
    else
      var before, last := Exec(s, steps[..|steps| - 1]), steps[|steps| - 1];
      if before.Some? && Enabled(before.value, last) then Some(Apply(before.value, last)) else None
  }

  // ---- The list projection ----

  datatype View = View(tenantId: string, queue: string, tier: Option<Tier>)

  function Views(queues: seq<string>, tiers: map<string, Tier>): seq<View> {
    if queues == [] then []
    else
      var rest := Views(queues[1..], tiers);
      if StartsWith(queues[0], TENANT_QUEUE_PREFIX) then
        var id := queues[0][|TENANT_QUEUE_PREFIX|..];
        [View(id, queues[0], if id in tiers then Some(tiers[id]) else None)] + rest
      else rest
  }

  function List(s: State): seq<View> { Views(s.registry.keys, s.tiers) }

  /** The views of one tenant, or all of them. */
  function Scoped(views: seq<View>, tenantId: Option<string>): (r: seq<View>)
    ensures forall v :: v in r <==> v in views && (tenantId.None? || v.tenantId == tenantId.value)
    ensures tenantId.None? ==> r == views
  {
    if views == [] then []
    else
      var rest := Scoped(views[1..], tenantId);
      if tenantId.None? || views[0].tenantId == tenantId.value then [views[0]] + rest else rest
  }

  /** The tenant's worker is live. */
  predicate Live(s: State, tenantId: string) { s.registry.Has(TenantQueueName(tenantId)) }

  lemma {:induction false} ViewsShow(queues: seq<string>, tiers: map<string, Tier>, v: View)
    ensures v in Views(queues, tiers) <==>
      && v.queue == TenantQueueName(v.tenantId) && v.queue in queues
      && v.tier == if v.tenantId in tiers then Some(tiers[v.tenantId]) else None
  {
    if queues != [] {
      ViewsShow(queues[1..], tiers, v);
      QueueNames(v.tenantId, v.tenantId);
      if StartsWith(queues[0], TENANT_QUEUE_PREFIX) {
        var id := queues[0][|TENANT_QUEUE_PREFIX|..];
        assert TENANT_QUEUE_PREFIX + id == queues[0];
        QueueNames(id, v.tenantId);
      }
    }
  }

  // ---- Every interleaving ----

  ghost predicate Ok(s: State) {
    && s.registry.Valid()
    && forall t :: t in s.tiers && Live(s, t) ==> s.registry.at[TenantQueueName(t)] == Some(s.tiers[t])
  }

  lemma StepKeeps(s: State, step: Step)
    requires Ok(s) && Enabled(s, step)
    ensures Ok(Apply(s, step))
  {
    var s' := Apply(s, step);
    forall t | t in s'.tiers && Live(s', t) ensures s'.registry.at[TenantQueueName(t)] == Some(s'.tiers[t]) {
      QueueNames(t, t);
      match step
      case Register(tenantId, tier) => QueueNames(t, tenantId);
      case RegisterOther(queue) =>
      case Unregister(_, _) =>
      case Remove(r) => QueueNames(t, s.requests[r].tenantId);
      case FailRemove(_) =>
      case Resume(_) =>
    }
  }

  lemma {:induction false} Reachable(steps: seq<Step>)
    ensures Exec(INIT, steps).Some? ==> Ok(Exec(INIT, steps).value)
  {
    if steps != [] && Exec(INIT, steps).Some? {
      var before := steps[..|steps| - 1];
      Reachable(before);
      StepKeeps(Exec(INIT, before).value, steps[|steps| - 1]);
    }
  }

  /**
   * Main result: in every interleaving the list shows exactly the live tenant workers, and the tier shown for one is
   * the tier it was registered at or nothing, never that of an earlier registration.
   */
  lemma ListIsNeverStale(steps: seq<Step>, v: View)
    requires Exec(INIT, steps).Some?
    ensures var s := Exec(INIT, steps).value;
      (exists tier :: View(v.tenantId, v.queue, tier) in List(s))
      <==> v.queue == "notifications." + v.tenantId && s.registry.Has(v.queue)
    ensures var s := Exec(INIT, steps).value;
      v in List(s) ==> v.tier.None? || v.tier == s.registry.at[v.queue]
  {
    Reachable(steps);
    var s := Exec(INIT, steps).value;
    ViewsShow(s.registry.keys, s.tiers, v);
    var shown := View(v.tenantId, v.queue, if v.tenantId in s.tiers then Some(s.tiers[v.tenantId]) else None);
    ViewsShow(s.registry.keys, s.tiers, shown);
    forall tier | View(v.tenantId, v.queue, tier) in List(s)
      ensures v.queue == TenantQueueName(v.tenantId) && Live(s, v.tenantId)
    {
      ViewsShow(s.registry.keys, s.tiers, View(v.tenantId, v.queue, tier));
    }
  }

  /** `x` stands before `y` in the list. */
  predicate Before<T(==)>(s: seq<T>, x: T, y: T) {
    exists a, b :: 0 <= a < b < |s| && s[a] == x && s[b] == y
  }

  lemma {:induction false} ViewsInOrder(queues: seq<string>, tiers: map<string, Tier>, i: nat, j: nat)
      returns (a: nat, b: nat)
    requires i < j < |Views(queues, tiers)|
    ensures a < b < |queues|
    ensures queues[a] == Views(queues, tiers)[i].queue && queues[b] == Views(queues, tiers)[j].queue
  {
    var shift := if StartsWith(queues[0], TENANT_QUEUE_PREFIX) then 1 else 0;
    if i < shift {
      b := QueueOf(queues[1..], tiers, j - 1);
      a, b := 0, b + 1;
    } else {
      a, b := ViewsInOrder(queues[1..], tiers, i - shift, j - shift);
      a, b := a + 1, b + 1;
    }
  }

  lemma QueueOf(queues: seq<string>, tiers: map<string, Tier>, i: nat) returns (a: nat)
    requires i < |Views(queues, tiers)|
    ensures a < |queues| && queues[a] == Views(queues, tiers)[i].queue
  {
    var v := Views(queues, tiers)[i];
    ViewsShow(queues, tiers, v);
    a :| a < |queues| && queues[a] == v.queue;
  }

  lemma ListOnce(s: State, i: nat, j: nat)
    requires s.registry.Valid() && i < j < |List(s)|
    ensures Before(s.registry.keys, List(s)[i].queue, List(s)[j].queue)
    ensures List(s)[i].tenantId != List(s)[j].tenantId
  {
    var v, w := List(s)[i], List(s)[j];
    var a, b := ViewsInOrder(s.registry.keys, s.tiers, i, j);
    ViewsShow(s.registry.keys, s.tiers, v);
    ViewsShow(s.registry.keys, s.tiers, w);
  }

  /** In every interleaving the views stand in registry order, and no tenant has two. */
  lemma ListIsOrdered(steps: seq<Step>, i: nat, j: nat)
    requires Exec(INIT, steps).Some? && i < j < |List(Exec(INIT, steps).value)|
    ensures var s := Exec(INIT, steps).value;
      && Before(s.registry.keys, List(s)[i].queue, List(s)[j].queue)
      && List(s)[i].tenantId != List(s)[j].tenantId
  {
    Reachable(steps);
    ListOnce(Exec(INIT, steps).value, i, j);
  }

  // ---- One request at a time for a tenant ----

  ghost predicate PendingFor(s: State, tenantId: string, r: nat) {
    r in s.requests && s.requests[r].tenantId == tenantId && s.requests[r].Pending()
  }

  ghost predicate NonePending(s: State, tenantId: string) {
    forall r :: !PendingFor(s, tenantId, r)
  }

  /** The step does not start work on the tenant while an unregister of it is under way. */
  ghost predicate SerialStep(s: State, tenantId: string, step: Step) {
    (step.Register? || step.Unregister?) && step.tenantId == tenantId ==> NonePending(s, tenantId)
  }

  ghost predicate Serial(steps: seq<Step>, tenantId: string) {
    forall k: nat :: k < |steps| && Exec(INIT, steps[..k]).Some? ==>
      SerialStep(Exec(INIT, steps[..k]).value, tenantId, steps[k])
  }

  /** What a request has seen agrees with whether its tenant's worker is live. */
  predicate RequestFits(q: Request, live: bool) {
    match q
    case Asked(_, existed) => existed == live
    case Removed(_, existed, removed) => existed == removed && !live
    case Returned(_, existed, removed) => existed == removed
    case Rejected(_) => true
  }

  ghost predicate SerialOk(s: State, t: string) {
    && (forall a, b :: PendingFor(s, t, a) && PendingFor(s, t, b) ==> a == b)
    && (forall r :: r in s.requests && s.requests[r].tenantId == t ==> RequestFits(s.requests[r], Live(s, t)))
    && ((exists r :: PendingFor(s, t, r) && s.requests[r].Removed?) || (t in s.tiers <==> Live(s, t)))
  }

  /** A step that changes neither whether `t` is live, nor its tier, nor any request, or only requests of others. */
  lemma UntouchedKeeps(s: State, s': State, t: string)
    requires SerialOk(s, t)
    requires Live(s', t) == Live(s, t) && (t in s'.tiers <==> t in s.tiers)
    requires forall r :: r in s'.requests && s'.requests[r].tenantId == t ==>
      r in s.requests && s'.requests[r] == s.requests[r]
    requires forall r :: r in s.requests && s.requests[r].tenantId == t ==> r in s'.requests
    requires forall r :: r in s.requests && r in s'.requests ==> s'.requests[r].tenantId == s.requests[r].tenantId
    ensures SerialOk(s', t)
  {
    assert forall r :: PendingFor(s', t, r) <==> PendingFor(s, t, r);
  }

  /** With none pending, all that is known of `t` is whether it is live and has a tier. */
  lemma NonePendingKeeps(s: State, s': State, t: string)
    requires SerialOk(s, t) && NonePending(s, t) && s'.requests == s.requests
    requires t in s'.tiers <==> Live(s', t)
    ensures SerialOk(s', t)
  {
    assert forall r :: PendingFor(s', t, r) <==> PendingFor(s, t, r);
    forall r | r in s.requests && s.requests[r].tenantId == t ensures RequestFits(s.requests[r], Live(s', t)) {
      assert !PendingFor(s, t, r) && RequestFits(s.requests[r], Live(s, t));
    }
  }

  /** One request of `t` moves on; every other request of `t` is no longer pending. */
  lemma OwnRequestKeeps(s: State, s': State, t: string, r: nat)
    requires SerialOk(s, t) && r in s'.requests && s'.requests[r].tenantId == t
    requires r in s.requests ==> PendingFor(s, t, r)
    requires r !in s.requests ==> NonePending(s, t)
    requires s'.requests == s.requests[r := s'.requests[r]] && RequestFits(s'.requests[r], Live(s', t))
    requires s'.requests[r].Removed? || (t in s'.tiers <==> Live(s', t))
    ensures SerialOk(s', t)
  {
    forall p | p in s'.requests && p != r && s'.requests[p].tenantId == t
      ensures !PendingFor(s', t, p) && RequestFits(s'.requests[p], Live(s', t))
    {
      assert !PendingFor(s, t, p) && RequestFits(s.requests[p], Live(s, t));
    }
    if s'.requests[r].Removed? { assert PendingFor(s', t, r); }
  }

  lemma SerialKeeps(s: State, t: string, step: Step)
    requires Ok(s) && SerialOk(s, t) && Enabled(s, step) && SerialStep(s, t, step)
    ensures SerialOk(Apply(s, step), t)
  {
    var s' := Apply(s, step);
    QueueNames(t, t);
    match step
    case Register(tenantId, _) =>
      QueueNames(tenantId, t);
      if tenantId == t {
        TierFollowsLive(s, t);
        NonePendingKeeps(s, s', t);
      } else {
        UntouchedKeeps(s, s', t);
      }
    case RegisterOther(_) => UntouchedKeeps(s, s', t);
    case Unregister(r, tenantId) =>
      if tenantId == t {
        TierFollowsLive(s, t);
        OwnRequestKeeps(s, s', t, r);
      } else {
        UntouchedKeeps(s, s', t);
      }
    case Remove(r) => RequestStepKeeps(s, t, step, r);
    case FailRemove(r) => RequestStepKeeps(s, t, step, r);
    case Resume(r) => RequestStepKeeps(s, t, step, r);
  }

  lemma TierFollowsLive(s: State, t: string)
    requires SerialOk(s, t) && NonePending(s, t)
    ensures t in s.tiers <==> Live(s, t)
  {
  }

  lemma RequestStepKeeps(s: State, t: string, step: Step, r: nat)
    requires SerialOk(s, t) && Enabled(s, step) && (step == Remove(r) || step == FailRemove(r) || step == Resume(r))
    ensures SerialOk(Apply(s, step), t)
  {
    var s' := Apply(s, step);
    QueueNames(s.requests[r].tenantId, t);
    if s.requests[r].tenantId == t {
      assert PendingFor(s, t, r) && RequestFits(s.requests[r], Live(s, t));
      assert forall p :: PendingFor(s, t, p) ==> p == r;
      OwnRequestKeeps(s, s', t, r);
    } else {
      UntouchedKeeps(s, s', t);
    }
  }

  /**
   * When work on a tenant never overlaps, whatever other tenants do: a tier is on record exactly for a live worker
   * once no unregister is between removal and return, and `unregister` returns true exactly when it removed a worker.
   */
  lemma {:induction false} SerialRunsAgree(steps: seq<Step>, t: string)
    requires Exec(INIT, steps).Some? && Serial(steps, t)
    ensures SerialOk(Exec(INIT, steps).value, t)
  {
    if steps != [] {
      var n := |steps| - 1;
      var before := steps[..n];
      assert Serial(before, t) by {
        forall k: nat | k < n && Exec(INIT, before[..k]).Some?
          ensures SerialStep(Exec(INIT, before[..k]).value, t, before[k])
        {
          assert before[..k] == steps[..k];
        }
      }
      SerialRunsAgree(before, t);
      Reachable(before);
      SerialKeeps(Exec(INIT, before).value, t, steps[n]);
    }
  }

  // ---- The service between its awaits ----

  /** The view of a live tenant. */
  function ViewOf(s: State, t: string): View {
    View(t, TenantQueueName(t), if t in s.tiers then Some(s.tiers[t]) else None)
  }

  lemma {:induction false} ForgettingBlanks(queues: seq<string>, tiers: map<string, Tier>, t: string)
    ensures var before, after := Views(queues, tiers), Views(queues, tiers - {t});
      && |after| == |before|
      && forall i :: 0 <= i < |before| ==>
           after[i] == if before[i].tenantId == t then before[i].(tier := None) else before[i]
  {
    if queues != [] {
      ForgettingBlanks(queues[1..], tiers, t);
    }
  }

  lemma {:induction false} ScopedAtMostOne(views: seq<View>, t: string)
    requires forall i, j :: 0 <= i < j < |views| ==> views[i].tenantId != views[j].tenantId
    ensures |Scoped(views, Some(t))| <= 1
  {
    if views != [] {
      var rest := Scoped(views[1..], Some(t));
      ScopedAtMostOne(views[1..], t);
      assert rest != [] ==> rest[0] in rest;
    }
  }

  lemma ScopedToOne(s: State, t: string)
    requires s.registry.Valid()
    ensures Scoped(List(s), Some(t)) == if Live(s, t) then [ViewOf(s, t)] else []
  {
    forall i: nat, j: nat | i < j < |List(s)| ensures List(s)[i].tenantId != List(s)[j].tenantId {
      ListOnce(s, i, j);
    }
    ScopedAtMostOne(List(s), t);
    var r := Scoped(List(s), Some(t));
    ViewsShow(s.registry.keys, s.tiers, ViewOf(s, t));
    if r != [] {
      assert r[0] in r;
      ViewsShow(s.registry.keys, s.tiers, r[0]);
    }
  }

  class TenantWorkersService {
    var registry: Registry
    var tiers: map<string, Tier>

    /** Ok, with no request under way in this object's own frame. */
    ghost predicate Valid() reads this {
      Ok(State(registry, tiers, map[]))
    }

    constructor ()
      ensures Valid() && registry.keys == [] && tiers == map[]
    {
      registry, tiers := JsMap([], map[]), map[];
    }

    method RegisterTenant(tenantId: string, tier: Tier) returns (accepted: bool)
      requires Valid()
      modifies this
      ensures Valid() && accepted == !old(registry).Has(TenantQueueName(tenantId))
      ensures var s' := Apply(State(old(registry), old(tiers), map[]), Register(tenantId, tier));
        registry == s'.registry && tiers == s'.tiers
    {
      StepKeeps(State(registry, tiers, map[]), Register(tenantId, tier));
      if registry.Has(TenantQueueName(tenantId)) {
        return false;
      }
      registry := registry.Set(TenantQueueName(tenantId), Some(tier));
      tiers := tiers[tenantId := tier];
      return true;
    }

    /** The first half of `unregister`, up to its await: what it reads is whether the list shows the tenant. */
    method AskUnregister(tenantId: string) returns (existed: bool)
      requires Valid()
      ensures existed <==> exists v :: v in List(State(registry, tiers, map[])) && v.tenantId == tenantId
    {
      existed := TenantQueueName(tenantId) in registry.keys;
      ViewsShow(registry.keys, tiers, ViewOf(State(registry, tiers, map[]), tenantId));
      forall v | v in List(State(registry, tiers, map[])) && v.tenantId == tenantId ensures existed {
        ViewsShow(registry.keys, tiers, v);
      }
    }

    /** The second half, after the library has removed the worker: the list loses that tenant's tier, nothing else. */
    method FinishUnregister(tenantId: string)
      requires Valid()
      modifies this`tiers
      ensures Valid()
      ensures var before, after := old(List(State(registry, tiers, map[]))), List(State(registry, tiers, map[]));
        && |after| == |before|
        && forall i :: 0 <= i < |before| ==>
             after[i] == if before[i].tenantId == tenantId then before[i].(tier := None) else before[i]
    {
      ForgettingBlanks(registry.keys, tiers, tenantId);
      tiers := tiers - {tenantId};
    }

    method ListWorkers(tenantId: Option<string>) returns (views: seq<View>)
      requires Valid()
      ensures var s := State(registry, tiers, map[]);
        views == match tenantId
                 case None => List(s)
                 case Some(t) => if Live(s, t) then [ViewOf(s, t)] else []
    {
      views := Scoped(Views(registry.keys, tiers), tenantId);
      if tenantId.Some? { ScopedToOne(State(registry, tiers, map[]), tenantId.value); }
    }
  }
}
