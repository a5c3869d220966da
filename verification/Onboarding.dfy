/**
 * Idempotent welcome jobs (apps/api/src/orders/onboarding.service.ts). Each request reads, waits, then enqueues; any
 * number of requests interleave. Of the queue only this is assumed: enqueueing under a job id inserts a job exactly
 * when none with that id exists, and jobs are not removed.
 */
module Onboarding {
  import opened Prelude

  function WelcomeJobId(userId: string): string { "welcome-" + userId }

  lemma WelcomeJobIdsDiffer(a: string, b: string)
    ensures WelcomeJobId(a) == WelcomeJobId(b) <==> a == b
  {
    ConcatParts("welcome-", a);
    ConcatParts("welcome-", b);
  }

  datatype Job = Job(id: string, userId: string)

  datatype Request =
    | Checked(userId: string, existing: bool, readAt: nat)
    | Answered(userId: string, created: bool, readAt: nat, doneAt: nat)

  /** Who inserted a job, and when. */
  datatype Insertion = Insertion(request: nat, at: nat)

  datatype State = State(jobs: seq<Job>, inserted: map<string, Insertion>, requests: map<nat, Request>, clock: nat)

  datatype Step = Check(r: nat, userId: string) | Enqueue(r: nat)

  const INIT := State([], map[], map[], 0)

  predicate Exists(jobs: seq<Job>, id: string) {
    exists k :: 0 <= k < |jobs| && jobs[k].id == id
  }

  predicate Enabled(s: State, step: Step) {
    match step
    case Check(r, _) => r !in s.requests
    case Enqueue(r) => r in s.requests && s.requests[r].Checked?
  }

  function Apply(s: State, step: Step): State
    requires Enabled(s, step)
  {
    match step
    case Check(r, userId) =>
      s.(requests := s.requests[r := Checked(userId, Exists(s.jobs, WelcomeJobId(userId)), s.clock)],
         clock := s.clock + 1)
    case Enqueue(r) =>
      var q := s.requests[r];
      var id := WelcomeJobId(q.userId);
      var answered := s.(requests := s.requests[r := Answered(q.userId, !q.existing, q.readAt, s.clock)],
                         clock := s.clock + 1);
      if Exists(s.jobs, id) then answered
      else answered.(jobs := s.jobs + [Job(id, q.userId)], inserted := s.inserted[id := Insertion(r, s.clock)])
  }

  function Exec(steps: seq<Step>): Option<State> {
    if steps == [] then Some(INIT)
    else
      var before, last := Exec(steps[..|steps| - 1]), steps[|steps| - 1];
      if before.Some? && Enabled(before.value, last) then Some(Apply(before.value, last)) else None
  }

  ghost predicate RequestOk(s: State, q: Request) {
    var id := WelcomeJobId(q.userId);
    match q
    case Checked(_, existing, readAt) =>
      readAt < s.clock && (existing <==> id in s.inserted && s.inserted[id].at < readAt)
    case Answered(_, created, readAt, doneAt) =>
      && readAt < doneAt < s.clock
      && id in s.inserted && s.inserted[id].at <= doneAt
      && s.inserted[id].at != readAt
      && (created <==> readAt < s.inserted[id].at)
  }

  ghost predicate JobsOk(s: State) {
    && (forall j, k :: 0 <= j < k < |s.jobs| ==> s.jobs[j].id != s.jobs[k].id)
    && (forall k :: 0 <= k < |s.jobs| ==> s.jobs[k].id == WelcomeJobId(s.jobs[k].userId) && s.jobs[k].id in s.inserted)
    && (forall id :: id in s.inserted ==> Exists(s.jobs, id))
  }

  /** Every job was inserted by an answered request of its user, and no request read at that very moment. */
  ghost predicate InsertersOk(s: State) {
    && (forall id :: id in s.inserted ==> InserterOk(s, id, s.inserted[id]))
    && (forall id, r :: id in s.inserted && r in s.requests ==> s.requests[r].readAt != s.inserted[id].at)
  }

  ghost predicate InserterOk(s: State, id: string, i: Insertion) {
    && i.at < s.clock && i.request in s.requests && s.requests[i.request].Answered?
    && s.requests[i.request].doneAt == i.at && WelcomeJobId(s.requests[i.request].userId) == id
  }

  ghost predicate Ok(s: State) {
    JobsOk(s) && InsertersOk(s) && forall r :: r in s.requests ==> RequestOk(s, s.requests[r])
  }

  lemma CheckKeeps(s: State, r: nat, userId: string)
    requires Ok(s) && Enabled(s, Check(r, userId))
    ensures Ok(Apply(s, Check(r, userId)))
  {
    var s' := Apply(s, Check(r, userId));
    var id := WelcomeJobId(userId);
    assert Exists(s.jobs, id) <==> id in s.inserted;
    forall p | p in s'.requests ensures RequestOk(s', s'.requests[p]) {
      if p != r { assert RequestOk(s, s.requests[p]); }
    }
    forall i | i in s'.inserted ensures InserterOk(s', i, s'.inserted[i]) { assert InserterOk(s, i, s.inserted[i]); }
  }

  lemma EnqueueKeepsJobs(s: State, r: nat)
    requires JobsOk(s) && Enabled(s, Enqueue(r))
    ensures JobsOk(Apply(s, Enqueue(r)))
    ensures Exists(s.jobs, WelcomeJobId(s.requests[r].userId)) <==> WelcomeJobId(s.requests[r].userId) in s.inserted
  {
    var s' := Apply(s, Enqueue(r));
    assert forall k :: 0 <= k < |s.jobs| ==> s'.jobs[k] == s.jobs[k];
    forall i | i in s'.inserted ensures Exists(s'.jobs, i) {
      if i in s.inserted {
        var k :| 0 <= k < |s.jobs| && s.jobs[k].id == i;
        assert s'.jobs[k].id == i;
      } else {
        assert s'.jobs[|s.jobs|].id == i;
      }
    }
  }

  lemma EnqueueKeepsReads(s: State, r: nat, p: nat)
    requires Ok(s) && Enabled(s, Enqueue(r)) && p in Apply(s, Enqueue(r)).requests
    ensures p in s.requests && Apply(s, Enqueue(r)).requests[p].readAt == s.requests[p].readAt < s.clock
  {
    assert RequestOk(s, s.requests[p]);
  }

  lemma EnqueueKeepsInserters(s: State, r: nat)
    requires Ok(s) && Enabled(s, Enqueue(r))
    ensures InsertersOk(Apply(s, Enqueue(r)))
  {
    EnqueueKeepsJobs(s, r);
    var s' := Apply(s, Enqueue(r));
    forall id, p | id in s'.inserted && p in s'.requests ensures s'.requests[p].readAt != s'.inserted[id].at {
      EnqueueKeepsReads(s, r, p);
    }
    forall id | id in s'.inserted ensures InserterOk(s', id, s'.inserted[id]) {
      if id in s.inserted { assert InserterOk(s, id, s.inserted[id]) && s.inserted[id].request != r; }
    }
  }

  lemma EnqueueKeepsRequest(s: State, r: nat, p: nat)
    requires Ok(s) && Enabled(s, Enqueue(r)) && p in s.requests
    ensures var s' := Apply(s, Enqueue(r)); RequestOk(s', s'.requests[p])
  {
    EnqueueKeepsJobs(s, r);
    assert RequestOk(s, s.requests[p]) && RequestOk(s, s.requests[r]);
  }

  lemma EnqueueKeeps(s: State, r: nat)
    requires Ok(s) && Enabled(s, Enqueue(r))
    ensures Ok(Apply(s, Enqueue(r)))
  {
    EnqueueKeepsJobs(s, r);
    EnqueueKeepsInserters(s, r);
    var s' := Apply(s, Enqueue(r));
    forall p | p in s'.requests ensures RequestOk(s', s'.requests[p]) {
      EnqueueKeepsRequest(s, r, p);
    }
  }

  lemma {:induction false} Reachable(steps: seq<Step>)
    ensures Exec(steps).Some? ==> Ok(Exec(steps).value)
  {
    if steps != [] && Exec(steps).Some? {
      var before, last := steps[..|steps| - 1], steps[|steps| - 1];
      Reachable(before);
      match last
      case Check(r, userId) => CheckKeeps(Exec(before).value, r, userId);
      case Enqueue(r) => EnqueueKeeps(Exec(before).value, r);
    }
  }

  /** Job `k` is the only one with its id. */
  predicate OnlyJob(jobs: seq<Job>, id: string, k: nat) {
    k < |jobs| && forall j :: 0 <= j < |jobs| ==> (jobs[j].id == id <==> j == k)
  }

  /**
   * Main result: in every interleaving, once a request has been answered its user has exactly one welcome job; the
   * request that inserted it says so; and a request reports `created: false` exactly when it read after the insertion.
   */
  lemma OneWelcomeJob(steps: seq<Step>, r: nat) returns (k: nat, inserter: nat, at: nat)
    requires Exec(steps).Some? && r in Exec(steps).value.requests && Exec(steps).value.requests[r].Answered?
    ensures var s := Exec(steps).value;
      var q := s.requests[r];
      && OnlyJob(s.jobs, "welcome-" + q.userId, k) && s.jobs[k].userId == q.userId
      && inserter in s.requests
      && s.requests[inserter] == Answered(q.userId, true, s.requests[inserter].readAt, at)
      && at <= q.doneAt
      && (!q.created <==> at < q.readAt)
  {
    Reachable(steps);
    var s := Exec(steps).value;
    var q := s.requests[r];
    var id := WelcomeJobId(q.userId);
    assert RequestOk(s, q);
    inserter, at := s.inserted[id].request, s.inserted[id].at;
    assert RequestOk(s, s.requests[inserter]);
    WelcomeJobIdsDiffer(q.userId, s.requests[inserter].userId);
    k :| 0 <= k < |s.jobs| && s.jobs[k].id == id;
    WelcomeJobIdsDiffer(q.userId, s.jobs[k].userId);
  }

  /** Two answered requests were under way at the same time. */
  predicate Overlap(a: Request, b: Request)
    requires a.Answered? && b.Answered?
  {
    a.readAt < b.doneAt && b.readAt < a.doneAt
  }

  /** Two requests for one user can both report `created: true` only if they overlapped. */
  lemma CreatedTwiceOverlaps(steps: seq<Step>, a: nat, b: nat)
    requires Exec(steps).Some?
    requires var s := Exec(steps).value;
      && a in s.requests && s.requests[a].Answered? && s.requests[a].created
      && b in s.requests && s.requests[b].Answered? && s.requests[b].created
      && s.requests[a].userId == s.requests[b].userId
    ensures Overlap(Exec(steps).value.requests[a], Exec(steps).value.requests[b])
  {
    Reachable(steps);
    var s := Exec(steps).value;
    assert RequestOk(s, s.requests[a]) && RequestOk(s, s.requests[b]);
  }

  /** When no two requests for the user overlapped, exactly one of them reports `created: true`. */
  lemma ExactlyOneCreated(steps: seq<Step>, userId: string) returns (first: nat)
    requires Exec(steps).Some?
    requires var s := Exec(steps).value;
      && (exists r :: r in s.requests && s.requests[r].Answered? && s.requests[r].userId == userId)
      && forall a, b :: a in s.requests && b in s.requests && a != b
                        && s.requests[a].Answered? && s.requests[b].Answered?
                        && s.requests[a].userId == userId && s.requests[b].userId == userId
           ==> !Overlap(s.requests[a], s.requests[b])
    ensures var s := Exec(steps).value;
      forall r :: r in s.requests && s.requests[r].Answered? && s.requests[r].userId == userId ==>
        (s.requests[r].created <==> r == first)
    ensures first in Exec(steps).value.requests && Exec(steps).value.requests[first].Answered?
    ensures Exec(steps).value.requests[first].userId == userId
  {
    var s := Exec(steps).value;
    var some :| some in s.requests && s.requests[some].Answered? && s.requests[some].userId == userId;
    var k, inserter, at := OneWelcomeJob(steps, some);
    first := inserter;
    forall r | r in s.requests && s.requests[r].Answered? && s.requests[r].userId == userId
      ensures s.requests[r].created <==> r == first
    {
      if s.requests[r].created { CreatedTwiceOverlaps(steps, r, first); }
    }
  }

  lemma ExecSnoc(steps: seq<Step>, step: Step)
    requires Exec(steps).Some? && Enabled(Exec(steps).value, step)
    ensures Exec(steps + [step]) == Some(Apply(Exec(steps).value, step))
  {
    assert (steps + [step])[..|steps|] == steps;
  }

  /** The flag is not exact under overlap: two requests both report `created: true` for the one job there is. */
  lemma BothReportCreated(userId: string) returns (steps: seq<Step>)
    ensures Exec(steps).Some?
    ensures var s := Exec(steps).value;
      && |s.jobs| == 1 && s.requests.Keys == {0, 1}
      && s.requests[0].Answered? && s.requests[1].Answered? && s.requests[0].created && s.requests[1].created
      && s.requests[0].userId == userId && s.requests[1].userId == userId
  {
    steps := [];
    ExecSnoc(steps, Check(0, userId));
    steps := steps + [Check(0, userId)];
    ExecSnoc(steps, Check(1, userId));
    steps := steps + [Check(1, userId)];
    var s := Exec(steps).value;
    assert s.requests == map[0 := Checked(userId, false, 0), 1 := Checked(userId, false, 1)] && s.jobs == [];
    ExecSnoc(steps, Enqueue(0));
    steps := steps + [Enqueue(0)];
    s := Exec(steps).value;
    assert s.jobs == [Job(WelcomeJobId(userId), userId)] && s.jobs[0].id == WelcomeJobId(userId);
    ExecSnoc(steps, Enqueue(1));
    steps := steps + [Enqueue(1)];
  }
}
