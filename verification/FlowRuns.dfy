/** Results over whole runs of any number of interleaved flows. */
module FlowRuns {
  import opened Prelude
  import opened FlowEngine

  // ---- Where a run ends ----

  /** The status of a node once its flow has nothing left to do, computed from the tree alone. */
  ghost function FinalOf(nodes: seq<Node>, i: nat): Status
    requires i < |nodes| && Segment(nodes, 0, -1)
    decreases |nodes| - i
  {
    if exists c: nat :: i < c < |nodes| && Child(nodes, i, c)
                     && FinalOf(nodes, c).Failed? && nodes[c].posture.FailParent?
    then Failed
    else if exists c: nat :: i < c < |nodes| && Child(nodes, i, c)
                          && !FinalOf(nodes, c).Completed? && !(FinalOf(nodes, c).Failed? && nodes[c].posture.Ignore?)
    then WaitingChildren
    else if nodes[i].throws then Failed
    else Completed
  }

  /** No job is queued or running. */
  predicate Quiescent(s: State) {
    forall i: nat :: i < |s.status| ==> !s.status[i].Waiting? && !s.status[i].Active?
  }

  lemma {:induction false} QuiescentIsFinal(s: State, i: nat)
    requires TableOk(s) && AllFit(s.nodes, s.status) && Quiescent(s) && i < |s.nodes|
    ensures s.status[i] == FinalOf(s.nodes, i)
    decreases |s.nodes| - i
  {
    forall c: nat | c < |s.nodes| && Child(s.nodes, i, c)
      ensures i < c && s.status[c] == FinalOf(s.nodes, c)
    {
      assert NodeOk(s.nodes, 0, -1, c);
      QuiescentIsFinal(s, c);
    }
    assert Fits(s.nodes, s.status, i);
    assert !s.status[i].Waiting? && !s.status[i].Active?;
    FinalMatches(s, i);
  }

  lemma FinalMatches(s: State, i: nat)
    requires TableOk(s) && i < |s.nodes| && Fits(s.nodes, s.status, i)
    requires !s.status[i].Waiting? && !s.status[i].Active?
    requires forall c: nat :: c < |s.nodes| && Child(s.nodes, i, c) ==> i < c && s.status[c] == FinalOf(s.nodes, c)
    ensures s.status[i] == FinalOf(s.nodes, i)
  {
    var broken := Broken(s.nodes, s.status, i);
    var ready := AllResolved(s.nodes, s.status, i);
    if broken {
      var c: nat :| c < |s.nodes| && Child(s.nodes, i, c) && Breaks(s.nodes, s.status, c);
      assert !Resolved(s.nodes, s.status, c);
      assert FinalOf(s.nodes, i) == Failed;
    } else if !ready {
      var c: nat :| c < |s.nodes| && Child(s.nodes, i, c) && !Resolved(s.nodes, s.status, c);
      forall d: nat | i < d < |s.nodes| && Child(s.nodes, i, d)
        ensures !(FinalOf(s.nodes, d).Failed? && s.nodes[d].posture.FailParent?)
      {
        assert !Breaks(s.nodes, s.status, d);
      }
      assert FinalOf(s.nodes, i) == WaitingChildren;
    } else {
      forall d: nat | i < d < |s.nodes| && Child(s.nodes, i, d)
        ensures FinalOf(s.nodes, d).Completed? || (FinalOf(s.nodes, d).Failed? && s.nodes[d].posture.Ignore?)
      {
        assert Resolved(s.nodes, s.status, d);
      }
    }
  }

  /** Main result: whatever the interleaving, a run that comes to rest rests in the state its trees determine. */
  lemma RestIsDetermined(steps: seq<Step>)
    requires Exec(INIT, steps).Some? && Quiescent(Exec(INIT, steps).value)
    ensures var s := Exec(INIT, steps).value;
      forall i: nat :: i < |s.nodes| ==> s.status[i] == FinalOf(s.nodes, i)
  {
    ReachableFits(steps);
    var s := Exec(INIT, steps).value;
    forall i: nat | i < |s.nodes| ensures s.status[i] == FinalOf(s.nodes, i) {
      QuiescentIsFinal(s, i);
    }
  }

  // ---- Runs end ----

  function Weight(n: Node, st: Status): int {
    match st
    case WaitingChildren => 2 * n.attempts + 1
    case Waiting(made) => 2 * (n.attempts - made)
    case Active(made) => 2 * (n.attempts - made) - 1
    case Completed => 0
    case Failed => 0
  }

  /** Steps the jobs can still take. */
  function Measure(nodes: seq<Node>, status: seq<Status>): int
    requires |nodes| == |status|
  {
    if nodes == [] then 0
    else Weight(nodes[0], status[0]) + Measure(nodes[1..], status[1..])
  }

  lemma {:induction false} MeasureOfChange(nodes: seq<Node>, status: seq<Status>, i: nat, st: Status)
    requires |nodes| == |status| && i < |nodes|
    ensures Measure(nodes, status[i := st])
         == Measure(nodes, status) - Weight(nodes[i], status[i]) + Weight(nodes[i], st)
  {
    if i > 0 {
      assert status[i := st][1..] == status[1..][i - 1 := st];
      MeasureOfChange(nodes[1..], status[1..], i - 1, st);
    }
  }

  lemma {:induction false} MeasureIsNatural(nodes: seq<Node>, status: seq<Status>)
    requires |nodes| == |status|
    requires forall i: nat :: i < |nodes| ==> Weight(nodes[i], status[i]) >= 0
    ensures Measure(nodes, status) >= 0
  {
    if nodes != [] {
      assert forall i: nat :: i < |nodes[1..]| ==> nodes[1..][i] == nodes[i + 1] && status[1..][i] == status[i + 1];
      MeasureIsNatural(nodes[1..], status[1..]);
    }
  }

  lemma {:induction false} NotifyCosts(nodes: seq<Node>, status: seq<Status>, i: nat)
    requires |nodes| == |status| && i < |nodes| && Segment(nodes, 0, -1)
    ensures Measure(nodes, Notify(nodes, status, i)) <= Measure(nodes, status)
    decreases i
  {
    assert NodeOk(nodes, 0, -1, i);
    var p := nodes[i].parent;
    if p >= 0 && status[p].WaitingChildren? {
      MeasureOfChange(nodes, status, p, Failed);
      MeasureOfChange(nodes, status, p, Waiting(0));
      if Breaks(nodes, status, i) { NotifyCosts(nodes, status[p := Failed], p); }
    }
  }

  /** A job starts or its handler's outcome is taken; no flow is added and nothing is delivered twice. */
  predicate Works(step: Step) { step.Start? || step.Finish? }

  lemma WorkCosts(s: State, step: Step)
    requires TableOk(s) && AllFit(s.nodes, s.status) && Enabled(s, step) && Works(step)
    ensures Apply(s, step).nodes == s.nodes
    ensures Measure(s.nodes, Apply(s, step).status) < Measure(s.nodes, s.status)
  {
    var i := step.node;
    assert Fits(s.nodes, s.status, i);
    assert NodeOk(s.nodes, 0, -1, i);
    match step
    case Start(_) => MeasureOfChange(s.nodes, s.status, i, Active(s.status[i].made));
    case Finish(_) =>
      var outcome := OutcomeOf(s.nodes[i], s.status[i].made);
      MeasureOfChange(s.nodes, s.status, i, outcome);
      NotifyCosts(s.nodes, s.status[i := outcome], i);
  }

  lemma {:induction false} ExecSplit(s: State, a: seq<Step>, b: seq<Step>)
    requires TableOk(s)
    ensures Exec(s, a + b) == if Exec(s, a).Some? then Exec(Exec(s, a).value, b) else None
    decreases |b|
  {
    if b == [] {
      assert a + b == a;
    } else {
      InitOfAppend(a, b);
      ExecSplit(s, a, b[..|b| - 1]);
    }
  }

  /** Main result: without redelivery every run from a reachable state is at most as long as the measure, so it ends. */
  lemma {:induction false} WorkEnds(s: State, steps: seq<Step>)
    requires TableOk(s) && AllFit(s.nodes, s.status) && Exec(s, steps).Some?
    requires forall step :: step in steps ==> Works(step)
    ensures var s' := Exec(s, steps).value;
      && s'.nodes == s.nodes && AllFit(s'.nodes, s'.status)
      && |steps| + Measure(s.nodes, s'.status) <= Measure(s.nodes, s.status)
      && Measure(s.nodes, s'.status) >= 0
    decreases |steps|
  {
    if steps == [] {
      forall i: nat | i < |s.nodes| ensures Weight(s.nodes[i], s.status[i]) >= 0 {
        assert Fits(s.nodes, s.status, i) && NodeOk(s.nodes, 0, -1, i);
      }
      MeasureIsNatural(s.nodes, s.status);
    } else {
      var before, last := steps[..|steps| - 1], steps[|steps| - 1];
      WorkEnds(s, before);
      var mid := Exec(s, before).value;
      WorkCosts(mid, last);
      StepFits(mid, last);
      WorkEnds(Exec(s, steps).value, []);
    }
  }

  /** A state that is not at rest has work to do. */
  lemma RestOrWork(s: State)
    requires TableOk(s)
    ensures Quiescent(s) <==> !exists step: Step :: Works(step) && Enabled(s, step)
  {
    if !Quiescent(s) {
      var i: nat :| i < |s.status| && (s.status[i].Waiting? || s.status[i].Active?);
      var step := if s.status[i].Waiting? then Start(i) else Finish(i);
      assert Works(step) && Enabled(s, step);
    }
  }

  /** So from every reachable state the work at hand leads to rest. */
  lemma {:induction false} RestIsReached(s: State) returns (steps: seq<Step>)
    requires TableOk(s) && AllFit(s.nodes, s.status)
    ensures Exec(s, steps).Some? && Quiescent(Exec(s, steps).value)
    ensures forall step :: step in steps ==> Works(step)
    decreases Measure(s.nodes, s.status)
  {
    steps := [];
    if !Quiescent(s) {
      RestOrWork(s);
      var step: Step :| Works(step) && Enabled(s, step);
      var next := Apply(s, step);
      WorkEnds(s, []);
      WorkCosts(s, step);
      StepKeepsTable(s, step);
      StepFits(s, step);
      var rest := RestIsReached(next);
      assert [step][..0] == [] && Exec(s, []) == Some(s);
      ExecSplit(s, [step], rest);
      steps := [step] + rest;
    }
  }

  // ---- Finished is finished ----

  lemma {:induction false} NotifyKeepsOthers(nodes: seq<Node>, status: seq<Status>, i: nat)
    requires |nodes| == |status| && i < |nodes| && Segment(nodes, 0, -1)
    ensures var r := Notify(nodes, status, i);
      forall j: nat :: j < |nodes| ==>
        r[j] == status[j] || (status[j].WaitingChildren? && (r[j] == Failed || r[j] == Waiting(0)))
    decreases i
  {
    assert NodeOk(nodes, 0, -1, i);
    var p := nodes[i].parent;
    if p >= 0 && status[p].WaitingChildren? && Breaks(nodes, status, i) {
      NotifyKeepsOthers(nodes, status[p := Failed], p);
    }
  }

  /** Nodes never move, and a finished job keeps its status, redelivery or not. */
  lemma {:induction false} FinishedStays(s: State, steps: seq<Step>)
    requires TableOk(s) && Exec(s, steps).Some?
    ensures var s' := Exec(s, steps).value;
      && s.nodes <= s'.nodes && s.trace <= s'.trace
      && forall i: nat :: i < |s.nodes| && s.status[i].Final() ==> s'.status[i] == s.status[i]
    decreases |steps|
  {
    if steps != [] {
      var before, last := steps[..|steps| - 1], steps[|steps| - 1];
      FinishedStays(s, before);
      var mid := Exec(s, before).value;
      if last.Finish? {
        var i := last.node;
        var outcome := OutcomeOf(mid.nodes[i], mid.status[i].made);
        NotifyKeepsOthers(mid.nodes, mid.status[i := outcome], i);
      }
    }
  }
}
