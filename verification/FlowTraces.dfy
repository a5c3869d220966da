/** What the execution trace shows: children before parents, over every run. */
module FlowTraces {
  import opened Prelude
  import opened FlowEngine
  import opened FlowRuns

  /** A flow may ignore failures of leaf jobs only, as the fulfillment flow does. */
  predicate FlagsOnLeaves(job: FlowJob)
    decreases job
  {
    && (PostureOf(job.opts).Ignore? ==> job.children == [])
    && forall k :: 0 <= k < |job.children| ==> FlagsOnLeaves(job.children[k])
  }

  predicate LeafFlags(nodes: seq<Node>) {
    forall i: nat :: i < |nodes| && nodes[i].posture.Ignore? ==> nodes[i].leaf
  }

  lemma {:induction false} FlattenLeafFlags(job: FlowJob, base: nat, parent: int)
    requires FlagsOnLeaves(job)
    ensures LeafFlags(Flatten(job, base, parent))
    decreases job, 1
  {
    FlattenAllLeafFlags(job.children, base + 1, base);
  }

  lemma {:induction false} FlattenAllLeafFlags(jobs: seq<FlowJob>, base: nat, parent: int)
    requires forall k :: 0 <= k < |jobs| ==> FlagsOnLeaves(jobs[k])
    ensures LeafFlags(FlattenAll(jobs, base, parent))
    decreases jobs, 0
  {
    if jobs != [] {
      FlattenLeafFlags(jobs[0], base, parent);
      FlattenAllLeafFlags(jobs[1..], base + |Flatten(jobs[0], base, parent)|, parent);
    }
  }

  predicate AddsFlagsOnLeaves(steps: seq<Step>) {
    forall step :: step in steps && step.AddFlow? ==> FlagsOnLeaves(step.flow)
  }

  // ---- The trace against the statuses ----

  /** Jobs that ran are in the trace, and whatever is in the trace had all its children resolved. */
  ghost predicate TraceFits(s: State)
    requires |s.nodes| == |s.status|
  {
    && (forall p: nat :: p < |s.trace| ==> s.trace[p] < |s.nodes|)
    && (forall i: nat :: i < |s.nodes| && (s.status[i].Completed? || s.status[i].Active?) ==> i in s.trace)
    && (forall i: nat :: i < |s.nodes| && s.status[i].Failed? && s.nodes[i].leaf ==> i in s.trace)
    && (forall i: nat :: i < |s.nodes| && i in s.trace ==> AllResolved(s.nodes, s.status, i))
  }

  lemma ResolvedStays(s: State, step: Step, i: nat)
    requires TableOk(s) && Enabled(s, step) && i < |s.nodes| && AllResolved(s.nodes, s.status, i)
    ensures var s' := Apply(s, step); AllResolved(s'.nodes, s'.status, i)
  {
    var s' := Apply(s, step);
    StepKeepsTable(s, step);
    assert Exec(s, [step][..0]) == Some(s);
    assert [step] == [step][..0] + [step];
    FinishedStays(s, [step]);
    forall c: nat | c < |s'.nodes| && Child(s'.nodes, i, c) ensures Resolved(s'.nodes, s'.status, c) {
      if step.AddFlow? { AddedNodesStayApart(s, step.flow, i); }
      assert s'.nodes[c] == s.nodes[c] && Resolved(s.nodes, s.status, c);
    }
  }

  lemma StepTraceFits(s: State, step: Step)
    requires TableOk(s) && AllFit(s.nodes, s.status) && TraceFits(s) && Enabled(s, step)
    ensures TraceFits(Apply(s, step))
  {
    var s' := Apply(s, step);
    StepKeepsTable(s, step);
    StatusesMove(s, step);
    forall i: nat | i < |s'.nodes| && i in s'.trace ensures AllResolved(s'.nodes, s'.status, i) {
      if i !in s.trace { assert Fits(s.nodes, s.status, i); }
      ResolvedStays(s, step, i);
    }
  }

  /** How a step may move the status of a node that existed before, and the status of a node it adds. */
  lemma StatusesMove(s: State, step: Step)
    requires TableOk(s) && AllFit(s.nodes, s.status) && Enabled(s, step)
    ensures var s' := Apply(s, step);
      forall i: nat :: i < |s'.nodes| ==>
        if i < |s.nodes| then
          || s'.status[i] == s.status[i]
          || (s.status[i].WaitingChildren? && !s.nodes[i].leaf && !s'.status[i].Completed? && !s'.status[i].Active?)
          || (step == Start(i) && s.status[i].Waiting? && s'.status[i].Active?)
          || ((step == Finish(i) || step == Redeliver(i)) && s.status[i].Active?)
        else !s'.status[i].Final() && !s'.status[i].Active?
  {
    var s' := Apply(s, step);
    if step.AddFlow? {
      var added := Flatten(step.flow, |s.nodes|, -1);
      assert forall i: nat :: |s.nodes| <= i < |s'.nodes| ==> s'.status[i] == InitialStatus(added[i - |s.nodes|]);
    } else if step.Finish? {
      var i := step.node;
      var outcome := OutcomeOf(s.nodes[i], s.status[i].made);
      NotifyKeepsOthers(s.nodes, s.status[i := outcome], i);
      forall j: nat | j < |s.nodes| && s.status[j].WaitingChildren? ensures !s.nodes[j].leaf {
        assert Fits(s.nodes, s.status, j);
      }
    }
  }

  // ---- Order ----

  /** Every entry of the trace comes after an entry of each child of its node. */
  ghost predicate ChildrenFirst(nodes: seq<Node>, trace: seq<nat>) {
    forall p: nat, c: nat :: p < |trace| && Child(nodes, trace[p], c) ==> c in trace[..p]
  }

  lemma StepChildrenFirst(s: State, step: Step)
    requires TableOk(s) && AllFit(s.nodes, s.status) && TraceFits(s) && Enabled(s, step)
    requires LeafFlags(s.nodes) && ChildrenFirst(s.nodes, s.trace)
    ensures var s' := Apply(s, step); ChildrenFirst(s'.nodes, s'.trace)
  {
    var s' := Apply(s, step);
    forall p: nat, c: nat | p < |s'.trace| && Child(s'.nodes, s'.trace[p], c)
      ensures c in s'.trace[..p]
    {
      if p < |s.trace| {
        assert s'.trace[..p] == s.trace[..p];
        if step.AddFlow? { AddedNodesStayApart(s, step.flow, s.trace[p]); }
        assert Child(s.nodes, s.trace[p], c);
      } else {
        assert Fits(s.nodes, s.status, step.node);
        assert Resolved(s.nodes, s.status, c);
        assert s'.trace[..p] == s.trace;
      }
    }
  }

  lemma {:induction false} ReachableTrace(steps: seq<Step>)
    requires Exec(INIT, steps).Some?
    ensures var s := Exec(INIT, steps).value;
      && AllFit(s.nodes, s.status) && TraceFits(s)
      && (AddsFlagsOnLeaves(steps) ==> LeafFlags(s.nodes) && ChildrenFirst(s.nodes, s.trace))
  {
    ReachableFits(steps);
    if steps != [] {
      var before, last := steps[..|steps| - 1], steps[|steps| - 1];
      ReachableTrace(before);
      var s := Exec(INIT, before).value;
      StepTraceFits(s, last);
      if AddsFlagsOnLeaves(steps) {
        assert last in steps && forall step :: step in before ==> step in steps;
        StepChildrenFirst(s, last);
        if last.AddFlow? { FlattenLeafFlags(last.flow, |s.nodes|, -1); }
      }
    }
  }

  predicate Descendant(nodes: seq<Node>, i: nat, j: nat)
    requires Segment(nodes, 0, -1) && j < |nodes|
    decreases j
  {
    assert NodeOk(nodes, 0, -1, j);
    var p := nodes[j].parent;
    p >= 0 && (p == i || Descendant(nodes, i, p))
  }

  lemma {:induction false} DescendantsFirst(nodes: seq<Node>, trace: seq<nat>, p: nat, j: nat)
    requires Segment(nodes, 0, -1) && ChildrenFirst(nodes, trace)
    requires p < |trace| && j < |nodes| && Descendant(nodes, trace[p], j)
    ensures j in trace[..p]
    decreases j
  {
    assert NodeOk(nodes, 0, -1, j);
    var m := nodes[j].parent;
    if m == trace[p] {
      assert Child(nodes, trace[p], j);
    } else {
      DescendantsFirst(nodes, trace, p, m);
      var q: nat :| q < p && trace[q] == m;
      assert Child(nodes, trace[q], j);
      assert trace[..q] <= trace[..p];
    }
  }

  /**
   * Main result: over every run, with any number of flows interleaved and jobs delivered more than once, each trace
   * entry of a node is preceded by an entry of every descendant in its flow, failed ones included.
   */
  lemma TraceShowsDescendantsFirst(steps: seq<Step>, p: nat, j: nat)
    requires Exec(INIT, steps).Some? && AddsFlagsOnLeaves(steps)
    requires var s := Exec(INIT, steps).value;
      p < |s.trace| && j < |s.nodes| && Descendant(s.nodes, s.trace[p], j)
    ensures j in Exec(INIT, steps).value.trace[..p]
  {
    ReachableTrace(steps);
    var s := Exec(INIT, steps).value;
    DescendantsFirst(s.nodes, s.trace, p, j);
  }

  /** A root over an inner job whose failure is ignored, over a payment that fails that inner job. */
  function IgnoredInner(): FlowJob {
    var payment := FlowJob(CHARGE_PAYMENT_JOB, "", ORDER_FAILURE_PREFIX, Some(JobOpts(1, true, false)), []);
    FlowJob("root", "", "", None, [FlowJob("inner", "", "", Some(JobOpts(1, false, true)), [payment])])
  }

  lemma ExecSnoc(s: State, steps: seq<Step>, step: Step)
    requires TableOk(s) && Exec(s, steps).Some? && Enabled(Exec(s, steps).value, step)
    ensures Exec(s, steps + [step]) == Some(Apply(Exec(s, steps).value, step))
  {
    assert (steps + [step])[..|steps|] == steps;
  }

  /** The nodes of that flow: root, inner, payment. */
  predicate IgnoredInnerTable(nodes: seq<Node>) {
    && |nodes| == 3
    && nodes[0] == Node("root", false, 4, Block, false, -1)
    && nodes[1] == Node("inner", false, 1, Ignore, false, 0)
    && nodes[2] == Node(CHARGE_PAYMENT_JOB, true, 1, FailParent, true, 1)
  }

  lemma IgnoredInnerNodes()
    ensures IgnoredInnerTable(Flatten(IgnoredInner(), 0, -1))
  {
    var root := IgnoredInner();
    var inner := root.children[0];
    assert FlattenAll(inner.children, 2, 1) == [NodeOf(inner.children[0], 1)];
    assert FlattenAll(root.children, 1, 0) == [NodeOf(inner, 0), NodeOf(inner.children[0], 1)];
  }

  /** The payment's failure fails the inner job, and that failure, being ignored, releases the root. */
  lemma PaymentFailureReachesRoot(nodes: seq<Node>, status: seq<Status>)
    requires Segment(nodes, 0, -1) && IgnoredInnerTable(nodes) && status == [WaitingChildren, WaitingChildren, Failed]
    ensures Notify(nodes, status, 2) == [Waiting(0), Failed, Failed]
  {
    var after := status[1 := Failed];
    assert after == [WaitingChildren, Failed, Failed];
    assert Notify(nodes, status, 2) == Notify(nodes, after, 1);
    assert AllResolved(nodes, after, 0);
    assert Notify(nodes, after, 1) == after[0 := Waiting(0)];
  }

  lemma InnerLaunched(nodes: seq<Node>)
    requires nodes == Flatten(IgnoredInner(), 0, -1)
    ensures IgnoredInnerTable(nodes) && Segment(nodes, 0, -1)
    ensures Apply(INIT, AddFlow(IgnoredInner())) == State(nodes, [WaitingChildren, WaitingChildren, Waiting(0)], [])
  {
    FlattenIsSegment(IgnoredInner(), 0, -1);
    IgnoredInnerNodes();
    ConcatEmpty(nodes);
    ConcatEmpty(Map(InitialStatus, nodes));
    assert Map(InitialStatus, nodes) == [WaitingChildren, WaitingChildren, Waiting(0)];
  }

  lemma InnerPaymentFails(nodes: seq<Node>)
    requires IgnoredInnerTable(nodes) && Segment(nodes, 0, -1)
    ensures Apply(State(nodes, [WaitingChildren, WaitingChildren, Waiting(0)], []), Start(2))
         == State(nodes, [WaitingChildren, WaitingChildren, Active(0)], [2])
    ensures Apply(State(nodes, [WaitingChildren, WaitingChildren, Active(0)], [2]), Finish(2))
         == State(nodes, [Waiting(0), Failed, Failed], [2])
    ensures Apply(State(nodes, [Waiting(0), Failed, Failed], [2]), Start(0))
         == State(nodes, [Active(0), Failed, Failed], [2, 0])
  {
    var failed := [WaitingChildren, WaitingChildren, Active(0)][2 := Failed];
    assert failed == [WaitingChildren, WaitingChildren, Failed];
    PaymentFailureReachesRoot(nodes, failed);
  }

  /** Why the flags must sit on leaves: here the root runs although its inner child never does. */
  lemma InnerFlagBreaksOrder() returns (steps: seq<Step>)
    ensures Exec(INIT, steps).Some? && !AddsFlagsOnLeaves(steps)
    ensures var s := Exec(INIT, steps).value;
      s.trace == [2, 0] && |s.nodes| == 3 && Descendant(s.nodes, 0, 1) && 1 !in s.trace[..1]
  {
    var flow := IgnoredInner();
    InnerLaunched(Flatten(flow, 0, -1));
    InnerPaymentFails(Flatten(flow, 0, -1));
    var first := [AddFlow(flow)];
    assert [] + first == first;
    ExecSnoc(INIT, [], AddFlow(flow));
    ExecSnoc(INIT, first, Start(2));
    ExecSnoc(INIT, first + [Start(2)], Finish(2));
    ExecSnoc(INIT, first + [Start(2)] + [Finish(2)], Start(0));
    steps := first + [Start(2)] + [Finish(2)] + [Start(0)];
    assert steps[0] == AddFlow(flow);
    IgnoredInnerIsFlagged(steps);
  }

  lemma IgnoredInnerIsFlagged(steps: seq<Step>)
    requires AddFlow(IgnoredInner()) in steps
    ensures !AddsFlagsOnLeaves(steps)
  {
    assert !FlagsOnLeaves(IgnoredInner().children[0]);
  }

  // ---- Without redelivery ----

  /** A job that does not throw is in the trace at most once, and then it is running or done. */
  ghost predicate RunsOnce(s: State)
    requires |s.nodes| == |s.status|
  {
    && (forall p: nat, q: nat :: p < q < |s.trace| && s.trace[p] == s.trace[q] && s.trace[p] < |s.nodes|
          ==> s.nodes[s.trace[p]].throws)
    && (forall i: nat :: i < |s.nodes| && i in s.trace && !s.nodes[i].throws
          ==> s.status[i].Active? || s.status[i].Completed?)
  }

  lemma {:induction false} WithoutRedeliveryOnce(steps: seq<Step>)
    requires Exec(INIT, steps).Some? && forall step :: step in steps ==> !step.Redeliver?
    ensures RunsOnce(Exec(INIT, steps).value)
  {
    if steps != [] {
      var before, last := steps[..|steps| - 1], steps[|steps| - 1];
      assert last in steps && forall step :: step in before ==> step in steps;
      WithoutRedeliveryOnce(before);
      ReachableTrace(before);
      StepRunsOnce(Exec(INIT, before).value, last);
    }
  }

  lemma StepRunsOnce(s: State, step: Step)
    requires TableOk(s) && AllFit(s.nodes, s.status) && TraceFits(s) && RunsOnce(s)
    requires Enabled(s, step) && !step.Redeliver?
    ensures RunsOnce(Apply(s, step))
  {
    var s' := Apply(s, step);
    StepKeepsTable(s, step);
    StatusesMove(s, step);
    forall i: nat | i < |s'.nodes| && i in s'.trace && !s'.nodes[i].throws
      ensures s'.status[i].Active? || s'.status[i].Completed?
    {
      if step == Finish(i) {
        NotifyKeepsOthers(s.nodes, s.status[i := Completed], i);
      }
    }
  }
}
