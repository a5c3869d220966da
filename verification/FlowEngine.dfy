/**
 * Flow runs. A flow is a tree of jobs; the queue engine is modelled only by the transitions the application relies on
 * (apps/api/src/flows/fulfillment.types.ts, fulfillment.processor.ts): a job runs once all its children are resolved,
 * a job whose attempts are spent fails, and a failed child blocks its parent, fails it, or is ignored.
 */
module FlowEngine {
  import opened Prelude

  datatype JobOpts = JobOpts(attempts: nat, failParentOnFailure: bool, ignoreDependencyOnFailure: bool)

  datatype FlowJob = FlowJob(
    name: string, queueName: string, orderId: string, opts: Option<JobOpts>, children: seq<FlowJob>)

  const CHARGE_PAYMENT_JOB := "charge-payment"
  const ORDER_FAILURE_PREFIX := "fail-"
  const DEFAULT_JOB_ATTEMPTS: nat := 4

  /** The only handler that throws is the payment charge, and only for orders with the failure prefix. */
  predicate Throws(name: string, orderId: string) {
    name == CHARGE_PAYMENT_JOB && StartsWith(orderId, ORDER_FAILURE_PREFIX)
  }

  // ---- Trees as tables of nodes, parents first ----

  /** What a job's terminal failure does to its parent. */
  datatype Posture = Block | FailParent | Ignore

  datatype Node = Node(name: string, throws: bool, attempts: nat, posture: Posture, leaf: bool, parent: int)

  function PostureOf(opts: Option<JobOpts>): Posture {
    match opts
    case None => Block
    case Some(o) => if o.failParentOnFailure then FailParent else if o.ignoreDependencyOnFailure then Ignore else Block
  }

  /** The engine makes at least one attempt; without options the module default applies. */
  function AttemptsOf(opts: Option<JobOpts>): (n: nat)
    ensures n >= 1 && (opts.None? ==> n == 4)
    ensures opts.Some? && opts.value.attempts >= 1 ==> n == opts.value.attempts
  {
    match opts
    case None => DEFAULT_JOB_ATTEMPTS
    case Some(o) => if o.attempts == 0 then 1 else o.attempts
  }

  function NodeOf(job: FlowJob, parent: int): Node {
    Node(job.name, Throws(job.name, job.orderId), AttemptsOf(job.opts), PostureOf(job.opts), job.children == [], parent)
  }

  /** The nodes of a tree in preorder, numbered from `base`. */
  function Flatten(job: FlowJob, base: nat, parent: int): (ns: seq<Node>)
    ensures |ns| > 0 && ns[0] == NodeOf(job, parent)
    decreases job, 1
  {
    [NodeOf(job, parent)] + FlattenAll(job.children, base + 1, base)
  }

  function FlattenAll(jobs: seq<FlowJob>, base: nat, parent: int): (ns: seq<Node>)
    ensures jobs == [] <==> ns == []
    ensures jobs != [] ==> ns[0] == NodeOf(jobs[0], parent)
    decreases jobs, 0
  {
    if jobs == [] then []
    else
      var first := Flatten(jobs[0], base, parent);
      first + FlattenAll(jobs[1..], base + |first|, parent)
  }

  predicate Child(nodes: seq<Node>, i: nat, c: nat) {
    c < |nodes| && nodes[c].parent == i
  }

  /** Node `k` of a table numbered from `base`: its parent is above the table or an earlier inner node. */
  predicate NodeOk(ns: seq<Node>, base: nat, top: int, k: nat)
    requires k < |ns|
  {
    && ns[k].attempts >= 1
    && (ns[k].parent == top || (base <= ns[k].parent < base + k && !ns[ns[k].parent - base].leaf))
    && (!ns[k].leaf ==> k + 1 < |ns| && ns[k + 1].parent == base + k)
  }

  ghost predicate Segment(ns: seq<Node>, base: nat, top: int) {
    forall k: nat :: k < |ns| ==> NodeOk(ns, base, top, k)
  }

  lemma SegmentAppend(a: seq<Node>, b: seq<Node>, base: nat, top: int)
    requires Segment(a, base, top) && Segment(b, base + |a|, top)
    ensures Segment(a + b, base, top)
  {
    var s := a + b;
    forall k: nat | k < |s| ensures NodeOk(s, base, top, k) {
      if k < |a| {
        assert NodeOk(a, base, top, k);
      } else {
        assert NodeOk(b, base + |a|, top, k - |a|);
        assert s[k] == b[k - |a|];
        if s[k].parent != top { assert s[s[k].parent - base] == b[s[k].parent - base - |a|]; }
      }
    }
  }

  lemma SegmentCons(n: Node, ns: seq<Node>, base: nat)
    requires n.attempts >= 1 && (n.leaf <==> ns == []) && Segment(ns, base + 1, base)
    requires ns != [] ==> ns[0].parent == base
    ensures Segment([n] + ns, base, n.parent)
  {
    var s := [n] + ns;
    forall k: nat | k < |s| ensures NodeOk(s, base, n.parent, k) {
      if k > 0 {
        assert NodeOk(ns, base + 1, base, k - 1);
        assert s[k] == ns[k - 1];
        if s[k].parent != base { assert s[s[k].parent - base] == ns[s[k].parent - base - 1]; }
      }
    }
  }

  lemma {:induction false} FlattenIsSegment(job: FlowJob, base: nat, parent: int)
    ensures Segment(Flatten(job, base, parent), base, parent)
    decreases job, 1
  {
    FlattenAllIsSegment(job.children, base + 1, base);
    SegmentCons(NodeOf(job, parent), FlattenAll(job.children, base + 1, base), base);
  }

  lemma {:induction false} FlattenAllIsSegment(jobs: seq<FlowJob>, base: nat, parent: int)
    ensures Segment(FlattenAll(jobs, base, parent), base, parent)
    decreases jobs, 0
  {
    if jobs != [] {
      var first := Flatten(jobs[0], base, parent);
      FlattenIsSegment(jobs[0], base, parent);
      FlattenAllIsSegment(jobs[1..], base + |first|, parent);
      SegmentAppend(first, FlattenAll(jobs[1..], base + |first|, parent), base, parent);
    }
  }

  // ---- States and steps ----

  datatype Status = WaitingChildren | Waiting(made: nat) | Active(made: nat) | Completed | Failed {
    predicate Final() { Completed? || Failed? }
  }

  /** `trace` lists the node of every handler call, oldest first. */
  datatype State = State(nodes: seq<Node>, status: seq<Status>, trace: seq<nat>)

  datatype Step =
    | AddFlow(flow: FlowJob)
    | Start(node: nat)
    | Finish(node: nat)
    | Redeliver(node: nat)

  const INIT := State([], [], [])

  /** A finished child no longer holds its parent back. */
  predicate Resolved(nodes: seq<Node>, status: seq<Status>, c: nat)
    requires |nodes| == |status| && c < |nodes|
  {
    status[c].Completed? || (status[c].Failed? && nodes[c].posture.Ignore?)
  }

  predicate AllResolved(nodes: seq<Node>, status: seq<Status>, i: nat)
    requires |nodes| == |status|
  {
    forall c: nat :: c < |nodes| && Child(nodes, i, c) ==> Resolved(nodes, status, c)
  }

  /** A failed child that fails its parent. */
  predicate Breaks(nodes: seq<Node>, status: seq<Status>, c: nat)
    requires |nodes| == |status| && c < |nodes|
  {
    status[c].Failed? && nodes[c].posture.FailParent?
  }

  function InitialStatus(n: Node): Status {
    if n.leaf then Waiting(0) else WaitingChildren
  }

  /** The handler of an active job has returned or thrown. */
  function OutcomeOf(n: Node, made: nat): Status {
    if !n.throws then Completed
    else if made + 1 < n.attempts then Waiting(made + 1)
    else Failed
  }

  /** Tell the parent of a finished job. */
  function Notify(nodes: seq<Node>, status: seq<Status>, i: nat): (r: seq<Status>)
    requires |nodes| == |status| && i < |nodes| && Segment(nodes, 0, -1)
    ensures |r| == |status|
    decreases i
  {
    assert NodeOk(nodes, 0, -1, i);
    var p := nodes[i].parent;
    if p < 0 || !status[p].WaitingChildren? then status
    else if Breaks(nodes, status, i) then Notify(nodes, status[p := Failed], p)
    else if AllResolved(nodes, status, p) then status[p := Waiting(0)]
    else status
  }

  ghost predicate TableOk(s: State) {
    |s.status| == |s.nodes| && Segment(s.nodes, 0, -1)
  }

  predicate Enabled(s: State, step: Step) {
    match step
    case AddFlow(_) => true
    case Start(i) => i < |s.status| && s.status[i].Waiting?
    case Finish(i) => i < |s.status| && s.status[i].Active?
    case Redeliver(i) => i < |s.status| && s.status[i].Active?
  }

  function Apply(s: State, step: Step): State
    requires TableOk(s) && Enabled(s, step)
  {
    match step
    case AddFlow(flow) =>
      var added := Flatten(flow, |s.nodes|, -1);
      State(s.nodes + added, s.status + Map(InitialStatus, added), s.trace)
    case Start(i) => s.(status := s.status[i := Active(s.status[i].made)], trace := s.trace + [i])
    case Finish(i) =>
      var outcome := OutcomeOf(s.nodes[i], s.status[i].made);
      var status := s.status[i := outcome];
      s.(status := if outcome.Final() then Notify(s.nodes, status, i) else status)
    case Redeliver(i) => s.(status := s.status[i := Waiting(s.status[i].made)])
  }

  lemma AddKeepsTable(nodes: seq<Node>, flow: FlowJob)
    requires Segment(nodes, 0, -1)
    ensures Segment(nodes + Flatten(flow, |nodes|, -1), 0, -1)
  {
    FlattenIsSegment(flow, |nodes|, -1);
    SegmentAppend(nodes, Flatten(flow, |nodes|, -1), 0, -1);
  }

  lemma StepKeepsTable(s: State, step: Step)
    requires TableOk(s) && Enabled(s, step)
    ensures TableOk(Apply(s, step))
  {
    if step.AddFlow? { AddKeepsTable(s.nodes, step.flow); }
  }

  /** The state after a list of steps taken from `s`; `None` when some step was not possible. */
  ghost function Exec(s: State, steps: seq<Step>): (r: Option<State>)
    requires TableOk(s)
    ensures r.Some? ==> TableOk(r.value)
  {
    if steps == [] then Some(s)
    else
      var before := Exec(s, steps[..|steps| - 1]);
      var last := steps[|steps| - 1];
      if before.Some? && Enabled(before.value, last) then
        StepKeepsTable(before.value, last);
        Some(Apply(before.value, last))
      else None
  }

  // ---- What holds in every reachable state ----

  /** The status of node `i` fits those of its children. */
  ghost predicate Fits(nodes: seq<Node>, status: seq<Status>, i: nat)
    requires |nodes| == |status| && i < |nodes|
  {
    match status[i]
    case WaitingChildren => !nodes[i].leaf && !AllResolved(nodes, status, i) && !Broken(nodes, status, i)
    case Waiting(made) => made < nodes[i].attempts && AllResolved(nodes, status, i)
    case Active(made) => made < nodes[i].attempts && AllResolved(nodes, status, i)
    case Completed => !nodes[i].throws && AllResolved(nodes, status, i)
    case Failed => Broken(nodes, status, i) || (nodes[i].throws && AllResolved(nodes, status, i))
  }

  /** Some failed child fails this node. */
  ghost predicate Broken(nodes: seq<Node>, status: seq<Status>, i: nat)
    requires |nodes| == |status|
  {
    exists c: nat :: c < |nodes| && Child(nodes, i, c) && Breaks(nodes, status, c)
  }

  ghost predicate AllFit(nodes: seq<Node>, status: seq<Status>)
    requires |nodes| == |status|
  {
    forall i: nat :: i < |nodes| ==> Fits(nodes, status, i)
  }

  /** Between a job's end and its parent being told, only the parent may be out of date, and only while it waits. */
  ghost predicate AllFitBut(nodes: seq<Node>, status: seq<Status>, i: nat)
    requires |nodes| == |status| && i < |nodes|
  {
    && status[i].Final()
    && (forall j: nat :: j < |nodes| && j != nodes[i].parent ==> Fits(nodes, status, j))
    && var p := nodes[i].parent;
      0 <= p < |nodes| ==>
        if status[p].WaitingChildren? then
          && !nodes[p].leaf
          && (forall c: nat :: c < |nodes| && Child(nodes, p, c) && c != i ==> !Breaks(nodes, status, c))
        else Fits(nodes, status, p)
  }

  /** Changing one node's status only matters to the node itself and to its parent. */
  lemma FitsIsLocal(nodes: seq<Node>, before: seq<Status>, after: seq<Status>, changed: nat, j: nat)
    requires |nodes| == |before| == |after| && changed < |nodes| && j < |nodes|
    requires after == before[changed := after[changed]]
    requires j != changed && nodes[changed].parent != j
    ensures Fits(nodes, before, j) <==> Fits(nodes, after, j)
  {
    assert forall c: nat :: c < |nodes| && Child(nodes, j, c) ==> before[c] == after[c];
    assert AllResolved(nodes, before, j) <==> AllResolved(nodes, after, j);
    assert Broken(nodes, before, j) <==> Broken(nodes, after, j);
  }

  /** A node whose child was unresolved and unbroken until now is waiting for it, or already failed by another child. */
  lemma ParentOfChanged(nodes: seq<Node>, before: seq<Status>, after: seq<Status>, c: nat, p: nat)
    requires |nodes| == |before| == |after| && c < |nodes| && p < |nodes| && Child(nodes, p, c)
    requires after == before[c := after[c]] && c != p
    requires !before[c].Final() && Fits(nodes, before, p)
    ensures !after[p].WaitingChildren? ==> Fits(nodes, after, p)
    ensures after[p].WaitingChildren? ==>
      !nodes[p].leaf && forall d: nat :: d < |nodes| && Child(nodes, p, d) && d != c ==> !Breaks(nodes, after, d)
  {
    assert !Resolved(nodes, before, c);
    assert !AllResolved(nodes, before, p);
    if Broken(nodes, before, p) {
      var d: nat :| d < |nodes| && Child(nodes, p, d) && Breaks(nodes, before, d);
      assert Breaks(nodes, after, d);
    }
  }

  /** Moving a child between unfinished states is invisible to its parent. */
  lemma UnfinishedChild(nodes: seq<Node>, before: seq<Status>, after: seq<Status>, c: nat, p: nat)
    requires |nodes| == |before| == |after| && c < |nodes| && p < |nodes| && c != p
    requires after == before[c := after[c]] && !before[c].Final() && !after[c].Final()
    ensures Fits(nodes, before, p) <==> Fits(nodes, after, p)
  {
    assert AllResolved(nodes, before, p) <==> AllResolved(nodes, after, p) by {
      assert forall d: nat :: d < |nodes| ==> (Resolved(nodes, before, d) <==> Resolved(nodes, after, d));
    }
    assert Broken(nodes, before, p) <==> Broken(nodes, after, p) by {
      assert forall d: nat :: d < |nodes| ==> (Breaks(nodes, before, d) <==> Breaks(nodes, after, d));
    }
  }

  lemma UnfinishedChange(nodes: seq<Node>, before: seq<Status>, after: seq<Status>, i: nat)
    requires |nodes| == |before| == |after| && i < |nodes| && Segment(nodes, 0, -1)
    requires after == before[i := after[i]] && !before[i].Final() && !after[i].Final()
    requires AllFit(nodes, before) && Fits(nodes, after, i)
    ensures AllFit(nodes, after)
  {
    forall j: nat | j < |nodes| ensures Fits(nodes, after, j) {
      if j != i { UnfinishedChild(nodes, before, after, i, j); }
    }
  }

  lemma FinishLeavesParent(nodes: seq<Node>, before: seq<Status>, after: seq<Status>, i: nat)
    requires |nodes| == |before| == |after| && i < |nodes| && Segment(nodes, 0, -1)
    requires after == before[i := after[i]] && !before[i].Final() && after[i].Final()
    requires Fits(nodes, after, i)
    requires forall j: nat :: j < |nodes| && j != i ==> Fits(nodes, before, j)
    ensures AllFitBut(nodes, after, i)
  {
    assert NodeOk(nodes, 0, -1, i);
    forall j: nat | j < |nodes| && j != nodes[i].parent ensures Fits(nodes, after, j) {
      if j != i { FitsIsLocal(nodes, before, after, i, j); }
    }
    var p := nodes[i].parent;
    if p >= 0 { ParentOfChanged(nodes, before, after, i, p); }
  }

  lemma {:induction false} NotifyFits(nodes: seq<Node>, status: seq<Status>, i: nat)
    requires |nodes| == |status| && i < |nodes| && Segment(nodes, 0, -1)
    requires AllFitBut(nodes, status, i)
    ensures AllFit(nodes, Notify(nodes, status, i))
    decreases i
  {
    assert NodeOk(nodes, 0, -1, i);
    var p := nodes[i].parent;
    if p >= 0 && status[p].WaitingChildren? {
      if Breaks(nodes, status, i) {
        var after := status[p := Failed];
        assert Breaks(nodes, after, i);
        FinishLeavesParent(nodes, status, after, p);
        NotifyFits(nodes, after, p);
      } else if AllResolved(nodes, status, p) {
        var after := status[p := Waiting(0)];
        assert NodeOk(nodes, 0, -1, p);
        assert AllResolved(nodes, after, p) by {
          assert forall c: nat :: c < |nodes| && Child(nodes, p, c) ==> Resolved(nodes, status, c);
          assert forall c: nat :: c < |nodes| && Resolved(nodes, status, c) ==> after[c] == status[c];
        }
        forall j: nat | j < |nodes| ensures Fits(nodes, after, j) {
          if j != p { UnfinishedChild(nodes, status, after, p, j); }
        }
      }
    }
  }

  lemma AddFits(s: State, flow: FlowJob)
    requires TableOk(s) && AllFit(s.nodes, s.status)
    ensures var s' := Apply(s, AddFlow(flow)); AllFit(s'.nodes, s'.status)
  {
    var s' := Apply(s, AddFlow(flow));
    StepKeepsTable(s, AddFlow(flow));
    forall i: nat | i < |s'.nodes| ensures Fits(s'.nodes, s'.status, i) {
      if i < |s.nodes| {
        assert Fits(s.nodes, s.status, i);
        OldNodeFits(s, flow, i);
      } else {
        NewNodeFits(s, flow, i);
      }
    }
  }

  lemma NewNodeFits(s: State, flow: FlowJob, i: nat)
    requires TableOk(s) && |s.nodes| <= i < |Apply(s, AddFlow(flow)).nodes|
    ensures var s' := Apply(s, AddFlow(flow)); |s'.status| == |s'.nodes| && Fits(s'.nodes, s'.status, i)
  {
    var s' := Apply(s, AddFlow(flow));
    StepKeepsTable(s, AddFlow(flow));
    AddedNodesStayApart(s, flow, i);
    AddedNode(s, flow, i);
    assert NodeOk(s'.nodes, 0, -1, i);
    if !s'.nodes[i].leaf {
      AddedNode(s, flow, i + 1);
      assert Child(s'.nodes, i, i + 1) && !Resolved(s'.nodes, s'.status, i + 1);
    }
  }

  /** Added nodes are children of added nodes only, leaves have none, and nothing added has finished. */
  lemma AddedNodesStayApart(s: State, flow: FlowJob, i: nat)
    requires TableOk(s)
    ensures var s' := Apply(s, AddFlow(flow));
      forall c: nat :: c < |s'.nodes| && Child(s'.nodes, i, c) ==>
        i < c && (i < |s.nodes| <==> c < |s.nodes|) && !s'.nodes[i].leaf
        && (c >= |s.nodes| ==> !s'.status[c].Final())
  {
    var s' := Apply(s, AddFlow(flow));
    StepKeepsTable(s, AddFlow(flow));
    forall c: nat | c < |s'.nodes| && Child(s'.nodes, i, c)
      ensures i < c && (i < |s.nodes| <==> c < |s.nodes|) && !s'.nodes[i].leaf
      ensures c >= |s.nodes| ==> !s'.status[c].Final()
    {
      assert NodeOk(s'.nodes, 0, -1, c);
      if c >= |s.nodes| { AddedNode(s, flow, c); }
    }
  }

  lemma AddedNode(s: State, flow: FlowJob, c: nat)
    requires TableOk(s) && |s.nodes| <= c < |Apply(s, AddFlow(flow)).nodes|
    ensures var s' := Apply(s, AddFlow(flow));
      && (s'.nodes[c].parent == -1 || |s.nodes| <= s'.nodes[c].parent)
      && |s'.status| == |s'.nodes| && s'.status[c] == InitialStatus(s'.nodes[c])
  {
    var n := |s.nodes|;
    var added := Flatten(flow, n, -1);
    FlattenIsSegment(flow, n, -1);
    assert NodeOk(added, n, -1, c - n);
  }

  lemma OldNodeFits(s: State, flow: FlowJob, i: nat)
    requires TableOk(s) && i < |s.nodes| && Fits(s.nodes, s.status, i)
    ensures var s' := Apply(s, AddFlow(flow)); Fits(s'.nodes, s'.status, i)
  {
    var s' := Apply(s, AddFlow(flow));
    AddedNodesStayApart(s, flow, i);
    assert forall c: nat :: c < |s.nodes| ==> s'.nodes[c] == s.nodes[c] && s'.status[c] == s.status[c];
    assert forall c: nat :: c < |s.nodes| ==> (Child(s'.nodes, i, c) <==> Child(s.nodes, i, c));
    assert AllResolved(s.nodes, s.status, i) <==> AllResolved(s'.nodes, s'.status, i) by {
      assert forall c: nat :: c < |s.nodes| ==> (Resolved(s'.nodes, s'.status, c) <==> Resolved(s.nodes, s.status, c));
    }
    assert Broken(s.nodes, s.status, i) <==> Broken(s'.nodes, s'.status, i) by {
      assert forall c: nat :: c < |s.nodes| ==> (Breaks(s'.nodes, s'.status, c) <==> Breaks(s.nodes, s.status, c));
    }
  }

  lemma StepFits(s: State, step: Step)
    requires TableOk(s) && Enabled(s, step) && AllFit(s.nodes, s.status)
    ensures var s' := Apply(s, step); AllFit(s'.nodes, s'.status)
  {
    if step.AddFlow? {
      AddFits(s, step.flow);
    } else {
      var i := step.node;
      assert Fits(s.nodes, s.status, i);
      if step.Finish? {
        var after := s.status[i := OutcomeOf(s.nodes[i], s.status[i].made)];
        OwnChildrenUnmoved(s.nodes, s.status, after, i);
        if after[i].Final() {
          FinishLeavesParent(s.nodes, s.status, after, i);
          NotifyFits(s.nodes, after, i);
        } else {
          UnfinishedChange(s.nodes, s.status, after, i);
        }
      } else {
        OwnChildrenUnmoved(s.nodes, s.status, Apply(s, step).status, i);
        UnfinishedChange(s.nodes, s.status, Apply(s, step).status, i);
      }
    }
  }

  /** A node is not its own child. */
  lemma OwnChildrenUnmoved(nodes: seq<Node>, before: seq<Status>, after: seq<Status>, i: nat)
    requires |nodes| == |before| == |after| && i < |nodes| && Segment(nodes, 0, -1)
    requires after == before[i := after[i]]
    ensures AllResolved(nodes, after, i) <==> AllResolved(nodes, before, i)
    ensures Broken(nodes, after, i) <==> Broken(nodes, before, i)
  {
    forall c: nat | c < |nodes| && Child(nodes, i, c) ensures c != i {
      assert NodeOk(nodes, 0, -1, c);
    }
    assert forall c: nat :: c < |nodes| && c != i ==>
      && (Resolved(nodes, after, c) <==> Resolved(nodes, before, c))
      && (Breaks(nodes, after, c) <==> Breaks(nodes, before, c));
  }

  lemma {:induction false} ReachableFits(steps: seq<Step>)
    ensures Exec(INIT, steps).Some? ==> AllFit(Exec(INIT, steps).value.nodes, Exec(INIT, steps).value.status)
  {
    if steps != [] && Exec(INIT, steps).Some? {
      var before := steps[..|steps| - 1];
      ReachableFits(before);
      StepFits(Exec(INIT, before).value, steps[|steps| - 1]);
    }
  }
}
