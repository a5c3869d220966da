/** Reading a flow back as a tree, and when the browser stops polling it. */
module FlowTrees {
  import opened Prelude
  import opened FlowEngine
  import opened FlowRuns
  import opened Fulfillment

  /** A node as the queue library returns it; a job without children has no child list at all. */
  datatype JobNode =
    | Leaf(id: nat, name: string, queueName: string)
    | Parent(id: nat, name: string, queueName: string, children: seq<JobNode>)

  datatype FlowTreeNode = FlowTreeNode(
    id: nat, name: string, queue: string, status: string, children: seq<FlowTreeNode>)

  function ChildrenOf(node: JobNode): (cs: seq<JobNode>)
    ensures forall k :: 0 <= k < |cs| ==> cs[k] < node
  {
    if node.Parent? then node.children else []
  }

  /** `read` is what each state query returned; the queries of one projection happen at different times. */
  function ProjectNode(node: JobNode, read: nat -> string): FlowTreeNode
    decreases node, 1
  {
    FlowTreeNode(node.id, node.name, node.queueName, read(node.id),
                 if node.Parent? then ProjectAll(node.children, read) else [])
  }

  function ProjectAll(nodes: seq<JobNode>, read: nat -> string): (r: seq<FlowTreeNode>)
    ensures |r| == |nodes| && forall k :: 0 <= k < |nodes| ==> r[k] == ProjectNode(nodes[k], read)
    decreases nodes, 0
  {
    if nodes == [] then [] else [ProjectNode(nodes[0], read)] + ProjectAll(nodes[1..], read)
  }

  const TERMINAL_STATES := {"completed", "failed"}

  predicate IsTreeFinal(node: FlowTreeNode)
    decreases node
  {
    node.status in TERMINAL_STATES && forall k :: 0 <= k < |node.children| ==> IsTreeFinal(node.children[k])
  }

  const FLOW_TREE_POLL_INTERVAL_MS: nat := 1000

  /** `None` means polling stops. */
  function RefetchInterval(tree: Option<FlowTreeNode>): Option<nat> {
    if tree.None? || !IsTreeFinal(tree.value) then Some(FLOW_TREE_POLL_INTERVAL_MS) else None
  }

  /** The projection has the node's own fields, the status that was read, and its children in order. */
  predicate Mirrors(node: JobNode, tree: FlowTreeNode, read: nat -> string)
    decreases node
  {
    && tree.id == node.id && tree.name == node.name && tree.queue == node.queueName && tree.status == read(node.id)
    && |tree.children| == |ChildrenOf(node)|
    && forall k :: 0 <= k < |ChildrenOf(node)| ==> Mirrors(ChildrenOf(node)[k], tree.children[k], read)
  }

  /** The projection is the one tree that mirrors the node. */
  lemma {:induction false} ProjectionMirrors(node: JobNode, tree: FlowTreeNode, read: nat -> string)
    ensures tree == ProjectNode(node, read) <==> Mirrors(node, tree, read)
    decreases node
  {
    var cs := ChildrenOf(node);
    var p := ProjectNode(node, read);
    if |tree.children| == |cs| {
      forall k | 0 <= k < |cs|
        ensures tree.children[k] == p.children[k] <==> Mirrors(cs[k], tree.children[k], read)
      {
        ProjectionMirrors(cs[k], tree.children[k], read);
      }
      if Mirrors(node, tree, read) { assert tree.children == p.children; }
    }
  }

  /** The node with this id is in the tree. */
  ghost predicate Holds(node: JobNode, id: nat)
    decreases node
  {
    node.id == id || exists k :: 0 <= k < |ChildrenOf(node)| && Holds(ChildrenOf(node)[k], id)
  }

  /** The finality check looks at every node of the tree. */
  lemma {:induction false} FinalMeansEveryNode(node: JobNode, read: nat -> string)
    ensures IsTreeFinal(ProjectNode(node, read)) <==> forall id: nat :: Holds(node, id) ==> read(id) in TERMINAL_STATES
    decreases node
  {
    var cs := ChildrenOf(node);
    var p := ProjectNode(node, read);
    forall k | 0 <= k < |cs|
      ensures IsTreeFinal(p.children[k]) <==> forall id: nat :: Holds(cs[k], id) ==> read(id) in TERMINAL_STATES
    {
      FinalMeansEveryNode(cs[k], read);
    }
    assert Holds(node, node.id);
    if forall id: nat :: Holds(node, id) ==> read(id) in TERMINAL_STATES {
      forall k | 0 <= k < |cs| ensures IsTreeFinal(p.children[k]) {
        assert forall id: nat :: Holds(cs[k], id) ==> Holds(node, id);
      }
    }
  }

  // ---- The tree of a running flow ----

  function StateText(status: Status): string {
    match status
    case WaitingChildren => "waiting-children"
    case Waiting(made) => if made == 0 then "waiting" else "delayed"
    case Active(_) => "active"
    case Completed => "completed"
    case Failed => "failed"
  }

  lemma TerminalText(status: Status)
    ensures StateText(status) in TERMINAL_STATES <==> status.Final()
  {
    assert "waiting-children"[0] == 'w' && "waiting"[0] == 'w' && "delayed"[0] == 'd' && "active"[0] == 'a';
    assert "completed"[0] == 'c' && "failed"[0] == 'f';
  }

  /** The library's tree of a flow launched at node `base`: ids in the order the nodes were created. */
  function TreeOf(job: FlowJob, base: nat): JobNode
    decreases job, 1
  {
    if job.children == [] then Leaf(base, job.name, job.queueName)
    else Parent(base, job.name, job.queueName, TreesOf(job.children, base + 1, base))
  }

  function TreesOf(jobs: seq<FlowJob>, base: nat, parent: int): (ts: seq<JobNode>)
    ensures |ts| == |jobs|
    decreases jobs, 0
  {
    if jobs == [] then []
    else [TreeOf(jobs[0], base)] + TreesOf(jobs[1..], base + |Flatten(jobs[0], base, parent)|, parent)
  }

  ghost predicate SomeHolds(ts: seq<JobNode>, id: nat) {
    exists k :: 0 <= k < |ts| && Holds(ts[k], id)
  }

  lemma SomeHoldsCons(t: JobNode, ts: seq<JobNode>, id: nat)
    ensures SomeHolds([t] + ts, id) <==> Holds(t, id) || SomeHolds(ts, id)
  {
    var all := [t] + ts;
    if Holds(t, id) { assert Holds(all[0], id); }
    if SomeHolds(ts, id) {
      var k :| 0 <= k < |ts| && Holds(ts[k], id);
      assert Holds(all[k + 1], id);
    }
  }

  lemma {:induction false} TreeHolds(job: FlowJob, base: nat, parent: int, id: nat)
    ensures Holds(TreeOf(job, base), id) <==> base <= id < base + |Flatten(job, base, parent)|
    decreases job, 1
  {
    var ts := TreesOf(job.children, base + 1, base);
    TreesHold(job.children, base + 1, base, id);
    assert ChildrenOf(TreeOf(job, base)) == ts;
    assert Holds(TreeOf(job, base), id) <==> base == id || SomeHolds(ts, id);
  }

  lemma {:induction false} TreesHold(jobs: seq<FlowJob>, base: nat, parent: int, id: nat)
    ensures SomeHolds(TreesOf(jobs, base, parent), id) <==> base <= id < base + |FlattenAll(jobs, base, parent)|
    decreases jobs, 0
  {
    if jobs != [] {
      var n := |Flatten(jobs[0], base, parent)|;
      TreeHolds(jobs[0], base, parent, id);
      TreesHold(jobs[1..], base + n, parent, id);
      SomeHoldsCons(TreeOf(jobs[0], base), TreesOf(jobs[1..], base + n, parent), id);
    }
  }

  /** What a query for node `id` returns after the first `time(id)` steps of a run. */
  ghost function ReadAt(steps: seq<Step>, time: nat -> nat, id: nat): string {
    if time(id) > |steps| then ""
    else
      match Exec(INIT, steps[..time(id)])
      case None => ""
      case Some(s) => if id < |s.status| then StateText(s.status[id]) else ""
  }

  lemma ReadFinalStaysFinal(steps: seq<Step>, time: nat -> nat, id: nat)
    requires Exec(INIT, steps).Some? && ReadAt(steps, time, id) in TERMINAL_STATES
    ensures var s := Exec(INIT, steps).value;
      id < |s.status| && s.status[id].Final() && ReadAt(steps, time, id) == StateText(s.status[id])
  {
    var t := time(id);
    assert "" !in TERMINAL_STATES;
    assert steps[..t] + steps[t..] == steps;
    ExecSplit(INIT, steps[..t], steps[t..]);
    var mid := Exec(INIT, steps[..t]).value;
    TerminalText(mid.status[id]);
    FinishedStays(mid, steps[t..]);
  }

  /** Every state query of a projection was answered at some point of the run. */
  ghost predicate ReadsRun(steps: seq<Step>, time: nat -> nat, read: nat -> string) {
    forall id: nat :: read(id) == ReadAt(steps, time, id)
  }

  lemma FinalTreeReads(job: FlowJob, base: nat, read: nat -> string, id: nat)
    requires IsTreeFinal(ProjectNode(TreeOf(job, base), read)) && base <= id < base + |Flatten(job, base, -1)|
    ensures read(id) in TERMINAL_STATES
  {
    FinalMeansEveryNode(TreeOf(job, base), read);
    TreeHolds(job, base, -1, id);
  }

  /**
   * Main result: the projection queries nodes one after another while the flow is running, so it may show a state that
   * never existed. Still, when it makes polling stop, each node `id` of the flow has finished, redelivery or not, and
   * the tree that stays on display shows the state it is in.
   */
  lemma {:induction false} PollingStopsSoundly(steps: seq<Step>, s: State, time: nat -> nat, job: FlowJob, base: nat,
                                               read: nat -> string, id: nat)
    requires Exec(INIT, steps) == Some(s) && ReadsRun(steps, time, read)
    requires RefetchInterval(Some(ProjectNode(TreeOf(job, base), read))).None?
    requires base <= id < base + |Flatten(job, base, -1)|
    ensures id < |s.status| && s.status[id].Final() && read(id) == StateText(s.status[id])
  {
    FinalTreeReads(job, base, read, id);
    ReadFinalStaysFinal(steps, time, id);
  }

  /** A flow whose failed payment holds the root is polled for ever, at every point of every run. */
  lemma {:induction false} StuckFlowIsPolled(steps: seq<Step>, ls: seq<Launch>, f: nat, time: nat -> nat,
                                             read: nat -> string)
    requires Exec(INIT, steps).Some? && Launches(steps, ls) && f < |ls| && HoldsRoot(ls[f])
    requires ReadsRun(steps, time, read)
    ensures RefetchInterval(Some(ProjectNode(TreeOf(ls[f].Flow(), 6 * f), read))) == Some(FLOW_TREE_POLL_INTERVAL_MS)
  {
    var root := 6 * f;
    RootStaysStuck(steps, ls, f);
    if read(root) in TERMINAL_STATES {
      ReadFinalStaysFinal(steps, time, root);
    }
  }

  lemma FlowTreeHolds(ls: seq<Launch>, f: nat, id: nat)
    requires f < |ls|
    ensures Holds(TreeOf(ls[f].Flow(), 6 * f), id) <==> 6 * f <= id < 6 * f + 6
  {
    FlowNodes(ls[f], seq(6 * f, _ => Node("", false, 1, Block, true, -1)));
    TreeHolds(ls[f].Flow(), 6 * f, -1, id);
  }

  lemma FinishedAtRest(s: State, f: nat, l: Launch, id: nat)
    requires |s.status| >= 6 * f + 6 && AtRest(s, f, l) && 6 * f <= id < 6 * f + 6
    ensures StateText(s.status[id]) in TERMINAL_STATES <==> id != 6 * f || !HoldsRoot(l)
  {
    TerminalText(s.status[id]);
  }

  /** At rest, polling stops for every flow except those. */
  lemma {:induction false} PollingAtRest(steps: seq<Step>, ls: seq<Launch>, f: nat, read: nat -> string)
    requires Exec(INIT, steps).Some? && Launches(steps, ls) && f < |ls| && Quiescent(Exec(INIT, steps).value)
    requires var s := Exec(INIT, steps).value;
      forall id: nat :: id < |s.status| ==> read(id) == StateText(s.status[id])
    ensures RefetchInterval(Some(ProjectNode(TreeOf(ls[f].Flow(), 6 * f), read))).None? <==> !HoldsRoot(ls[f])
  {
    var s := Exec(INIT, steps).value;
    var node := TreeOf(ls[f].Flow(), 6 * f);
    VariantOutcome(steps, ls, f);
    FinalMeansEveryNode(node, read);
    forall id: nat
      ensures Holds(node, id) ==> (read(id) in TERMINAL_STATES <==> id != 6 * f || !HoldsRoot(ls[f]))
    {
      FlowTreeHolds(ls, f, id);
      if Holds(node, id) { FinishedAtRest(s, f, ls[f], id); }
    }
    FlowTreeHolds(ls, f, 6 * f);
  }

  /** Polling goes on, every second, while no tree has been read yet, and stops only for one that is final. */
  lemma PollingGoesOn(tree: Option<FlowTreeNode>)
    ensures RefetchInterval(tree) == Some(1000) <==> tree.Some? ==> !IsTreeFinal(tree.value)
    ensures RefetchInterval(tree) == None <==> tree.Some? && IsTreeFinal(tree.value)
  {
  }

  // ---- What the tree of a fulfillment flow shows ----

  lemma {:induction false} TreesOfThree(a: FlowJob, b: FlowJob, c: FlowJob, base: nat, parent: int)
    requires a.children == b.children == []
    ensures TreesOf([a, b, c], base, parent) == [TreeOf(a, base), TreeOf(b, base + 1), TreeOf(c, base + 2)]
  {
    FlattenLeaf(a, base, parent);
    FlattenLeaf(b, base + 1, parent);
    assert [a, b, c][1..] == [b, c] && [b, c][1..] == [c] && [c][1..] == [];
    assert TreesOf([c], base + 2, parent) == [TreeOf(c, base + 2)] + [];
    assert TreesOf([b, c], base + 1, parent) == [TreeOf(b, base + 1)] + TreesOf([c], base + 2, parent);
  }

  lemma {:induction false} TreesOfTwo(a: FlowJob, b: FlowJob, base: nat, parent: int)
    requires a.children == []
    ensures TreesOf([a, b], base, parent) == [TreeOf(a, base), TreeOf(b, base + 1)]
  {
    FlattenLeaf(a, base, parent);
    assert [a, b][1..] == [b] && [b][1..] == [];
    assert TreesOf([b], base + 1, parent) == [TreeOf(b, base + 1)] + [];
  }

  /** The library's tree of a flow launched at `base`. */
  lemma FulfillmentTree(l: Launch, base: nat)
    ensures TreeOf(l.Flow(), base) == Parent(base, "ship-order", "fulfillment", [
      Leaf(base + 1, "reserve-stock", "stock"),
      Leaf(base + 2, "charge-payment", "payments"),
      Parent(base + 3, "render-invoice", "fulfillment", [
        Leaf(base + 4, "fetch-lines", "invoices-data"),
        Leaf(base + 5, "fetch-customer", "invoices-data")])])
  {
    var flow := l.Flow();
    var invoice := flow.children[2];
    TreesOfThree(flow.children[0], flow.children[1], invoice, base + 1, base);
    TreesOfTwo(invoice.children[0], invoice.children[1], base + 4, base + 3);
    assert flow.children == [flow.children[0], flow.children[1], invoice];
    assert invoice.children == [invoice.children[0], invoice.children[1]];
  }

  /** The tree endpoint's answer for such a flow: six jobs, each with its name, its queue, and the state read for it. */
  lemma FulfillmentProjection(l: Launch, base: nat, read: nat -> string)
    ensures ProjectNode(TreeOf(l.Flow(), base), read)
         == FlowTreeNode(base, "ship-order", "fulfillment", read(base), [
      FlowTreeNode(base + 1, "reserve-stock", "stock", read(base + 1), []),
      FlowTreeNode(base + 2, "charge-payment", "payments", read(base + 2), []),
      FlowTreeNode(base + 3, "render-invoice", "fulfillment", read(base + 3), [
        FlowTreeNode(base + 4, "fetch-lines", "invoices-data", read(base + 4), []),
        FlowTreeNode(base + 5, "fetch-customer", "invoices-data", read(base + 5), [])])])
  {
    FulfillmentTree(l, base);
    var node := TreeOf(l.Flow(), base);
    var invoice := node.children[2];
    var shown := ProjectNode(invoice, read);
    assert shown.children == [ProjectNode(invoice.children[0], read), ProjectNode(invoice.children[1], read)];
    assert ProjectNode(node, read).children
        == [ProjectNode(node.children[0], read), ProjectNode(node.children[1], read), shown];
  }

  /** The states shown for the six nodes of a flow at rest. */
  function ShownState(l: Launch, k: nat): string {
    if !l.PaymentFails() || (k != 0 && k != 2) then "completed"
    else if k == 2 then "failed"
    else match l.variant
      case Default => "waiting-children"
      case Stuck => "waiting-children"
      case FailsParent => "failed"
      case IgnoresDependency => "completed"
  }

  lemma AtRestShows(s: State, f: nat, l: Launch, k: nat)
    requires |s.status| >= 6 * f + 6 && AtRest(s, f, l) && k < 6
    ensures StateText(s.status[6 * f + k]) == ShownState(l, k)
  {
    assert k in {0, 1, 2, 3, 4, 5};
  }

  lemma ShownAtRest(steps: seq<Step>, ls: seq<Launch>, f: nat, k: nat)
    requires Exec(INIT, steps).Some? && Launches(steps, ls) && f < |ls| && Quiescent(Exec(INIT, steps).value) && k < 6
    ensures 6 * f + k < |Exec(INIT, steps).value.status|
    ensures StateText(Exec(INIT, steps).value.status[6 * f + k]) == ShownState(ls[f], k)
  {
    VariantOutcome(steps, ls, f);
    AtRestShows(Exec(INIT, steps).value, f, ls[f], k);
  }

  /** While a job is on its way: queued, running, and waiting for its next attempt after a failed one. */
  lemma ShownOnTheWay(s: State, i: nat)
    requires TableOk(s) && AllFit(s.nodes, s.status) && i < |s.nodes|
    ensures Enabled(s, Start(i)) ==>
      && StateText(s.status[i]) in {"waiting", "delayed"}
      && StateText(Apply(s, Start(i)).status[i]) == "active"
    ensures Enabled(s, Finish(i)) && s.nodes[i].throws && s.status[i].made + 1 < s.nodes[i].attempts ==>
      StateText(Apply(s, Finish(i)).status[i]) == "delayed"
    ensures s.status[i] == InitialStatus(s.nodes[i]) ==>
      StateText(s.status[i]) == if s.nodes[i].leaf then "waiting" else "waiting-children"
  {
  }
}
