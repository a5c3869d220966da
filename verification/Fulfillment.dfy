/** The fulfillment flow (apps/api/src/flows/fulfillment.service.ts) run by the engine. */
module Fulfillment {
  import opened Prelude
  import opened FlowEngine
  import opened FlowRuns
  import opened FlowTraces

  const SHIP_ORDER_JOB := "ship-order"
  const RESERVE_STOCK_JOB := "reserve-stock"
  const RENDER_INVOICE_JOB := "render-invoice"
  const FETCH_LINES_JOB := "fetch-lines"
  const FETCH_CUSTOMER_JOB := "fetch-customer"

  const FULFILLMENT_QUEUE := "fulfillment"
  const STOCK_QUEUE := "stock"
  const PAYMENTS_QUEUE := "payments"
  const INVOICES_DATA_QUEUE := "invoices-data"

  const DEMO_FAILURE_ATTEMPTS: nat := 1

  datatype FulfillmentVariant = Default | Stuck | FailsParent | IgnoresDependency

  function PaymentChildOpts(variant: FulfillmentVariant): Option<JobOpts> {
    match variant
    case Default => None
    case Stuck => Some(JobOpts(DEMO_FAILURE_ATTEMPTS, false, false))
    case FailsParent => Some(JobOpts(DEMO_FAILURE_ATTEMPTS, true, false))
    case IgnoresDependency => Some(JobOpts(DEMO_FAILURE_ATTEMPTS, false, true))
  }

  function BuildPaymentChild(orderId: string, variant: FulfillmentVariant): FlowJob {
    FlowJob(CHARGE_PAYMENT_JOB, PAYMENTS_QUEUE, orderId, PaymentChildOpts(variant), [])
  }

  function BuildInvoiceChild(orderId: string): FlowJob {
    FlowJob(RENDER_INVOICE_JOB, FULFILLMENT_QUEUE, orderId, None,
            [FlowJob(FETCH_LINES_JOB, INVOICES_DATA_QUEUE, orderId, None, []),
             FlowJob(FETCH_CUSTOMER_JOB, INVOICES_DATA_QUEUE, orderId, None, [])])
  }

  function BuildFulfillmentFlow(orderId: string, variant: FulfillmentVariant): FlowJob {
    FlowJob(SHIP_ORDER_JOB, FULFILLMENT_QUEUE, orderId, None,
            [FlowJob(RESERVE_STOCK_JOB, STOCK_QUEUE, orderId, None, []),
             BuildPaymentChild(orderId, variant),
             BuildInvoiceChild(orderId)])
  }

  datatype Launch = Launch(orderId: string, variant: FulfillmentVariant) {
    function Flow(): FlowJob { BuildFulfillmentFlow(orderId, variant) }
    predicate PaymentFails() { "fail-" <= orderId }
  }

  // ---- The six nodes of a flow ----

  /** What the payment's failure does to the root, by variant. */
  function PaymentPosture(variant: FulfillmentVariant): Posture {
    match variant
    case Default => Block
    case Stuck => Block
    case FailsParent => FailParent
    case IgnoresDependency => Ignore
  }

  /** The nodes of a fulfillment flow that starts at `base`; all have four attempts but a demo variant's payment. */
  predicate IsBlock(nodes: seq<Node>, base: nat, l: Launch) {
    && base + 6 <= |nodes|
    && nodes[base] == Node("ship-order", false, 4, Block, false, -1)
    && nodes[base + 1] == Node("reserve-stock", false, 4, Block, true, base)
    && nodes[base + 2] == Node("charge-payment", l.PaymentFails(), if l.variant.Default? then 4 else 1,
                               PaymentPosture(l.variant), true, base)
    && nodes[base + 3] == Node("render-invoice", false, 4, Block, false, base)
    && nodes[base + 4] == Node("fetch-lines", false, 4, Block, true, base + 3)
    && nodes[base + 5] == Node("fetch-customer", false, 4, Block, true, base + 3)
  }

  lemma FlattenLeaf(job: FlowJob, base: nat, parent: int)
    requires job.children == []
    ensures Flatten(job, base, parent) == [NodeOf(job, parent)]
  {
  }

  lemma FlattenAllCons(first: FlowJob, rest: seq<FlowJob>, base: nat, parent: int)
    ensures FlattenAll([first] + rest, base, parent)
         == Flatten(first, base, parent) + FlattenAll(rest, base + |Flatten(first, base, parent)|, parent)
  {
    assert ([first] + rest)[1..] == rest;
  }

  lemma TwoLeaves(a: FlowJob, b: FlowJob, base: nat, parent: int)
    requires a.children == b.children == []
    ensures FlattenAll([a, b], base, parent) == [NodeOf(a, parent), NodeOf(b, parent)]
  {
    FlattenAllCons(a, [b], base, parent);
    FlattenAllCons(b, [], base + 1, parent);
    assert [a] + [b] == [a, b] && [b] + [] == [b];
  }

  lemma InvoiceNodes(l: Launch, base: nat, parent: int)
    ensures var invoice := BuildInvoiceChild(l.orderId);
      Flatten(invoice, base, parent)
      == [NodeOf(invoice, parent), NodeOf(invoice.children[0], base), NodeOf(invoice.children[1], base)]
  {
    var invoice := BuildInvoiceChild(l.orderId);
    TwoLeaves(invoice.children[0], invoice.children[1], base + 1, base);
    assert invoice.children == [invoice.children[0], invoice.children[1]];
  }

  lemma ChildNodes(l: Launch, base: nat)
    ensures var flow := l.Flow();
      var invoice := flow.children[2];
      FlattenAll(flow.children, base + 1, base)
      == [NodeOf(flow.children[0], base), NodeOf(flow.children[1], base), NodeOf(invoice, base),
          NodeOf(invoice.children[0], base + 3), NodeOf(invoice.children[1], base + 3)]
  {
    var flow := l.Flow();
    var stock, payment, invoice := flow.children[0], flow.children[1], flow.children[2];
    FlattenAllCons(invoice, [], base + 3, base);
    InvoiceNodes(l, base + 3, base);
    FlattenAllCons(payment, [invoice] + [], base + 2, base);
    FlattenLeaf(payment, base + 2, base);
    FlattenAllCons(stock, [payment] + ([invoice] + []), base + 1, base);
    FlattenLeaf(stock, base + 1, base);
    assert flow.children == [stock] + ([payment] + ([invoice] + []));
  }

  lemma FlowNodes(l: Launch, before: seq<Node>)
    ensures |Flatten(l.Flow(), |before|, -1)| == 6
    ensures IsBlock(before + Flatten(l.Flow(), |before|, -1), |before|, l)
  {
    ChildNodes(l, |before|);
    var ns := Flatten(l.Flow(), |before|, -1);
    assert forall k :: 0 <= k < 6 ==> (before + ns)[|before| + k] == ns[k];
  }

  /** The job and everything below it is about this order. */
  predicate IsAbout(job: FlowJob, orderId: string)
    decreases job
  {
    job.orderId == orderId && forall k :: 0 <= k < |job.children| ==> IsAbout(job.children[k], orderId)
  }

  /** All six jobs of a flow carry its order id, so that the payment that fails is that order's. */
  lemma FlowIsAboutOrder(l: Launch)
    ensures IsAbout(l.Flow(), l.orderId)
  {
    var flow := l.Flow();
    forall k | 0 <= k < |flow.children| ensures IsAbout(flow.children[k], l.orderId) {
      if k == 2 {
        var invoice := flow.children[2];
        assert IsAbout(invoice.children[0], l.orderId) && IsAbout(invoice.children[1], l.orderId);
      }
    }
  }

  // ---- Launching several flows ----

  function RunBulk(orderIds: seq<string>, variant: FulfillmentVariant): seq<Step> {
    Map((id: string) => AddFlow(BuildFulfillmentFlow(id, variant)), orderIds)
  }

  /** One flow per order id from node `base` on, in input order: the root of the `i`-th is `6i` places on. */
  predicate InOrder(nodes: seq<Node>, base: nat, orderIds: seq<string>, variant: FulfillmentVariant) {
    && |nodes| == base + 6 * |orderIds|
    && forall i: nat :: i < |orderIds| ==> IsBlock(nodes, base + 6 * i, Launch(orderIds[i], variant))
  }

  /** A bulk launch creates its flows in input order, after whatever was there, and runs nothing. */
  lemma {:induction false} BulkKeepsOrder(s: State, orderIds: seq<string>, variant: FulfillmentVariant,
                                          steps: seq<Step>)
    requires TableOk(s) && steps == RunBulk(orderIds, variant)
    ensures Exec(s, steps).Some?
    ensures var s' := Exec(s, steps).value;
      s.nodes <= s'.nodes && s'.trace == s.trace && InOrder(s'.nodes, |s.nodes|, orderIds, variant)
    decreases |orderIds|
  {
    if orderIds != [] {
      var n := |orderIds| - 1;
      var before, flow := RunBulk(orderIds[..n], variant), Launch(orderIds[n], variant).Flow();
      BulkSnoc(orderIds, variant, n, steps, before);
      BulkKeepsOrder(s, orderIds[..n], variant, before);
      var mid := Exec(s, before).value;
      AddedLast(s, steps, before, flow, mid);
      OneMoreInOrder(mid.nodes, Flatten(flow, |mid.nodes|, -1), |s.nodes|, orderIds, variant, n);
    }
  }

  lemma BulkSnoc(orderIds: seq<string>, variant: FulfillmentVariant, n: nat, steps: seq<Step>, before: seq<Step>)
    requires |orderIds| == n + 1 && steps == RunBulk(orderIds, variant) && before == RunBulk(orderIds[..n], variant)
    ensures |steps| == n + 1 && steps[..n] == before && steps[n] == AddFlow(Launch(orderIds[n], variant).Flow())
  {
    assert forall i :: 0 <= i < n ==> steps[..n][i] == before[i];
  }

  lemma AddedLast(s: State, steps: seq<Step>, before: seq<Step>, flow: FlowJob, mid: State)
    requires TableOk(s) && Exec(s, before) == Some(mid)
    requires steps != [] && steps[..|steps| - 1] == before && steps[|steps| - 1] == AddFlow(flow)
    ensures Exec(s, steps).Some?
    ensures Exec(s, steps).value.nodes == mid.nodes + Flatten(flow, |mid.nodes|, -1)
    ensures Exec(s, steps).value.trace == mid.trace
  {
  }

  lemma OneMoreInOrder(nodes: seq<Node>, more: seq<Node>, base: nat, orderIds: seq<string>,
                       variant: FulfillmentVariant, n: nat)
    requires |orderIds| == n + 1 && InOrder(nodes, base, orderIds[..n], variant)
    requires more == Flatten(Launch(orderIds[n], variant).Flow(), |nodes|, -1)
    ensures InOrder(nodes + more, base, orderIds, variant)
  {
    FlowNodes(Launch(orderIds[n], variant), nodes);
    forall i: nat | i < |orderIds| ensures IsBlock(nodes + more, base + 6 * i, Launch(orderIds[i], variant)) {
      InOrderAt(nodes, more, base, orderIds, variant, n, i);
    }
  }

  lemma InOrderAt(nodes: seq<Node>, more: seq<Node>, base: nat, orderIds: seq<string>,
                  variant: FulfillmentVariant, n: nat, i: nat)
    requires |orderIds| == n + 1 && InOrder(nodes, base, orderIds[..n], variant) && i <= n
    requires IsBlock(nodes + more, |nodes|, Launch(orderIds[n], variant))
    ensures IsBlock(nodes + more, base + 6 * i, Launch(orderIds[i], variant))
  {
    if i < n {
      assert IsBlock(nodes, base + 6 * i, Launch(orderIds[..n][i], variant));
      BlockExtends(nodes, nodes + more, base + 6 * i, Launch(orderIds[i], variant));
    }
  }

  lemma BlockExtends(nodes: seq<Node>, longer: seq<Node>, base: nat, l: Launch)
    requires IsBlock(nodes, base, l) && nodes <= longer
    ensures IsBlock(longer, base, l)
  {
  }

  // ---- Runs that launch only fulfillment flows ----

  /** The flows a list of steps adds, in order. */
  function Added(steps: seq<Step>): seq<FlowJob> {
    if steps == [] then []
    else
      var before, last := Added(steps[..|steps| - 1]), steps[|steps| - 1];
      if last.AddFlow? then before + [last.flow] else before
  }

  /** The steps launch exactly `ls`, and nothing else. */
  predicate Launches(steps: seq<Step>, ls: seq<Launch>) {
    |Added(steps)| == |ls| && forall f :: 0 <= f < |ls| ==> Added(steps)[f] == ls[f].Flow()
  }

  /** Flow `f` occupies nodes `6f` to `6f + 5`. */
  predicate Blocks(nodes: seq<Node>, ls: seq<Launch>) {
    |nodes| == 6 * |ls| && forall f: nat :: f < |ls| ==> IsBlock(nodes, 6 * f, ls[f])
  }

  lemma {:induction false} LaunchedBlocks(steps: seq<Step>, ls: seq<Launch>)
    requires Exec(INIT, steps).Some? && Launches(steps, ls)
    ensures Blocks(Exec(INIT, steps).value.nodes, ls)
    ensures AddsFlagsOnLeaves(steps)
  {
    if steps != [] {
      var before, last := steps[..|steps| - 1], steps[|steps| - 1];
      var s := Exec(INIT, before).value;
      if last.AddFlow? {
        var n := |ls| - 1;
        assert forall f :: 0 <= f < n ==> Added(before)[f] == Added(steps)[f];
        LaunchedBlocks(before, ls[..n]);
        assert last.flow == ls[n].Flow();
        BlockFlags(ls[n]);
        BlocksGrow(s.nodes, Flatten(last.flow, |s.nodes|, -1), ls, n);
      } else {
        LaunchedBlocks(before, ls);
      }
    }
  }

  lemma BlocksGrow(nodes: seq<Node>, more: seq<Node>, ls: seq<Launch>, n: nat)
    requires |ls| == n + 1 && Blocks(nodes, ls[..n]) && more == Flatten(ls[n].Flow(), |nodes|, -1)
    ensures Blocks(nodes + more, ls)
  {
    FlowNodes(ls[n], nodes);
    forall f: nat | f < |ls| ensures IsBlock(nodes + more, 6 * f, ls[f]) {
      BlockGrown(nodes, more, ls, n, f);
    }
  }

  lemma BlockGrown(nodes: seq<Node>, more: seq<Node>, ls: seq<Launch>, n: nat, f: nat)
    requires |ls| == n + 1 && Blocks(nodes, ls[..n]) && f <= n
    requires IsBlock(nodes + more, 6 * n, ls[n])
    ensures IsBlock(nodes + more, 6 * f, ls[f])
  {
    if f < n {
      assert IsBlock(nodes, 6 * f, ls[..n][f]);
      BlockExtends(nodes, nodes + more, 6 * f, ls[f]);
    }
  }

  lemma BlockFlags(l: Launch)
    ensures FlagsOnLeaves(l.Flow())
  {
    var flow := l.Flow();
    forall k | 0 <= k < |flow.children| ensures FlagsOnLeaves(flow.children[k]) {
      if k == 2 {
        var invoice := flow.children[2];
        assert FlagsOnLeaves(invoice.children[0]) && FlagsOnLeaves(invoice.children[1]);
      }
    }
  }

  lemma BlockChildren(nodes: seq<Node>, ls: seq<Launch>, f: nat, c: nat)
    requires Blocks(nodes, ls) && f < |ls| && c < |nodes|
    ensures Child(nodes, 6 * f, c) <==> 6 * f < c <= 6 * f + 3
    ensures Child(nodes, 6 * f + 3, c) <==> c == 6 * f + 4 || c == 6 * f + 5
    ensures !Child(nodes, 6 * f + 1, c) && !Child(nodes, 6 * f + 2, c)
    ensures !Child(nodes, 6 * f + 4, c) && !Child(nodes, 6 * f + 5, c)
  {
    var g := c / 6;
    assert g < |ls| && c == 6 * g + c % 6;
    assert IsBlock(nodes, 6 * g, ls[g]);
  }

  // ---- What each variant comes to ----

  /** A failed payment under a variant that does not resolve it holds the root back for ever. */
  predicate HoldsRoot(l: Launch) {
    l.PaymentFails() && (l.variant.Default? || l.variant.Stuck?)
  }

  lemma BlockInEveryState(s: State, ls: seq<Launch>, f: nat)
    requires TableOk(s) && AllFit(s.nodes, s.status) && TraceFits(s) && Blocks(s.nodes, ls) && f < |ls|
    ensures HoldsRoot(ls[f]) ==> s.status[6 * f] == WaitingChildren
    ensures ls[f].PaymentFails() && !ls[f].variant.IgnoresDependency? ==>
      6 * f !in s.trace && (s.status[6 * f] == WaitingChildren || s.status[6 * f] == Failed)
  {
    var root, payment := 6 * f, 6 * f + 2;
    assert IsBlock(s.nodes, 6 * f, ls[f]);
    assert Fits(s.nodes, s.status, root) && Fits(s.nodes, s.status, payment);
    if ls[f].PaymentFails() && !ls[f].variant.IgnoresDependency? {
      assert Child(s.nodes, root, payment) && !Resolved(s.nodes, s.status, payment);
      assert !AllResolved(s.nodes, s.status, root);
      if HoldsRoot(ls[f]) {
        forall c: nat | c < |s.nodes| && Child(s.nodes, root, c) ensures !Breaks(s.nodes, s.status, c) {
          BlockChildren(s.nodes, ls, f, c);
        }
      }
    }
  }

  /** The stuck pitfall as safety: in every reachable state the root of such a flow is waiting for its children. */
  lemma RootStaysStuck(steps: seq<Step>, ls: seq<Launch>, f: nat)
    requires Exec(INIT, steps).Some? && Launches(steps, ls) && f < |ls| && HoldsRoot(ls[f])
    ensures 6 * f < |Exec(INIT, steps).value.status|
    ensures Exec(INIT, steps).value.status[6 * f] == WaitingChildren
  {
    ReachableTrace(steps);
    LaunchedBlocks(steps, ls);
    BlockInEveryState(Exec(INIT, steps).value, ls, f);
  }

  predicate Childless(nodes: seq<Node>, i: nat) {
    forall c: nat :: c < |nodes| ==> !Child(nodes, i, c)
  }

  lemma LeafAtRest(s: State, i: nat)
    requires TableOk(s) && AllFit(s.nodes, s.status) && Quiescent(s) && i < |s.nodes| && s.nodes[i].leaf
    requires Childless(s.nodes, i)
    ensures s.status[i] == if s.nodes[i].throws then Failed else Completed
  {
    assert Fits(s.nodes, s.status, i);
    assert !s.status[i].Waiting? && !s.status[i].Active?;
  }

  lemma InnerAtRest(s: State, i: nat)
    requires TableOk(s) && AllFit(s.nodes, s.status) && Quiescent(s) && i < |s.nodes|
    requires AllResolved(s.nodes, s.status, i)
    ensures s.status[i] == if s.nodes[i].throws then Failed else Completed
  {
    assert Fits(s.nodes, s.status, i);
    assert !s.status[i].Waiting? && !s.status[i].Active?;
  }

  lemma LeavesAtRest(s: State, ls: seq<Launch>, f: nat)
    requires TableOk(s) && AllFit(s.nodes, s.status) && Quiescent(s) && Blocks(s.nodes, ls) && f < |ls|
    ensures s.status[6 * f + 1] == s.status[6 * f + 4] == s.status[6 * f + 5] == Completed
    ensures s.status[6 * f + 2] == if ls[f].PaymentFails() then Failed else Completed
  {
    var b := 6 * f;
    assert IsBlock(s.nodes, b, ls[f]);
    BlockChildless(s.nodes, ls, f, b + 1);
    BlockChildless(s.nodes, ls, f, b + 2);
    BlockChildless(s.nodes, ls, f, b + 4);
    BlockChildless(s.nodes, ls, f, b + 5);
    LeafAtRest(s, b + 1);
    LeafAtRest(s, b + 2);
    LeafAtRest(s, b + 4);
    LeafAtRest(s, b + 5);
  }

  lemma BlockChildless(nodes: seq<Node>, ls: seq<Launch>, f: nat, i: nat)
    requires Blocks(nodes, ls) && f < |ls| && i - 6 * f in {1, 2, 4, 5}
    ensures Childless(nodes, i)
  {
    forall c: nat | c < |nodes| ensures !Child(nodes, i, c) {
      BlockChildren(nodes, ls, f, c);
    }
  }

  /** The status of the root when the flow is at rest. */
  function RootAtRest(l: Launch): Status {
    if !l.PaymentFails() then Completed
    else match l.variant
      case Default => WaitingChildren
      case Stuck => WaitingChildren
      case FailsParent => Failed
      case IgnoresDependency => Completed
  }

  lemma InvoiceAtRest(s: State, ls: seq<Launch>, f: nat)
    requires TableOk(s) && AllFit(s.nodes, s.status) && Quiescent(s) && Blocks(s.nodes, ls) && f < |ls|
    ensures s.status[6 * f + 3] == Completed
  {
    LeavesAtRest(s, ls, f);
    assert IsBlock(s.nodes, 6 * f, ls[f]);
    forall c: nat | c < |s.nodes| && Child(s.nodes, 6 * f + 3, c) ensures Resolved(s.nodes, s.status, c) {
      BlockChildren(s.nodes, ls, f, c);
    }
    InnerAtRest(s, 6 * f + 3);
  }

  lemma RootRests(s: State, ls: seq<Launch>, f: nat)
    requires TableOk(s) && AllFit(s.nodes, s.status) && TraceFits(s) && Quiescent(s) && Blocks(s.nodes, ls) && f < |ls|
    ensures s.status[6 * f] == RootAtRest(ls[f])
  {
    var b := 6 * f;
    LeavesAtRest(s, ls, f);
    InvoiceAtRest(s, ls, f);
    assert IsBlock(s.nodes, b, ls[f]);
    if ls[f].PaymentFails() && !ls[f].variant.IgnoresDependency? {
      BlockInEveryState(s, ls, f);
      assert Fits(s.nodes, s.status, b);
      if ls[f].variant.FailsParent? {
        assert Child(s.nodes, b, b + 2) && Breaks(s.nodes, s.status, b + 2);
      }
    } else {
      forall c: nat | c < |s.nodes| && Child(s.nodes, b, c) ensures Resolved(s.nodes, s.status, c) {
        BlockChildren(s.nodes, ls, f, c);
      }
      InnerAtRest(s, b);
    }
  }

  /** What is left of flow `f` at rest: six statuses, and who left a trace entry. */
  ghost predicate AtRest(s: State, f: nat, l: Launch)
    requires |s.status| >= 6 * f + 6
  {
    && s.status[6 * f] == RootAtRest(l)
    && s.status[6 * f + 1] == Completed
    && s.status[6 * f + 2] == (if l.PaymentFails() then Failed else Completed)
    && s.status[6 * f + 3] == s.status[6 * f + 4] == s.status[6 * f + 5] == Completed
    && (6 * f in s.trace <==> RootAtRest(l).Completed?)
    && (forall i: nat :: 6 * f < i < 6 * f + 6 ==> i in s.trace)
  }

  lemma BlockAtRest(s: State, ls: seq<Launch>, f: nat)
    requires TableOk(s) && AllFit(s.nodes, s.status) && TraceFits(s) && Quiescent(s) && Blocks(s.nodes, ls) && f < |ls|
    ensures AtRest(s, f, ls[f])
  {
    LeavesAtRest(s, ls, f);
    InvoiceAtRest(s, ls, f);
    RootRests(s, ls, f);
    BlockInEveryState(s, ls, f);
    assert IsBlock(s.nodes, 6 * f, ls[f]);
    assert 6 * f + 2 in s.trace;
    forall i: nat | 6 * f < i < 6 * f + 6 ensures i in s.trace {
      assert s.status[i].Completed? || i == 6 * f + 2;
    }
  }

  /**
   * Main result: any number of fulfillment flows, interleaved in any way, come to rest with each flow's statuses fixed
   * by its variant and order id. Every node but the payment and the root completes; the payment fails exactly for
   * orders with the failure prefix; a root that did not run left no trace entry.
   */
  lemma VariantOutcome(steps: seq<Step>, ls: seq<Launch>, f: nat)
    requires Exec(INIT, steps).Some? && Launches(steps, ls) && f < |ls|
    requires Quiescent(Exec(INIT, steps).value)
    ensures |Exec(INIT, steps).value.status| == 6 * |ls|
    ensures AtRest(Exec(INIT, steps).value, f, ls[f])
  {
    ReachableTrace(steps);
    LaunchedBlocks(steps, ls);
    BlockAtRest(Exec(INIT, steps).value, ls, f);
  }

  // ---- Whether the root runs after every descendant has completed ----

  /** The flow's failure is ignored, so its root runs although the payment failed. */
  predicate ShipsUnpaid(l: Launch) {
    l.PaymentFails() && l.variant.IgnoresDependency?
  }

  /** All nodes of flow `f` below its root. */
  ghost predicate AllCompleted(s: State, f: nat)
    requires |s.status| >= 6 * f + 6
  {
    forall i: nat :: 6 * f < i < 6 * f + 6 ==> s.status[i].Completed?
  }

  lemma RootRan(s: State, ls: seq<Launch>, f: nat)
    requires TableOk(s) && AllFit(s.nodes, s.status) && TraceFits(s)
    requires Blocks(s.nodes, ls) && f < |ls| && 6 * f in s.trace
    ensures s.status[6 * f + 1].Completed? && s.status[6 * f + 3].Completed?
    ensures s.status[6 * f + 2] == if ShipsUnpaid(ls[f]) then Failed else Completed
  {
    var b := 6 * f;
    assert IsBlock(s.nodes, b, ls[f]);
    assert Child(s.nodes, b, b + 1) && Child(s.nodes, b, b + 2) && Child(s.nodes, b, b + 3);
    assert AllResolved(s.nodes, s.status, b);
    assert Resolved(s.nodes, s.status, b + 1) && Resolved(s.nodes, s.status, b + 2);
    assert Resolved(s.nodes, s.status, b + 3);
    assert Fits(s.nodes, s.status, b + 2);
    BlockChildless(s.nodes, ls, f, b + 2);
  }

  lemma InvoiceRan(s: State, ls: seq<Launch>, f: nat)
    requires TableOk(s) && AllFit(s.nodes, s.status) && Blocks(s.nodes, ls) && f < |ls|
    requires s.status[6 * f + 3].Completed?
    ensures s.status[6 * f + 4].Completed? && s.status[6 * f + 5].Completed?
  {
    var b := 6 * f;
    assert IsBlock(s.nodes, b, ls[f]);
    assert Fits(s.nodes, s.status, b + 3);
    assert Child(s.nodes, b + 3, b + 4) && Child(s.nodes, b + 3, b + 5);
    assert Resolved(s.nodes, s.status, b + 4) && Resolved(s.nodes, s.status, b + 5);
  }

  /** The nodes of flow `f` below its root other than the payment. */
  ghost predicate OthersCompleted(s: State, f: nat)
    requires |s.status| >= 6 * f + 6
  {
    && s.status[6 * f + 1].Completed? && s.status[6 * f + 3].Completed?
    && s.status[6 * f + 4].Completed? && s.status[6 * f + 5].Completed?
  }

  lemma AllOrOthers(s: State, f: nat)
    requires |s.status| >= 6 * f + 6 && OthersCompleted(s, f)
    ensures AllCompleted(s, f) <==> s.status[6 * f + 2].Completed?
  {
    forall i: nat | 6 * f < i < 6 * f + 6 && s.status[6 * f + 2].Completed? ensures s.status[i].Completed? {
      assert i - 6 * f in {1, 2, 3, 4, 5};
    }
  }

  /**
   * In every reachable state, a root that has run has only completed descendants if and only if its flow is not one
   * that ignores a failed payment; there the payment, and only it, has failed.
   */
  lemma RootRunsAfterCompletion(steps: seq<Step>, ls: seq<Launch>, f: nat)
    requires Exec(INIT, steps).Some? && Launches(steps, ls) && f < |ls| && 6 * f in Exec(INIT, steps).value.trace
    ensures |Exec(INIT, steps).value.status| == 6 * |ls|
    ensures AllCompleted(Exec(INIT, steps).value, f) <==> !ShipsUnpaid(ls[f])
    ensures OthersCompleted(Exec(INIT, steps).value, f)
  {
    ReachableTrace(steps);
    LaunchedBlocks(steps, ls);
    var s := Exec(INIT, steps).value;
    RootRan(s, ls, f);
    InvoiceRan(s, ls, f);
    AllOrOthers(s, f);
  }

  lemma {:induction false} WorkAddsNothing(before: seq<Step>, work: seq<Step>)
    requires forall step :: step in work ==> Works(step)
    ensures Added(before + work) == Added(before)
    decreases |work|
  {
    if work == [] {
      ConcatEmpty(before);
    } else {
      InitOfAppend(before, work);
      assert Works(work[|work| - 1]);
      WorkAddsNothing(before, work[..|work| - 1]);
    }
  }

  lemma LaunchOne(l: Launch) returns (s: State)
    ensures Exec(INIT, [AddFlow(l.Flow())]) == Some(s) && Launches([AddFlow(l.Flow())], [l])
  {
    var steps := [AddFlow(l.Flow())];
    assert steps[..0] == [] && Exec(INIT, []) == Some(INIT) && Added([]) == [];
    s := Apply(INIT, AddFlow(l.Flow()));
  }

  /** A single flow, run to rest. */
  lemma RunToRest(l: Launch) returns (steps: seq<Step>)
    ensures Exec(INIT, steps).Some? && Launches(steps, [l]) && Quiescent(Exec(INIT, steps).value)
  {
    var first := [AddFlow(l.Flow())];
    var s := LaunchOne(l);
    ReachableFits(first);
    var work := RestIsReached(s);
    ExecSplit(INIT, first, work);
    WorkAddsNothing(first, work);
    steps := first + work;
  }

  /** For every order whose payment fails there is such a run: the order ships and the payment has failed. */
  lemma SomeRootShipsUnpaid(l: Launch) returns (steps: seq<Step>)
    requires ShipsUnpaid(l)
    ensures Exec(INIT, steps).Some? && Launches(steps, [l]) && |Exec(INIT, steps).value.status| == 6
    ensures var s := Exec(INIT, steps).value; 0 in s.trace && s.status[0].Completed? && s.status[2].Failed?
  {
    steps := RunToRest(l);
    VariantOutcome(steps, [l], 0);
  }

  // ---- Whether every node succeeds ----

  /** All six nodes of flow `f` have completed. */
  ghost predicate EveryNodeSucceeds(s: State, f: nat)
    requires |s.status| >= 6 * f + 6
  {
    forall i: nat :: 6 * f <= i < 6 * f + 6 ==> s.status[i].Completed?
  }

  lemma SucceedsAtRest(s: State, f: nat, l: Launch)
    requires |s.status| >= 6 * f + 6 && AtRest(s, f, l)
    ensures EveryNodeSucceeds(s, f) <==> !l.PaymentFails()
  {
    forall i: nat | 6 * f <= i < 6 * f + 6 && !l.PaymentFails() ensures s.status[i].Completed? {
      assert i - 6 * f in {0, 1, 2, 3, 4, 5};
    }
  }

  /** At rest every node of a flow has succeeded if and only if its order has not the failure prefix, in any variant. */
  lemma HappyPathExactly(steps: seq<Step>, ls: seq<Launch>, f: nat)
    requires Exec(INIT, steps).Some? && Launches(steps, ls) && f < |ls|
    requires Quiescent(Exec(INIT, steps).value)
    ensures |Exec(INIT, steps).value.status| == 6 * |ls|
    ensures EveryNodeSucceeds(Exec(INIT, steps).value, f) <==> !ls[f].PaymentFails()
  {
    VariantOutcome(steps, ls, f);
    SucceedsAtRest(Exec(INIT, steps).value, f, ls[f]);
  }

  /** The default variant on an order with the failure prefix: the payment fails and the root waits for ever. */
  lemma DefaultCanStick(l: Launch) returns (steps: seq<Step>)
    requires l.variant.Default? && l.PaymentFails()
    ensures Exec(INIT, steps).Some? && Launches(steps, [l]) && |Exec(INIT, steps).value.status| == 6
    ensures var s := Exec(INIT, steps).value;
      Quiescent(s) && s.status[2].Failed? && s.status[0].WaitingChildren?
  {
    steps := RunToRest(l);
    VariantOutcome(steps, [l], 0);
  }

  // ---- Counting the trace ----

  function Count(nodes: seq<Node>, trace: seq<nat>, name: string): nat {
    if trace == [] then 0
    else
      var last := trace[|trace| - 1];
      Count(nodes, trace[..|trace| - 1], name) + if last < |nodes| && nodes[last].name == name then 1 else 0
  }

  /** The nodes called `name` that the trace mentions. */
  function Named(nodes: seq<Node>, trace: seq<nat>, name: string): set<nat> {
    set i | i in trace && i < |nodes| && nodes[i].name == name
  }

  /** No node called `name` occurs twice. */
  predicate OnceEach(nodes: seq<Node>, trace: seq<nat>, name: string) {
    forall p: nat, q: nat ::
      p < q < |trace| && trace[p] == trace[q] && trace[p] < |nodes| ==> nodes[trace[p]].name != name
  }

  lemma NamedSnoc(nodes: seq<Node>, trace: seq<nat>, before: seq<nat>, last: nat, name: string)
    requires trace == before + [last]
    ensures Named(nodes, trace, name)
         == Named(nodes, before, name) + if last < |nodes| && nodes[last].name == name then {last} else {}
    ensures Count(nodes, trace, name)
         == Count(nodes, before, name) + if last < |nodes| && nodes[last].name == name then 1 else 0
  {
    assert trace[..|trace| - 1] == before;
    assert forall i :: i in trace <==> i in before || i == last;
  }

  lemma {:induction false} CountAgainstNamed(nodes: seq<Node>, trace: seq<nat>, name: string)
    ensures |Named(nodes, trace, name)| <= Count(nodes, trace, name)
    ensures OnceEach(nodes, trace, name) ==> |Named(nodes, trace, name)| == Count(nodes, trace, name)
  {
    if trace != [] {
      var before, last := trace[..|trace| - 1], trace[|trace| - 1];
      assert trace == before + [last];
      NamedSnoc(nodes, trace, before, last, name);
      CountAgainstNamed(nodes, before, name);
      OnceEachInit(nodes, trace, before, last, name);
      if last in Named(nodes, before, name) { NamedTwice(nodes, trace, before, last, name); }
    }
  }

  lemma OnceEachInit(nodes: seq<Node>, trace: seq<nat>, before: seq<nat>, last: nat, name: string)
    requires trace == before + [last]
    ensures OnceEach(nodes, trace, name) ==> OnceEach(nodes, before, name)
  {
    assert forall p: nat :: p < |before| ==> before[p] == trace[p];
  }

  lemma NamedTwice(nodes: seq<Node>, trace: seq<nat>, before: seq<nat>, last: nat, name: string)
    requires trace == before + [last] && last in Named(nodes, before, name)
    ensures !OnceEach(nodes, trace, name)
  {
    var p: nat :| p < |before| && before[p] == last;
    assert trace[p] == trace[|before|];
  }

  lemma {:induction false} ShiftFits(a: set<nat>, b: set<nat>, d: nat)
    requires forall x :: x in a ==> x + d in b
    ensures |a| <= |b|
    decreases |a|
  {
    if a != {} {
      var x :| x in a;
      ShiftFits(a - {x}, b - {x + d}, d);
    }
  }

  lemma NamesByPosition(nodes: seq<Node>, ls: seq<Launch>, i: nat)
    requires Blocks(nodes, ls) && i < |nodes|
    ensures nodes[i].name == SHIP_ORDER_JOB <==> i % 6 == 0
    ensures nodes[i].name == RENDER_INVOICE_JOB <==> i % 6 == 3
    ensures nodes[i].name == FETCH_LINES_JOB <==> i % 6 == 4
    ensures i % 6 == 0 ==> i + 3 < |nodes| && Child(nodes, i, i + 3)
    ensures i % 6 == 3 ==> i + 1 < |nodes| && Child(nodes, i, i + 1)
    ensures i % 6 != 2 ==> !nodes[i].throws
  {
    var g := i / 6;
    assert IsBlock(nodes, 6 * g, ls[g]);
    assert i == 6 * g + i % 6;
    assert SHIP_ORDER_JOB[0] != RESERVE_STOCK_JOB[0] && RESERVE_STOCK_JOB[2] != RENDER_INVOICE_JOB[2];
    assert FETCH_LINES_JOB[6] != FETCH_CUSTOMER_JOB[6];
  }

  /** Node `i` does not throw and has a child called `child`, `d` places further on. */
  predicate PairedAt(nodes: seq<Node>, i: nat, child: string, d: nat) {
    i + d < |nodes| && !nodes[i].throws && Child(nodes, i, i + d) && nodes[i + d].name == child
  }

  predicate Pairs(nodes: seq<Node>, parent: string, child: string, d: nat) {
    forall i: nat :: i < |nodes| && nodes[i].name == parent ==> PairedAt(nodes, i, child, d)
  }

  lemma BlockPairs(nodes: seq<Node>, ls: seq<Launch>)
    requires Blocks(nodes, ls)
    ensures Pairs(nodes, SHIP_ORDER_JOB, RENDER_INVOICE_JOB, 3)
    ensures Pairs(nodes, RENDER_INVOICE_JOB, FETCH_LINES_JOB, 1)
  {
    forall i: nat | i < |nodes| && nodes[i].name == SHIP_ORDER_JOB ensures PairedAt(nodes, i, RENDER_INVOICE_JOB, 3) {
      NamesByPosition(nodes, ls, i);
      NamesByPosition(nodes, ls, i + 3);
    }
    forall i: nat | i < |nodes| && nodes[i].name == RENDER_INVOICE_JOB ensures PairedAt(nodes, i, FETCH_LINES_JOB, 1) {
      NamesByPosition(nodes, ls, i);
      NamesByPosition(nodes, ls, i + 1);
    }
  }

  lemma NamedShift(s: State, q: nat, parent: string, child: string, d: nat)
    requires |s.nodes| == |s.status| && ChildrenFirst(s.nodes, s.trace) && q <= |s.trace|
    requires Pairs(s.nodes, parent, child, d)
    ensures forall x :: x in Named(s.nodes, s.trace[..q], parent) ==> x + d in Named(s.nodes, s.trace[..q], child)
  {
    var prefix := s.trace[..q];
    forall x | x in Named(s.nodes, prefix, parent) ensures x + d in Named(s.nodes, prefix, child) {
      var p: nat :| p < q && prefix[p] == x;
      assert PairedAt(s.nodes, x, child, d);
      assert Child(s.nodes, s.trace[p], x + d);
      assert x + d in s.trace[..p] && s.trace[..p] <= prefix;
    }
  }

  /** If each `parent`-named entry comes after its `child`-named one, prefixes hold at least as many children. */
  lemma CountsOrdered(s: State, q: nat, parent: string, child: string, d: nat)
    requires |s.nodes| == |s.status| && RunsOnce(s) && ChildrenFirst(s.nodes, s.trace) && q <= |s.trace|
    requires Pairs(s.nodes, parent, child, d)
    ensures Count(s.nodes, s.trace[..q], parent) <= Count(s.nodes, s.trace[..q], child)
  {
    var prefix := s.trace[..q];
    NamedShift(s, q, parent, child, d);
    ShiftFits(Named(s.nodes, prefix, parent), Named(s.nodes, prefix, child), d);
    CountAgainstNamed(s.nodes, prefix, child);
    ParentsOnce(s, q, parent, child, d);
    CountAgainstNamed(s.nodes, prefix, parent);
  }

  lemma ParentsOnce(s: State, q: nat, parent: string, child: string, d: nat)
    requires |s.nodes| == |s.status| && RunsOnce(s) && Pairs(s.nodes, parent, child, d) && q <= |s.trace|
    ensures OnceEach(s.nodes, s.trace[..q], parent)
  {
    forall i: nat, j: nat | i < j < q && s.trace[i] == s.trace[j] && s.trace[i] < |s.nodes|
      ensures s.nodes[s.trace[i]].name != parent
    {
      assert s.nodes[s.trace[i]].throws;
      assert s.nodes[s.trace[i]].name == parent ==> PairedAt(s.nodes, s.trace[i], child, d);
    }
  }

  /**
   * Main result: without redelivery, every prefix of the trace of any interleaved fulfillment flows holds at least as
   * many fetched lines as rendered invoices, and at least as many rendered invoices as shipped orders.
   */
  lemma CountsAlongTrace(steps: seq<Step>, ls: seq<Launch>, q: nat)
    requires Exec(INIT, steps).Some? && Launches(steps, ls) && q <= |Exec(INIT, steps).value.trace|
    requires forall step :: step in steps ==> !step.Redeliver?
    ensures var s := Exec(INIT, steps).value;
      Count(s.nodes, s.trace[..q], SHIP_ORDER_JOB)
      <= Count(s.nodes, s.trace[..q], RENDER_INVOICE_JOB)
      <= Count(s.nodes, s.trace[..q], FETCH_LINES_JOB)
  {
    ReachableTrace(steps);
    WithoutRedeliveryOnce(steps);
    LaunchedBlocks(steps, ls);
    var s := Exec(INIT, steps).value;
    BlockPairs(s.nodes, ls);
    CountsOrdered(s, q, SHIP_ORDER_JOB, RENDER_INVOICE_JOB, 3);
    CountsOrdered(s, q, RENDER_INVOICE_JOB, FETCH_LINES_JOB, 1);
  }
}
