/**
 * How often each job runs (apps/api/src/flows/payments.processor.ts, fulfillment.service.ts): over every run, counted
 * in the trace, and for the fulfillment flow in numbers.
 */
module FlowCounts {
  import opened Prelude
  import opened FlowEngine
  import opened FlowRuns
  import opened FlowTraces
  import opened FlowOrder
  import opened Fulfillment

  /** The attempts begun by a job with this status; a job failed by a child never began one. */
  function Begun(n: Node, st: Status, broken: bool): nat {
    match st
    case WaitingChildren => 0
    case Waiting(made) => made
    case Active(made) => made + 1
    case Completed => 1
    case Failed => if broken then 0 else n.attempts
  }

  /** A job that does not throw has no failed attempt behind it. */
  predicate FirstTry(n: Node, st: Status) {
    (st.Waiting? || st.Active?) && !n.throws ==> st.made == 0
  }

  /** Node `i` was called once for each attempt it began, and `again` times more; what is not there yet never was. */
  ghost predicate CountFits(s: State, i: nat, again: nat)
    requires |s.nodes| == |s.status|
  {
    if i < |s.nodes| then
      && multiset(s.trace)[i] == Begun(s.nodes[i], s.status[i], Broken(s.nodes, s.status, i)) + again
      && FirstTry(s.nodes[i], s.status[i])
    else multiset(s.trace)[i] == 0 == again
  }

  lemma UnbrokenStays(s: State, step: Step, i: nat)
    requires TableOk(s) && AllFit(s.nodes, s.status) && Enabled(s, step) && i < |s.nodes|
    requires s.status[i].Failed? && !Broken(s.nodes, s.status, i) && |Apply(s, step).nodes| == |Apply(s, step).status|
    ensures !Broken(Apply(s, step).nodes, Apply(s, step).status, i)
  {
    assert Fits(s.nodes, s.status, i);
    ResolvedStays(s, step, i);
  }

  lemma NotCalledYet(trace: seq<nat>, i: nat)
    ensures multiset(trace)[i] == 0 <==> i !in trace
    ensures multiset(trace + [i])[i] == multiset(trace)[i] + 1
    ensures forall j: nat :: j != i ==> multiset(trace + [j])[i] == multiset(trace)[i]
  {
    if multiset(trace)[i] == 0 { assert i !in multiset(trace); }
  }

  /** A step about another node begins no attempt of this one. */
  lemma OtherBegun(s: State, step: Step, i: nat)
    requires TableOk(s) && AllFit(s.nodes, s.status) && Enabled(s, step) && TableOk(Apply(s, step))
    requires (step.AddFlow? || step.node != i) && i < |s.nodes|
    ensures var s' := Apply(s, step);
      && Begun(s'.nodes[i], s'.status[i], Broken(s'.nodes, s'.status, i))
         == Begun(s.nodes[i], s.status[i], Broken(s.nodes, s.status, i))
      && (FirstTry(s.nodes[i], s.status[i]) ==> FirstTry(s'.nodes[i], s'.status[i]))
  {
    var s' := Apply(s, step);
    assert s'.nodes[i] == s.nodes[i];
    if s.status[i].Failed? {
      OneStep(s, step);
      FinishedStays(s, [step]);
      if Broken(s.nodes, s.status, i) { BrokenStays(s, step, i); } else { UnbrokenStays(s, step, i); }
    } else if step.Finish? {
      OtherOnFinish(s, step.node, i);
    }
  }

  lemma OtherOnFinish(s: State, node: nat, i: nat)
    requires TableOk(s) && Enabled(s, Finish(node)) && TableOk(Apply(s, Finish(node)))
    requires node != i && i < |s.nodes| && !s.status[i].Failed?
    ensures var s' := Apply(s, Finish(node));
      || s'.status[i] == s.status[i]
      || (s.status[i].WaitingChildren? && s'.status[i] == Waiting(0))
      || (s.status[i].WaitingChildren? && s'.status[i] == Failed && Broken(s'.nodes, s'.status, i))
  {
    var at := s.status[node := OutcomeOf(s.nodes[node], s.status[node].made)];
    NotifyKeepsOthers(s.nodes, at, node);
    if Notify(s.nodes, at, node)[i].Failed? { NotifyBreaks(s.nodes, at, node, i); }
  }

  /** A step about another node. */
  lemma OtherNodeCounted(s: State, step: Step, i: nat, again: nat)
    requires TableOk(s) && AllFit(s.nodes, s.status) && TraceFits(s) && Enabled(s, step) && CountFits(s, i, again)
    requires step.AddFlow? || step.node != i
    requires TableOk(Apply(s, step))
    ensures CountFits(Apply(s, step), i, again)
  {
    NotCalledYet(s.trace, i);
    if i < |s.nodes| {
      OtherBegun(s, step, i);
    } else if i < |Apply(s, step).nodes| {
      AddedNode(s, step.flow, i);
    }
  }

  /** The node the step is about. */
  lemma OwnNodeCounted(s: State, step: Step, again: nat)
    requires TableOk(s) && AllFit(s.nodes, s.status) && Enabled(s, step) && !step.AddFlow?
    requires CountFits(s, step.node, again) && TableOk(Apply(s, step))
    ensures CountFits(Apply(s, step), step.node, if step.Redeliver? then again + 1 else again)
  {
    var i := step.node;
    var s' := Apply(s, step);
    assert Fits(s.nodes, s.status, i);
    match step
    case Start(_) => NotCalledYet(s.trace, i);
    case Redeliver(_) =>
    case Finish(_) =>
      var at := s.status[i := OutcomeOf(s.nodes[i], s.status[i].made)];
      if at[i].Final() {
        NotifyKeepsOthers(s.nodes, at, i);
        OwnFailureUnbroken(s, i);
      }
  }

  /** A job that fails by its own handler has no child that fails it. */
  lemma OwnFailureUnbroken(s: State, i: nat)
    requires TableOk(s) && AllFit(s.nodes, s.status) && Enabled(s, Finish(i)) && TableOk(Apply(s, Finish(i)))
    ensures !Broken(Apply(s, Finish(i)).nodes, Apply(s, Finish(i)).status, i)
  {
    assert Fits(s.nodes, s.status, i);
    ResolvedStays(s, Finish(i), i);
  }

  /** How often node `i` was delivered again. */
  function Redeliveries(steps: seq<Step>, i: nat): nat {
    if steps == [] then 0
    else Redeliveries(steps[..|steps| - 1], i) + if steps[|steps| - 1] == Redeliver(i) then 1 else 0
  }

  /**
   * Main result: over every run, with any number of flows, a job was called once for each attempt it began (as many as
   * it has failed, one more while it runs, one if it completed, all it is allowed if its handler failed it, and none if
   * a child did) and once more for each redelivery.
   */
  lemma {:induction false} CallsExactly(steps: seq<Step>, i: nat)
    requires Exec(INIT, steps).Some?
    ensures CountFits(Exec(INIT, steps).value, i, Redeliveries(steps, i))
  {
    if steps == [] {
      assert multiset(INIT.trace)[i] == 0;
    } else {
      var before, last := steps[..|steps| - 1], steps[|steps| - 1];
      CallsExactly(before, i);
      ReachableTrace(before);
      var s := Exec(INIT, before).value;
      StepKeepsTable(s, last);
      if last.AddFlow? || last.node != i {
        OtherNodeCounted(s, last, i, Redeliveries(before, i));
      } else {
        OwnNodeCounted(s, last, Redeliveries(before, i));
      }
    }
  }

  /** It is how often the steps redeliver it; none, in particular, without redelivery. */
  lemma {:induction false} RedeliveriesCount(steps: seq<Step>, i: nat)
    ensures Redeliveries(steps, i) == multiset(steps)[Redeliver(i)]
  {
    if steps != [] {
      RedeliveriesCount(steps[..|steps| - 1], i);
      HeadAndLast(steps);
      assert multiset(steps) == multiset(steps[..|steps| - 1]) + multiset{steps[|steps| - 1]};
    }
  }

  /** A running job may always be delivered again; it then runs once more at the same attempt. */
  lemma RedeliveredRunsAgain(s: State, i: nat)
    requires TableOk(s) && i < |s.nodes| && s.status[i].Active?
    ensures Enabled(s, Redeliver(i)) && TableOk(Apply(s, Redeliver(i)))
    ensures var s' := Apply(s, Redeliver(i));
      Enabled(s', Start(i)) && Apply(s', Start(i)).status == s.status && Apply(s', Start(i)).trace == s.trace + [i]
  {
    assert s.status[i := Waiting(s.status[i].made)][i := s.status[i]] == s.status;
  }

  // ---- The fulfillment flow in numbers ----

  /** How often each node of flow `f` is called by the time the flow rests, redeliveries aside. */
  function CallsAtRest(l: Launch, k: nat): nat {
    if k == 0 then if RootAtRest(l).Completed? then 1 else 0
    else if k == 2 && l.variant.Default? && l.PaymentFails() then 4
    else 1
  }

  lemma RestCounts(s: State, ls: seq<Launch>, f: nat, k: nat, again: nat)
    requires TableOk(s) && AllFit(s.nodes, s.status) && TraceFits(s) && Quiescent(s) && Blocks(s.nodes, ls) && f < |ls|
    requires k < 6 && CountFits(s, 6 * f + k, again)
    ensures multiset(s.trace)[6 * f + k] == CallsAtRest(ls[f], k) + again
  {
    BlockAtRest(s, ls, f);
    assert IsBlock(s.nodes, 6 * f, ls[f]);
    if k == 0 && RootAtRest(ls[f]).Failed? {
      assert Child(s.nodes, 6 * f, 6 * f + 2) && Breaks(s.nodes, s.status, 6 * f + 2);
    }
    if k == 2 { BlockChildless(s.nodes, ls, f, 6 * f + 2); }
  }

  /**
   * Main result: once all has come to rest, the payment of a default flow whose order has the failure prefix was called
   * four times, any other payment once, the root once or, when the payment holds it back or fails it, never, and every
   * other node once; each redelivery adds one.
   */
  lemma CallsOfFlow(steps: seq<Step>, ls: seq<Launch>, f: nat, k: nat)
    requires Exec(INIT, steps).Some? && Launches(steps, ls) && f < |ls| && k < 6
    requires Quiescent(Exec(INIT, steps).value)
    ensures multiset(Exec(INIT, steps).value.trace)[6 * f + k] == CallsAtRest(ls[f], k) + Redeliveries(steps, 6 * f + k)
  {
    ReachableTrace(steps);
    LaunchedBlocks(steps, ls);
    CallsExactly(steps, 6 * f + k);
    RestCounts(Exec(INIT, steps).value, ls, f, k, Redeliveries(steps, 6 * f + k));
  }
}
