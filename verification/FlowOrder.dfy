/**
 * The order of the execution trace, exactly: which trees keep it, that a parent's entry comes last, and what of it the
 * bounded list of apps/api/src/flows/flow-trace.service.ts still shows.
 */
module FlowOrder {
  import opened Prelude
  import opened FlowEngine
  import opened FlowRuns
  import opened FlowTraces
  import opened FlowHandlers

  // ---- Jobs that failed without running ----

  /** A failed job either ran or was failed by a child. */
  ghost predicate RanOrBroken(s: State)
    requires |s.nodes| == |s.status|
  {
    forall i: nat :: i < |s.nodes| && s.status[i].Failed? ==> i in s.trace || Broken(s.nodes, s.status, i)
  }

  lemma {:induction false} NotifyBreaks(nodes: seq<Node>, status: seq<Status>, i: nat, j: nat)
    requires |nodes| == |status| && i < |nodes| && j < |nodes| && Segment(nodes, 0, -1)
    requires Notify(nodes, status, i)[j].Failed? && !status[j].Failed?
    ensures Broken(nodes, Notify(nodes, status, i), j)
    decreases i
  {
    assert NodeOk(nodes, 0, -1, i);
    var p := nodes[i].parent;
    if p >= 0 && status[p].WaitingChildren? && Breaks(nodes, status, i) {
      var after := status[p := Failed];
      if j == p {
        NotifyKeepsOthers(nodes, after, p);
        assert Child(nodes, p, i) && Breaks(nodes, Notify(nodes, after, p), i);
      } else {
        NotifyBreaks(nodes, after, p, j);
      }
    }
  }

  lemma OneStep(s: State, step: Step)
    requires TableOk(s) && Enabled(s, step)
    ensures Exec(s, [step]) == Some(Apply(s, step))
  {
    assert [step][..0] == [] && Exec(s, []) == Some(s);
  }

  lemma BrokenStays(s: State, step: Step, i: nat)
    requires TableOk(s) && Enabled(s, step) && Broken(s.nodes, s.status, i)
    ensures |Apply(s, step).nodes| == |Apply(s, step).status|
    ensures Broken(Apply(s, step).nodes, Apply(s, step).status, i)
  {
    OneStep(s, step);
    FinishedStays(s, [step]);
    var s' := Apply(s, step);
    StepKeepsTable(s, step);
    var c: nat :| c < |s.nodes| && Child(s.nodes, i, c) && Breaks(s.nodes, s.status, c);
    assert s'.nodes[c] == s.nodes[c] && s'.status[c] == s.status[c];
    assert Child(s'.nodes, i, c) && Breaks(s'.nodes, s'.status, c);
  }

  lemma StepRan(s: State, step: Step, i: nat)
    requires TableOk(s) && AllFit(s.nodes, s.status) && TraceFits(s) && RanOrBroken(s) && Enabled(s, step)
    requires |Apply(s, step).nodes| == |Apply(s, step).status|
    requires i < |Apply(s, step).nodes| && Apply(s, step).status[i].Failed?
    ensures i in Apply(s, step).trace || Broken(Apply(s, step).nodes, Apply(s, step).status, i)
  {
    StatusesMove(s, step);
    if s.status[i].Failed? {
      if i !in s.trace { BrokenStays(s, step, i); }
    } else if step.Finish? && step.node != i {
      var at := s.status[step.node := OutcomeOf(s.nodes[step.node], s.status[step.node].made)];
      NotifyBreaks(s.nodes, at, step.node, i);
    }
  }

  // ---- The order, for any trees ----

  /** Every entry of the trace comes after one of each child of its node, except a child failed by its own child. */
  ghost predicate OrderedButBroken(s: State)
    requires |s.nodes| == |s.status|
  {
    forall p: nat, c: nat :: p < |s.trace| && Child(s.nodes, s.trace[p], c) ==>
      c in s.trace[..p] || Broken(s.nodes, s.status, c)
  }

  lemma StepOrdered(s: State, step: Step, p: nat, c: nat)
    requires TableOk(s) && AllFit(s.nodes, s.status) && TraceFits(s) && RanOrBroken(s) && OrderedButBroken(s)
    requires Enabled(s, step) && |Apply(s, step).nodes| == |Apply(s, step).status|
    requires p < |Apply(s, step).trace| && Child(Apply(s, step).nodes, Apply(s, step).trace[p], c)
    ensures c in Apply(s, step).trace[..p] || Broken(Apply(s, step).nodes, Apply(s, step).status, c)
  {
    var s' := Apply(s, step);
    if p < |s.trace| {
      assert s'.trace[..p] == s.trace[..p];
      if step.AddFlow? { AddedNodesStayApart(s, step.flow, s.trace[p]); }
      assert Child(s.nodes, s.trace[p], c);
    } else {
      assert Fits(s.nodes, s.status, step.node);
      assert Resolved(s.nodes, s.status, c);
      assert s'.trace[..p] == s.trace;
    }
    if Broken(s.nodes, s.status, c) { BrokenStays(s, step, c); }
  }

  lemma {:induction false} ReachableOrder(steps: seq<Step>)
    requires Exec(INIT, steps).Some?
    ensures var s := Exec(INIT, steps).value; RanOrBroken(s) && OrderedButBroken(s)
  {
    if steps != [] {
      var before, last := steps[..|steps| - 1], steps[|steps| - 1];
      ReachableOrder(before);
      ReachableTrace(before);
      var s := Exec(INIT, before).value;
      var s' := Apply(s, last);
      forall i: nat | i < |s'.nodes| && s'.status[i].Failed?
        ensures i in s'.trace || Broken(s'.nodes, s'.status, i)
      {
        StepRan(s, last, i);
      }
      forall p: nat, c: nat | p < |s'.trace| && Child(s'.nodes, s'.trace[p], c)
        ensures c in s'.trace[..p] || Broken(s'.nodes, s'.status, c)
      {
        StepOrdered(s, last, p, c);
      }
    }
  }

  lemma BrokenNeverRan(s: State, i: nat)
    requires |s.nodes| == |s.status| && TraceFits(s) && i < |s.nodes| && Broken(s.nodes, s.status, i)
    ensures i !in s.trace && !AllResolved(s.nodes, s.status, i)
  {
    var c: nat :| c < |s.nodes| && Child(s.nodes, i, c) && Breaks(s.nodes, s.status, c);
    assert !Resolved(s.nodes, s.status, c);
  }

  /** Some entry's node has a child that was failed by a child of its own. */
  ghost predicate RanOverBroken(s: State)
    requires |s.nodes| == |s.status|
  {
    exists i: nat, c: nat :: i in s.trace && Child(s.nodes, i, c) && Broken(s.nodes, s.status, c)
  }

  /** In every reachable state, children come first exactly when no node ran over a child that was failed from below. */
  lemma OrderFailsExactly(steps: seq<Step>)
    requires Exec(INIT, steps).Some?
    ensures var s := Exec(INIT, steps).value; ChildrenFirst(s.nodes, s.trace) <==> !RanOverBroken(s)
  {
    ReachableTrace(steps);
    ReachableOrder(steps);
    var s := Exec(INIT, steps).value;
    if RanOverBroken(s) {
      var i: nat, c: nat :| i in s.trace && Child(s.nodes, i, c) && Broken(s.nodes, s.status, c);
      var p: nat :| p < |s.trace| && s.trace[p] == i;
      BrokenNeverRan(s, c);
      assert Child(s.nodes, s.trace[p], c) && c !in s.trace[..p];
    } else {
      forall p: nat, c: nat | p < |s.trace| && Child(s.nodes, s.trace[p], c) ensures c in s.trace[..p] {
        assert s.trace[p] in s.trace;
      }
    }
  }

  // ---- ... read off the trees ----

  predicate ResolvedFinal(nodes: seq<Node>, c: nat, final: Status)
    requires c < |nodes|
  {
    final.Completed? || (final.Failed? && nodes[c].posture.Ignore?)
  }

  /** Child `i` of `p` ends failed by a child of its own, that failure is ignored, and nothing else holds `p` back. */
  ghost predicate Leaks(nodes: seq<Node>, p: nat, i: nat)
    requires Segment(nodes, 0, -1)
  {
    && Child(nodes, p, i) && nodes[i].posture.Ignore?
    && (exists c: nat :: c < |nodes| && Child(nodes, i, c) && FinalOf(nodes, c).Failed? && nodes[c].posture.FailParent?)
    && (forall d: nat :: d < |nodes| && Child(nodes, p, d) ==> ResolvedFinal(nodes, d, FinalOf(nodes, d)))
  }

  ghost predicate AtFinal(s: State)
    requires TableOk(s)
  {
    forall i: nat :: i < |s.nodes| ==> s.status[i] == FinalOf(s.nodes, i)
  }

  lemma LeakRuns(s: State, p: nat, i: nat)
    requires TableOk(s) && AllFit(s.nodes, s.status) && TraceFits(s) && RanOrBroken(s) && Quiescent(s) && AtFinal(s)
    requires p < |s.nodes| && Leaks(s.nodes, p, i)
    ensures p in s.trace && Child(s.nodes, p, i) && Broken(s.nodes, s.status, i)
  {
    var c: nat :| c < |s.nodes| && Child(s.nodes, i, c)
      && FinalOf(s.nodes, c).Failed? && s.nodes[c].posture.FailParent?;
    assert Breaks(s.nodes, s.status, c);
    assert AllResolved(s.nodes, s.status, p) by {
      forall d: nat | d < |s.nodes| && Child(s.nodes, p, d) ensures Resolved(s.nodes, s.status, d) {
        assert s.status[d] == FinalOf(s.nodes, d);
      }
    }
    assert Fits(s.nodes, s.status, p);
    assert !s.status[p].Waiting? && !s.status[p].Active?;
    if Broken(s.nodes, s.status, p) { BrokenNeverRan(s, p); }
  }

  lemma RanOverLeak(s: State, p: nat, i: nat)
    requires TableOk(s) && AllFit(s.nodes, s.status) && TraceFits(s) && AtFinal(s)
    requires p in s.trace && Child(s.nodes, p, i) && Broken(s.nodes, s.status, i)
    ensures p < |s.nodes| && Leaks(s.nodes, p, i)
  {
    BrokenNeverRan(s, i);
    assert Fits(s.nodes, s.status, i);
    assert AllResolved(s.nodes, s.status, p);
    assert Resolved(s.nodes, s.status, i);
    var c: nat :| c < |s.nodes| && Child(s.nodes, i, c) && Breaks(s.nodes, s.status, c);
    assert s.status[c] == FinalOf(s.nodes, c);
    forall d: nat | d < |s.nodes| && Child(s.nodes, p, d) ensures ResolvedFinal(s.nodes, d, FinalOf(s.nodes, d)) {
      assert Resolved(s.nodes, s.status, d) && s.status[d] == FinalOf(s.nodes, d);
    }
  }

  /** Main result: a run at rest has recorded children before parents if and only if none of its trees leaks. */
  lemma OrderAtRest(steps: seq<Step>)
    requires Exec(INIT, steps).Some? && Quiescent(Exec(INIT, steps).value)
    ensures var s := Exec(INIT, steps).value;
      ChildrenFirst(s.nodes, s.trace) <==> !exists p: nat, i: nat :: p < |s.nodes| && Leaks(s.nodes, p, i)
  {
    ReachableTrace(steps);
    ReachableOrder(steps);
    RestIsDetermined(steps);
    OrderFailsExactly(steps);
    var s := Exec(INIT, steps).value;
    if RanOverBroken(s) {
      var p: nat, i: nat :| p in s.trace && Child(s.nodes, p, i) && Broken(s.nodes, s.status, i);
      RanOverLeak(s, p, i);
    }
    forall p: nat, i: nat | p < |s.nodes| && Leaks(s.nodes, p, i) ensures RanOverBroken(s) {
      LeakRuns(s, p, i);
    }
  }

  /** Trees that flag only leaves do not leak. */
  lemma LeafFlagsNeverLeak(nodes: seq<Node>, p: nat, i: nat)
    requires Segment(nodes, 0, -1) && LeafFlags(nodes)
    ensures !Leaks(nodes, p, i)
  {
    forall c: nat | c < |nodes| && Child(nodes, i, c) ensures i < |nodes| && !nodes[i].leaf {
      assert NodeOk(nodes, 0, -1, c);
    }
  }

  // ---- A parent's entry comes last ----

  lemma {:induction false} ResolvedBelow(s: State, a: nat, j: nat)
    requires TableOk(s) && AllFit(s.nodes, s.status) && LeafFlags(s.nodes) && AllResolved(s.nodes, s.status, a)
    requires j < |s.nodes| && Descendant(s.nodes, a, j)
    ensures Resolved(s.nodes, s.status, j)
    decreases j
  {
    assert NodeOk(s.nodes, 0, -1, j);
    var m := s.nodes[j].parent;
    if m == a {
      assert Child(s.nodes, a, j);
    } else {
      ResolvedBelow(s, a, m);
      assert Fits(s.nodes, s.status, m);
      assert Child(s.nodes, m, j);
    }
  }

  lemma {:induction false} DescendantInLonger(nodes: seq<Node>, longer: seq<Node>, a: nat, j: nat)
    requires Segment(nodes, 0, -1) && Segment(longer, 0, -1) && nodes <= longer && j < |nodes|
    ensures Descendant(longer, a, j) <==> Descendant(nodes, a, j)
    decreases j
  {
    assert NodeOk(nodes, 0, -1, j);
    var m := nodes[j].parent;
    if m >= 0 && m != a { DescendantInLonger(nodes, longer, a, m); }
  }

  /** No entry of the trace is followed by one of a descendant of its node. */
  ghost predicate ParentsLast(nodes: seq<Node>, trace: seq<nat>)
    requires Segment(nodes, 0, -1)
  {
    forall p: nat, q: nat :: p < q < |trace| && trace[q] < |nodes| ==> !Descendant(nodes, trace[p], trace[q])
  }

  lemma StepParentsLast(s: State, step: Step, p: nat, q: nat)
    requires TableOk(s) && AllFit(s.nodes, s.status) && TraceFits(s)
    requires LeafFlags(s.nodes) && ParentsLast(s.nodes, s.trace)
    requires Enabled(s, step) && TableOk(Apply(s, step))
    requires var s' := Apply(s, step); p < q < |s'.trace| && s'.trace[q] < |s'.nodes|
    ensures var s' := Apply(s, step); !Descendant(s'.nodes, s'.trace[p], s'.trace[q])
  {
    var s' := Apply(s, step);
    if q < |s.trace| {
      assert s'.trace[p] == s.trace[p] && s'.trace[q] == s.trace[q] < |s.nodes|;
      DescendantInLonger(s.nodes, s'.nodes, s.trace[p], s.trace[q]);
    } else {
      var a := s.trace[p];
      assert a in s.trace && AllResolved(s.nodes, s.status, a);
      if Descendant(s.nodes, a, step.node) { ResolvedBelow(s, a, step.node); }
    }
  }

  /**
   * Main result: with failure-ignoring flags on leaves only, a node's entries come after the last entry of every
   * descendant, over every run, with any number of flows and with jobs delivered more than once.
   */
  lemma {:induction false} ParentEntryLandsLast(steps: seq<Step>)
    requires Exec(INIT, steps).Some? && AddsFlagsOnLeaves(steps)
    ensures ParentsLast(Exec(INIT, steps).value.nodes, Exec(INIT, steps).value.trace)
  {
    if steps != [] {
      var before, last := steps[..|steps| - 1], steps[|steps| - 1];
      assert forall step :: step in before ==> step in steps;
      ParentEntryLandsLast(before);
      ReachableTrace(before);
      var s := Exec(INIT, before).value;
      var s' := Apply(s, last);
      StepKeepsTable(s, last);
      forall p: nat, q: nat | p < q < |s'.trace| && s'.trace[q] < |s'.nodes|
        ensures !Descendant(s'.nodes, s'.trace[p], s'.trace[q])
      {
        StepParentsLast(s, last, p, q);
      }
    }
  }

  // ---- What the bounded list shows of it ----

  /** The entries of the trace that are still in the list. */
  function Visible(trace: seq<nat>): seq<nat> { LastN(trace, 500) }

  /** What the handlers record along a run: each call its job's name, at what `clock` shows for that entry. */
  ghost function Recorded(steps: seq<Step>, clock: nat -> int): seq<FlowTraceEntry>
    requires Exec(INIT, steps).Some?
  {
    if steps == [] then []
    else
      var before, last := steps[..|steps| - 1], steps[|steps| - 1];
      var so := Recorded(before, clock);
      so + if last.Start? then [FlowTraceEntry(Exec(INIT, before).value.nodes[last.node].name, clock(|so|))] else []
  }

  /** Entry by entry, what was recorded names the nodes of the trace. */
  ghost predicate NamesTrace(recorded: seq<FlowTraceEntry>, nodes: seq<Node>, trace: seq<nat>, clock: nat -> int) {
    && |recorded| == |trace|
    && forall p: nat :: p < |trace| ==>
         trace[p] < |nodes| && recorded[p] == FlowTraceEntry(nodes[trace[p]].name, clock(p))
  }

  lemma {:induction false} RecordedIsTrace(steps: seq<Step>, clock: nat -> int)
    requires Exec(INIT, steps).Some?
    ensures NamesTrace(Recorded(steps, clock), Exec(INIT, steps).value.nodes, Exec(INIT, steps).value.trace, clock)
  {
    if steps != [] {
      var before, last := steps[..|steps| - 1], steps[|steps| - 1];
      RecordedIsTrace(before, clock);
      NamesTraceKept(Recorded(before, clock), Exec(INIT, before).value, last, clock);
    }
  }

  lemma NamesTraceKept(recorded: seq<FlowTraceEntry>, s: State, step: Step, clock: nat -> int)
    requires TableOk(s) && Enabled(s, step) && NamesTrace(recorded, s.nodes, s.trace, clock)
    ensures var s' := Apply(s, step);
      var more := if step.Start? then [FlowTraceEntry(s.nodes[step.node].name, clock(|recorded|))] else [];
      NamesTrace(recorded + more, s'.nodes, s'.trace, clock)
  {
  }

  /** Over every run the list shows, position by position, the names of the visible entries of the trace. */
  lemma VisibleNames(steps: seq<Step>, clock: nat -> int, k: nat)
    requires Exec(INIT, steps).Some?
    ensures var s, listed := Exec(INIT, steps).value, LastN(Recorded(steps, clock), 500);
      && |listed| == |Visible(s.trace)|
      && (k < |listed| ==> Visible(s.trace)[k] < |s.nodes| && listed[k].node == s.nodes[Visible(s.trace)[k]].name)
  {
    RecordedIsTrace(steps, clock);
  }

  lemma VisibleAt(trace: seq<nat>, k: nat)
    requires k < |Visible(trace)|
    ensures var cut := |trace| - |Visible(trace)|; Visible(trace)[k] == trace[cut + k]
  {
  }

  /**
   * Main result: in the list too no descendant's entry follows its ancestor's; each descendant of a listed node is
   * listed before it if and only if it is still listed at all; and nothing is missing until the list has overflowed.
   */
  lemma VisibleOrder(steps: seq<Step>, p: nat, j: nat)
    requires Exec(INIT, steps).Some? && AddsFlagsOnLeaves(steps)
    requires var s := Exec(INIT, steps).value;
      p < |Visible(s.trace)| && j < |s.nodes| && Descendant(s.nodes, Visible(s.trace)[p], j)
    ensures var s := Exec(INIT, steps).value;
      && j !in Visible(s.trace)[p + 1..]
      && (j in Visible(s.trace)[..p] <==> j in Visible(s.trace))
      && (|s.trace| <= 500 ==> j in Visible(s.trace)[..p])
  {
    ParentEntryLandsLast(steps);
    ReachableTrace(steps);
    var s := Exec(INIT, steps).value;
    var v, cut := Visible(s.trace), |s.trace| - |Visible(s.trace)|;
    VisibleAt(s.trace, p);
    forall q: nat | p <= q < |v| ensures v[q] != j {
      VisibleAt(s.trace, q);
      if q == p { NotItsOwnDescendant(s.nodes, v[p], j); }
    }
    if |s.trace| <= 500 { TraceShowsDescendantsFirst(steps, p, j); }
  }

  lemma {:induction false} NotItsOwnDescendant(nodes: seq<Node>, a: nat, j: nat)
    requires Segment(nodes, 0, -1) && j < |nodes| && Descendant(nodes, a, j)
    ensures a < j
    decreases j
  {
    assert NodeOk(nodes, 0, -1, j);
    var m := nodes[j].parent;
    if m != a { NotItsOwnDescendant(nodes, a, m); }
  }
}
