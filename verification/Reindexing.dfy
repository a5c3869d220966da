/**
 * The deduplication report (apps/api/src/search/reindex.service.ts). Each request reads the job its key points at,
 * waits, then enqueues; any number of requests interleave, and keys may expire or be cleared at any time. Of the queue
 * only this is assumed: an enqueue returns either a job issued before, inserting nothing, or a fresh one; and when
 * neither replacement nor keep-last is asked for, it returns the job the key points at if there is one, and otherwise
 * a fresh job that the key then points at.
 */
module Reindexing {
  import opened Prelude

  datatype DedupMode = Simple | Throttle | Debounce | KeepLast

  datatype JobsOptions = JobsOptions(
    id: string, ttl: Option<nat>, extend: bool, replace: bool, keepLastIfActive: bool, delay: Option<nat>)

  const DEDUP_TTL_MS: nat := 5000
  const DEBOUNCE_DELAY_MS: nat := 2000

  function DedupId(term: string): string { "reindex:" + term }

  function ReindexOptions(mode: DedupMode, id: string): JobsOptions {
    match mode
    case Simple => JobsOptions(id, None, false, false, false, None)
    case Throttle => JobsOptions(id, Some(DEDUP_TTL_MS), false, false, false, None)
    case Debounce => JobsOptions(id, Some(DEDUP_TTL_MS), true, true, false, Some(DEBOUNCE_DELAY_MS))
    case KeepLast => JobsOptions(id, None, false, false, true, None)
  }

  lemma DedupIdsDiffer(a: string, b: string)
    ensures DedupId(a) == DedupId(b) <==> a == b
  {
    ConcatParts("reindex:", a);
    ConcatParts("reindex:", b);
  }

  /** `inserted` is whether the enqueue inserted a job. */
  datatype Request =
    | Looked(term: string, mode: DedupMode, existing: Option<nat>)
    | Answered(term: string, mode: DedupMode, existing: Option<nat>, inserted: bool, jobId: nat, deduplicated: bool)

  datatype State = State(issued: set<nat>, keys: map<string, nat>, requests: map<nat, Request>)

  /** What an enqueue did: `Reuse` an issued job or `Insert` a fresh one; `key` is the key's target afterwards. */
  datatype Outcome = Reuse(id: nat, key: Option<nat>) | Insert(id: nat, key: Option<nat>)

  datatype Step =
    | Look(r: nat, term: string, mode: DedupMode)
    | Enqueue(r: nat, outcome: Outcome)
    | LoseKey(key: string)

  const INIT := State({}, map[], map[])

  function KeyOf(s: State, id: string): Option<nat> {
    if id in s.keys then Some(s.keys[id]) else None
  }

  /** What the queue may do with an enqueue under these options. */
  predicate Allowed(s: State, opts: JobsOptions, outcome: Outcome) {
    && (outcome.Reuse? <==> outcome.id in s.issued)
    && (outcome.key.Some? ==> outcome.key.value in s.issued || outcome.key.value == outcome.id)
    && (!opts.replace && !opts.keepLastIfActive ==>
          outcome == if opts.id in s.keys then Reuse(s.keys[opts.id], Some(s.keys[opts.id]))
                     else Insert(outcome.id, Some(outcome.id)))
  }

  /** Which mode asks for what: a time to live, extended by later requests, replacement with a delay, or keep-last. */
  lemma ModesAsk(mode: DedupMode, term: string)
    ensures var opts := ReindexOptions(mode, DedupId(term));
      && opts.id == "reindex:" + term
      && opts.ttl == (if mode in {Throttle, Debounce} then Some(5000) else None)
      && (opts.extend <==> mode == Debounce)
      && (opts.replace <==> mode == Debounce)
      && opts.delay == (if mode == Debounce then Some(2000) else None)
      && (opts.keepLastIfActive <==> mode == KeepLast)
  {
  }

  /**
   * What the queue may then do: a simple or throttle request is collapsed into the keyed job if there is one and
   * inserts a fresh, then keyed, job if there is none; for the other two any issued or a fresh job may be returned.
   */
  lemma ModesAllow(s: State, mode: DedupMode, term: string, outcome: Outcome)
    requires forall key :: key in s.keys ==> s.keys[key] in s.issued
    ensures var key := KeyOf(s, DedupId(term));
      Allowed(s, ReindexOptions(mode, DedupId(term)), outcome) <==>
        if mode in {Simple, Throttle} then
          if key.Some? then outcome == Reuse(key.value, key)
          else outcome.Insert? && outcome.id !in s.issued && outcome.key == Some(outcome.id)
        else
          && (outcome.Reuse? <==> outcome.id in s.issued)
          && (outcome.key.Some? ==> outcome.key.value in s.issued + {outcome.id})
  {
  }

  predicate Enabled(s: State, step: Step) {
    match step
    case Look(r, _, _) => r !in s.requests
    case Enqueue(r, outcome) =>
      && r in s.requests && s.requests[r].Looked?
      && Allowed(s, ReindexOptions(s.requests[r].mode, DedupId(s.requests[r].term)), outcome)
    case LoseKey(_) => true
  }

  function Apply(s: State, step: Step): State
    requires Enabled(s, step)
  {
    match step
    case Look(r, term, mode) => s.(requests := s.requests[r := Looked(term, mode, KeyOf(s, DedupId(term)))])
    case Enqueue(r, outcome) =>
      var q := s.requests[r];
      var id := DedupId(q.term);
      var answer := Answered(q.term, q.mode, q.existing, outcome.Insert?, outcome.id,
                             q.existing.Some? && outcome.id == q.existing.value);
      State(s.issued + {outcome.id},
            if outcome.key.None? then s.keys - {id} else s.keys[id := outcome.key.value],
            s.requests[r := answer])
    case LoseKey(key) => s.(keys := s.keys - {key})
  }

  function Exec(steps: seq<Step>): Option<State> {
    if steps == [] then Some(INIT)
    else
      var before, last := Exec(steps[..|steps| - 1]), steps[|steps| - 1];
      if before.Some? && Enabled(before.value, last) then Some(Apply(before.value, last)) else None
  }

  ghost predicate RequestOk(s: State, q: Request) {
    && (q.existing.Some? ==> q.existing.value in s.issued)
    && (q.Answered? ==>
          && (q.deduplicated <==> q.existing == Some(q.jobId))
          && (q.deduplicated ==> !q.inserted))
  }

  ghost predicate Ok(s: State) {
    && (forall key :: key in s.keys ==> s.keys[key] in s.issued)
    && (forall r :: r in s.requests ==> RequestOk(s, s.requests[r]))
  }

  lemma StepKeeps(s: State, step: Step)
    requires Ok(s) && Enabled(s, step)
    ensures Ok(Apply(s, step))
  {
    var s' := Apply(s, step);
    if step.Enqueue? { assert RequestOk(s, s.requests[step.r]); }
    forall r | r in s'.requests ensures RequestOk(s', s'.requests[r]) {
      if r in s.requests { assert RequestOk(s, s.requests[r]); }
    }
  }

  lemma {:induction false} Reachable(steps: seq<Step>)
    ensures Exec(steps).Some? ==> Ok(Exec(steps).value)
  {
    if steps != [] && Exec(steps).Some? {
      var before := steps[..|steps| - 1];
      Reachable(before);
      StepKeeps(Exec(before).value, steps[|steps| - 1]);
    }
  }

  /**
   * Main result: in every interleaving, in all four modes, `deduplicated: true` means the request inserted nothing and
   * returned the very job its key pointed at when it was read.
   */
  lemma DeduplicatedIsTrue(steps: seq<Step>, r: nat)
    requires Exec(steps).Some? && r in Exec(steps).value.requests && Exec(steps).value.requests[r].Answered?
    ensures var q := Exec(steps).value.requests[r];
      && (q.deduplicated <==> q.existing == Some(q.jobId))
      && (q.deduplicated ==> !q.inserted)
  {
    Reachable(steps);
    assert RequestOk(Exec(steps).value, Exec(steps).value.requests[r]);
  }

  // ---- When a collapse goes unreported ----

  predicate Collapsing(mode: DedupMode) { mode.Simple? || mode.Throttle? }

  /** Step `k` leads from state `k` to the next. */
  predicate StepAt(steps: seq<Step>, ss: seq<State>, k: nat)
    requires k < |steps| && |ss| == |steps| + 1
  {
    Enabled(ss[k], steps[k]) && ss[k + 1] == Apply(ss[k], steps[k])
  }

  /** The run of the steps goes through the states `ss`. */
  ghost predicate History(steps: seq<Step>, ss: seq<State>) {
    |ss| == |steps| + 1 && ss[0] == INIT && forall k: nat :: k < |steps| ==> StepAt(steps, ss, k)
  }

  /** Every run has a history, and ends where the history ends. */
  lemma {:induction false} RunHasHistory(steps: seq<Step>) returns (ss: seq<State>)
    ensures Exec(steps).Some? ==> History(steps, ss) && Exec(steps) == Some(ss[|steps|])
  {
    ss := [INIT];
    if steps != [] && Exec(steps).Some? {
      var before := RunHasHistory(steps[..|steps| - 1]);
      ss := before + [Exec(steps).value];
      forall k: nat | k < |steps| ensures StepAt(steps, ss, k) {
        if k < |steps| - 1 { assert StepAt(steps[..|steps| - 1], before, k); }
      }
    }
  }

  lemma {:induction false} HistoryOk(steps: seq<Step>, ss: seq<State>, k: nat)
    requires History(steps, ss) && k <= |steps|
    ensures Ok(ss[k])
  {
    if k > 0 {
      HistoryOk(steps, ss, k - 1);
      assert StepAt(steps, ss, k - 1);
      StepKeeps(ss[k - 1], steps[k - 1]);
    }
  }

  /** What the step makes the key point at; `None` for a step that does not touch it. */
  function Touch(s: State, id: string, step: Step): Option<Option<nat>>
    requires Enabled(s, step)
  {
    match step
    case Look(_, _, _) => None
    case Enqueue(r, outcome) => if DedupId(s.requests[r].term) == id then Some(outcome.key) else None
    case LoseKey(key) => if key == id then Some(None) else None
  }

  /** What the last of the steps from `i` on, up to `j`, that set or lost the key left it pointing at. */
  ghost function LastTouch(steps: seq<Step>, ss: seq<State>, i: nat, j: nat, id: string): Option<Option<nat>>
    requires History(steps, ss) && i <= j <= |steps|
    decreases j
  {
    if i == j then None
    else
      assert StepAt(steps, ss, j - 1);
      var touch := Touch(ss[j - 1], id, steps[j - 1]);
      if touch.Some? then touch else LastTouch(steps, ss, i, j - 1, id)
  }

  lemma TouchSets(s: State, id: string, step: Step)
    requires Enabled(s, step)
    ensures KeyOf(Apply(s, step), id) == if Touch(s, id, step).Some? then Touch(s, id, step).value else KeyOf(s, id)
  {
  }

  lemma {:induction false} KeyAfter(steps: seq<Step>, ss: seq<State>, i: nat, j: nat, id: string)
    requires History(steps, ss) && i <= j <= |steps|
    ensures KeyOf(ss[j], id)
         == if LastTouch(steps, ss, i, j, id).Some? then LastTouch(steps, ss, i, j, id).value else KeyOf(ss[i], id)
    decreases j
  {
    if i < j {
      KeyAfter(steps, ss, i, j - 1, id);
      assert StepAt(steps, ss, j - 1);
      TouchSets(ss[j - 1], id, steps[j - 1]);
    }
  }

  /** A request is as it was, or has been answered since; an answered one is as it was. */
  predicate Stays(s: State, s': State, r: nat) {
    && r in s.requests && r in s'.requests
    && (s'.requests[r] == s.requests[r] || (s.requests[r].Looked? && s'.requests[r].Answered?))
  }

  lemma StaysOneStep(s: State, mid: State, step: Step, r: nat)
    requires Stays(s, mid, r) && Enabled(mid, step)
    ensures Stays(s, Apply(mid, step), r)
  {
  }

  lemma {:induction false} RequestStays(steps: seq<Step>, ss: seq<State>, i: nat, j: nat, r: nat)
    requires History(steps, ss) && i <= j <= |steps| && r in ss[i].requests
    ensures Stays(ss[i], ss[j], r)
    decreases j
  {
    if i < j {
      RequestStays(steps, ss, i, j - 1, r);
      assert StepAt(steps, ss, j - 1);
      StaysOneStep(ss[i], ss[j - 1], steps[j - 1], r);
    }
  }

  /** In the run through `ss`, request `r` for `term` is read at step `i` and enqueued at step `j`. */
  ghost predicate Spans(steps: seq<Step>, ss: seq<State>, r: nat, term: string, mode: DedupMode, i: nat, j: nat) {
    && i < j < |steps| && History(steps, ss)
    && steps[i] == Look(r, term, mode) && steps[j].Enqueue? && steps[j].r == r
  }

  /** The report is wrong: a collapse reported as `false`, or an insertion as `true`. */
  predicate Misreported(q: Request) {
    q.Answered? && (q.deduplicated <==> q.inserted)
  }

  lemma ReadLasts(s: State, next: State, later: State, r: nat, term: string, mode: DedupMode, step: Step)
    requires Enabled(s, Look(r, term, mode)) && next == Apply(s, Look(r, term, mode)) && Stays(next, later, r)
    requires step.Enqueue? && step.r == r && Enabled(later, step)
    ensures later.requests[r] == Looked(term, mode, KeyOf(s, DedupId(term)))
  {
  }

  lemma AnswerLasts(s: State, step: Step, end: State)
    requires step.Enqueue? && Enabled(s, step) && Stays(Apply(s, step), end, step.r)
    ensures end.requests[step.r] == Apply(s, step).requests[step.r]
  {
  }

  /** A request is answered against what the key pointed at when it was read, and its answer stays. */
  lemma ReadThenAnswered(steps: seq<Step>, ss: seq<State>, r: nat, term: string, mode: DedupMode, i: nat, j: nat)
    requires Spans(steps, ss, r, term, mode, i, j)
    ensures Enabled(ss[j], steps[j]) && ss[j].requests[r] == Looked(term, mode, KeyOf(ss[i], DedupId(term)))
    ensures r in ss[|steps|].requests && ss[|steps|].requests[r] == Apply(ss[j], steps[j]).requests[r]
  {
    assert StepAt(steps, ss, i) && StepAt(steps, ss, j);
    RequestStays(steps, ss, i + 1, j, r);
    ReadLasts(ss[i], ss[i + 1], ss[j], r, term, mode, steps[j]);
    RequestStays(steps, ss, j + 1, |steps|, r);
    AnswerLasts(ss[j], steps[j], ss[|steps|]);
  }

  /** No enqueue between the two is the request's own. */
  lemma OthersBetween(steps: seq<Step>, ss: seq<State>, r: nat, term: string, mode: DedupMode, i: nat, j: nat, k: nat)
    requires Spans(steps, ss, r, term, mode, i, j) && i < k < j && steps[k].Enqueue?
    ensures steps[k].r != r
  {
    assert StepAt(steps, ss, k) && StepAt(steps, ss, j);
    if steps[k].r == r { RequestStays(steps, ss, k + 1, j, r); }
  }

  lemma AnswerReports(s: State, r: nat, outcome: Outcome)
    requires Ok(s) && Enabled(s, Enqueue(r, outcome)) && Collapsing(s.requests[r].mode)
    ensures var q, now := s.requests[r], KeyOf(s, DedupId(s.requests[r].term));
      Misreported(Apply(s, Enqueue(r, outcome)).requests[r]) <==> now.Some? && now != q.existing
  {
    assert RequestOk(s, s.requests[r]);
  }

  /**
   * Main result: in simple and throttle mode, among any other traffic, the report is wrong if and only if the last step
   * between the request's read and its enqueue that set or lost the key left it at a job other than the one read.
   */
  lemma ReportIsExact(steps: seq<Step>, ss: seq<State>, r: nat, term: string, mode: DedupMode, i: nat, j: nat)
    requires Spans(steps, ss, r, term, mode, i, j) && Collapsing(mode)
    ensures r in ss[|steps|].requests
    ensures var read, touch := KeyOf(ss[i], DedupId(term)), LastTouch(steps, ss, i + 1, j, DedupId(term));
      Misreported(ss[|steps|].requests[r]) <==> touch.Some? && touch.value.Some? && touch.value != read
  {
    ReadThenAnswered(steps, ss, r, term, mode, i, j);
    HistoryOk(steps, ss, j);
    AnswerReports(ss[j], r, steps[j].outcome);
    assert StepAt(steps, ss, i);
    KeyAfter(steps, ss, i + 1, j, DedupId(term));
  }

  // ---- With only collapsing traffic on the term ----

  /** Every request for the term is in simple or throttle mode. */
  predicate OnlyCollapsing(steps: seq<Step>, term: string) {
    forall step :: step in steps && step.Look? && step.term == term ==> Collapsing(step.mode)
  }

  ghost predicate TermCollapses(s: State, term: string) {
    forall r :: r in s.requests && s.requests[r].term == term ==> Collapsing(s.requests[r].mode)
  }

  lemma {:induction false} RequestsCollapse(steps: seq<Step>, ss: seq<State>, term: string, k: nat)
    requires History(steps, ss) && k <= |steps| && OnlyCollapsing(steps, term)
    ensures TermCollapses(ss[k], term)
  {
    if k > 0 {
      RequestsCollapse(steps, ss, term, k - 1);
      assert StepAt(steps, ss, k - 1);
      assert steps[k - 1] in steps;
    }
  }

  /** Step `k` is an enqueue for the term that inserts a job. */
  ghost predicate InsertsAt(steps: seq<Step>, ss: seq<State>, k: nat, term: string)
    requires History(steps, ss) && k < |steps|
  {
    assert StepAt(steps, ss, k);
    Inserts(ss[k], steps[k], term)
  }

  predicate Inserts(s: State, step: Step, term: string)
    requires Enabled(s, step)
  {
    step.Enqueue? && step.outcome.Insert? && s.requests[step.r].term == term
  }

  /** None of the steps from `i` on, up to `j`, loses the key. */
  predicate KeyKept(steps: seq<Step>, i: nat, j: nat, id: string)
    requires j <= |steps|
  {
    forall k: nat :: i <= k < j ==> steps[k] != LoseKey(id)
  }

  /** Some enqueue for the term from `i` on, up to `j`, inserted a job, and the key was not lost after it. */
  ghost predicate Replaced(steps: seq<Step>, ss: seq<State>, i: nat, j: nat, term: string)
    requires History(steps, ss) && j <= |steps|
  {
    exists k: nat :: i <= k < j && InsertsAt(steps, ss, k, term) && KeyKept(steps, k + 1, j, DedupId(term))
  }

  lemma ReplacedNext(steps: seq<Step>, ss: seq<State>, i: nat, j: nat, term: string)
    requires History(steps, ss) && i <= j < |steps|
    ensures Replaced(steps, ss, i, j + 1, term)
      <==> InsertsAt(steps, ss, j, term) || (steps[j] != LoseKey(DedupId(term)) && Replaced(steps, ss, i, j, term))
  {
    var id := DedupId(term);
    if Replaced(steps, ss, i, j + 1, term) {
      var k: nat :| i <= k < j + 1 && InsertsAt(steps, ss, k, term) && KeyKept(steps, k + 1, j + 1, id);
      assert k < j ==> KeyKept(steps, k + 1, j, id);
    }
    if InsertsAt(steps, ss, j, term) { assert KeyKept(steps, j + 1, j + 1, id); }
    if steps[j] != LoseKey(id) && Replaced(steps, ss, i, j, term) {
      var k: nat :| i <= k < j && InsertsAt(steps, ss, k, term) && KeyKept(steps, k + 1, j, id);
      assert KeyKept(steps, k + 1, j + 1, id);
    }
  }

  /** A collapsing step: only an insertion moves the key to another job, and only to one that was not issued before. */
  lemma CollapsingStep(s: State, step: Step, term: string)
    requires Ok(s) && Enabled(s, step) && TermCollapses(s, term)
    ensures var key, key' := KeyOf(s, DedupId(term)), KeyOf(Apply(s, step), DedupId(term));
      if Inserts(s, step, term) then key' == Some(step.outcome.id)
      else if step == LoseKey(DedupId(term)) then key' == None
      else key' == key
  {
    if step.Enqueue? {
      DedupIdsDiffer(s.requests[step.r].term, term);
    }
  }

  /** The key points at a job other than the one read if and only if it was `replaced`. */
  predicate MovedIff(s: State, id: string, read: Option<nat>, replaced: bool) {
    && (read.Some? ==> read.value in s.issued)
    && (KeyOf(s, id).Some? && KeyOf(s, id) != read <==> replaced)
  }

  lemma MovedIffNext(s: State, step: Step, term: string, read: Option<nat>, replaced: bool, inserts: bool)
    requires Ok(s) && Enabled(s, step) && TermCollapses(s, term) && MovedIff(s, DedupId(term), read, replaced)
    requires inserts <==> Inserts(s, step, term)
    ensures MovedIff(Apply(s, step), DedupId(term), read, inserts || (step != LoseKey(DedupId(term)) && replaced))
  {
    CollapsingStep(s, step, term);
  }

  lemma {:induction false} KeyMovesByInsertion(steps: seq<Step>, ss: seq<State>, i: nat, j: nat, term: string)
    requires History(steps, ss) && i <= j <= |steps| && OnlyCollapsing(steps, term)
    ensures MovedIff(ss[j], DedupId(term), KeyOf(ss[i], DedupId(term)), Replaced(steps, ss, i, j, term))
    decreases j
  {
    if i == j {
      HistoryOk(steps, ss, i);
    } else {
      KeyMovesByInsertion(steps, ss, i, j - 1, term);
      HistoryOk(steps, ss, j - 1);
      RequestsCollapse(steps, ss, term, j - 1);
      assert StepAt(steps, ss, j - 1);
      MovedIffNext(ss[j - 1], steps[j - 1], term, KeyOf(ss[i], DedupId(term)), Replaced(steps, ss, i, j - 1, term),
                   InsertsAt(steps, ss, j - 1, term));
      ReplacedNext(steps, ss, i, j - 1, term);
    }
  }

  /**
   * Main result: when all requests for a term are in simple or throttle mode, a report is wrong if and only if, between
   * the request's read and its enqueue, another request inserted a job and the key was not lost after that.
   */
  lemma WrongByInsertion(steps: seq<Step>, ss: seq<State>, r: nat, term: string, mode: DedupMode, i: nat, j: nat)
    requires Spans(steps, ss, r, term, mode, i, j) && OnlyCollapsing(steps, term)
    ensures r in ss[|steps|].requests
    ensures Misreported(ss[|steps|].requests[r]) <==> Replaced(steps, ss, i + 1, j, term)
    ensures forall k: nat :: i < k < j && steps[k].Enqueue? ==> steps[k].r != r
  {
    assert steps[i] in steps;
    ReadThenAnswered(steps, ss, r, term, mode, i, j);
    HistoryOk(steps, ss, j);
    AnswerReports(ss[j], r, steps[j].outcome);
    assert StepAt(steps, ss, i);
    KeyMovesByInsertion(steps, ss, i + 1, j, term);
    forall k: nat | i < k < j && steps[k].Enqueue? ensures steps[k].r != r {
      OthersBetween(steps, ss, r, term, mode, i, j, k);
    }
  }

  lemma ExecSnoc(steps: seq<Step>, step: Step)
    requires Exec(steps).Some? && Enabled(Exec(steps).value, step)
    ensures Exec(steps + [step]) == Some(Apply(Exec(steps).value, step))
  {
    assert (steps + [step])[..|steps|] == steps;
  }

  /** Two overlapping requests: the second is collapsed into the first one's job and yet reports `false`. */
  lemma CollapseUnreported(term: string) returns (steps: seq<Step>)
    ensures Exec(steps).Some?
    ensures var s := Exec(steps).value;
      s.requests.Keys == {0, 1}
      && s.requests[1] == Answered(term, Simple, None, false, 7, false)
  {
    steps := [];
    ExecSnoc(steps, Look(0, term, Simple));
    steps := steps + [Look(0, term, Simple)];
    ExecSnoc(steps, Look(1, term, Simple));
    steps := steps + [Look(1, term, Simple)];
    ExecSnoc(steps, Enqueue(0, Insert(7, Some(7))));
    steps := steps + [Enqueue(0, Insert(7, Some(7)))];
    ExecSnoc(steps, Enqueue(1, Reuse(7, Some(7))));
    steps := steps + [Enqueue(1, Reuse(7, Some(7)))];
  }

  /** Once the key has been lost, the next request inserts a job of its own, and says so. */
  lemma LostKeyInserts(term: string) returns (steps: seq<Step>)
    ensures Exec(steps).Some?
    ensures var s := Exec(steps).value;
      && s.issued == {7, 8}
      && s.requests == map[0 := Answered(term, Throttle, None, true, 7, false),
                           1 := Answered(term, Throttle, None, true, 8, false)]
  {
    steps := [];
    ExecSnoc(steps, Look(0, term, Throttle));
    steps := steps + [Look(0, term, Throttle)];
    ExecSnoc(steps, Enqueue(0, Insert(7, Some(7))));
    steps := steps + [Enqueue(0, Insert(7, Some(7)))];
    ExecSnoc(steps, LoseKey(DedupId(term)));
    steps := steps + [LoseKey(DedupId(term))];
    ExecSnoc(steps, Look(1, term, Throttle));
    steps := steps + [Look(1, term, Throttle)];
    ExecSnoc(steps, Enqueue(1, Insert(8, Some(8))));
    steps := steps + [Enqueue(1, Insert(8, Some(8)))];
  }

  // ---- One term, one request at a time ----

  ghost predicate Pending(s: State, term: string, r: nat) {
    r in s.requests && s.requests[r].Looked? && s.requests[r].term == term
  }

  ghost predicate AnsweredFor(s: State, term: string, r: nat) {
    r in s.requests && s.requests[r].Answered? && s.requests[r].term == term
  }

  /** A step that keeps to simple mode for `term`, starts no second request for it, and leaves its key alone. */
  ghost predicate SerialStep(s: State, term: string, step: Step) {
    match step
    case Look(_, t, mode) => t == term ==> mode.Simple? && forall r :: !Pending(s, term, r)
    case Enqueue(_, _) => true
    case LoseKey(key) => key != DedupId(term)
  }

  ghost predicate Serial(steps: seq<Step>, term: string) {
    forall k: nat :: k < |steps| && Exec(steps[..k]).Some? ==> SerialStep(Exec(steps[..k]).value, term, steps[k])
  }

  /** Requests for the term so far: none answered and no key, or all answered with the key's job, only `first` anew. */
  ghost predicate SerialOk(s: State, term: string, first: nat) {
    var key := KeyOf(s, DedupId(term));
    && (forall r :: Pending(s, term, r) ==> s.requests[r].mode.Simple? && s.requests[r].existing == key)
    && (forall a, b :: Pending(s, term, a) && Pending(s, term, b) ==> a == b)
    && (forall r :: AnsweredFor(s, term, r) ==>
          key == Some(s.requests[r].jobId) && (s.requests[r].deduplicated <==> r != first))
    && (key.Some? <==> AnsweredFor(s, term, first))
  }

  lemma SerialKeeps(s: State, term: string, first: nat, step: Step) returns (first': nat)
    requires Enabled(s, step) && SerialStep(s, term, step) && SerialOk(s, term, first)
    ensures SerialOk(Apply(s, step), term, first')
    ensures AnsweredFor(s, term, first) ==> first' == first
  {
    first' := first;
    var s' := Apply(s, step);
    match step
    case Look(r, t, mode) =>
      DedupIdsDiffer(t, term);
      assert forall p :: p != r ==> (Pending(s', term, p) <==> Pending(s, term, p));
      assert forall p :: AnsweredFor(s', term, p) <==> AnsweredFor(s, term, p);
    case Enqueue(r, outcome) =>
      DedupIdsDiffer(s.requests[r].term, term);
      if s.requests[r].term == term {
        assert Pending(s, term, r);
        if KeyOf(s, DedupId(term)).None? { first' := r; }
        forall p | AnsweredFor(s', term, p) && p != r ensures AnsweredFor(s, term, p) {}
        assert forall p :: !Pending(s', term, p) by {
          forall p | Pending(s', term, p) ensures false { assert Pending(s, term, p); }
        }
      } else {
        assert forall p :: Pending(s', term, p) <==> Pending(s, term, p);
        assert forall p :: AnsweredFor(s', term, p) <==> AnsweredFor(s, term, p);
      }
    case LoseKey(key) =>
      assert forall p :: Pending(s', term, p) <==> Pending(s, term, p);
      assert forall p :: AnsweredFor(s', term, p) <==> AnsweredFor(s, term, p);
  }

  ghost predicate AnyAnswered(s: State, term: string) {
    exists r :: AnsweredFor(s, term, r)
  }

  /** At every point of the run where a request for the term has been answered, `first` has. */
  ghost predicate AnsweredFirst(steps: seq<Step>, term: string, first: nat) {
    forall k: nat :: k <= |steps| && Exec(steps[..k]).Some? && AnyAnswered(Exec(steps[..k]).value, term) ==>
      AnsweredFor(Exec(steps[..k]).value, term, first)
  }

  lemma {:induction false} AnswersStay(steps: seq<Step>, k: nat, term: string, r: nat)
    requires k <= |steps| && Exec(steps).Some? && Exec(steps[..k]).Some?
    requires AnsweredFor(Exec(steps[..k]).value, term, r)
    ensures AnsweredFor(Exec(steps).value, term, r)
    decreases |steps|
  {
    if k == |steps| {
      DropNoneOrAll(steps);
    } else {
      var before := steps[..|steps| - 1];
      assert before[..k] == steps[..k];
      AnswersStay(before, k, term, r);
    }
  }

  lemma FirstStaysFirst(steps: seq<Step>, before: seq<Step>, term: string, f: nat, first: nat)
    requires steps != [] && before == steps[..|steps| - 1] && Exec(steps).Some?
    requires AnsweredFirst(before, term, f) && SerialOk(Exec(steps).value, term, first)
    requires AnsweredFor(Exec(before).value, term, f) ==> first == f
    ensures AnsweredFirst(steps, term, first)
  {
    forall k: nat | k <= |steps| && Exec(steps[..k]).Some? && AnyAnswered(Exec(steps[..k]).value, term)
      ensures AnsweredFor(Exec(steps[..k]).value, term, first)
    {
      if k < |steps| {
        assert before[..k] == steps[..k];
        AnswersStay(before, k, term, f);
      } else {
        DropNoneOrAll(steps);
      }
    }
  }

  /**
   * One-at-a-time simple requests for a term whose key is left alone, with any other traffic in between: all return
   * the same job, the first that was answered reports `deduplicated: false` and every other one `true`.
   */
  lemma {:induction false} SerialReports(steps: seq<Step>, term: string) returns (first: nat)
    requires Exec(steps).Some? && Serial(steps, term)
    ensures SerialOk(Exec(steps).value, term, first)
    ensures AnsweredFirst(steps, term, first)
  {
    if steps == [] {
      first := 0;
    } else {
      var n := |steps| - 1;
      var before := steps[..n];
      SerialPrefix(steps, before, term);
      var f := SerialReports(before, term);
      first := SerialKeeps(Exec(before).value, term, f, steps[n]);
      FirstStaysFirst(steps, before, term, f, first);
    }
  }

  lemma SerialPrefix(steps: seq<Step>, before: seq<Step>, term: string)
    requires steps != [] && before == steps[..|steps| - 1] && Serial(steps, term) && Exec(steps).Some?
    ensures Serial(before, term) && Exec(before).Some? && SerialStep(Exec(before).value, term, steps[|steps| - 1])
  {
    forall k: nat | k < |before| && Exec(before[..k]).Some?
      ensures SerialStep(Exec(before[..k]).value, term, before[k])
    {
      assert before[..k] == steps[..k];
    }
  }
}
