/**
 * The retry theater (apps/api/src/processors/webhook.processor.ts, webhook-log.service.ts, config/queue.config.ts).
 * Of the queue only this is assumed: a job whose handler throws is run again, with one more attempt counted, until its
 * attempts are spent, after a delay that starts at the base and doubles.
 */
module Webhooks {
  import opened Prelude

  const WEBHOOK_LOG_CAPACITY: nat := 500
  const BACKOFF_BASE_DELAY_MS: nat := 1500

  datatype WebhookDelivery = WebhookDelivery(orderId: string, attempts: nat, at: string)

  datatype DeliverResult = Delivered(attempts: nat) | Failed(failure: nat)

  /** What one run of the handler does, after `attemptsMade` runs. */
  function Deliver(failures: nat, attemptsMade: nat): DeliverResult {
    if attemptsMade < failures then Failed(attemptsMade) else Delivered(attemptsMade + 1)
  }

  class WebhookLog {
    var deliveries: seq<WebhookDelivery>

    /** Everything recorded so far. */
    ghost var history: seq<WebhookDelivery>

    ghost predicate Valid() reads this {
      deliveries == LastN(history, 500)
    }

    constructor ()
      ensures Valid() && history == []
    {
      deliveries, history := [], [];
    }

    method Record(delivery: WebhookDelivery)
      requires Valid()
      modifies this
      ensures Valid() && history == old(history) + [delivery]
    {
      LastNPush(history, delivery, WEBHOOK_LOG_CAPACITY);
      deliveries := deliveries + [delivery];
      if |deliveries| > WEBHOOK_LOG_CAPACITY {
        deliveries := deliveries[1..];
      }
      history := history + [delivery];
    }
  }

  class WebhookProcessor {
    const log: WebhookLog
    const failures: nat

    constructor (log: WebhookLog, failures: nat)
      ensures this.log == log && this.failures == failures
    {
      this.log, this.failures := log, failures;
    }

    method DeliverJob(orderId: string, attemptsMade: nat, now: string) returns (result: DeliverResult)
      requires log.Valid()
      modifies log
      ensures log.Valid() && result == Deliver(failures, attemptsMade)
      ensures log.history == old(log.history)
        + if attemptsMade < failures then [] else [WebhookDelivery(orderId, attemptsMade + 1, now)]
    {
      if attemptsMade < failures {
        return Failed(attemptsMade);
      }
      var attempts := attemptsMade + 1;
      log.Record(WebhookDelivery(orderId, attempts, now));
      return Delivered(attempts);
    }
  }

  // ---- A job over all its attempts ----

  function Pow2(k: nat): nat { if k == 0 then 1 else 2 * Pow2(k - 1) }

  /** The delay before the retry that follows the `k`-th failure. */
  function Backoff(k: nat): nat
    requires k >= 1
  {
    BACKOFF_BASE_DELAY_MS * Pow2(k - 1)
  }

  /** `runs` handler calls, the failures they threw, the log entries they made, and the delays between them. */
  datatype History = History(succeeded: bool, runs: nat, thrown: seq<nat>, logged: seq<nat>, waits: seq<nat>)

  function Retry(failures: nat, budget: nat, made: nat): History
    requires made < budget
    decreases budget - made
  {
    match Deliver(failures, made)
    case Delivered(attempts) => History(true, 1, [], [attempts], [])
    case Failed(failure) =>
      if made + 1 == budget then History(false, 1, [failure], [], [])
      else
        var later := Retry(failures, budget, made + 1);
        History(later.succeeded, 1 + later.runs, [failure] + later.thrown, later.logged,
                [Backoff(made + 1)] + later.waits)
  }

  function Sum(s: seq<nat>): nat { if s == [] then 0 else s[0] + Sum(s[1..]) }

  lemma {:induction false} RetryFrom(failures: nat, budget: nat, made: nat)
    requires made < budget && made <= failures
    ensures var h := Retry(failures, budget, made);
      && (h.succeeded <==> failures < budget)
      && h.logged == (if failures < budget then [failures + 1] else [])
      && made + h.runs == (if failures < budget then failures + 1 else budget)
      && |h.waits| == h.runs - 1
      && Sum(h.waits) == BACKOFF_BASE_DELAY_MS * (Pow2(made + |h.waits|) - Pow2(made))
    decreases budget - made
  {
    if made < failures && made + 1 < budget {
      RetryFrom(failures, budget, made + 1);
      var later := Retry(failures, budget, made + 1);
      assert ([Backoff(made + 1)] + later.waits)[1..] == later.waits;
      assert Sum([Backoff(made + 1)] + later.waits) == Backoff(made + 1) + Sum(later.waits);
      assert Pow2(made + 1) == 2 * Pow2(made);
    }
  }

  /** From `made` on, the failures are numbered one by one, and each delay doubles the one before. */
  lemma {:induction false} RetryNumbers(failures: nat, budget: nat, made: nat)
    requires made < budget && made <= failures
    ensures var h := Retry(failures, budget, made);
      && made + |h.thrown| == (if failures < budget then failures else budget)
      && (forall k :: 0 <= k < |h.thrown| ==> h.thrown[k] == made + k)
      && (forall k :: 0 <= k < |h.waits| ==> h.waits[k] == 1500 * Pow2(made + k))
    decreases budget - made
  {
    if made < failures && made + 1 < budget {
      RetryNumbers(failures, budget, made + 1);
    }
  }

  /**
   * Main result: with `failures` injected and `budget` attempts, a job succeeds exactly when it has more attempts than
   * failures, and then logs one delivery of `failures + 1` attempts; otherwise it fails after `budget` runs and logs
   * nothing. The failures are numbered from 0; the delays double from 1500 and those of `k` retries add up to
   * `1500 * (2^k - 1)`.
   */
  lemma RetryTheater(failures: nat, budget: nat)
    requires budget >= 1
    ensures var h := Retry(failures, budget, 0);
      && (h.succeeded <==> failures < budget)
      && h.logged == (if failures < budget then [failures + 1] else [])
      && h.runs == (if failures < budget then failures + 1 else budget)
      && |h.waits| == h.runs - 1
      && Sum(h.waits) == 1500 * (Pow2(|h.waits|) - 1)
      && |h.thrown| == (if failures < budget then failures else budget)
      && (forall k :: 0 <= k < |h.thrown| ==> h.thrown[k] == k)
      && (forall k :: 0 <= k < |h.waits| ==> h.waits[k] == 1500 * Pow2(k))
  {
    RetryFrom(failures, budget, 0);
    RetryNumbers(failures, budget, 0);
  }

  /** What the header promises: exactly `failures` failed runs, then one that succeeds. */
  predicate FailsThenSucceeds(h: History, failures: nat) {
    h.succeeded && h.runs == failures + 1 && h.logged == [failures + 1]
  }

  /** It holds if and only if the job has more attempts than failures. */
  lemma FailsThenSucceedsExactly(failures: nat, budget: nat)
    requires budget >= 1
    ensures FailsThenSucceeds(Retry(failures, budget, 0), failures) <==> failures < budget
  {
    RetryTheater(failures, budget);
  }

  /** Four failures use up four attempts: the job fails and nothing is logged. */
  lemma AttemptsRunOut()
    ensures var h := Retry(4, 4, 0); !h.succeeded && h.runs == 4 && h.logged == []
  {
    RetryTheater(4, 4);
  }
}
