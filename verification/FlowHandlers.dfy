/**
 * The node handlers and the trace they share
 * (apps/api/src/flows/payments.processor.ts, fulfillment.processor.ts, flow-trace.service.ts).
 */
module FlowHandlers {
  import opened Prelude
  import opened BoundedBuffers
  import opened FlowEngine

  const TRACE_CAPACITY: nat := 500

  datatype FlowTraceEntry = FlowTraceEntry(node: string, at: int)

  datatype JobResult = Done(node: string) | Declined

  class FlowTrace {
    const entries: BoundedRingBuffer<FlowTraceEntry>

    /** Everything recorded so far. */
    ghost var history: seq<FlowTraceEntry>

    ghost predicate Valid() reads this, entries {
      entries.capacity == TRACE_CAPACITY && entries.Valid() && entries.Snapshot() == LastN(history, 500)
    }

    constructor ()
      ensures Valid() && history == [] && fresh(entries)
    {
      entries := new BoundedRingBuffer(TRACE_CAPACITY);
      history := [];
    }

    method Record(node: string, at: int)
      requires Valid()
      modifies this`history, entries
      ensures Valid() && history == old(history) + [FlowTraceEntry(node, at)]
    {
      LastNPush(history, FlowTraceEntry(node, at), TRACE_CAPACITY);
      entries.Push(FlowTraceEntry(node, at));
      history := history + [FlowTraceEntry(node, at)];
    }

    /** The snapshot: the last 500 of everything recorded. */
    function List(): (r: seq<FlowTraceEntry>)
      requires Valid()
      ensures r == LastN(history, 500)
      reads this, entries
    {
      entries.Snapshot()
    }
  }

  class PaymentsProcessor {
    const trace: FlowTrace

    constructor (trace: FlowTrace)
      ensures this.trace == trace
    {
      this.trace := trace;
    }

    /** Records before it throws, so a declined payment is in the trace too. */
    method Charge(name: string, orderId: string, now: int) returns (result: JobResult)
      requires trace.Valid()
      modifies trace`history, trace.entries
      ensures trace.Valid() && trace.history == old(trace.history) + [FlowTraceEntry(name, now)]
      ensures name == CHARGE_PAYMENT_JOB ==> (result == Declined <==> Throws(name, orderId))
      ensures result != Declined ==> result == Done(name)
    {
      trace.Record(name, now);
      if StartsWith(orderId, ORDER_FAILURE_PREFIX) {
        return Declined;
      }
      return Done(name);
    }
  }

  class FulfillmentProcessor {
    const trace: FlowTrace

    constructor (trace: FlowTrace)
      ensures this.trace == trace
    {
      this.trace := trace;
    }

    /** `ship`; `renderInvoice` and the stock and data handlers have the same body. */
    method Ship(name: string, now: int) returns (result: JobResult)
      requires trace.Valid()
      modifies trace`history, trace.entries
      ensures trace.Valid() && trace.history == old(trace.history) + [FlowTraceEntry(name, now)]
      ensures result == Done(name)
    {
      trace.Record(name, now);
      return Done(name);
    }
  }
}
