/** Receipt idempotency (apps/api/src/processors/email.processor.ts, mailer.stub.ts). */
module Email {
  import opened Prelude
  import opened JsMaps

  const IDEMPOTENCY_MARKER_CAPACITY: nat := 1000
  const SENT_BUFFER_CAPACITY: nat := 500
  const RECEIPT_JOB := "send-receipt"

  datatype MailRecord = MailRecord(to: string, template: string, at: string)

  /** One delivery of a receipt job. `at` and `messageId` are what the clock and the id generator would supply. */
  datatype Delivery = Delivery(jobId: Option<string>, to: string, at: string, messageId: string)

  type Markers = JsMap<string, string>

  /** The markers, plus the history of what was memoized and of what was sent. */
  datatype Ledger = Ledger(markers: Markers, memos: seq<string>, sends: seq<MailRecord>)

  function Known(markers: Markers, jobId: Option<string>): Option<string> {
    if jobId.None? then None else markers.Get(jobId.value)
  }

  /** The markers after a send, result remembered under the job id when there is one. */
  function Remember(markers: Markers, jobId: Option<string>, result: string): Markers {
    if jobId.None? then markers else EvictAfter(markers, IDEMPOTENCY_MARKER_CAPACITY, jobId.value, result)
  }

  function Receipt(d: Delivery): MailRecord {
    MailRecord(d.to, RECEIPT_JOB, d.at)
  }

  function Deliver(l: Ledger, d: Delivery): Ledger {
    if Known(l.markers, d.jobId).Some? then l
    else
      Ledger(Remember(l.markers, d.jobId, d.messageId),
             if d.jobId.None? then l.memos else l.memos + [d.jobId.value],
             l.sends + [Receipt(d)])
  }

  function Delivered(ds: seq<Delivery>): Ledger {
    if ds == [] then Ledger(JsMap([], map[]), [], [])
    else Deliver(Delivered(ds[..|ds| - 1]), ds[|ds| - 1])
  }

  /** What the handler returns for `d` after the deliveries `ds`. */
  function Answer(ds: seq<Delivery>, d: Delivery): string {
    match Known(Delivered(ds).markers, d.jobId)
    case Some(result) => result
    case None => d.messageId
  }

  /** Whether delivering `d` after `ds` sends a mail. */
  predicate Sends(ds: seq<Delivery>, d: Delivery) {
    |Delivered(ds + [d]).sends| > |Delivered(ds).sends|
  }

  /** The message id of the most recent delivery of `id` that sent a mail. */
  function MostRecentSend(ds: seq<Delivery>, id: string): Option<string> {
    if ds == [] then None
    else
      var before, d := ds[..|ds| - 1], ds[|ds| - 1];
      if d.jobId == Some(id) && Sends(before, d) then Some(d.messageId) else MostRecentSend(before, id)
  }

  /** The markers are the last memoized ids, each with the result of its most recent send. */
  ghost predicate MarkersOk(ds: seq<Delivery>, l: Ledger) {
    && Window(l.markers, IDEMPOTENCY_MARKER_CAPACITY, l.memos)
    && forall id :: l.markers.Has(id) ==> MostRecentSend(ds, id) == l.markers.Get(id)
  }

  lemma DeliveredSnoc(ds: seq<Delivery>, before: seq<Delivery>, d: Delivery)
    requires ds == before + [d]
    ensures Delivered(ds) == Deliver(Delivered(before), d)
    ensures var sends := Known(Delivered(before).markers, d.jobId).None?;
      forall id ::
        MostRecentSend(ds, id) == if d.jobId == Some(id) && sends then Some(d.messageId) else MostRecentSend(before, id)
  {
    assert ds[..|ds| - 1] == before;
  }

  lemma DeliverKeepsMarkers(ds: seq<Delivery>, before: seq<Delivery>, d: Delivery)
    requires ds == before + [d] && MarkersOk(before, Delivered(before))
    ensures MarkersOk(ds, Delivered(ds))
  {
    DeliveredSnoc(ds, before, d);
    var l := Delivered(before);
    if d.jobId.Some? && !l.markers.Has(d.jobId.value) {
      InsertSlides(l.markers, IDEMPOTENCY_MARKER_CAPACITY, l.memos, d.jobId.value, d.messageId);
    }
  }

  lemma {:induction false} MarkersFollowMemos(ds: seq<Delivery>)
    ensures MarkersOk(ds, Delivered(ds))
  {
    if ds != [] {
      var before, d := ds[..|ds| - 1], ds[|ds| - 1];
      assert ds == before + [d];
      MarkersFollowMemos(before);
      DeliverKeepsMarkers(ds, before, d);
    }
  }

  /**
   * Main result: after any deliveries, a receipt sends nothing exactly when its id is among the last 1000 memoized,
   * and then the answer is the result of that id's most recent send. The marker map is those 1000 ids in order.
   */
  lemma {:induction false} RedeliveryIsSilent(ds: seq<Delivery>, d: Delivery)
    ensures !Sends(ds, d) <==> d.jobId.Some? && d.jobId.value in LastN(Delivered(ds).memos, 1000)
    ensures !Sends(ds, d) ==> Some(Answer(ds, d)) == MostRecentSend(ds, d.jobId.value)
    ensures Sends(ds, d) ==> Answer(ds, d) == d.messageId
    ensures Delivered(ds).markers.keys == LastN(Delivered(ds).memos, 1000)
    ensures Distinct(Delivered(ds).markers.keys) && Delivered(ds).markers.Size() <= 1000
  {
    MarkersFollowMemos(ds);
    DeliveredSnoc(ds + [d], ds, d);
    var l := Delivered(ds);
    if d.jobId.Some? { assert l.markers.Has(d.jobId.value) <==> d.jobId.value in l.markers.keys; }
  }

  lemma {:induction false} MemosExtend(ds: seq<Delivery>, more: seq<Delivery>)
    ensures Delivered(ds).memos <= Delivered(ds + more).memos
  {
    if more == [] {
      ConcatEmpty(ds);
    } else {
      MemosExtend(ds, more[..|more| - 1]);
      InitOfAppend(ds, more);
    }
  }

  /** An entry of a log with fewer than `n` entries after it is among the last `n`. */
  lemma StillKept(log: seq<string>, longer: seq<string>, n: nat)
    requires log <= longer && log != [] && |longer| - |log| < n
    ensures log[|log| - 1] in LastN(longer, n)
  {
    var kept := LastN(longer, n);
    assert kept[|log| - 1 - (|longer| - |kept|)] == longer[|log| - 1];
  }

  /** A receipt's marker keeps its result while fewer than 1000 further ids are memoized. */
  lemma {:induction false} MarkerUnmoved(start: seq<Delivery>, id: string, result: string, more: seq<Delivery>)
    requires Delivered(start).markers.Get(id) == Some(result)
    requires Delivered(start).memos != [] && Delivered(start).memos[|Delivered(start).memos| - 1] == id
    requires |Delivered(start + more).memos| - |Delivered(start).memos| < IDEMPOTENCY_MARKER_CAPACITY
    ensures Delivered(start + more).markers.Get(id) == Some(result)
    decreases |more|
  {
    if more == [] {
      ConcatEmpty(start);
    } else {
      var before, d := start + more[..|more| - 1], more[|more| - 1];
      InitOfAppend(start, more);
      assert before + [d] == start + more;
      MemosExtend(before, [d]);
      MemosExtend(start, more[..|more| - 1]);
      MarkerUnmoved(start, id, result, more[..|more| - 1]);
      DeliverKeepsResult(start, before, d, start + more, id, result);
    }
  }

  lemma DeliverKeepsResult(start: seq<Delivery>, before: seq<Delivery>, d: Delivery, all: seq<Delivery>,
                           id: string, result: string)
    requires all == before + [d] && Delivered(before).markers.Get(id) == Some(result)
    requires Delivered(start).memos != [] && Delivered(start).memos[|Delivered(start).memos| - 1] == id
    requires Delivered(start).memos <= Delivered(before).memos
    requires |Delivered(all).memos| - |Delivered(start).memos| < IDEMPOTENCY_MARKER_CAPACITY
    ensures Delivered(all).markers.Get(id) == Some(result)
  {
    DeliveredSnoc(all, before, d);
    MarkersFollowMemos(before);
    MarkersFollowMemos(all);
    StillKept(Delivered(start).memos, Delivered(all).memos, IDEMPOTENCY_MARKER_CAPACITY);
    assert Delivered(all).markers.Has(id) <==> id in Delivered(all).markers.keys;
    var l := Delivered(before);
    if d.jobId.Some? && !l.markers.Has(d.jobId.value) {
      InsertSlides(l.markers, IDEMPOTENCY_MARKER_CAPACITY, l.memos, d.jobId.value, d.messageId);
      assert Delivered(all).markers.Get(id) == l.markers.Get(id);
    }
  }

  /** A receipt redelivered before 1000 further ids have been memoized sends nothing and returns the first result. */
  lemma RedeliveredInTime(ds: seq<Delivery>, first: Delivery, more: seq<Delivery>, again: Delivery)
    requires first.jobId.Some? && again.jobId == first.jobId && Sends(ds, first)
    requires |Delivered(ds + [first] + more).memos| - |Delivered(ds + [first]).memos| < IDEMPOTENCY_MARKER_CAPACITY
    ensures !Sends(ds + [first] + more, again)
    ensures Answer(ds + [first] + more, again) == first.messageId
  {
    var start, all := ds + [first], ds + [first] + more;
    var id := first.jobId.value;
    DeliveredSnoc(start, ds, first);
    MarkersFollowMemos(ds);
    InsertSlides(Delivered(ds).markers, IDEMPOTENCY_MARKER_CAPACITY, Delivered(ds).memos, id, first.messageId);
    MarkerUnmoved(start, id, first.messageId, more);
    DeliveredSnoc(all + [again], all, again);
  }

  // ---- What was sent ----

  /** `from` are the positions of the deliveries that sent, in order. */
  ghost predicate SentFrom(ds: seq<Delivery>, from: seq<nat>) {
    && (forall k :: 0 <= k < |from| ==> from[k] < |ds| && Sends(ds[..from[k]], ds[from[k]]))
    && (forall j, k :: 0 <= j < k < |from| ==> from[j] < from[k])
    && (forall i: nat :: i < |ds| && Sends(ds[..i], ds[i]) ==> i in from)
  }

  /** Which of the earlier deliveries sent does not depend on the last one. */
  lemma SameSender(ds: seq<Delivery>, before: seq<Delivery>, d: Delivery, i: nat)
    requires ds == before + [d] && i <= |before|
    ensures i < |before| ==> (Sends(ds[..i], ds[i]) <==> Sends(before[..i], before[i]))
    ensures i == |before| ==> (Sends(ds[..i], ds[i]) <==> Sends(before, d))
  {
    DropWithin(before, [d], i);
    DropNoneOrAll(before);
  }

  lemma SentFromSnoc(ds: seq<Delivery>, before: seq<Delivery>, d: Delivery, from: seq<nat>, all: seq<nat>)
    requires ds == before + [d] && SentFrom(before, from)
    requires all == if Sends(before, d) then from + [|before|] else from
    ensures SentFrom(ds, all)
  {
    forall k | 0 <= k < |all| ensures all[k] < |ds| && Sends(ds[..all[k]], ds[all[k]]) {
      SameSender(ds, before, d, all[k]);
    }
    forall i: nat | i < |ds| && Sends(ds[..i], ds[i]) ensures i in all {
      SameSender(ds, before, d, i);
      assert i in from ==> i in all;
      assert Sends(before, d) ==> all[|from|] == |before|;
    }
  }

  /** Mail `k` is that of delivery `from[k]`: to its recipient, under the receipt template, at its time. */
  predicate MailsOf(sends: seq<MailRecord>, ds: seq<Delivery>, from: seq<nat>) {
    |sends| == |from| && forall k :: 0 <= k < |from| ==>
      from[k] < |ds| && sends[k] == MailRecord(ds[from[k]].to, "send-receipt", ds[from[k]].at)
  }

  lemma SendsSnoc(ds: seq<Delivery>, before: seq<Delivery>, d: Delivery)
    requires ds == before + [d]
    ensures Delivered(ds).sends
         == Delivered(before).sends + if Sends(before, d) then [MailRecord(d.to, "send-receipt", d.at)] else []
  {
    DeliveredSnoc(ds, before, d);
  }

  lemma MailsOfSnoc(sends: seq<MailRecord>, before: seq<Delivery>, d: Delivery, from: seq<nat>)
    requires MailsOf(sends, before, from)
    ensures MailsOf(sends, before + [d], from)
    ensures MailsOf(sends + [MailRecord(d.to, "send-receipt", d.at)], before + [d], from + [|before|])
  {
  }

  /** Main result: the mails sent are, one for one and in order of delivery, those of the deliveries that sent. */
  lemma {:induction false} SendsCarry(ds: seq<Delivery>) returns (from: seq<nat>)
    ensures SentFrom(ds, from) && MailsOf(Delivered(ds).sends, ds, from)
  {
    if ds == [] {
      from := [];
    } else {
      var before, d := ds[..|ds| - 1], ds[|ds| - 1];
      HeadAndLast(ds);
      var earlier := SendsCarry(before);
      from := if Sends(before, d) then earlier + [|before|] else earlier;
      SentFromSnoc(ds, before, d, earlier, from);
      SendsSnoc(ds, before, d);
      MailsOfSnoc(Delivered(before).sends, before, d, earlier);
    }
  }

  // ---- A second receipt ----

  /** The `k`-th of arbitrarily many different ids. */
  function NthId(k: nat): (id: string)
    ensures |id| == k
  {
    seq(k, _ => 'i')
  }

  /** The first `n` of them, each delivered once. */
  function OnceEach(n: nat): (ds: seq<Delivery>)
    ensures |ds| == n
  {
    if n == 0 then [] else OnceEach(n - 1) + [Delivery(Some(NthId(n - 1)), "", "", "")]
  }

  /** The ids in order, from the first on. */
  predicate IdsInOrder(memos: seq<string>) {
    forall k :: 0 <= k < |memos| ==> memos[k] == NthId(k)
  }

  lemma NextIdIsNew(memos: seq<string>)
    requires IdsInOrder(memos)
    ensures NthId(|memos|) !in memos && IdsInOrder(memos + [NthId(|memos|)])
  {
    assert forall k :: 0 <= k < |memos| ==> |memos[k]| == k;
  }

  /** A job id that was never memoized is memoized by its delivery, which sends. */
  lemma NewIdMemoized(before: seq<Delivery>, d: Delivery, id: string)
    requires d.jobId == Some(id) && id !in Delivered(before).memos
    ensures Delivered(before + [d]).memos == Delivered(before).memos + [id]
  {
    DeliveredSnoc(before + [d], before, d);
    MarkersFollowMemos(before);
    var l := Delivered(before);
    assert id !in l.markers.keys;
  }

  lemma {:induction false} OnceEachMemos(n: nat)
    ensures |Delivered(OnceEach(n)).memos| == n && IdsInOrder(Delivered(OnceEach(n)).memos)
  {
    if n > 0 {
      var before, d := OnceEach(n - 1), Delivery(Some(NthId(n - 1)), "", "", "");
      OnceEachMemos(n - 1);
      NextIdIsNew(Delivered(before).memos);
      NewIdMemoized(before, d, NthId(n - 1));
    }
  }

  /** Of more ids than the window holds, the first is no longer in it. */
  lemma FirstIdSlidesOut(memos: seq<string>, n: nat)
    requires IdsInOrder(memos) && |memos| > n
    ensures NthId(0) !in LastN(memos, n)
  {
    var kept := LastN(memos, n);
    assert forall k :: 0 <= k < |kept| ==> kept[k] == memos[k + |memos| - n] && |kept[k]| > 0;
  }

  /** After 1000 receipts for other jobs, a redelivery of the first job sends its receipt again. */
  lemma SecondReceipt(again: Delivery) returns (ds: seq<Delivery>)
    requires again.jobId == Some(NthId(0))
    ensures ds != [] && ds[0].jobId == again.jobId && Sends([], ds[0]) && Sends(ds, again)
  {
    var n := IDEMPOTENCY_MARKER_CAPACITY + 1;
    ds := OnceEach(n);
    OnceEachMemos(n);
    FirstOfOnceEach(n);
    RedeliveryIsSilent([], ds[0]);
    FirstIdSlidesOut(Delivered(ds).memos, IDEMPOTENCY_MARKER_CAPACITY);
    RedeliveryIsSilent(ds, again);
  }

  lemma {:induction false} FirstOfOnceEach(n: nat)
    requires n >= 1
    ensures OnceEach(n)[0] == Delivery(Some(NthId(0)), "", "", "")
  {
    if n > 1 { FirstOfOnceEach(n - 1); }
  }

  /** How many deliveries found their id memoized. */
  function Repeats(ds: seq<Delivery>): nat {
    if ds == [] then 0
    else
      var before, d := ds[..|ds| - 1], ds[|ds| - 1];
      Repeats(before)
      + if d.jobId.Some? && d.jobId.value in LastN(Delivered(before).memos, IDEMPOTENCY_MARKER_CAPACITY) then 1 else 0
  }

  function WithoutId(ds: seq<Delivery>): nat {
    if ds == [] then 0 else WithoutId(ds[..|ds| - 1]) + if ds[|ds| - 1].jobId.None? then 1 else 0
  }

  /** Conservation: every delivery is a repeat or sends once; every send is memoized or had no id. */
  lemma {:induction false} SendsAreAccounted(ds: seq<Delivery>)
    ensures |Delivered(ds).sends| + Repeats(ds) == |ds|
    ensures |Delivered(ds).sends| == |Delivered(ds).memos| + WithoutId(ds)
  {
    if ds != [] {
      var before, d := ds[..|ds| - 1], ds[|ds| - 1];
      SendsAreAccounted(before);
      MarkersFollowMemos(before);
      var m := Delivered(before).markers;
      if d.jobId.Some? { assert m.Has(d.jobId.value) <==> d.jobId.value in m.keys; }
    }
  }

  class MailerStub {
    var sent: seq<MailRecord>

    /** Everything sent so far. */
    ghost var mails: seq<MailRecord>

    ghost predicate Valid() reads this {
      sent == LastN(mails, 500)
    }

    constructor ()
      ensures Valid() && mails == []
    {
      sent, mails := [], [];
    }

    /** The buffer stays the last 500 of everything sent. */
    method Send(to: string, template: string, at: string, messageId: string) returns (result: string)
      requires Valid()
      modifies this
      ensures Valid() && result == messageId
      ensures mails == old(mails) + [MailRecord(to, template, at)]
    {
      LastNPush(mails, MailRecord(to, template, at), SENT_BUFFER_CAPACITY);
      sent := sent + [MailRecord(to, template, at)];
      if |sent| > SENT_BUFFER_CAPACITY {
        sent := sent[1..];
      }
      mails := mails + [MailRecord(to, template, at)];
      result := messageId;
    }
  }

  class EmailProcessor {
    const mailer: MailerStub
    var processedReceipts: Markers
    ghost var deliveries: seq<Delivery>

    ghost predicate Valid() reads this {
      processedReceipts == Delivered(deliveries).markers
    }

    constructor (mailer: MailerStub)
      ensures Valid() && this.mailer == mailer && deliveries == []
    {
      this.mailer, processedReceipts, deliveries := mailer, JsMap([], map[]), [];
    }

    method SendReceipt(job: Delivery) returns (result: string)
      requires Valid() && mailer.Valid()
      modifies this, mailer
      ensures Valid() && mailer.Valid() && deliveries == old(deliveries) + [job]
      ensures result == Answer(old(deliveries), job)
      ensures mailer.mails == old(mailer.mails)
        + if Sends(old(deliveries), job) then [MailRecord(job.to, "send-receipt", job.at)] else []
    {
      DeliveredSnoc(deliveries + [job], deliveries, job);
      deliveries := deliveries + [job];
      var marker := if job.jobId.None? then None else processedReceipts.Get(job.jobId.value);
      if marker.Some? {
        return marker.value;
      }
      result := mailer.Send(job.to, RECEIPT_JOB, job.at, job.messageId);
      RememberReceipt(job.jobId, result);
    }

    method RememberReceipt(jobId: Option<string>, result: string)
      modifies this`processedReceipts
      ensures processedReceipts == Remember(old(processedReceipts), jobId, result)
    {
      if jobId.None? {
        return;
      }
      processedReceipts := processedReceipts.Set(jobId.value, result);
      EvictOldestMarkerWhenFull();
    }

    method EvictOldestMarkerWhenFull()
      modifies this`processedReceipts
      ensures var m := old(processedReceipts);
        processedReceipts ==
          if m.Size() <= IDEMPOTENCY_MARKER_CAPACITY || m.keys == [] then m else m.Delete(m.keys[0])
    {
      if processedReceipts.Size() <= IDEMPOTENCY_MARKER_CAPACITY {
        return;
      }
      var oldest := processedReceipts.keys[0];
      processedReceipts := processedReceipts.Delete(oldest);
    }
  }
}
