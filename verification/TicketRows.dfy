/** What each store call leaves in the rows, field by field, and that it touches no other row. */
module TicketRows {
  import opened DraftLifecycle
  import opened Strings
  import opened TicketDrafts
  import opened Utf8
  import opened Wrappers

  ghost predicate SameBut<K(!new), V>(a: map<K, V>, b: map<K, V>, key: K) {
    key in b && forall k :: k != key ==> (k in a <==> k in b) && (k in a && k in b ==> a[k] == b[k])
  }

  /** Tables that agree but for operations. */
  predicate OnlyOperations(s: Tables, t: Tables) {
    t.intents == s.intents && t.observations == s.observations && t.scans == s.scans && t.receipts == s.receipts
  }

  predicate OnlyIntents(s: Tables, t: Tables) {
    t.operations == s.operations && t.observations == s.observations && t.scans == s.scans && t.receipts == s.receipts
  }

  /** A new operation is pending, with its request as given. */
  lemma InsertedRow(s: Tables, key: string, request: Request, now: nat)
    requires Insert(s, key, request, now).result.Ok?
    ensures var t := Insert(s, key, request, now).state;
      && key !in s.operations && SameBut(s.operations, t.operations, key) && OnlyOperations(s, t)
      && var row := t.operations[key];
         && row.request == request && row.status.Pending? && row.createdAt == now && row.updatedAt == now
         && Insert(s, key, request, now).result.value == row
  {
  }

  /** A completed operation holds the draft, the receipt and the reference it was completed with, and the time, and
      keeps its request. */
  lemma FinishedRow(s: Tables, key: string, draftId: string, receiptId: string, draftRef: string, now: nat)
    requires key in s.operations && s.operations[key].status.Pending?
    requires Finish(s, key, draftId, receiptId, draftRef, now).result.Ok?
    ensures var t := Finish(s, key, draftId, receiptId, draftRef, now).state;
      && SameBut(s.operations, t.operations, key) && OnlyOperations(s, t)
      && var row := t.operations[key];
         && row.status.Completed? && row.status.draftId == draftId && row.status.receiptId == receiptId
         && row.status.draftRef == draftRef && row.status.completedAt == now
         && row.request == s.operations[key].request && row.createdAt == s.operations[key].createdAt
         && row.updatedAt == now && Finish(s, key, draftId, receiptId, draftRef, now).result.value == row
  {
  }

  /** Completing again with any other draft, receipt or reference is refused. */
  lemma FinishedStands(s: Tables, key: string, draftId: string, receiptId: string, draftRef: string, now: nat)
    requires key in s.operations && s.operations[key].status.Completed?
    ensures var status := s.operations[key].status;
      Finish(s, key, draftId, receiptId, draftRef, now).result.Ok? <==>
        |Encode(draftRef)| <= 16384 && status.draftId == draftId && status.receiptId == receiptId
        && status.draftRef == draftRef
    ensures Finish(s, key, draftId, receiptId, draftRef, now).result.Ok? ==>
      Finish(s, key, draftId, receiptId, draftRef, now) == Step(s, Ok(s.operations[key]))
  {
  }

  /** A new intent is opened, under the key and the digest it was asked with. */
  lemma OpenedRow(s: Tables, key: string, idempotencyKey: string, digest: string, now: nat)
    requires key !in s.intents && BeginDiscard(s, key, idempotencyKey, digest, now).result.Ok?
    ensures var t := BeginDiscard(s, key, idempotencyKey, digest, now).state;
      && key in s.operations && SameBut(s.intents, t.intents, key) && OnlyIntents(s, t)
      && var row := t.intents[key];
         && row.idempotencyKey == idempotencyKey && row.requestDigest == digest && row.status.Opened?
         && row.createdAt == now && row.updatedAt == now
         && BeginDiscard(s, key, idempotencyKey, digest, now).result.value == (row, true)
  {
  }

  /** A verified intent holds the trimmed tag and the time, and keeps what it was opened with. */
  lemma VerifiedRow(s: Tables, key: string, etag: string, now: nat)
    requires key in s.intents && !s.intents[key].status.Discarded? && VerifyDiscard(s, key, etag, now).result.Ok?
    ensures var t := VerifyDiscard(s, key, etag, now).state;
      && Trim(etag) != "" && SameBut(s.intents, t.intents, key) && OnlyIntents(s, t)
      && var was, row := s.intents[key], t.intents[key];
         && row.status.Verified? && row.status.etag == Trim(etag) && row.status.verifiedAt == now
         && row.idempotencyKey == was.idempotencyKey && row.requestDigest == was.requestDigest
         && row.createdAt == was.createdAt && row.updatedAt == now
         && VerifyDiscard(s, key, etag, now).result == Ok(row)
  {
  }

  /** A completed intent keeps its tag and takes the receipt and the time; the observation is stored whole, or was
      there with the same id and receipt. */
  lemma DiscardedRow(s: Tables, key: string, o: Observation, now: nat)
    requires key in s.intents && s.intents[key].status.Verified? && CompleteDiscard(s, key, o, now).result.Ok?
    ensures var t := CompleteDiscard(s, key, o, now).state;
      && SameBut(s.intents, t.intents, key) && t.operations == s.operations && t.scans == s.scans
      && t.receipts == s.receipts && SameBut(s.observations, t.observations, o.operationKey)
      && (o.operationKey !in s.observations ==> t.observations[o.operationKey] == o)
      && (o.operationKey in s.observations ==> t.observations == s.observations)
      && var was, row := s.intents[key], t.intents[key];
         && row.status.Discarded? && row.status.etag == was.status.etag
         && row.status.verifiedAt == was.status.verifiedAt
         && row.status.receipt == o.receipt && row.status.completedAt == now && row.updatedAt == now
         && row.createdAt == was.createdAt && CompleteDiscard(s, key, o, now).result == Ok(row)
         && row.idempotencyKey == was.idempotencyKey && row.requestDigest == was.requestDigest
  {
  }

  /** A recorded observation is stored whole under its operation. */
  lemma ObservedRow(s: Tables, o: Observation)
    requires o.operationKey !in s.observations && Record(s, o).result.Ok?
    ensures var t := Record(s, o).state;
      && o.operationKey in s.operations && |Encode(o.receipt)| <= 16384
      && SameBut(s.observations, t.observations, o.operationKey) && t.observations[o.operationKey] == o
      && t.operations == s.operations && t.intents == s.intents && t.scans == s.scans && t.receipts == s.receipts
      && Record(s, o).result.value == (o, true)
  {
  }

  /** A mark holds the time of the scan and counts the scans. */
  lemma MarkedRow(s: Tables, key: string, at: nat)
    requires MarkScanned(s, key, at).result.Ok?
    ensures var t := MarkScanned(s, key, at).state;
      && key in s.operations && s.operations[key].status.Completed? && SameBut(s.scans, t.scans, key)
      && t.operations == s.operations && t.intents == s.intents && t.observations == s.observations
      && t.receipts == s.receipts && t.scans[key].lastScannedAt == at
      && t.scans[key].count == 1 + (if key in s.scans then s.scans[key].count else 0)
  {
  }

  /** An acknowledgement is stored under the observation and the consumer, with its reference, receipt and time. */
  lemma AcknowledgedRow(s: Tables, id: string, consumer: string, ref: string, receipt: string, at: nat)
    requires (id, consumer) !in s.receipts && Acknowledge(s, id, consumer, ref, receipt, at).result.Ok?
    ensures var t := Acknowledge(s, id, consumer, ref, receipt, at).state;
      && (exists k :: k in s.observations && s.observations[k].observationId == id)
      && SameBut(s.receipts, t.receipts, (id, consumer)) && t.operations == s.operations && t.intents == s.intents
      && t.observations == s.observations && t.scans == s.scans
      && var row := t.receipts[(id, consumer)];
         && row.reconciliationRef == ref && row.receipt == receipt && row.acknowledgedAt == at
         && Acknowledge(s, id, consumer, ref, receipt, at).result == Ok(true)
  {
  }

  // ---- which calls succeed ----

  /** An intent opened before is found again under the same key and digest only. */
  lemma OpenedStands(s: Tables, key: string, idempotencyKey: string, digest: string, now: nat)
    requires key in s.intents
    ensures BeginDiscard(s, key, idempotencyKey, digest, now).result.Ok? <==>
      s.intents[key].idempotencyKey == idempotencyKey && s.intents[key].requestDigest == digest
    ensures BeginDiscard(s, key, idempotencyKey, digest, now).result.Ok? ==>
      BeginDiscard(s, key, idempotencyKey, digest, now) == Step(s, Ok((s.intents[key], false)))
  {
  }

  /** An observation recorded before, with the same id and receipt only. */
  lemma ObservedStands(s: Tables, o: Observation)
    requires o.operationKey in s.observations
    ensures Record(s, o).result.Ok? <==>
      && |Encode(o.receipt)| <= 16384 && s.observations[o.operationKey].observationId == o.observationId
      && s.observations[o.operationKey].receipt == o.receipt
    ensures Record(s, o).result.Ok? ==> Record(s, o) == Step(s, Ok((s.observations[o.operationKey], false)))
  {
  }

  /** A discard completed before, with the same receipt only. */
  lemma DiscardedStands(s: Tables, key: string, o: Observation, now: nat)
    requires key in s.intents && s.intents[key].status.Discarded?
    ensures CompleteDiscard(s, key, o, now).result.Ok? <==>
      |Encode(o.receipt)| <= 16384 && s.intents[key].status.receipt == o.receipt
    ensures CompleteDiscard(s, key, o, now).result.Ok? ==>
      CompleteDiscard(s, key, o, now) == Step(s, Ok(s.intents[key]))
  {
  }

  /** An acknowledgement made before, with the same reference and receipt only. */
  lemma AcknowledgedStands(s: Tables, id: string, consumer: string, ref: string, receipt: string, at: nat)
    requires (id, consumer) in s.receipts
    ensures Acknowledge(s, id, consumer, ref, receipt, at).result.Ok? <==>
      && |Encode(receipt)| <= 16384 && s.receipts[(id, consumer)].reconciliationRef == ref
      && s.receipts[(id, consumer)].receipt == receipt
    ensures Acknowledge(s, id, consumer, ref, receipt, at).result.Ok? ==>
      Acknowledge(s, id, consumer, ref, receipt, at) == Step(s, Ok(false))
  {
  }

  /** New rows: keys and unique columns are free, the rows they refer to are there, no text is over 16384 bytes. */
  lemma NewRowsAreAdmitted(s: Tables, key: string, request: Request, idempotencyKey: string, digest: string, now: nat)
    ensures Insert(s, key, request, now).result.Ok? <==>
      key !in s.operations && forall k :: k in s.operations ==> s.operations[k].request.actionKey != request.actionKey
    ensures key !in s.intents ==> (BeginDiscard(s, key, idempotencyKey, digest, now).result.Ok? <==>
      key in s.operations && forall k :: k in s.intents ==> s.intents[k].idempotencyKey != idempotencyKey)
  {
  }

  lemma NewObservationsAreAdmitted(s: Tables, o: Observation)
    requires o.operationKey !in s.observations
    ensures Record(s, o).result.Ok? <==>
      && |Encode(o.receipt)| <= 16384 && o.operationKey in s.operations
      && forall k :: k in s.observations ==>
           s.observations[k].observationId != o.observationId && s.observations[k].evidenceId != o.evidenceId
  {
  }

  lemma NewAcknowledgementsAreAdmitted(s: Tables, id: string, consumer: string, ref: string, receipt: string, at: nat)
    requires (id, consumer) !in s.receipts
    ensures Acknowledge(s, id, consumer, ref, receipt, at).result.Ok? <==>
      |Encode(receipt)| <= 16384 && exists k :: k in s.observations && s.observations[k].observationId == id
  {
  }

  /** A discard completes only from a verified intent, and then exactly when its observation is recorded. */
  lemma DiscardsComplete(s: Tables, key: string, o: Observation, now: nat)
    requires key !in s.intents || !s.intents[key].status.Discarded?
    ensures CompleteDiscard(s, key, o, now).result.Ok? <==>
      key in s.intents && s.intents[key].status.Verified? && Record(s, o).result.Ok?
    ensures CompleteDiscard(s, key, o, now).result.Ok? ==>
      CompleteDiscard(s, key, o, now).state.observations == Record(s, o).state.observations
  {
  }

  // ---- where rows come from ----

  /** The operation was inserted with its request and, if it is completed, completed with what it holds. */
  predicate GivenOperation(calls: seq<Call>, key: string, row: Operation) {
    && DoInsert(key, row.request, row.createdAt) in calls
    && match row.status
       case Pending => true
       case Completed(draftId, receiptId, draftRef, at) => DoFinish(key, draftId, receiptId, draftRef, at) in calls
  }

  /** Some call verified the intent with this tag, white space aside. */
  ghost predicate GivenTag(calls: seq<Call>, key: string, etag: string, at: nat) {
    exists c :: c in calls && c.DoVerifyDiscard? && c.key == key && Trim(c.etag) == etag && c.now == at
  }

  ghost predicate GivenReceipt(calls: seq<Call>, key: string, receipt: string, at: nat) {
    exists c :: c in calls && c.DoCompleteDiscard? && c.key == key && c.observation.receipt == receipt && c.now == at
  }

  ghost predicate GivenIntent(calls: seq<Call>, key: string, row: Intent) {
    && DoBeginDiscard(key, row.idempotencyKey, row.requestDigest, row.createdAt) in calls
    && match row.status
       case Opened => true
       case Verified(etag, at) => GivenTag(calls, key, etag, at)
       case Discarded(etag, at, receipt, completedAt) =>
         GivenTag(calls, key, etag, at) && GivenReceipt(calls, key, receipt, completedAt)
  }

  ghost predicate GivenObservation(calls: seq<Call>, row: Observation) {
    exists c :: c in calls && (c.DoRecord? || c.DoCompleteDiscard?) && c.observation == row
  }

  /** Every row of the tables holds what calls have given. */
  ghost predicate Given(calls: seq<Call>, s: Tables) {
    && (forall k :: k in s.operations ==> GivenOperation(calls, k, s.operations[k]))
    && (forall k :: k in s.intents ==> GivenIntent(calls, k, s.intents[k]))
    && (forall k :: k in s.observations ==>
          s.observations[k].operationKey == k && GivenObservation(calls, s.observations[k]))
    && (forall k :: k in s.scans ==> DoMarkScanned(k, s.scans[k].lastScannedAt) in calls)
    && (forall k :: k in s.receipts ==>
          var row := s.receipts[k];
          DoAcknowledge(k.0, k.1, row.reconciliationRef, row.receipt, row.acknowledgedAt) in calls)
  }

  lemma MoreCallsGive(calls: seq<Call>, c: Call, s: Tables)
    requires Given(calls, s)
    ensures Given(calls + [c], s)
  {
    var more := calls + [c];
    assert forall d :: d in calls ==> d in more;
    forall k | k in s.intents
      ensures GivenIntent(more, k, s.intents[k])
    {
      assert GivenIntent(calls, k, s.intents[k]);
    }
    forall k | k in s.observations
      ensures GivenObservation(more, s.observations[k])
    {
      assert GivenObservation(calls, s.observations[k]);
    }
  }

  lemma OperationGiven(calls: seq<Call>, c: Call, s: Tables, k: string)
    requires Given(calls, s) && c in calls && k in Apply(s, c).operations
    ensures GivenOperation(calls, k, Apply(s, c).operations[k])
  {
  }

  lemma IntentGiven(calls: seq<Call>, c: Call, s: Tables, k: string)
    requires Given(calls, s) && c in calls && k in Apply(s, c).intents
    ensures GivenIntent(calls, k, Apply(s, c).intents[k])
  {
    if k in s.intents {
      assert GivenIntent(calls, k, s.intents[k]);
    }
  }

  lemma ObservationGiven(calls: seq<Call>, c: Call, s: Tables, k: string)
    requires Given(calls, s) && c in calls && k in Apply(s, c).observations
    ensures Apply(s, c).observations[k].operationKey == k && GivenObservation(calls, Apply(s, c).observations[k])
  {
    ObservationsComeFromRecord(s, c);
  }

  lemma ScanGiven(calls: seq<Call>, c: Call, s: Tables, k: string)
    requires Given(calls, s) && c in calls && k in Apply(s, c).scans
    ensures DoMarkScanned(k, Apply(s, c).scans[k].lastScannedAt) in calls
  {
  }

  lemma OthersKeepReceipts(s: Tables, c: Call)
    requires !c.DoAcknowledge?
    ensures Apply(s, c).receipts == s.receipts
  {
  }

  lemma ReceiptGiven(calls: seq<Call>, c: Call, s: Tables, k: (string, string))
    requires Given(calls, s) && c in calls && k in Apply(s, c).receipts
    ensures var row := Apply(s, c).receipts[k];
      DoAcknowledge(k.0, k.1, row.reconciliationRef, row.receipt, row.acknowledgedAt) in calls
  {
    if !c.DoAcknowledge? {
      OthersKeepReceipts(s, c);
    }
  }

  lemma CallGives(calls: seq<Call>, c: Call, s: Tables)
    requires Given(calls, s) && c in calls
    ensures Given(calls, Apply(s, c))
  {
    var t := Apply(s, c);
    forall k | k in t.operations { OperationGiven(calls, c, s, k); }
    forall k | k in t.intents { IntentGiven(calls, c, s, k); }
    forall k | k in t.observations { ObservationGiven(calls, c, s, k); }
    forall k | k in t.scans { ScanGiven(calls, c, s, k); }
    forall k | k in t.receipts { ReceiptGiven(calls, c, s, k); }
  }

  lemma {:induction false} CallsGive(before: seq<Call>, s: Tables, calls: seq<Call>)
    requires Given(before, s)
    ensures Given(before + calls, DraftLifecycle.Run(s, calls))
    decreases |calls|
  {
    if calls == [] {
      assert before + calls == before;
    } else {
      var more := before + [calls[0]];
      MoreCallsGive(before, calls[0], s);
      assert calls[0] in more;
      CallGives(more, calls[0], s);
      CallsGive(more, Apply(s, calls[0]), calls[1..]);
      assert more + calls[1..] == before + calls;
    }
  }

  /** After any calls every field of every row is what some call gave: the request of an operation and the draft,
      receipt and reference it was completed with; the key, digest, tag and receipt of an intent; observations whole;
      the marks; and the reference and receipt of an acknowledgement under its observation and consumer. */
  lemma EveryRowWasGiven(calls: seq<Call>)
    ensures Given(calls, DraftLifecycle.Run(EMPTY, calls))
  {
    CallsGive([], EMPTY, calls);
    assert [] + calls == calls;
  }
}
