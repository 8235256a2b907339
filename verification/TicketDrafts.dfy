/** The ticket draft store: draft operations, discard intents, disposition observations and their
    acknowledgements. Each store call is a step on its tables; `DraftStore` does the steps in place. */
module TicketDrafts {
  import opened Strings
  import opened Utf8
  import opened Wrappers

  const RECEIPT_LIMIT := 16384

  datatype OperationStatus =
    | Pending
    | Completed(draftId: string, receiptId: string, draftRef: string, completedAt: nat)

  datatype Request = Request(
    actionKey: string, requestDigest: string, draftRequestDigest: string, ticketId: string,
    effectClaimId: string, mailboxId: string, sourceMessageId: string, replyAll: bool)

  datatype Operation = Operation(request: Request, status: OperationStatus, createdAt: nat, updatedAt: nat)

  datatype IntentStatus =
    | Opened
    | Verified(etag: string, verifiedAt: nat)
    | Discarded(etag: string, verifiedAt: nat, receipt: string, completedAt: nat)

  datatype Intent = Intent(
    idempotencyKey: string, requestDigest: string, status: IntentStatus, createdAt: nat, updatedAt: nat)

  datatype Disposition = WasSent | WasDiscarded

  datatype EvidenceKind = SynchronizedObservation | OperatorConfirmedDiscard | AbsenceAfterVerifiedDiscard

  /** Receipts are the canonical JSON text the store keeps. */
  datatype Observation = Observation(
    observationId: string, operationKey: string, ticketId: string, mailboxId: string, draftId: string,
    disposition: Disposition, evidenceKind: EvidenceKind, evidenceId: string, receipt: string, observedAt: nat)

  datatype Scan = Scan(lastScannedAt: nat, count: nat)

  datatype Acknowledgement = Acknowledgement(reconciliationRef: string, receipt: string, acknowledgedAt: nat)

  /** The five tables. Observations are keyed by operation (unique there), acknowledgements by observation and
      consumer. */
  datatype Tables = Tables(
    operations: map<string, Operation>, intents: map<string, Intent>, observations: map<string, Observation>,
    scans: map<string, Scan>, receipts: map<(string, string), Acknowledgement>)

  const EMPTY := Tables(map[], map[], map[], map[], map[])

  datatype Error =
    | ConstraintViolated | OperationNotFound | IntentNotFound
    | DiscardIdempotencyConflict | EtagRequired | NotVerified | DiscardCompletionConflict
    | ReceiptTooLarge | DraftCompletionConflict | ObservationConflict | ScanOperationNotCompleted
    | ConsumerRequired | AcknowledgementConflict | TransactionAlreadyOpen | TransactionNotOpen

  predicate TooLarge(text: string) {
    |Encode(text)| > RECEIPT_LIMIT
  }

  // ---- what each call does to the tables ----

  datatype Step<T> = Step(state: Tables, result: Result<T, Error>)

  function Fail<T>(s: Tables, error: Error): Step<T> {
    Step(s, Err(error))
  }

  predicate ActionKeyTaken(s: Tables, actionKey: string) {
    exists k :: k in s.operations && s.operations[k].request.actionKey == actionKey
  }

  function Insert(s: Tables, key: string, request: Request, now: nat): Step<Operation> {
    if key in s.operations || ActionKeyTaken(s, request.actionKey) then Fail(s, ConstraintViolated)
    else
      var row := Operation(request, Pending, now, now);
      Step(s.(operations := s.operations[key := row]), Ok(row))
  }

  function Finish(s: Tables, key: string, draftId: string, receiptId: string, draftRef: string, now: nat)
    : Step<Operation>
  {
    if TooLarge(draftRef) then Fail(s, ReceiptTooLarge)
    else if key !in s.operations then Fail(s, OperationNotFound)
    else
      var row := s.operations[key];
      match row.status
      case Pending =>
        var done := row.(status := Completed(draftId, receiptId, draftRef, now), updatedAt := now);
        Step(s.(operations := s.operations[key := done]), Ok(done))
      case Completed(d, r, f, _) =>
        if d == draftId && r == receiptId && f == draftRef then Step(s, Ok(row)) else Fail(s, DraftCompletionConflict)
  }

  predicate IdempotencyKeyTaken(s: Tables, idempotencyKey: string) {
    exists k :: k in s.intents && s.intents[k].idempotencyKey == idempotencyKey
  }

  function BeginDiscard(s: Tables, key: string, idempotencyKey: string, digest: string, now: nat)
    : Step<(Intent, bool)>
  {
    if key in s.intents then
      var row := s.intents[key];
      if row.idempotencyKey == idempotencyKey && row.requestDigest == digest then Step(s, Ok((row, false)))
      else Fail(s, DiscardIdempotencyConflict)
    else if key !in s.operations || IdempotencyKeyTaken(s, idempotencyKey) then Fail(s, ConstraintViolated)
    else
      var row := Intent(idempotencyKey, digest, Opened, now, now);
      Step(s.(intents := s.intents[key := row]), Ok((row, true)))
  }

  function VerifyDiscard(s: Tables, key: string, etag: string, now: nat): Step<Intent> {
    if Trim(etag) == "" then Fail(s, EtagRequired)
    else if key !in s.intents then Fail(s, IntentNotFound)
    else
      var row := s.intents[key];
      if row.status.Discarded? then Step(s, Ok(row))
      else
        var next := row.(status := Verified(Trim(etag), now), updatedAt := now);
        Step(s.(intents := s.intents[key := next]), Ok(next))
  }

  predicate SharesId(a: Observation, b: Observation) {
    a.observationId == b.observationId || a.evidenceId == b.evidenceId
  }

  predicate ObservationTaken(s: Tables, o: Observation) {
    exists k :: k in s.observations && SharesId(s.observations[k], o)
  }

  function Record(s: Tables, o: Observation): Step<(Observation, bool)> {
    if TooLarge(o.receipt) then Fail(s, ReceiptTooLarge)
    else if o.operationKey in s.observations then
      var row := s.observations[o.operationKey];
      if row.observationId == o.observationId && row.receipt == o.receipt then Step(s, Ok((row, false)))
      else Fail(s, ObservationConflict)
    else if o.operationKey !in s.operations || ObservationTaken(s, o) then Fail(s, ConstraintViolated)
    else Step(s.(observations := s.observations[o.operationKey := o]), Ok((o, true)))
  }

  function CompleteDiscard(s: Tables, key: string, o: Observation, now: nat): Step<Intent> {
    if TooLarge(o.receipt) then Fail(s, ReceiptTooLarge)
    else if key !in s.intents then Fail(s, IntentNotFound)
    else
      var row := s.intents[key];
      match row.status
      case Discarded(_, _, receipt, _) =>
        if receipt == o.receipt then Step(s, Ok(row)) else Fail(s, DiscardCompletionConflict)
      case Opened => Fail(s, NotVerified)
      case Verified(etag, at) =>
        match Record(s, o).result
        case Err(error) => Fail(s, error)
        case Ok(_) =>
          var done := row.(status := Discarded(etag, at, o.receipt, now), updatedAt := now);
          Step(Record(s, o).state.(intents := s.intents[key := done]), Ok(done))
  }

  function MarkScanned(s: Tables, key: string, at: nat): Step<bool> {
    if key !in s.operations then Fail(s, OperationNotFound)
    else if s.operations[key].status.Pending? then Fail(s, ScanOperationNotCompleted)
    else
      var count := if key in s.scans then s.scans[key].count + 1 else 1;
      Step(s.(scans := s.scans[key := Scan(at, count)]), Ok(true))
  }

  predicate ObservationExists(s: Tables, id: string) {
    exists k :: k in s.observations && s.observations[k].observationId == id
  }

  /** The result says whether the acknowledgement is new. */
  function Acknowledge(s: Tables, id: string, consumer: string, ref: string, receipt: string, at: nat): Step<bool> {
    if TooLarge(receipt) then Fail(s, ReceiptTooLarge)
    else if (id, consumer) in s.receipts then
      var row := s.receipts[(id, consumer)];
      if row.reconciliationRef == ref && row.receipt == receipt then Step(s, Ok(false))
        else Fail(s, AcknowledgementConflict)
    else if !ObservationExists(s, id) then Fail(s, ConstraintViolated)
    else Step(s.(receipts := s.receipts[(id, consumer) := Acknowledgement(ref, receipt, at)]), Ok(true))
  }

  // ---- the store, in place, with its transaction ----

  class DraftStore {
    var operations: map<string, Operation>
    var intents: map<string, Intent>
    var observations: map<string, Observation>
    var scans: map<string, Scan>
    var receipts: map<(string, string), Acknowledgement>
    var transactionOpen: bool
    var saved: Tables

    constructor ()
      ensures Contents() == EMPTY && !transactionOpen
    {
      operations, intents, observations, scans, receipts := map[], map[], map[], map[], map[];
      transactionOpen, saved := false, EMPTY;
    }

    function Contents(): Tables
      reads this
    {
      Tables(operations, intents, observations, scans, receipts)
    }

    method BeginImmediate() returns (r: Result<bool, Error>)
      modifies this`transactionOpen, this`saved
      ensures r.Ok? <==> !old(transactionOpen)
      ensures r.Ok? ==> transactionOpen && saved == Contents()
      ensures r.Err? ==> transactionOpen == old(transactionOpen) && saved == old(saved)
    {
      if transactionOpen {
        return Err(TransactionAlreadyOpen);
      }
      transactionOpen, saved := true, Contents();
      return Ok(true);
    }

    method Commit() returns (r: Result<bool, Error>)
      modifies this`transactionOpen
      ensures r.Ok? <==> old(transactionOpen)
      ensures !transactionOpen
    {
      if !transactionOpen {
        return Err(TransactionNotOpen);
      }
      transactionOpen := false;
      return Ok(true);
    }

    /** Back to the tables of the last begin; nothing when no transaction is open. */
    method Rollback()
      modifies this
      ensures !transactionOpen && Contents() == if old(transactionOpen) then old(saved) else old(Contents())
    {
      if !transactionOpen {
        return;
      }
      operations, intents, observations := saved.operations, saved.intents, saved.observations;
      scans, receipts, transactionOpen := saved.scans, saved.receipts, false;
    }

    method InsertPending(key: string, request: Request, now: nat) returns (r: Result<Operation, Error>)
      modifies this`operations
      ensures !transactionOpen ==> r == Err(TransactionNotOpen) && Contents() == old(Contents())
      ensures transactionOpen ==> Insert(old(Contents()), key, request, now) == Step(Contents(), r)
    {
      if !transactionOpen {
        return Err(TransactionNotOpen);
      }
      if key in operations || exists k :: k in operations && operations[k].request.actionKey == request.actionKey {
        assert key in operations || ActionKeyTaken(Contents(), request.actionKey);
        return Err(ConstraintViolated);
      }
      assert !ActionKeyTaken(Contents(), request.actionKey);
      operations := operations[key := Operation(request, Pending, now, now)];
      return Ok(operations[key]);
    }

    method Complete(key: string, draftId: string, receiptId: string, draftRef: string, now: nat)
      returns (r: Result<Operation, Error>)
      modifies this`operations
      ensures !transactionOpen ==> r == Err(TransactionNotOpen) && Contents() == old(Contents())
      ensures transactionOpen ==> Finish(old(Contents()), key, draftId, receiptId, draftRef, now) == Step(Contents(), r)
    {
      if !transactionOpen {
        return Err(TransactionNotOpen);
      }
      if TooLarge(draftRef) {
        return Err(ReceiptTooLarge);
      }
      var changes := 0;
      if key in operations && operations[key].status.Pending? {
        operations := operations[key := operations[key].(
          status := Completed(draftId, receiptId, draftRef, now), updatedAt := now)];
        changes := 1;
      }
      if key !in operations {
        return Err(OperationNotFound);
      }
      var existing := operations[key];
      if changes != 1
        && (existing.status.draftId != draftId || existing.status.receiptId != receiptId
          || existing.status.draftRef != draftRef)
      {
        return Err(DraftCompletionConflict);
      }
      return Ok(existing);
    }

    method BeginDiscardIntent(key: string, idempotencyKey: string, digest: string, now: nat)
      returns (r: Result<(Intent, bool), Error>)
      modifies this`intents
      ensures BeginDiscard(old(Contents()), key, idempotencyKey, digest, now) == Step(Contents(), r)
    {
      var changes := 0;
      if key !in intents {
        if key !in operations || exists k :: k in intents && intents[k].idempotencyKey == idempotencyKey {
          assert key !in operations || IdempotencyKeyTaken(Contents(), idempotencyKey);
          return Err(ConstraintViolated);
        }
        assert !IdempotencyKeyTaken(Contents(), idempotencyKey);
        intents := intents[key := Intent(idempotencyKey, digest, Opened, now, now)];
        changes := 1;
      }
      var intent := intents[key];
      if intent.idempotencyKey != idempotencyKey || intent.requestDigest != digest {
        return Err(DiscardIdempotencyConflict);
      }
      return Ok((intent, changes == 1));
    }

    method VerifyDiscardIntent(key: string, etag: string, now: nat) returns (r: Result<Intent, Error>)
      modifies this`intents
      ensures VerifyDiscard(old(Contents()), key, etag, now) == Step(Contents(), r)
    {
      var normalized := Trim(etag);
      if normalized == "" {
        return Err(EtagRequired);
      }
      if key !in intents {
        return Err(IntentNotFound);
      }
      if !intents[key].status.Discarded? {
        intents := intents[key := intents[key].(status := Verified(normalized, now), updatedAt := now)];
      }
      return Ok(intents[key]);
    }

    method RecordDispositionObservation(o: Observation) returns (r: Result<(Observation, bool), Error>)
      modifies this`observations
      ensures Record(old(Contents()), o) == Step(Contents(), r)
    {
      if TooLarge(o.receipt) {
        return Err(ReceiptTooLarge);
      }
      var changes := 0;
      if o.operationKey !in observations {
        if o.operationKey !in operations || exists k :: k in observations && SharesId(observations[k], o) {
          assert o.operationKey !in operations || ObservationTaken(Contents(), o);
          return Err(ConstraintViolated);
        }
        assert !ObservationTaken(Contents(), o);
        observations := observations[o.operationKey := o];
        changes := 1;
      }
      var row := observations[o.operationKey];
      if row.observationId != o.observationId || row.receipt != o.receipt {
        return Err(ObservationConflict);
      }
      return Ok((row, changes == 1));
    }

    /** One transaction: the observation and the intent change together or not at all. */
    method CompleteDiscardIntent(key: string, o: Observation, now: nat) returns (r: Result<Intent, Error>)
      modifies this
      ensures TooLarge(o.receipt) ==>
        r == Err(ReceiptTooLarge) && Contents() == old(Contents()) && transactionOpen == old(transactionOpen)
      ensures !TooLarge(o.receipt) && old(transactionOpen) ==>
        r == Err(TransactionAlreadyOpen) && Contents() == old(Contents()) && transactionOpen && saved == old(saved)
      ensures !TooLarge(o.receipt) && !old(transactionOpen) ==>
        CompleteDiscard(old(Contents()), key, o, now) == Step(Contents(), r) && !transactionOpen
    {
      if TooLarge(o.receipt) {
        return Err(ReceiptTooLarge);
      }
      var begun := BeginImmediate();
      if begun.Err? {
        return Err(TransactionAlreadyOpen);
      }
      r := CompleteInside(key, o, now);
      if r.Err? {
        Rollback();
      } else {
        var _ := Commit();
      }
    }

    method CompleteInside(key: string, o: Observation, now: nat) returns (r: Result<Intent, Error>)
      requires !TooLarge(o.receipt)
      modifies this`observations, this`intents
      ensures CompleteDiscard(old(Contents()), key, o, now).result == r
      ensures r.Ok? ==> CompleteDiscard(old(Contents()), key, o, now).state == Contents()
    {
      if key !in intents {
        return Err(IntentNotFound);
      }
      var current := intents[key];
      match current.status {
        case Discarded(_, _, receipt, _) =>
          if receipt != o.receipt {
            return Err(DiscardCompletionConflict);
          }
          return Ok(current);
        case Opened => return Err(NotVerified);
        case Verified(etag, at) =>
          var recorded := RecordDispositionObservation(o);
          match recorded {
            case Err(error) => return Err(error);
            case Ok(_) =>
          }
          intents := intents[key := current.(status := Discarded(etag, at, o.receipt, now), updatedAt := now)];
          return Ok(intents[key]);
      }
    }

    method MarkDispositionScanned(key: string, at: nat) returns (r: Result<bool, Error>)
      modifies this`scans
      ensures MarkScanned(old(Contents()), key, at) == Step(Contents(), r)
    {
      if key !in operations {
        return Err(OperationNotFound);
      }
      if !operations[key].status.Completed? {
        return Err(ScanOperationNotCompleted);
      }
      if key in scans {
        scans := scans[key := Scan(at, scans[key].count + 1)];
      } else {
        scans := scans[key := Scan(at, 1)];
      }
      return Ok(true);
    }

    method AcknowledgeDispositionObservation(id: string, consumer: string, ref: string, receipt: string, at: nat)
      returns (r: Result<bool, Error>)
      modifies this`receipts
      ensures Acknowledge(old(Contents()), id, consumer, ref, receipt, at) == Step(Contents(), r)
    {
      if TooLarge(receipt) {
        return Err(ReceiptTooLarge);
      }
      var changes := 0;
      if (id, consumer) !in receipts {
        if !exists k :: k in observations && observations[k].observationId == id {
          assert !ObservationExists(Contents(), id);
          return Err(ConstraintViolated);
        }
        assert ObservationExists(Contents(), id);
        receipts := receipts[(id, consumer) := Acknowledgement(ref, receipt, at)];
        changes := 1;
      }
      var existing := receipts[(id, consumer)];
      if existing.reconciliationRef != ref || existing.receipt != receipt {
        return Err(AcknowledgementConflict);
      }
      return Ok(changes == 1);
    }
  }
}
