/** What every sequence of store calls keeps: rows only move forward, completed rows are frozen, an
    operation has one disposition for good, and replays change nothing. */
module DraftLifecycle {
  import opened Strings
  import opened TicketDrafts
  import opened Utf8
  import opened Wrappers

  datatype Call =
    | DoInsert(key: string, request: Request, now: nat)
    | DoFinish(key: string, draftId: string, receiptId: string, draftRef: string, now: nat)
    | DoBeginDiscard(key: string, idempotencyKey: string, digest: string, now: nat)
    | DoVerifyDiscard(key: string, etag: string, now: nat)
    | DoCompleteDiscard(key: string, observation: Observation, now: nat)
    | DoRecord(observation: Observation)
    | DoMarkScanned(key: string, now: nat)
    | DoAcknowledge(id: string, consumer: string, ref: string, receipt: string, now: nat)

  function Apply(s: Tables, c: Call): Tables {
    match c
    case DoInsert(key, request, now) => Insert(s, key, request, now).state
    case DoFinish(key, draftId, receiptId, draftRef, now) => Finish(s, key, draftId, receiptId, draftRef, now).state
    case DoBeginDiscard(key, idempotencyKey, digest, now) => BeginDiscard(s, key, idempotencyKey, digest, now).state
    case DoVerifyDiscard(key, etag, now) => VerifyDiscard(s, key, etag, now).state
    case DoCompleteDiscard(key, observation, now) => CompleteDiscard(s, key, observation, now).state
    case DoRecord(observation) => Record(s, observation).state
    case DoMarkScanned(key, now) => MarkScanned(s, key, now).state
    case DoAcknowledge(id, consumer, ref, receipt, now) => Acknowledge(s, id, consumer, ref, receipt, now).state
  }

  predicate Succeeds(s: Tables, c: Call) {
    match c
    case DoInsert(key, request, now) => Insert(s, key, request, now).result.Ok?
    case DoFinish(key, draftId, receiptId, draftRef, now) =>
      Finish(s, key, draftId, receiptId, draftRef, now).result.Ok?
    case DoBeginDiscard(key, idempotencyKey, digest, now) =>
      BeginDiscard(s, key, idempotencyKey, digest, now).result.Ok?
    case DoVerifyDiscard(key, etag, now) => VerifyDiscard(s, key, etag, now).result.Ok?
    case DoCompleteDiscard(key, observation, now) => CompleteDiscard(s, key, observation, now).result.Ok?
    case DoRecord(observation) => Record(s, observation).result.Ok?
    case DoMarkScanned(key, now) => MarkScanned(s, key, now).result.Ok?
    case DoAcknowledge(id, consumer, ref, receipt, now) => Acknowledge(s, id, consumer, ref, receipt, now).result.Ok?
  }

  function Run(s: Tables, calls: seq<Call>): Tables
    decreases |calls|
  {
    if calls == [] then s else Run(Apply(s, calls[0]), calls[1..])
  }

  /** A refused call leaves every table as it was. */
  lemma RefusalChangesNothing(s: Tables, c: Call)
    requires !Succeeds(s, c)
    ensures Apply(s, c) == s
  {
  }

  // ---- rows only move forward ----

  predicate OperationForward(a: Operation, b: Operation) {
    a.request == b.request && a.createdAt == b.createdAt && (a.status.Completed? ==> a == b)
  }

  predicate IntentForward(a: Intent, b: Intent) {
    && a.idempotencyKey == b.idempotencyKey && a.requestDigest == b.requestDigest && a.createdAt == b.createdAt
    && (a.status.Discarded? ==> a == b)
    && (a.status.Verified? ==> !b.status.Opened?)
  }

  /** No single call takes an intent from opened, or from nothing, straight to completed. */
  lemma CompletesOnlyVerified(s: Tables, c: Call, key: string)
    requires key in Apply(s, c).intents && Apply(s, c).intents[key].status.Discarded?
    ensures key in s.intents && !s.intents[key].status.Opened?
    ensures s.intents[key].status.Verified? ==>
      && c.DoCompleteDiscard? && c.key == key
      && Apply(s, c).intents[key].status.etag == s.intents[key].status.etag
      && Apply(s, c).intents[key].status.receipt == c.observation.receipt
  {
  }

  ghost predicate OperationsForward(s: Tables, t: Tables) {
    forall k :: k in s.operations ==> k in t.operations && OperationForward(s.operations[k], t.operations[k])
  }

  ghost predicate IntentsForward(s: Tables, t: Tables) {
    forall k :: k in s.intents ==> k in t.intents && IntentForward(s.intents[k], t.intents[k])
  }

  ghost predicate RestForward(s: Tables, t: Tables) {
    && (forall k :: k in s.observations ==> k in t.observations && t.observations[k] == s.observations[k])
    && (forall k :: k in s.receipts ==> k in t.receipts && t.receipts[k] == s.receipts[k])
    && (forall k :: k in s.scans ==> k in t.scans && t.scans[k].count >= s.scans[k].count)
  }

  ghost predicate Forward(s: Tables, t: Tables) {
    OperationsForward(s, t) && IntentsForward(s, t) && RestForward(s, t)
  }

  lemma OperationsMove(s: Tables, c: Call)
    ensures OperationsForward(s, Apply(s, c))
  {
  }

  lemma IntentsMove(s: Tables, c: Call)
    ensures IntentsForward(s, Apply(s, c))
  {
    match c {
      case DoBeginDiscard(_, _, _, _) =>
      case DoVerifyDiscard(_, _, _) =>
      case DoCompleteDiscard(_, _, _) =>
      case _ => assert Apply(s, c).intents == s.intents;
    }
  }

  lemma RestMoves(s: Tables, c: Call)
    ensures RestForward(s, Apply(s, c))
  {
  }

  lemma CallGoesForward(s: Tables, c: Call)
    ensures Forward(s, Apply(s, c))
  {
    OperationsMove(s, c);
    IntentsMove(s, c);
    RestMoves(s, c);
  }

  lemma ForwardChains(s: Tables, t: Tables, u: Tables)
    requires Forward(s, t) && Forward(t, u)
    ensures Forward(s, u)
  {
  }

  /** Operations go pending to completed, intents opened to verified to completed, completed rows,
      observations and acknowledgements never change again: over any calls by anyone. */
  lemma {:induction false} RunGoesForward(s: Tables, calls: seq<Call>)
    ensures Forward(s, Run(s, calls))
    decreases |calls|
  {
    if calls != [] {
      CallGoesForward(s, calls[0]);
      RunGoesForward(Apply(s, calls[0]), calls[1..]);
      ForwardChains(s, Apply(s, calls[0]), Run(s, calls));
    }
  }

  // ---- the tables agree with each other ----

  /** An intent passes to completed only through verified, and an observation by its own operation. */
  ghost predicate Linked(s: Tables) {
    && (forall k :: k in s.intents ==> k in s.operations)
    && (forall k :: k in s.observations ==> k in s.operations && s.observations[k].operationKey == k)
    && (forall k :: k in s.scans ==> k in s.operations && s.operations[k].status.Completed? && s.scans[k].count > 0)
    && (forall k :: k in s.receipts ==> ObservationExists(s, k.0))
  }

  ghost predicate UniqueActions(s: Tables) {
    forall j, k :: j in s.operations && k in s.operations ==>
      s.operations[j].request.actionKey == s.operations[k].request.actionKey ==> j == k
  }

  ghost predicate UniqueIntents(s: Tables) {
    forall j, k :: j in s.intents && k in s.intents ==>
      s.intents[j].idempotencyKey == s.intents[k].idempotencyKey ==> j == k
  }

  predicate Clash(s: Tables, j: string, k: string) {
    && j in s.observations && k in s.observations
    && (s.observations[j].observationId == s.observations[k].observationId
        || s.observations[j].evidenceId == s.observations[k].evidenceId)
  }

  ghost predicate UniqueObservations(s: Tables) {
    forall j, k :: Clash(s, j, k) ==> j == k
  }

  ghost predicate UniqueIds(s: Tables) {
    UniqueActions(s) && UniqueIntents(s) && UniqueObservations(s)
  }

  /** What the callers of the store see to: an observation's receipt records its disposition, and a discard
      is completed with a discard observation of the same operation. */
  predicate WellMeant(says: string -> Disposition, c: Call) {
    match c
    case DoCompleteDiscard(key, o, _) =>
      o.operationKey == key && o.disposition == WasDiscarded && says(o.receipt) == WasDiscarded
    case DoRecord(o) => says(o.receipt) == o.disposition
    case _ => true
  }

  ghost predicate Recorded(says: string -> Disposition, s: Tables) {
    && (forall k :: k in s.observations ==> says(s.observations[k].receipt) == s.observations[k].disposition)
    && (forall k :: k in s.intents && s.intents[k].status.Discarded? ==>
          k in s.observations && s.observations[k].receipt == s.intents[k].status.receipt
          && says(s.intents[k].status.receipt) == WasDiscarded)
  }

  lemma IntentsStayLinked(s: Tables, c: Call)
    requires Linked(s)
    ensures forall k :: k in Apply(s, c).intents ==> k in s.operations
  {
  }

  /** Observations come from two calls only, and both record through `Record`. */
  lemma ObservationsComeFromRecord(s: Tables, c: Call)
    ensures Apply(s, c).observations == s.observations
      || (c.DoRecord? && Apply(s, c).observations == Record(s, c.observation).state.observations)
      || (c.DoCompleteDiscard? && Apply(s, c).observations == Record(s, c.observation).state.observations)
  {
  }

  lemma ObservationsStayLinked(s: Tables, c: Call)
    requires Linked(s)
    ensures forall k :: k in Apply(s, c).observations ==>
      k in s.operations && Apply(s, c).observations[k].operationKey == k
  {
    ObservationsComeFromRecord(s, c);
  }

  lemma ScansStayLinked(s: Tables, c: Call)
    requires Linked(s)
    ensures forall k :: k in Apply(s, c).scans ==>
      k in s.operations && s.operations[k].status.Completed? && Apply(s, c).scans[k].count > 0
  {
    assert c.DoMarkScanned? || Apply(s, c).scans == s.scans;
  }

  lemma CallKeepsLinked(s: Tables, c: Call)
    requires Linked(s)
    ensures Linked(Apply(s, c))
  {
    var t := Apply(s, c);
    CallGoesForward(s, c);
    IntentsStayLinked(s, c);
    ObservationsStayLinked(s, c);
    ScansStayLinked(s, c);
    assert OperationsForward(s, t) && RestForward(s, t);
    forall k | k in t.receipts
      ensures ObservationExists(t, k.0)
    {
      ReceiptHasObservation(s, c, k);
      var o :| o in s.observations && s.observations[o].observationId == k.0;
      assert o in t.observations;
    }
  }

  lemma ReceiptHasObservation(s: Tables, c: Call, k: (string, string))
    requires Linked(s) && k in Apply(s, c).receipts
    ensures ObservationExists(s, k.0)
  {
    if k in s.receipts {
      assert ObservationExists(s, k.0);
    }
  }

  lemma CallKeepsActionsUnique(s: Tables, c: Call)
    requires UniqueActions(s)
    ensures UniqueActions(Apply(s, c))
  {
    if c.DoInsert? && Apply(s, c) != s {
      assert !ActionKeyTaken(s, c.request.actionKey);
    }
  }

  lemma CallKeepsIntentsUnique(s: Tables, c: Call)
    requires UniqueIntents(s)
    ensures UniqueIntents(Apply(s, c))
  {
    if c.DoBeginDiscard? && Apply(s, c) != s {
      assert !IdempotencyKeyTaken(s, c.idempotencyKey);
    }
  }

  lemma CallKeepsUnique(s: Tables, c: Call)
    requires UniqueIds(s)
    ensures UniqueIds(Apply(s, c))
  {
    CallKeepsActionsUnique(s, c);
    CallKeepsIntentsUnique(s, c);
    CallKeepsObservationsUnique(s, c);
  }

  lemma CallKeepsObservationsUnique(s: Tables, c: Call)
    requires UniqueObservations(s)
    ensures UniqueObservations(Apply(s, c))
  {
    ObservationsComeFromRecord(s, c);
    var source := if Apply(s, c).observations != s.observations then Record(s, c.observation).state else s;
    if Apply(s, c).observations != s.observations {
      RecordKeepsUnique(s, c.observation);
    }
    forall j, k | Clash(Apply(s, c), j, k)
      ensures j == k
    {
      assert Clash(source, j, k);
    }
  }

  lemma RecordKeepsUnique(s: Tables, o: Observation)
    requires UniqueObservations(s)
    ensures UniqueObservations(Record(s, o).state)
  {
    var t := Record(s, o).state;
    if t != s {
      assert !ObservationTaken(s, o);
      forall j, k | Clash(t, j, k)
        ensures j == k
      {
        if j != o.operationKey && k != o.operationKey {
          assert Clash(s, j, k);
        }
      }
    }
  }

  lemma ObservedIsMeant(says: string -> Disposition, s: Tables, c: Call, k: string)
    requires Recorded(says, s) && WellMeant(says, c) && k in Apply(s, c).observations
    ensures says(Apply(s, c).observations[k].receipt) == Apply(s, c).observations[k].disposition
  {
    ObservationsComeFromRecord(s, c);
  }

  lemma CompletedIsRecorded(says: string -> Disposition, s: Tables, c: Call, k: string)
    requires Recorded(says, s) && WellMeant(says, c)
    requires k in Apply(s, c).intents && Apply(s, c).intents[k].status.Discarded?
    ensures k in Apply(s, c).observations
      && Apply(s, c).observations[k].receipt == Apply(s, c).intents[k].status.receipt
      && says(Apply(s, c).intents[k].status.receipt) == WasDiscarded
  {
    CompletesOnlyVerified(s, c, k);
    if s.intents[k].status.Verified? {
      CompletionIsRecorded(s, k, c.observation, c.now);
    } else {
      RestMoves(s, c);
      IntentsMove(s, c);
    }
  }

  lemma CompletionIsRecorded(s: Tables, key: string, o: Observation, now: nat)
    requires var t := CompleteDiscard(s, key, o, now).state;
      key in s.intents && s.intents[key].status.Verified? && key in t.intents && t.intents[key].status.Discarded?
    requires o.operationKey == key
    ensures var t := CompleteDiscard(s, key, o, now).state;
      key in t.observations && t.observations[key].receipt == o.receipt
  {
  }

  lemma CallKeepsRecorded(says: string -> Disposition, s: Tables, c: Call)
    requires Recorded(says, s) && WellMeant(says, c)
    ensures Recorded(says, Apply(s, c))
  {
    forall k | k in Apply(s, c).observations
      ensures says(Apply(s, c).observations[k].receipt) == Apply(s, c).observations[k].disposition
    {
      ObservedIsMeant(says, s, c, k);
    }
    forall k | k in Apply(s, c).intents && Apply(s, c).intents[k].status.Discarded?
      ensures k in Apply(s, c).observations
        && Apply(s, c).observations[k].receipt == Apply(s, c).intents[k].status.receipt
        && says(Apply(s, c).intents[k].status.receipt) == WasDiscarded
    {
      CompletedIsRecorded(says, s, c, k);
    }
  }

  ghost predicate Sound(says: string -> Disposition, s: Tables) {
    Linked(s) && UniqueIds(s) && Recorded(says, s)
  }

  lemma {:induction false} RunKeepsSound(says: string -> Disposition, s: Tables, calls: seq<Call>)
    requires Sound(says, s) && forall c :: c in calls ==> WellMeant(says, c)
    ensures Sound(says, Run(s, calls))
    decreases |calls|
  {
    if calls != [] {
      CallKeepsLinked(s, calls[0]);
      CallKeepsUnique(s, calls[0]);
      CallKeepsRecorded(says, s, calls[0]);
      RunKeepsSound(says, Apply(s, calls[0]), calls[1..]);
    }
  }

  /** A completed discard was observed with the very receipt it stores, and is never also "sent": not now
      and not after any further calls. */
  lemma DiscardedIsNeverSent(says: string -> Disposition, calls: seq<Call>, later: seq<Call>, k: string)
    requires forall c :: c in calls ==> WellMeant(says, c)
    requires k in Run(EMPTY, calls).intents && Run(EMPTY, calls).intents[k].status.Discarded?
    ensures var s, t := Run(EMPTY, calls), Run(Run(EMPTY, calls), later);
      && k in s.observations && s.observations[k].receipt == s.intents[k].status.receipt
      && k in t.intents && t.intents[k] == s.intents[k]
      && k in t.observations && t.observations[k] == s.observations[k]
      && t.observations[k].disposition == WasDiscarded
  {
    RunKeepsSound(says, EMPTY, calls);
    RunGoesForward(Run(EMPTY, calls), later);
    assert Recorded(says, Run(EMPTY, calls));
  }

  /** Once the mail is seen sent, no call completes a discard of it. */
  lemma SentIsNeverDiscarded(says: string -> Disposition, s: Tables, calls: seq<Call>, k: string)
    requires Sound(says, s) && forall c :: c in calls ==> WellMeant(says, c)
    requires k in s.observations && s.observations[k].disposition == WasSent
    ensures k in Run(s, calls).intents ==> !Run(s, calls).intents[k].status.Discarded?
  {
    RunKeepsSound(says, s, calls);
    RunGoesForward(s, calls);
    assert Recorded(says, Run(s, calls));
  }

  function Seen(disposition: Disposition): Observation {
    Observation("o", "k", "t", "m", "d", disposition, SynchronizedObservation, "e", "{}", 1)
  }

  /** With a verified intent and an observation already recorded, a discard completes exactly when its receipt is
      not too large and both id and receipt are the recorded ones; the disposition is not compared. */
  lemma DiscardCompletesOnSameReceipt(s: Tables, key: string, o: Observation, now: nat)
    requires key in s.intents && s.intents[key].status.Verified? && o.operationKey in s.observations
    ensures CompleteDiscard(s, key, o, now).result.Ok? <==>
      && !TooLarge(o.receipt)
      && s.observations[o.operationKey].observationId == o.observationId
      && s.observations[o.operationKey].receipt == o.receipt
  {
  }

  /** So one step makes a completed discard of a sent mail exactly when the mail was recorded as sent with the
      very id and receipt that the discard presents. */
  lemma MixesExactlyOnSameReceipt(s: Tables, key: string, o: Observation, now: nat)
    requires key in s.intents && s.intents[key].status.Verified? && o.operationKey == key && key in s.observations
    ensures var t := CompleteDiscard(s, key, o, now).state;
      (t.intents[key].status.Discarded? && t.observations[key].disposition == WasSent) <==>
        && s.observations[key].disposition == WasSent && !TooLarge(o.receipt)
        && s.observations[key].observationId == o.observationId && s.observations[key].receipt == o.receipt
  {
    DiscardCompletesOnSameReceipt(s, key, o, now);
  }

  function DraftVerified(): seq<Call> {
    [DoInsert("k", Request("a", "", "", "t", "c", "m", "", false), 0), DoFinish("k", "d", "r", "", 1),
     DoBeginDiscard("k", "i", "", 2), DoVerifyDiscard("k", "v", 3)]
  }

  function SentThenDiscarded(): seq<Call> {
    [DoRecord(Seen(WasSent)), DoCompleteDiscard("k", Seen(WasDiscarded), 4)]
  }

  lemma AfterFirst(s: Tables, a: seq<Call>, b: seq<Call>) returns (t: Tables)
    requires a != []
    ensures Run(s, a) == Run(t, a[1..]) && Run(s, a + b) == Run(t, a[1..] + b)
  {
    t := Apply(s, a[0]);
    assert (a + b)[0] == a[0] && (a + b)[1..] == a[1..] + b;
  }

  lemma {:induction false} RunJoins(s: Tables, a: seq<Call>, b: seq<Call>)
    ensures Run(s, a + b) == Run(Run(s, a), b)
    decreases |a|
  {
    if a == [] {
      assert a + b == b;
    } else {
      var t := AfterFirst(s, a, b);
      RunJoins(t, a[1..], b);
    }
  }

  lemma RunOne(s: Tables, c: Call)
    ensures Run(s, [c]) == Apply(s, c)
  {
    assert [c][1..] == [];
  }

  lemma DraftGetsVerified()
    ensures var s := Run(EMPTY, DraftVerified());
      && "k" in s.operations && "k" in s.intents && s.intents["k"].status.Verified? && s.observations == map[]
  {
    var c := DraftVerified();
    var s1 := Apply(EMPTY, c[0]);
    SmallText("");
    var s2 := Apply(s1, c[1]);
    assert !IdempotencyKeyTaken(s2, "i");
    var s3 := Apply(s2, c[2]);
    TrimmedStays("v");
    var s4 := Apply(s3, c[3]);
    assert c == [c[0]] + ([c[1]] + ([c[2]] + [c[3]]));
    RunOne(s3, c[3]);
    RunOne(s2, c[2]);
    RunOne(s1, c[1]);
    RunOne(EMPTY, c[0]);
    RunJoins(s2, [c[2]], [c[3]]);
    RunJoins(s1, [c[1]], [c[2]] + [c[3]]);
    RunJoins(EMPTY, [c[0]], [c[1]] + ([c[2]] + [c[3]]));
  }

  lemma SentGetsDiscarded(s: Tables)
    requires "k" in s.operations && "k" in s.intents && s.intents["k"].status.Verified? && s.observations == map[]
    ensures var t := Apply(Apply(s, SentThenDiscarded()[0]), SentThenDiscarded()[1]);
      && "k" in t.intents && t.intents["k"].status.Discarded?
      && "k" in t.observations && t.observations["k"].disposition == WasSent
  {
    SmallReceipt();
    var t := Apply(s, SentThenDiscarded()[0]);
    assert t.observations["k"] == Seen(WasSent) && t.intents == s.intents;
    MixesExactlyOnSameReceipt(t, "k", Seen(WasDiscarded), 4);
  }

  lemma RunTwo(s: Tables, c: seq<Call>)
    requires |c| == 2
    ensures Run(s, c) == Apply(Apply(s, c[0]), c[1])
  {
    assert c == [c[0]] + [c[1]];
    RunJoins(s, [c[0]], [c[1]]);
    RunOne(s, c[0]);
    RunOne(Apply(s, c[0]), c[1]);
  }

  /** A run from the empty store that ends with a completed discard of a sent mail: its two receipts are the same
      text, which does not say a disposition. */
  lemma CarelessReceiptMixesDispositions()
    ensures var t := Run(EMPTY, DraftVerified() + SentThenDiscarded());
      && "k" in t.intents && t.intents["k"].status.Discarded?
      && "k" in t.observations && t.observations["k"].disposition == WasSent
  {
    var s := Run(EMPTY, DraftVerified());
    DraftGetsVerified();
    SentGetsDiscarded(s);
    RunJoins(EMPTY, DraftVerified(), SentThenDiscarded());
    RunTwo(s, SentThenDiscarded());
  }

  lemma SmallText(text: string)
    requires text == ""
    ensures !TooLarge(text)
  {
  }

  lemma SmallReceipt()
    ensures !TooLarge("{}")
  {
    assert "{}"[1..] == "}" && "}"[1..] == "";
    assert |Encode("}")| <= 4;
  }

  // ---- replays ----

  /** The same call again, at any later time. */
  predicate SameCall(c: Call, d: Call) {
    match c
    case DoFinish(key, draftId, receiptId, draftRef, _) =>
      d.DoFinish? && d == DoFinish(key, draftId, receiptId, draftRef, d.now)
    case DoBeginDiscard(key, idempotencyKey, digest, _) =>
      d.DoBeginDiscard? && d == DoBeginDiscard(key, idempotencyKey, digest, d.now)
    case DoCompleteDiscard(key, o, _) => d.DoCompleteDiscard? && d == DoCompleteDiscard(key, o, d.now)
    case DoRecord(_) => d == c
    case DoAcknowledge(id, consumer, ref, receipt, _) =>
      d.DoAcknowledge? && d == DoAcknowledge(id, consumer, ref, receipt, d.now)
    case _ => false
  }

  lemma ReplayAtOnce(s: Tables, c: Call, d: Call)
    requires Succeeds(s, c) && SameCall(c, d)
    ensures Succeeds(Apply(s, c), d) && Apply(Apply(s, c), d) == Apply(s, c)
  {
  }

  /** A successful call leaves evidence that makes every replay succeed and change nothing. */
  predicate Settled(s: Tables, c: Call) {
    Succeeds(s, c) && Apply(s, c) == s
  }

  lemma SettledStays(s: Tables, t: Tables, c: Call)
    requires Settled(s, c) && SameCall(c, c) && Forward(s, t)
    ensures Settled(t, c)
  {
  }

  /** Replays are idempotent: completing, opening or completing a discard, recording and acknowledging
      succeed again with the same arguments at any later time, and then change nothing. */
  lemma ReplayIsIdempotent(s: Tables, c: Call, between: seq<Call>, again: Call)
    requires Succeeds(s, c) && SameCall(c, again)
    ensures var t := Run(Apply(s, c), between); Succeeds(t, again) && Apply(t, again) == t
  {
    ReplayAtOnce(s, c, again);
    RunGoesForward(Apply(s, c), between);
    SettledStays(Apply(s, c), Run(Apply(s, c), between), again);
  }

  // ---- transactions ----

  datatype Session = Session(tables: Tables, saved: Option<Tables>)

  datatype Action = Begin | Do(call: Call) | Commit | Rollback

  /** The store with its transaction: a begin inside a transaction is refused, a rollback outside does nothing. */
  function Act(s: Session, a: Action): Session {
    match a
    case Begin => if s.saved.None? then s.(saved := Some(s.tables)) else s
    case Do(call) => s.(tables := Apply(s.tables, call))
    case Commit => s.(saved := None)
    case Rollback => (match s.saved case Some(saved) => Session(saved, None) case None => s)
  }

  function ActAll(s: Session, actions: seq<Action>): Session
    decreases |actions|
  {
    if actions == [] then s else ActAll(Act(s, actions[0]), actions[1..])
  }

  /** Whatever is called between begin and rollback, the rollback brings every table back. */
  lemma {:induction false} RollbackRestores(s: Session, actions: seq<Action>)
    requires s.saved.Some? && forall a :: a in actions ==> a.Do? || a.Begin?
    ensures Act(ActAll(s, actions), Rollback) == Session(s.saved.value, None)
    decreases |actions|
  {
    if actions != [] {
      RollbackRestores(Act(s, actions[0]), actions[1..]);
    }
  }


  /** What was committed is not rolled back, and a begin inside a transaction does not move the point it goes back
      to. */
  lemma CommitSticks(s: Session)
    ensures ActAll(s, [Commit, Rollback]).tables == s.tables
    ensures s.saved.Some? ==> ActAll(s, [Begin, Rollback]).tables == s.saved.value
  {
    assert [Commit, Rollback][1..] == [Rollback] && [Begin, Rollback][1..] == [Rollback] && [Rollback][1..] == [];
    assert ActAll(Act(s, Commit), [Rollback]) == Act(Act(s, Commit), Rollback);
    assert ActAll(Act(s, Begin), [Rollback]) == Act(Act(s, Begin), Rollback);
  }
}
