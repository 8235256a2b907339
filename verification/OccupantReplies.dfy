/** What an occupant is told over its whole run: the text of every source, and then that it is ready. */
module OccupantReplies {
  import opened OccupantRun
  import opened OrientationDatabase
  import opened OrientationGate
  import opened OrientationReplies
  import opened OrientationSafety
  import opened OrientationStore
  import opened Strings
  import opened Utf8
  import opened Wrappers
  import C = Continuation
  import P = OrientationPager

  function ReplyTo(s: Session, env: Env, d: Delivery): Reply {
    OccupantRead(s.t, env, d, s.continuation).1
  }

  /** The text of a step in one reply. */
  function Said(reply: Reply, stepId: string): string {
    if reply.Material? && reply.result.stepId == stepId && reply.result.content.Some? then reply.result.content.value
    else ""
  }

  /** What is said at each of the next `k` points of a run. */
  function Collect(step: Session -> Session, said: Session -> string, s: Session, k: nat): string
    decreases k
  {
    if k == 0 then "" else said(s) + Collect(step, said, step(s), k - 1)
  }

  function SaidOf(env: Env, d: Delivery, stepId: string): Session -> string {
    x => Said(ReplyTo(x, env, d), stepId)
  }

  /** The texts of a step in the replies to the next `k` calls, one after the other. */
  function Heard(s: Session, env: Env, d: Delivery, stepId: string, k: nat): string {
    Collect(Caller(env, d), SaidOf(env, d, stepId), s, k)
  }

  function Shown(t: Tables, d: Delivery, stepId: string): string {
    Join(RowsOf(t, d.receiptId, stepId))
  }

  ghost predicate Going(s: Session, env: Env, library: string -> string, d: Delivery) {
    Started(s, env, library, d) || (Done(s, d) && Consistent(s.t, env.sha, library))
  }

  // ---- one call ----

  /** The read that comes next, and the step it reads. */
  lemma NextReadIs(t: Tables, env: Env, library: string -> string, d: Delivery) returns (q: ReadRequest, step: Step)
    requires Oriented(t, env, library, d) && ProgressOf(t, d).nextCall.ReadCall?
    ensures var ReadCall(asked, offset) := ProgressOf(t, d).nextCall; q == RequestFor(env, d, asked, offset)
    ensures q.delivery == d && step in d.brief.requiredReads && q.source == Some(library(step.revision))
    ensures FindStep(d.brief.requiredReads, Trim(q.stepId)) == Some(step) && NoCollision(env.sha, library, q.source)
    ensures Read(t, env.sha, q).1.Ok? && Read(t, env.sha, q).0 != t && DistinctSteps(d.brief.requiredReads)
  {
    var ReadCall(asked, offset) := ProgressOf(t, d).nextCall;
    q := RequestFor(env, d, asked, offset);
    var n := FirstPending(t, d.receiptId, d.brief.requiredReads);
    step := d.brief.requiredReads[n];
    NextReadIsServed(t, env, library, d);
    assert DeliveryConsistent(t, env.sha, library, d);
    TrimmedStays(asked);
    FindStepFinds(d.brief.requiredReads, step);
  }

  lemma HandedIsSaid(rows: seq<Page>, rows': seq<Page>, r: ReadResult, content: string, next: string)
    requires HandsOver(rows, rows', r, content)
    ensures Join(rows') == Join(rows) + Said(Material(r, next), r.stepId)
  {
  }

  /** What the next read hands over. */
  lemma NextReadHands(t: Tables, env: Env, library: string -> string, d: Delivery)
    returns (q: ReadRequest, step: Step, t': Tables, r: ReadResult)
    requires Oriented(t, env, library, d) && ProgressOf(t, d).nextCall.ReadCall?
    ensures var ReadCall(asked, offset) := ProgressOf(t, d).nextCall; q == RequestFor(env, d, asked, offset)
    ensures q.delivery == d && Read(t, env.sha, q) == (t', Ok(r)) && t' != t
    ensures FindStep(d.brief.requiredReads, Trim(q.stepId)) == Some(step) && r.stepId == step.stepId
    ensures DistinctSteps(d.brief.requiredReads)
    ensures HandsOver(
      RowsOf(t, d.receiptId, step.stepId), RowsOf(t', d.receiptId, step.stepId), r, library(step.revision))
  {
    q, step := NextReadIs(t, env, library, d);
    FreshReadHandsOver(t, env.sha, library, q);
    t', r := Read(t, env.sha, q).0, Read(t, env.sha, q).1.value;
  }

  /** A fresh read stores, for the step it reads, exactly the text it replies with, and no other text. */
  lemma HandingSays(
    t: Tables, t': Tables, sha: Sha, q: ReadRequest, step: Step, r: ReadResult, content: string, stepId: string,
    next: string)
    requires Read(t, sha, q) == (t', Ok(r)) && t' != t && DistinctSteps(q.delivery.brief.requiredReads)
    requires FindStep(q.delivery.brief.requiredReads, Trim(q.stepId)) == Some(step) && r.stepId == step.stepId
    requires HandsOver(
      RowsOf(t, q.delivery.receiptId, step.stepId), RowsOf(t', q.delivery.receiptId, step.stepId), r, content)
    ensures Shown(t', q.delivery, stepId) == Shown(t, q.delivery, stepId) + Said(Material(r, next), stepId)
  {
    var id := q.delivery.receiptId;
    if stepId == step.stepId {
      HandedIsSaid(RowsOf(t, id, stepId), RowsOf(t', id, stepId), r, content, next);
    } else {
      OtherStepsKeepRows(t, sha, q, stepId);
    }
  }

  lemma OtherStepsKeepRows(t: Tables, sha: Sha, q: ReadRequest, stepId: string)
    requires Read(t, sha, q).1.Ok? && Read(t, sha, q).0 != t
    requires FindStep(q.delivery.brief.requiredReads, Trim(q.stepId)).Some? && Trim(q.stepId) != stepId
    ensures RowsOf(Read(t, sha, q).0, q.delivery.receiptId, stepId) == RowsOf(t, q.delivery.receiptId, stepId)
  {
    var d := q.delivery;
    var step := FindStep(d.brief.requiredReads, Trim(q.stepId)).value;
    FreshIsEmitted(t, sha, q, step);
    var e := NextEmission(sha, d, step, q.source.value, q.byteOffset, q.completedAt);
    InsertIsLocal(t, (d.receiptId, step.stepId), e);
    OtherRowsSame(t, Insert(t, (d.receiptId, step.stepId), e), (d.receiptId, step.stepId), (d.receiptId, stepId));
  }

  /** A continuation that asks for a read is answered with that read. */
  lemma TokenIsRead(t: Tables, env: Env, d: Delivery, token: string, stepId: string, offset: nat)
    requires Stored(t, d) && DistinctSteps(d.brief.requiredReads) && d.receiptId !in t.acknowledgements
    requires C.ParseContinuation(env.mac, env.key, token) == Ok(C.RequiredRead(stepId, offset))
    ensures OccupantRead(t, env, d, Some(token)) ==
      var (t', r) := Read(t, env.sha, RequestFor(env, d, stepId, offset));
      (t', match r case Ok(result) => Material(result, Next(env, result.progress)) case Err(e) => Failed(e))
  {
    PacketIsGiven(t, d);
    PacketShowsGate(t, d);
  }

  lemma OrientedIsOpenToReads(t: Tables, env: Env, library: string -> string, d: Delivery)
    requires Oriented(t, env, library, d)
    ensures Stored(t, d) && DistinctSteps(d.brief.requiredReads) && d.receiptId !in t.acknowledgements
  {
    assert DeliveryConsistent(t, env.sha, library, d);
  }

  lemma NextReadIsOk(t: Tables, env: Env, library: string -> string, d: Delivery)
    requires Oriented(t, env, library, d) && ProgressOf(t, d).nextCall.ReadCall?
    ensures var ReadCall(asked, offset) := ProgressOf(t, d).nextCall;
      Read(t, env.sha, RequestFor(env, d, asked, offset)).1.Ok?
  {
    NextReadIsServed(t, env, library, d);
  }

  lemma MaterialMoves(s: Session, env: Env, d: Delivery, t': Tables, result: ReadResult, next: string)
    requires OccupantRead(s.t, env, d, s.continuation) == (t', Material(result, next))
    ensures ReplyTo(s, env, d) == Material(result, next) && OccupantRun.Call(s, env, d).t == t'
  {
  }

  /** With the continuation for a read in hand, the call is that read. */
  lemma CallIsRead(
    s: Session, env: Env, d: Delivery, token: string, stepId: string, offset: nat, t': Tables, result: ReadResult)
    requires Stored(s.t, d) && DistinctSteps(d.brief.requiredReads) && d.receiptId !in s.t.acknowledgements
    requires s.continuation == Some(token)
    requires C.ParseContinuation(env.mac, env.key, token) == Ok(C.RequiredRead(stepId, offset))
    requires Read(s.t, env.sha, RequestFor(env, d, stepId, offset)) == (t', Ok(result))
    ensures ReplyTo(s, env, d) == Material(result, Next(env, result.progress)) && OccupantRun.Call(s, env, d).t == t'
  {
    TokenIsRead(s.t, env, d, token, stepId, offset);
    MaterialMoves(s, env, d, t', result, Next(env, result.progress));
  }

  lemma NextRead(t: Tables, env: Env, library: string -> string, d: Delivery, stepId: string)
    returns (asked: string, offset: nat, t': Tables, result: ReadResult)
    requires Oriented(t, env, library, d) && ProgressOf(t, d).nextCall.ReadCall?
    ensures ProgressOf(t, d).nextCall == ReadCall(asked, offset) && asked != ""
    ensures Read(t, env.sha, RequestFor(env, d, asked, offset)) == (t', Ok(result))
    ensures forall next :: Shown(t', d, stepId) == Shown(t, d, stepId) + Said(Material(result, next), stepId)
  {
    var q, step, after, r := NextReadHands(t, env, library, d);
    NextReadIsServed(t, env, library, d);
    asked, offset := ProgressOf(t, d).nextCall.stepId, ProgressOf(t, d).nextCall.offset;
    t', result := after, r;
    forall next
      ensures Shown(t', d, stepId) == Shown(t, d, stepId) + Said(Material(result, next), stepId)
    {
      HandingSays(t, t', env.sha, q, step, result, library(step.revision), stepId, next);
    }
  }

  lemma ReadingSays(s: Session, env: Env, library: string -> string, d: Delivery, stepId: string)
    requires Poised(s, env, library, d) && ProgressOf(s.t, d).nextCall.ReadCall?
    ensures ReplyTo(s, env, d).Material?
    ensures Shown(OccupantRun.Call(s, env, d).t, d, stepId) == Shown(s.t, d, stepId) + Said(ReplyTo(s, env, d), stepId)
  {
    var asked, offset, t', result := NextRead(s.t, env, library, d, stepId);
    var token := Next(env, ProgressOf(s.t, d));
    TokenOfRead(env, ProgressOf(s.t, d), asked, offset);
    OrientedIsOpenToReads(s.t, env, library, d);
    CallIsRead(s, env, d, token, asked, offset, t', result);
  }

  lemma TokenOfRead(env: Env, progress: Progress, stepId: string, offset: nat)
    requires progress.nextCall == ReadCall(stepId, offset) && stepId != ""
    ensures C.ParseContinuation(env.mac, env.key, Next(env, progress)) == Ok(C.RequiredRead(stepId, offset))
  {
    C.ContinuationRoundTrip(env.mac, env.key, C.RequiredRead(stepId, offset));
  }

  lemma AcknowledgingKeepsRows(t: Tables, q: AckRequest)
    ensures Acknowledge(t, q).0.pages == t.pages
  {
  }

  lemma AcknowledgingSays(s: Session, env: Env, library: string -> string, d: Delivery)
    requires Poised(s, env, library, d) && ProgressOf(s.t, d).nextCall.AcknowledgeCall?
    ensures ReplyTo(s, env, d) == Ready && OccupantRun.Call(s, env, d).t.pages == s.t.pages
    ensures Done(OccupantRun.Call(s, env, d), d) && Consistent(OccupantRun.Call(s, env, d).t, env.sha, library)
  {
    C.ContinuationRoundTrip(env.mac, env.key, C.AcknowledgePhase);
    LastCallOpens(s.t, env, library, d);
    assert DeliveryConsistent(s.t, env.sha, library, d);
    AcknowledgingKeepsRows(s.t, AckRequest(d, None, env.now));
    AcknowledgeKeeps(s.t, env.sha, library, AckRequest(d, None, env.now));
  }

  /** Once the gate is open every call is answered with ready and changes nothing. */
  lemma DoneSaysReady(s: Session, env: Env, d: Delivery)
    requires Done(s, d)
    ensures ReplyTo(s, env, d) == Ready && OccupantRun.Call(s, env, d) == s
  {
    PacketIsGiven(s.t, d);
    PacketShowsGate(s.t, d);
  }

  lemma StartingSays(s: Session, env: Env, library: string -> string, d: Delivery)
    requires Oriented(s.t, env, library, d) && s.continuation == None
    ensures ReplyTo(s, env, d).Entry? && OccupantRun.Call(s, env, d).t == s.t
    ensures Poised(OccupantRun.Call(s, env, d), env, library, d)
  {
    assert DeliveryConsistent(s.t, env.sha, library, d);
    PacketIsGiven(s.t, d);
    PacketShowsGate(s.t, d);
    FirstCall(s.t, env, library, d);
  }

  /** One call: what is stored of a step afterwards is what was stored before and what the reply said of it. */
  lemma CallSays(s: Session, env: Env, library: string -> string, d: Delivery, stepId: string)
    requires Going(s, env, library, d)
    ensures Going(OccupantRun.Call(s, env, d), env, library, d)
    ensures Shown(OccupantRun.Call(s, env, d).t, d, stepId) == Shown(s.t, d, stepId) + Said(ReplyTo(s, env, d), stepId)
  {
    if Done(s, d) {
      DoneSaysReady(s, env, d);
    } else if !Poised(s, env, library, d) {
      StartingSays(s, env, library, d);
    } else if ProgressOf(s.t, d).nextCall.AcknowledgeCall? {
      AcknowledgingSays(s, env, library, d);
    } else {
      ReadingSays(s, env, library, d, stepId);
      OneMoreCall(s, env, library, d);
    }
  }

  // ---- the whole run ----

  /** A point of the run adds what it says to what is shown. */
  ghost predicate AddsAt(
    step: Session -> Session, going: Session -> bool, shown: Session -> string, said: Session -> string, s: Session)
  {
    going(s) ==> going(step(s)) && shown(step(s)) == shown(s) + said(s)
  }

  /** Then the run adds all that was said. */
  lemma {:induction false} CollectIsShown(
    step: Session -> Session, going: Session -> bool, shown: Session -> string, said: Session -> string,
    s: Session, k: nat)
    requires going(s) && forall x :: AddsAt(step, going, shown, said, x)
    ensures going(Iterate(step, s, k)) && shown(Iterate(step, s, k)) == shown(s) + Collect(step, said, s, k)
    decreases k
  {
    if k > 0 {
      assert AddsAt(step, going, shown, said, s);
      CollectIsShown(step, going, shown, said, step(s), k - 1);
    }
  }

  ghost function GoingTest(env: Env, library: string -> string, d: Delivery): Session -> bool {
    x => Going(x, env, library, d)
  }

  function ShownOf(d: Delivery, stepId: string): Session -> string {
    (x: Session) => Shown(x.t, d, stepId)
  }

  lemma HeardIsShown(s: Session, env: Env, library: string -> string, d: Delivery, stepId: string, k: nat)
    requires Going(s, env, library, d)
    ensures Going(Calls(s, env, d, k), env, library, d)
    ensures Shown(Calls(s, env, d, k).t, d, stepId) == Shown(s.t, d, stepId) + Heard(s, env, d, stepId, k)
  {
    var step, shown, said := Caller(env, d), ShownOf(d, stepId), SaidOf(env, d, stepId);
    forall x
      ensures AddsAt(step, GoingTest(env, library, d), shown, said, x)
    {
      if Going(x, env, library, d) {
        CallSays(x, env, library, d, stepId);
      }
    }
    CollectIsShown(step, GoingTest(env, library, d), shown, said, s, k);
  }

  lemma AcknowledgedShowsAll(t: Tables, sha: Sha, library: string -> string, d: Delivery, step: Step)
    requires Consistent(t, sha, library) && Stored(t, d) && d.receiptId in t.acknowledgements
    requires step in d.brief.requiredReads
    ensures Shown(t, d, step.stepId) == library(step.revision)
  {
    assert AckConsistent(t, d.receiptId);
    var n := FirstPending(t, d.receiptId, d.brief.requiredReads);
    var i :| 0 <= i < |d.brief.requiredReads| && d.brief.requiredReads[i] == step;
    CompletedServedInFull(t, sha, library, d.receiptId, i);
  }

  /** A recorded delivery of which nothing has been read, and an occupant without a continuation. */
  ghost predicate IsFresh(s: Session, env: Env, library: string -> string, d: Delivery) {
    && Oriented(s.t, env, library, d) && s.continuation == None
    && forall step :: step in d.brief.requiredReads ==>
         (d.receiptId, step.stepId) !in s.t.pages && (d.receiptId, step.stepId) !in s.t.completions
  }

  lemma FreshStart(s: Session, env: Env, library: string -> string, d: Delivery)
    requires IsFresh(s, env, library, d)
    ensures Started(s, env, library, d) && StepsLeft(s, library, d) == ReadCalls(library, d.brief.requiredReads) + 1
  {
    FreshCallsLeft(s.t, library, d.receiptId, d.brief.requiredReads);
  }

  lemma OpenShowsAll(s: Session, env: Env, library: string -> string, d: Delivery, step: Step)
    requires Going(s, env, library, d) && Open(s, d) && step in d.brief.requiredReads
    ensures Shown(s.t, d, step.stepId) == library(step.revision)
  {
    if Started(s, env, library, d) {
      StartedIsNotOpen(s, env, library, d);
    }
    AcknowledgedShowsAll(s.t, env.sha, library, d, step);
  }

  /** From a fresh delivery, once the gate is open, the texts that the replies gave of each required read are, one
      after the other, the whole text of its source. */
  lemma OccupantHearsEverything(s: Session, env: Env, library: string -> string, d: Delivery, step: Step, k: nat)
    requires IsFresh(s, env, library, d) && step in d.brief.requiredReads
    requires k >= 1 + ReadCalls(library, d.brief.requiredReads) + 1
    ensures Heard(s, env, d, step.stepId, k) == library(step.revision)
  {
    FreshStart(s, env, library, d);
    RunOpens(s, env, library, d, k);
    HeardIsShown(s, env, library, d, step.stepId, k);
    OpenShowsAll(Calls(s, env, d, k), env, library, d, step);
    assert Shown(s.t, d, step.stepId) == "";
  }

  /** At which calls a countdown answers. */
  lemma {:induction false} AnswersWhenCounted(
    step: Session -> Session, poised: Session -> bool, left: Session -> int, done: Session -> bool,
    open: Session -> bool, ready: Session -> bool, s: Session, k: nat)
    requires CountsDown(step, poised, left, done, open) && poised(s)
    requires forall x :: poised(x) ==> (ready(x) <==> left(x) == 0)
    requires forall x :: done(x) ==> ready(x)
    ensures ready(Iterate(step, s, k)) <==> k >= left(s)
    decreases k
  {
    if k > 0 {
      if left(s) == 0 {
        ReadyForGood(step, poised, left, done, open, ready, step(s), k - 1);
      } else {
        AnswersWhenCounted(step, poised, left, done, open, ready, step(s), k - 1);
      }
    }
  }

  lemma {:induction false} ReadyForGood(
    step: Session -> Session, poised: Session -> bool, left: Session -> int, done: Session -> bool,
    open: Session -> bool, ready: Session -> bool, s: Session, k: nat)
    requires CountsDown(step, poised, left, done, open) && done(s) && forall x :: done(x) ==> ready(x)
    ensures ready(Iterate(step, s, k))
    decreases k
  {
    if k > 0 {
      ReadyForGood(step, poised, left, done, open, ready, step(s), k - 1);
    }
  }

  lemma ReadyWhenNothingIsLeft(s: Session, env: Env, library: string -> string, d: Delivery)
    requires Started(s, env, library, d)
    ensures ReplyTo(s, env, d) == Ready <==> StepsLeft(s, library, d) == 0
  {
    StartedIsNotOpen(s, env, library, d);
    LeftIsNonNegative(s.t, env, library, d);
    if s.continuation.None? {
      StartingSays(s, env, library, d);
    } else if ProgressOf(s.t, d).nextCall.AcknowledgeCall? {
      AcknowledgingSays(s, env, library, d);
      OneMoreCall(s, env, library, d);
    } else {
      NextCallReads(s.t, env, library, d);
      OneMoreCall(s, env, library, d);
      LeftIsNonNegative(OccupantRun.Call(s, env, d).t, env, library, d);
    }
  }

  ghost function ReadyTest(env: Env, d: Delivery): Session -> bool {
    x => ReplyTo(x, env, d) == Ready
  }

  lemma RunAnswers(s: Session, env: Env, library: string -> string, d: Delivery, k: nat)
    requires Started(s, env, library, d)
    ensures ReplyTo(Calls(s, env, d, k), env, d) == Ready <==> k >= StepsLeft(s, library, d)
  {
    ghost var started, left, ready := StartedTest(env, library, d), LeftCount(library, d), ReadyTest(env, d);
    RunCountsDown(env, library, d);
    forall x | started(x)
      ensures ready(x) <==> left(x) == 0
    {
      ReadyWhenNothingIsLeft(x, env, library, d);
    }
    forall x | DoneTest(d)(x)
      ensures ready(x)
    {
      DoneSaysReady(x, env, d);
    }
    AnswersWhenCounted(Caller(env, d), started, left, DoneTest(d), OpenTest(d), ready, s, k);
  }

  /** From a fresh delivery the call after `n` others is answered with ready exactly when those were the first one
      and one for each page or empty source, or more. */
  lemma ReadyExactlyAtEnd(s: Session, env: Env, library: string -> string, d: Delivery, n: nat)
    requires IsFresh(s, env, library, d)
    ensures ReplyTo(Calls(s, env, d, n), env, d) == Ready <==> n >= 1 + ReadCalls(library, d.brief.requiredReads)
  {
    FreshStart(s, env, library, d);
    RunAnswers(s, env, library, d, n);
  }


  // ---- other continuations ----

  /** A continuation that is not accepted costs one call: the reply names the reason and hands over the right one. */
  lemma RefusedTokenRecovers(s: Session, env: Env, library: string -> string, d: Delivery)
    requires Oriented(s.t, env, library, d) && s.continuation.Some?
    requires C.ParseContinuation(env.mac, env.key, s.continuation.value).Err?
    ensures ReplyTo(s, env, d).Recovery?
    ensures ReplyTo(s, env, d).reason == C.ParseContinuation(env.mac, env.key, s.continuation.value).error
    ensures OccupantRun.Call(s, env, d).t == s.t && Poised(OccupantRun.Call(s, env, d), env, library, d)
  {
    OrientedIsOpenToReads(s.t, env, library, d);
    PacketIsGiven(s.t, d);
    PacketShowsGate(s.t, d);
  }

  /** A continuation for a page already served, as one used again is, repeats that page, stores nothing and hands
      over the right one. */
  lemma UsedTokenRepeats(s: Session, env: Env, library: string -> string, d: Delivery, step: Step, row: Page)
    requires Oriented(s.t, env, library, d) && step in d.brief.requiredReads
    requires FindRow(RowsOf(s.t, d.receiptId, step.stepId), row.byteOffset) == Some(row)
    requires s.continuation.Some?
    requires C.ParseContinuation(env.mac, env.key, s.continuation.value) ==
      Ok(C.RequiredRead(step.stepId, row.byteOffset))
    ensures Said(ReplyTo(s, env, d), step.stepId) == row.content
    ensures OccupantRun.Call(s, env, d).t == s.t && Poised(OccupantRun.Call(s, env, d), env, library, d)
  {
    var result := RowIsRead(s.t, env, library, d, step, row);
    TokenRepeats(s, env, library, d, s.continuation.value, step.stepId, row.byteOffset, result);
  }

  lemma RowIsRead(t: Tables, env: Env, library: string -> string, d: Delivery, step: Step, row: Page)
    returns (result: ReadResult)
    requires Oriented(t, env, library, d) && step in d.brief.requiredReads
    requires FindRow(RowsOf(t, d.receiptId, step.stepId), row.byteOffset) == Some(row)
    ensures DistinctSteps(d.brief.requiredReads)
    ensures Read(t, env.sha, RequestFor(env, d, step.stepId, row.byteOffset)) == (t, Ok(result))
    ensures result.stepId == step.stepId && result.content == Some(row.content)
    ensures result.progress == ProgressOf(t, d)
  {
    OrientedIsOpenToReads(t, env, library, d);
    var q := RequestOfStep(t, env, library, d, step, row.byteOffset);
    result := RowRepeats(t, env.sha, library, q, step, row);
  }

  lemma TokenRepeats(
    s: Session, env: Env, library: string -> string, d: Delivery, token: string, stepId: string, offset: nat,
    result: ReadResult)
    requires Oriented(s.t, env, library, d) && DistinctSteps(d.brief.requiredReads) && s.continuation == Some(token)
    requires C.ParseContinuation(env.mac, env.key, token) == Ok(C.RequiredRead(stepId, offset))
    requires Read(s.t, env.sha, RequestFor(env, d, stepId, offset)) == (s.t, Ok(result))
    requires result.progress == ProgressOf(s.t, d)
    ensures ReplyTo(s, env, d) == Material(result, Next(env, result.progress))
    ensures OccupantRun.Call(s, env, d) == Session(s.t, Some(Next(env, ProgressOf(s.t, d))))
  {
    TokenIsRead(s.t, env, d, token, stepId, offset);
  }

  lemma RequestOfStep(t: Tables, env: Env, library: string -> string, d: Delivery, step: Step, offset: nat)
    returns (q: ReadRequest)
    requires Oriented(t, env, library, d) && step in d.brief.requiredReads
    ensures q == RequestFor(env, d, step.stepId, offset)
    ensures q.delivery == d && Owned(step) && Trim(q.stepId) == step.stepId != "" && q.byteOffset == offset
    ensures q.source == Some(library(step.revision)) && P.BoundOf(q.source.value).Bounded? && forall r :: q.accepts(r)
  {
    OrientedIsOpenToReads(t, env, library, d);
    TrimmedStays(step.stepId);
    FindStepFinds(d.brief.requiredReads, step);
    q := RequestFor(env, d, step.stepId, offset);
  }

  lemma RowRepeats(t: Tables, sha: Sha, library: string -> string, q: ReadRequest, step: Step, row: Page)
    returns (result: ReadResult)
    requires Consistent(t, sha, library) && Stored(t, q.delivery) && step in q.delivery.brief.requiredReads
    requires Owned(step) && Trim(q.stepId) == step.stepId != "" && q.byteOffset >= 0 && forall r :: q.accepts(r)
    requires q.source == Some(library(step.revision)) && P.BoundOf(q.source.value).Bounded?
    requires FindRow(RowsOf(t, q.delivery.receiptId, step.stepId), q.byteOffset) == Some(row)
    ensures Read(t, sha, q) == (t, Ok(result)) && result.stepId == step.stepId
    ensures result.content == Some(row.content) && result.progress == ProgressOf(t, q.delivery)
  {
    ReplayIsIdempotent(t, sha, library, q, step);
    ServedIsAccepted(t, sha, q);
    result := Read(t, sha, q).1.value;
    RepeatedReadRepeats(t, sha, q);
    FindStepOf(t, sha, library, q, step);
  }

  lemma FindStepOf(t: Tables, sha: Sha, library: string -> string, q: ReadRequest, step: Step)
    requires Consistent(t, sha, library) && Stored(t, q.delivery) && step in q.delivery.brief.requiredReads
    ensures FindStep(q.delivery.brief.requiredReads, step.stepId) == Some(step)
  {
    assert DeliveryConsistent(t, sha, library, q.delivery);
    FindStepFinds(q.delivery.brief.requiredReads, step);
  }


  /** What a call records bears the time of the call. */
  lemma CallIsStamped(t: Tables, env: Env, d: Delivery, continuation: Option<string>)
    ensures StampedAt(t, OccupantRead(t, env, d, continuation).0, env.now)
  {
    AcknowledgeStamps(t, AckRequest(d, None, env.now));
    if continuation.Some? {
      match C.ParseContinuation(env.mac, env.key, continuation.value) {
        case Ok(RequiredRead(stepId, offset)) => ReadStamps(t, env.sha, RequestFor(env, d, stepId, offset));
        case _ =>
      }
    }
  }


  // ---- ready ----

  lemma AcknowledgedIsServed(t: Tables, sha: Sha, library: string -> string, d: Delivery)
    requires Consistent(t, sha, library) && Stored(t, d) && d.receiptId in t.acknowledgements
    ensures forall i :: 0 <= i < |d.brief.requiredReads| ==>
      var step := d.brief.requiredReads[i];
      ServedInFull(RowsOf(t, d.receiptId, step.stepId), library(step.revision))
  {
    assert AckConsistent(t, d.receiptId);
    var n := FirstPending(t, d.receiptId, d.brief.requiredReads);
    forall i | 0 <= i < |d.brief.requiredReads|
      ensures var step := d.brief.requiredReads[i];
        ServedInFull(RowsOf(t, d.receiptId, step.stepId), library(step.revision))
    {
      CompletedServedInFull(t, sha, library, d.receiptId, i);
    }
  }

  lemma ReadKeepsGate(t: Tables, sha: Sha, q: ReadRequest)
    ensures Read(t, sha, q).0.acknowledgements == t.acknowledgements && Read(t, sha, q).0.deliveries == t.deliveries
  {
    if Read(t, sha, q).0 != t {
      ReadShape(t, sha, q);
    }
  }

  lemma AcknowledgingOpens(t: Tables, q: AckRequest)
    ensures Acknowledge(t, q).0.deliveries == t.deliveries
    ensures Acknowledge(t, q).1.Ok? ==> q.delivery.receiptId in Acknowledge(t, q).0.acknowledgements
    ensures Acknowledge(t, q).1.Err? ==> Acknowledge(t, q).0 == t
  {
  }

  /** A call answers with ready exactly when it leaves the gate of the delivery open, whatever it was sent. */
  lemma ReadyExactlyWhenOpen(t: Tables, env: Env, d: Delivery, continuation: Option<string>)
    requires DistinctSteps(d.brief.requiredReads)
    ensures var (t', reply) := OccupantRead(t, env, d, continuation);
      reply == Ready <==> Stored(t', d) && d.receiptId in t'.acknowledgements
  {
    PacketIsGiven(t, d);
    AcknowledgingOpens(t, AckRequest(d, None, env.now));
    if PacketOf(t, d).Ok? {
      PacketShowsGate(t, d);
    }
    if continuation.Some? {
      match C.ParseContinuation(env.mac, env.key, continuation.value) {
        case Ok(RequiredRead(stepId, offset)) => ReadKeepsGate(t, env.sha, RequestFor(env, d, stepId, offset));
        case _ =>
      }
    }
  }

  lemma ReadyCallKeeps(t: Tables, env: Env, library: string -> string, d: Delivery, continuation: Option<string>)
    requires Consistent(t, env.sha, library) && OccupantRead(t, env, d, continuation).1 == Ready
    ensures Consistent(OccupantRead(t, env, d, continuation).0, env.sha, library)
  {
    AcknowledgeKeeps(t, env.sha, library, AckRequest(d, None, env.now));
  }

  /** An agent that is told it is ready has been served every required read in full. */
  lemma ReadyMeansServed(t: Tables, env: Env, library: string -> string, d: Delivery, continuation: Option<string>)
    requires Consistent(t, env.sha, library) && OccupantRead(t, env, d, continuation).1 == Ready
    ensures var t' := OccupantRead(t, env, d, continuation).0;
      forall i :: 0 <= i < |d.brief.requiredReads| ==>
        var step := d.brief.requiredReads[i];
        ServedInFull(RowsOf(t', d.receiptId, step.stepId), library(step.revision))
  {
    PacketIsGiven(t, d);
    ReadyExactlyWhenOpen(t, env, d, continuation);
    ReadyCallKeeps(t, env, library, d, continuation);
    AcknowledgedIsServed(OccupantRead(t, env, d, continuation).0, env.sha, library, d);
  }
}
