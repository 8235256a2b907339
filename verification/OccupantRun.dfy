/** The one tool a newly entered agent calls: each call returns the continuation for the next, until
    the gate is open. */
module OccupantRun {
  import opened OrientationDatabase
  import opened OrientationGate
  import opened OrientationSafety
  import opened OrientationStore
  import opened Strings
  import opened Utf8
  import opened Wrappers
  import C = Continuation
  import P = OrientationPager

  /** Everything a call reads besides the store: digests, the source files, the result size check. */
  datatype Env = Env(
    sha: Sha, mac: C.Mac, key: string, sourceOf: string -> Option<string>,
    accepts: ReadResult -> bool, now: string)

  datatype Reply =
    | Ready
    | Entry(next: string)
    | Material(result: ReadResult, next: string)
    | Recovery(reason: C.Refusal, next: string)
    | Failed(error: Error)

  function Next(env: Env, progress: Progress): string {
    C.Issue(env.mac, env.key, match progress.nextCall
      case ReadCall(stepId, offset) => C.RequiredRead(stepId, offset)
      case AcknowledgeCall => C.AcknowledgePhase)
  }

  function RequestFor(env: Env, d: Delivery, stepId: string, offset: nat): ReadRequest {
    var source := match FindStep(d.brief.requiredReads, Trim(stepId))
      case None => None
      case Some(step) => env.sourceOf(step.artifactRef);
    ReadRequest(d, stepId, offset, source, env.now, env.accepts)
  }

  /** One `agent_orientation_read` call. */
  function OccupantRead(t: Tables, env: Env, d: Delivery, continuation: Option<string>): (Tables, Reply) {
    match PacketOf(t, d)
    case Err(e) => (t, Failed(e))
    case Ok(packet) =>
      if packet.GateOpen() then (t, Ready)
      else match continuation
        case None => (t, Entry(Next(env, packet.progress)))
        case Some(token) =>
          match C.ParseContinuation(env.mac, env.key, token)
          case Err(reason) => (t, Recovery(reason, Next(env, packet.progress)))
          case Ok(AcknowledgePhase) =>
            var (t', r) := Acknowledge(t, AckRequest(d, None, env.now));
            (t', match r case Ok(_) => Ready case Err(e) => Failed(e))
          case Ok(RequiredRead(stepId, offset)) =>
            var (t', r) := Read(t, env.sha, RequestFor(env, d, stepId, offset));
            (t', match r case Ok(result) => Material(result, Next(env, result.progress)) case Err(e) => Failed(e))
  }

  /** The same call as the program makes it, against the store. */
  method OrientationOccupantRead(db: Database, env: Env, d: Delivery, continuation: Option<string>)
    returns (reply: Reply)
    requires db.Valid() && env.sha == db.sha && forall ref :: NoCollision(env.sha, db.library, env.sourceOf(ref))
    modifies db
    ensures db.Valid()
    ensures (db.State(), reply) == OccupantRead(old(db.State()), env, d, continuation)
  {
    var packet := db.ReadOrientationEntryPacket(d);
    if packet.Err? {
      return Failed(packet.error);
    }
    if packet.value.GateOpen() {
      return Ready;
    }
    if continuation.None? {
      return Entry(Next(env, packet.value.progress));
    }
    var decoded := C.ParseContinuation(env.mac, env.key, continuation.value);
    if decoded.Err? {
      return Recovery(decoded.error, Next(env, packet.value.progress));
    }
    if decoded.value.AcknowledgePhase? {
      var r := db.RecordOrientationAcknowledgement(AckRequest(d, None, env.now));
      return if r.Ok? then Ready else Failed(r.error);
    }
    var r := db.RecordOrientationRequiredRead(RequestFor(env, d, decoded.value.stepId, decoded.value.offset));
    return if r.Ok? then Material(r.value, Next(env, r.value.progress)) else Failed(r.error);
  }

  // ---- how many calls are left ----

  function Max(a: nat, b: nat): nat {
    if a < b then b else a
  }

  /** Calls the sources of the steps need in all: one a page, and one for an empty source. */
  function ReadCalls(library: string -> string, steps: seq<Step>): nat {
    if steps == [] then 0
    else Max(1, PageCount(library(steps[0].revision))) + ReadCalls(library, steps[1..])
  }

  function StepCallsLeft(t: Tables, library: string -> string, id: string, step: Step): int {
    if (id, step.stepId) in t.completions then 0
    else Max(1, PageCount(library(step.revision))) - |RowsOf(t, id, step.stepId)|
  }

  function ReadCallsLeft(t: Tables, library: string -> string, id: string, steps: seq<Step>): int {
    if steps == [] then 0
    else StepCallsLeft(t, library, id, steps[0]) + ReadCallsLeft(t, library, id, steps[1..])
  }

  /** The sources are unchanged and within bounds, the brief is well formed, results are accepted. */
  ghost predicate Cooperative(env: Env, library: string -> string, d: Delivery) {
    && (forall r :: env.accepts(r))
    && forall step :: step in d.brief.requiredReads ==>
         && Owned(step) && IsTrimmed(step.stepId)
         && env.sourceOf(step.artifactRef) == Some(library(step.revision))
         && env.sha(Encode(library(step.revision))) == step.revision
         && P.BoundOf(library(step.revision)).Bounded?
  }

  /** A delivery recorded, not yet acknowledged, in a consistent store. */
  ghost predicate Oriented(t: Tables, env: Env, library: string -> string, d: Delivery) {
    && Consistent(t, env.sha, library)
    && Stored(t, d) && d.receiptId !in t.acknowledgements && Cooperative(env, library, d)
  }

  lemma {:induction false} NoCallsLeft(t: Tables, library: string -> string, id: string, steps: seq<Step>)
    requires PendingOf(t, id, steps) == []
    ensures ReadCallsLeft(t, library, id, steps) == 0
  {
    if steps != [] {
      NoCallsLeft(t, library, id, steps[1..]);
    }
  }

  /** Only the changed step counts. */
  lemma {:induction false} OneStepChanged(t: Tables, t': Tables, library: string -> string, id: string,
                                          steps: seq<Step>, n: nat)
    requires n < |steps|
    requires forall i :: 0 <= i < |steps| && i != n ==>
      StepCallsLeft(t', library, id, steps[i]) == StepCallsLeft(t, library, id, steps[i])
    ensures ReadCallsLeft(t', library, id, steps) - ReadCallsLeft(t, library, id, steps)
         == StepCallsLeft(t', library, id, steps[n]) - StepCallsLeft(t, library, id, steps[n])
  {
    if n > 0 {
      OneStepChanged(t, t', library, id, steps[1..], n - 1);
    } else {
      SameCallsLeft(t, t', library, id, steps[1..]);
    }
  }

  lemma {:induction false} SameCallsLeft(t: Tables, t': Tables, library: string -> string, id: string, steps: seq<Step>)
    requires forall i :: 0 <= i < |steps| ==>
      StepCallsLeft(t', library, id, steps[i]) == StepCallsLeft(t, library, id, steps[i])
    ensures ReadCallsLeft(t', library, id, steps) == ReadCallsLeft(t, library, id, steps)
  {
    if steps != [] {
      SameCallsLeft(t, t', library, id, steps[1..]);
    }
  }

  lemma {:induction false} FreshCallsLeft(t: Tables, library: string -> string, id: string, steps: seq<Step>)
    requires forall s :: s in steps ==> (id, s.stepId) !in t.pages && (id, s.stepId) !in t.completions
    ensures ReadCallsLeft(t, library, id, steps) == ReadCalls(library, steps)
  {
    if steps != [] {
      FreshCallsLeft(t, library, id, steps[1..]);
    }
  }

  lemma {:induction false} CallsLeftNonNegative(t: Tables, env: Env, library: string -> string, d: Delivery,
                                                steps: seq<Step>)
    requires forall s :: s in steps ==> StepConsistent(t, env.sha, library, d, s)
    ensures ReadCallsLeft(t, library, d.receiptId, steps) >= 0
  {
    if steps != [] {
      assert StepConsistent(t, env.sha, library, d, steps[0]);
      CallsLeftNonNegative(t, env, library, d, steps[1..]);
    }
  }

  /** For an admitted request, the read is its transaction. */
  lemma AdmittedRead(t: Tables, env: Env, library: string -> string, d: Delivery, step: Step, offset: nat)
    requires Stored(t, d) && DistinctSteps(d.brief.requiredReads) && Cooperative(env, library, d)
    requires step in d.brief.requiredReads
    ensures var r := ReadInside(t, env.sha, d, step, library(step.revision), offset, env.now);
      Read(t, env.sha, RequestFor(env, d, step.stepId, offset)) ==
        match r case Ok(done) => (done.0, Ok(done.1)) case Err(e) => (t, Err(e))
  {
    TrimmedStays(step.stepId);
    FindStepFinds(d.brief.requiredReads, step);
  }

  lemma CallsDropByOne(t: Tables, library: string -> string, d: Delivery, n: nat, e: Emission)
    requires DistinctSteps(d.brief.requiredReads) && n < |d.brief.requiredReads|
    requires var step := d.brief.requiredReads[n]; var t' := Insert(t, (d.receiptId, step.stepId), e);
      StepCallsLeft(t', library, d.receiptId, step) == StepCallsLeft(t, library, d.receiptId, step) - 1
    ensures var step := d.brief.requiredReads[n]; var t' := Insert(t, (d.receiptId, step.stepId), e);
      ReadCallsLeft(t', library, d.receiptId, d.brief.requiredReads)
      == ReadCallsLeft(t, library, d.receiptId, d.brief.requiredReads) - 1
  {
    var steps, id := d.brief.requiredReads, d.receiptId;
    var key := (id, steps[n].stepId);
    var t' := Insert(t, key, e);
    InsertIsLocal(t, key, e);
    forall i | 0 <= i < |steps| && i != n
      ensures StepCallsLeft(t', library, id, steps[i]) == StepCallsLeft(t, library, id, steps[i])
    {
      OtherRowsSame(t, t', key, (id, steps[i].stepId));
    }
    OneStepChanged(t, t', library, id, steps, n);
  }

  /** The read the next continuation asks for is served, and leaves one call less. */
  lemma NextReadIsServed(t: Tables, env: Env, library: string -> string, d: Delivery)
    requires Oriented(t, env, library, d) && ProgressOf(t, d).nextCall.ReadCall?
    ensures var ReadCall(stepId, offset) := ProgressOf(t, d).nextCall;
      var (t', r) := Read(t, env.sha, RequestFor(env, d, stepId, offset));
      && IsTrimmed(stepId)
      && r.Ok? && r.value.progress == ProgressOf(t', d)
      && Oriented(t', env, library, d)
      && ReadCallsLeft(t', library, d.receiptId, d.brief.requiredReads)
         == ReadCallsLeft(t, library, d.receiptId, d.brief.requiredReads) - 1
  {
    var ReadCall(stepId, offset) := ProgressOf(t, d).nextCall;
    var n := FirstPending(t, d.receiptId, d.brief.requiredReads);
    var step := d.brief.requiredReads[n];
    assert DeliveryConsistent(t, env.sha, library, d) && StepConsistent(t, env.sha, library, d, step);
    AdmittedRead(t, env, library, d, step, offset);
    ActiveStepIsServed(t, env.sha, library, d, step, env.now);
    CallsDropByOne(t, library, d, n, NextEmission(env.sha, d, step, library(step.revision), offset, env.now));
    ReadKeeps(t, env.sha, library, RequestFor(env, d, stepId, offset));
  }

  /** The active step is served at its next offset: one more row, or its completion, or both. */
  lemma ActiveStepIsServed(t: Tables, sha: Sha, library: string -> string, d: Delivery, step: Step, at: string)
    requires StepConsistent(t, sha, library, d, step) && !IsCompleted(t, d, step)
    requires ProgressOf(t, d).pending != [] && ProgressOf(t, d).pending[0] == step.stepId
    ensures var content := library(step.revision);
      var off := NextOffset(RowsOf(t, d.receiptId, step.stepId));
      && (Encode(content) != [] ==> CanEmit(Encode(content), off))
      && var e := NextEmission(sha, d, step, content, off, at);
         var t' := Insert(t, (d.receiptId, step.stepId), e);
         var r := ReadInside(t, sha, d, step, content, off, at);
         && r.Ok? && r.value.0 == t' && r.value.1.progress == ProgressOf(t', d)
         && StepCallsLeft(t', library, d.receiptId, step) == StepCallsLeft(t, library, d.receiptId, step) - 1
  {
    var content := library(step.revision);
    var rows := RowsOf(t, d.receiptId, step.stepId);
    var off := NextOffset(rows);
    NextPage(rows, sha, d, step.stepId, content);
    assert FindRow(rows, off).None?;
    if Encode(content) != [] {
      RowsContinue(rows, sha, d, step.stepId, content);
    }
    var e := NextEmission(sha, d, step, content, off, at);
    var t' := Insert(t, (d.receiptId, step.stepId), e);
    assert e.page.Some? ==> RowsOf(t', d.receiptId, step.stepId) == rows + [e.page.value];
  }

  /** With nothing left to read, the next continuation acknowledges and opens the gate. */
  lemma LastCallOpens(t: Tables, env: Env, library: string -> string, d: Delivery)
    requires Oriented(t, env, library, d) && ProgressOf(t, d).nextCall.AcknowledgeCall?
    ensures ReadCallsLeft(t, library, d.receiptId, d.brief.requiredReads) == 0
    ensures var (t', reply) := OccupantRead(t, env, d, Some(Next(env, ProgressOf(t, d))));
      reply == Ready && d.receiptId in t'.acknowledgements && Stored(t', d)
  {
    NoCallsLeft(t, library, d.receiptId, d.brief.requiredReads);
    C.ContinuationRoundTrip(env.mac, env.key, C.AcknowledgePhase);
    assert DeliveryConsistent(t, env.sha, library, d);
    TokenAcknowledges(t, env, d, Next(env, ProgressOf(t, d)));
  }

  lemma TokenAcknowledges(t: Tables, env: Env, d: Delivery, token: string)
    requires Stored(t, d) && DistinctSteps(d.brief.requiredReads) && d.receiptId !in t.acknowledgements
    requires ProgressOf(t, d).pending == []
    requires C.ParseContinuation(env.mac, env.key, token) == Ok(C.AcknowledgePhase)
    ensures var (t', reply) := OccupantRead(t, env, d, Some(token));
      reply == Ready && d.receiptId in t'.acknowledgements && Stored(t', d)
  {
  }

  lemma NextCallReads(t: Tables, env: Env, library: string -> string, d: Delivery)
    requires Oriented(t, env, library, d) && ProgressOf(t, d).nextCall.ReadCall?
    ensures var (t', reply) := OccupantRead(t, env, d, Some(Next(env, ProgressOf(t, d))));
      && reply.Material? && reply.next == Next(env, ProgressOf(t', d))
      && Oriented(t', env, library, d)
      && ReadCallsLeft(t', library, d.receiptId, d.brief.requiredReads)
         == ReadCallsLeft(t, library, d.receiptId, d.brief.requiredReads) - 1
  {
    var ReadCall(stepId, offset) := ProgressOf(t, d).nextCall;
    NextReadIsServed(t, env, library, d);
    C.ContinuationRoundTrip(env.mac, env.key, C.RequiredRead(stepId, offset));
    assert DeliveryConsistent(t, env.sha, library, d);
  }

  // ---- the whole run ----

  /** An occupant that always sends back the continuation it was given last. */
  datatype Session = Session(t: Tables, continuation: Option<string>)

  function Call(s: Session, env: Env, d: Delivery): Session {
    var (t', reply) := OccupantRead(s.t, env, d, s.continuation);
    Session(t', match reply
      case Entry(next) => Some(next)
      case Material(_, next) => Some(next)
      case Recovery(_, next) => Some(next)
      case _ => s.continuation)
  }

  function Iterate(step: Session -> Session, s: Session, k: nat): Session
    decreases k
  {
    if k == 0 then s else Iterate(step, step(s), k - 1)
  }

  function Caller(env: Env, d: Delivery): Session -> Session {
    x => Call(x, env, d)
  }

  function Calls(s: Session, env: Env, d: Delivery, k: nat): Session {
    Iterate(Caller(env, d), s, k)
  }

  predicate Open(s: Session, d: Delivery) {
    d.receiptId in s.t.acknowledgements
  }

  /** An oriented delivery, with the continuation its progress asks for in hand. */
  ghost predicate Poised(s: Session, env: Env, library: string -> string, d: Delivery) {
    Oriented(s.t, env, library, d) && s.continuation == Some(Next(env, ProgressOf(s.t, d)))
  }

  function Left(s: Session, library: string -> string, d: Delivery): int {
    ReadCallsLeft(s.t, library, d.receiptId, d.brief.requiredReads)
  }

  /** One more call with the continuation in hand: the run ends or the count drops by one. */
  lemma OneMoreCall(s: Session, env: Env, library: string -> string, d: Delivery)
    requires Poised(s, env, library, d)
    ensures var s' := Call(s, env, d);
      if ProgressOf(s.t, d).nextCall.AcknowledgeCall? then Left(s, library, d) == 0 && Open(s', d) && Stored(s'.t, d)
      else Poised(s', env, library, d) && Left(s', library, d) == Left(s, library, d) - 1
  {
    if ProgressOf(s.t, d).nextCall.AcknowledgeCall? {
      LastCallOpens(s.t, env, library, d);
    } else {
      NextCallReads(s.t, env, library, d);
    }
  }

  lemma LeftIsNonNegative(t: Tables, env: Env, library: string -> string, d: Delivery)
    requires Oriented(t, env, library, d)
    ensures ReadCallsLeft(t, library, d.receiptId, d.brief.requiredReads) >= 0 && DistinctSteps(d.brief.requiredReads)
  {
    assert DeliveryConsistent(t, env.sha, library, d);
    CallsLeftNonNegative(t, env, library, d, d.brief.requiredReads);
  }

  /** Open for good: acknowledged, for a delivery as it was recorded. */
  predicate Done(s: Session, d: Delivery) {
    Open(s, d) && Stored(s.t, d) && DistinctSteps(d.brief.requiredReads)
  }

  lemma DoneStays(s: Session, env: Env, d: Delivery)
    requires Done(s, d)
    ensures Done(Call(s, env, d), d)
  {
  }

  /** What a step does to a countdown: at zero it ends for good, above zero it goes down by one. */
  ghost predicate CountsDown(
    step: Session -> Session, poised: Session -> bool, left: Session -> int, done: Session -> bool,
    open: Session -> bool) {
    && (forall s :: poised(s) ==> !open(s) && left(s) >= 0)
    && (forall s :: poised(s) && left(s) == 0 ==> done(step(s)))
    && (forall s :: poised(s) && left(s) > 0 ==> poised(step(s)) && left(step(s)) == left(s) - 1)
    && (forall s :: done(s) ==> open(s) && done(step(s)))
  }

  lemma {:induction false} DoneForGood(
    step: Session -> Session, poised: Session -> bool, left: Session -> int, done: Session -> bool,
    open: Session -> bool,
    s: Session, k: nat)
    requires CountsDown(step, poised, left, done, open) && done(s)
    ensures open(Iterate(step, s, k))
    decreases k
  {
    if k > 0 {
      DoneForGood(step, poised, left, done, open, step(s), k - 1);
    }
  }

  /** A countdown is over exactly when there were more steps than were left. */
  lemma {:induction false} OpensWhenCounted(
    step: Session -> Session, poised: Session -> bool, left: Session -> int, done: Session -> bool,
    open: Session -> bool,
    s: Session, k: nat)
    requires CountsDown(step, poised, left, done, open) && poised(s)
    ensures open(Iterate(step, s, k)) <==> k >= left(s) + 1
    decreases k
  {
    if k > 0 {
      if left(s) == 0 {
        DoneForGood(step, poised, left, done, open, step(s), k - 1);
      } else {
        OpensWhenCounted(step, poised, left, done, open, step(s), k - 1);
      }
    }
  }

  lemma FirstCall(t: Tables, env: Env, library: string -> string, d: Delivery)
    requires Oriented(t, env, library, d)
    ensures Call(Session(t, None), env, d) == Session(t, Some(Next(env, ProgressOf(t, d))))
  {
    assert DeliveryConsistent(t, env.sha, library, d);
  }

  /** On the way: nothing asked yet, or the right continuation in hand. */
  ghost predicate Started(s: Session, env: Env, library: string -> string, d: Delivery) {
    Poised(s, env, library, d) || (Oriented(s.t, env, library, d) && s.continuation == None)
  }

  function StepsLeft(s: Session, library: string -> string, d: Delivery): int {
    Left(s, library, d) + if s.continuation.None? then 1 else 0
  }

  lemma StartedIsNotOpen(s: Session, env: Env, library: string -> string, d: Delivery)
    requires Started(s, env, library, d)
    ensures !Open(s, d) && StepsLeft(s, library, d) >= 0 && DistinctSteps(d.brief.requiredReads)
  {
    LeftIsNonNegative(s.t, env, library, d);
  }

  lemma StepOfRun(s: Session, env: Env, library: string -> string, d: Delivery)
    requires Started(s, env, library, d)
    ensures StepsLeft(s, library, d) == 0 ==> Done(Call(s, env, d), d)
    ensures StepsLeft(s, library, d) > 0 ==>
      Started(Call(s, env, d), env, library, d)
        && StepsLeft(Call(s, env, d), library, d) == StepsLeft(s, library, d) - 1
  {
    StartedIsNotOpen(s, env, library, d);
    if s.continuation.None? {
      FirstCall(s.t, env, library, d);
      LeftIsNonNegative(s.t, env, library, d);
    } else {
      OneMoreCall(s, env, library, d);
      if Poised(Call(s, env, d), env, library, d) {
        StartedIsNotOpen(Call(s, env, d), env, library, d);
      }
    }
  }

  ghost function StartedTest(env: Env, library: string -> string, d: Delivery): Session -> bool {
    x => Started(x, env, library, d)
  }

  ghost function LeftCount(library: string -> string, d: Delivery): Session -> int {
    x => StepsLeft(x, library, d)
  }

  ghost function DoneTest(d: Delivery): Session -> bool {
    x => Done(x, d)
  }

  ghost function OpenTest(d: Delivery): Session -> bool {
    x => Open(x, d)
  }

  lemma RunCountsDown(env: Env, library: string -> string, d: Delivery)
    ensures CountsDown(Caller(env, d), StartedTest(env, library, d), LeftCount(library, d), DoneTest(d), OpenTest(d))
  {
    var step := Caller(env, d);
    ghost var started, left := StartedTest(env, library, d), LeftCount(library, d);
    ghost var done, open := DoneTest(d), OpenTest(d);
    forall x | started(x)
      ensures !open(x) && left(x) >= 0
      ensures left(x) == 0 ==> done(step(x))
      ensures left(x) > 0 ==> started(step(x)) && left(step(x)) == left(x) - 1
    {
      StartedIsNotOpen(x, env, library, d);
      StepOfRun(x, env, library, d);
    }
    forall x | done(x)
      ensures open(x) && done(step(x))
    {
      DoneStays(x, env, d);
    }
  }

  lemma RunOpens(s: Session, env: Env, library: string -> string, d: Delivery, k: nat)
    requires Started(s, env, library, d)
    ensures Open(Calls(s, env, d, k), d) <==> k >= StepsLeft(s, library, d) + 1
  {
    RunCountsDown(env, library, d);
    OpensWhenCounted(
      Caller(env, d), StartedTest(env, library, d), LeftCount(library, d), DoneTest(d), OpenTest(d), s, k);
  }

  /** From a fresh delivery the gate opens at exactly call number
      one, plus one a page or empty source, plus one. */
  lemma OccupantRunLength(t: Tables, env: Env, library: string -> string, d: Delivery, k: nat)
    requires Oriented(t, env, library, d)
    requires forall s :: s in d.brief.requiredReads ==>
      (d.receiptId, s.stepId) !in t.pages && (d.receiptId, s.stepId) !in t.completions
    ensures Open(Calls(Session(t, None), env, d, k), d) <==> k >= 1 + ReadCalls(library, d.brief.requiredReads) + 1
  {
    FreshCallsLeft(t, library, d.receiptId, d.brief.requiredReads);
    RunOpens(Session(t, None), env, library, d, k);
  }
}
