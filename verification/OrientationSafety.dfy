/** Runs of the orientation store: gate safety, its permanence, replay and rollback. */
module OrientationSafety {
  import opened OrientationGate
  import opened OrientationStore
  import opened Strings
  import opened Utf8
  import opened Wrappers
  import P = OrientationPager

  // ---- runs ----

  datatype Operation = DeliverOp(delivery: Delivery) | ReadOp(read: ReadRequest) | AcknowledgeOp(ack: AckRequest)

  function Apply(t: Tables, sha: Sha, op: Operation): Tables {
    match op
    case DeliverOp(d) => Deliver(t, d).0
    case ReadOp(q) => Read(t, sha, q).0
    case AcknowledgeOp(q) => Acknowledge(t, q).0
  }

  function Run(t: Tables, sha: Sha, ops: seq<Operation>): Tables
    decreases |ops|
  {
    if ops == [] then t else Run(Apply(t, sha, ops[0]), sha, ops[1..])
  }

  /** No source read in the run collides with the text its digest stands for. */
  predicate NoCollisions(sha: Sha, library: string -> string, ops: seq<Operation>) {
    forall i :: 0 <= i < |ops| && ops[i].ReadOp? ==> NoCollision(sha, library, ops[i].read.source)
  }

  /** Two sources read in the run never share a digest without being the same text. */
  predicate SourcesDoNotCollide(sha: Sha, ops: seq<Operation>) {
    forall i, j :: 0 <= i < |ops| && 0 <= j < |ops| && SameDigest(sha, ops[i], ops[j]) ==>
      ops[i].read.source == ops[j].read.source
  }

  predicate SameDigest(sha: Sha, a: Operation, b: Operation) {
    Reads(a) && Reads(b) && sha(Encode(a.read.source.value)) == sha(Encode(b.read.source.value))
  }

  predicate Reads(op: Operation) {
    op.ReadOp? && op.read.source.Some?
  }

  ghost function Recover(sha: Sha, ops: seq<Operation>, digest: string): string {
    if i :| 0 <= i < |ops| && Reads(ops[i]) && sha(Encode(ops[i].read.source.value)) == digest
    then ops[i].read.source.value else ""
  }

  /** Then a run needs no oracle: the texts it reads are a library for it. */
  lemma RunIsItsOwnLibrary(sha: Sha, ops: seq<Operation>) returns (library: string -> string)
    requires SourcesDoNotCollide(sha, ops)
    ensures NoCollisions(sha, library, ops)
  {
    library := digest => Recover(sha, ops, digest);
    forall i | 0 <= i < |ops| && Reads(ops[i])
      ensures library(sha(Encode(ops[i].read.source.value))) == ops[i].read.source.value
    {
      assert SameDigest(sha, ops[i], ops[i]);
    }
  }

  /** Whatever callers ask, in whatever order and with whatever source text, the store stays consistent. */
  lemma {:induction false} RunKeeps(t: Tables, sha: Sha, library: string -> string, ops: seq<Operation>)
    requires NoCollisions(sha, library, ops) && Consistent(t, sha, library)
    ensures Consistent(Run(t, sha, ops), sha, library)
    decreases |ops|
  {
    if ops != [] {
      match ops[0] {
        case DeliverOp(d) => DeliverKeeps(t, sha, library, d);
        case ReadOp(q) => ReadKeeps(t, sha, library, q);
        case AcknowledgeOp(q) => AcknowledgeKeeps(t, sha, library, q);
      }
      RunKeeps(Apply(t, sha, ops[0]), sha, library, ops[1..]);
    }
  }

  /** Rows are only added, acknowledgements never change, and a completed step gets no more rows. */
  ghost predicate Grows(t: Tables, t': Tables) {
    && (forall id :: id in t.deliveries ==> id in t'.deliveries && t'.deliveries[id] == t.deliveries[id])
    && (forall id :: id in t.acknowledgements ==>
          id in t'.acknowledgements && t'.acknowledgements[id] == t.acknowledgements[id])
    && (forall k :: k in t.completions ==>
          && k in t'.completions && t'.completions[k] == t.completions[k]
          && RowsOf(t', k.0, k.1) == RowsOf(t, k.0, k.1))
  }

  /** A read changes the tables only by emitting for a step that is not completed. */
  lemma ReadShape(t: Tables, sha: Sha, q: ReadRequest)
    requires Read(t, sha, q).0 != t
    ensures FindStep(q.delivery.brief.requiredReads, Trim(q.stepId)).Some? && q.source.Some? && q.byteOffset >= 0
    ensures var d := q.delivery;
      var step := FindStep(d.brief.requiredReads, Trim(q.stepId)).value;
      var r := Emit(t, sha, d, step, q.source.value, q.byteOffset, q.completedAt);
      && (d.receiptId, step.stepId) !in t.completions
      && r.Ok? && r.value.0 == Read(t, sha, q).0
  {
  }

  lemma InsertGrows(t: Tables, key: (string, string), e: Emission)
    requires key !in t.completions
    ensures Grows(t, Insert(t, key, e))
  {
  }

  lemma DeliverGrows(t: Tables, d: Delivery)
    ensures Grows(t, Deliver(t, d).0)
  {
  }

  lemma ReadGrows(t: Tables, sha: Sha, q: ReadRequest)
    ensures Grows(t, Read(t, sha, q).0)
  {
    if Read(t, sha, q).0 != t {
      ReadShape(t, sha, q);
      var d := q.delivery;
      var step := FindStep(d.brief.requiredReads, Trim(q.stepId)).value;
      InsertGrows(t, (d.receiptId, step.stepId),
        NextEmission(sha, d, step, q.source.value, q.byteOffset, q.completedAt));
    }
  }

  lemma AcknowledgeGrows(t: Tables, q: AckRequest)
    ensures Grows(t, Acknowledge(t, q).0)
  {
  }

  lemma ApplyGrows(t: Tables, sha: Sha, op: Operation)
    ensures Grows(t, Apply(t, sha, op))
  {
    match op {
      case DeliverOp(d) => DeliverGrows(t, d);
      case ReadOp(q) => ReadGrows(t, sha, q);
      case AcknowledgeOp(q) => AcknowledgeGrows(t, q);
    }
  }

  lemma {:induction false} RunGrows(t: Tables, sha: Sha, ops: seq<Operation>)
    ensures Grows(t, Run(t, sha, ops))
    decreases |ops|
  {
    if ops != [] {
      ApplyGrows(t, sha, ops[0]);
      RunGrows(Apply(t, sha, ops[0]), sha, ops[1..]);
    }
  }

  // ---- the gate ----

  function Join(rows: seq<Page>): string {
    if rows == [] then "" else Join(rows[..|rows| - 1]) + rows[|rows| - 1].content
  }

  /** In offset order the rows start at 0, have no gap and no overlap, end in their only eof page,
      and read one after the other they are the whole text. */
  predicate ServedInFull(rows: seq<Page>, content: string) {
    && (rows == [] <==> content == "")
    && (forall j :: 0 <= j < |rows| ==>
          && rows[j].byteOffset == (if j == 0 then 0 else rows[j - 1].nextByteOffset)
          && rows[j].byteOffset < rows[j].nextByteOffset == rows[j].byteOffset + |Encode(rows[j].content)|
          && (rows[j].eof <==> j == |rows| - 1))
    && NextOffset(rows) == |Encode(content)|
    && Join(rows) == content
  }

  lemma RowsEndAtBoundary(rows: seq<Page>, sha: Sha, d: Delivery, stepId: string, content: string)
    requires RowsServed(rows, sha, d, stepId, content)
    ensures Valid(Encode(content)) && Boundary(Encode(content), NextOffset(rows))
    ensures Valid(Encode(content)[..NextOffset(rows)])
  {
    NextPage(rows, sha, d, stepId, content);
    SplitAtBoundary(Encode(content), NextOffset(rows));
  }

  lemma FewerServed(rows: seq<Page>, sha: Sha, d: Delivery, stepId: string, content: string, n: nat)
    requires n <= |rows| && RowsServed(rows, sha, d, stepId, content)
    ensures RowsServed(rows[..n], sha, d, stepId, content)
  {
  }

  /** The last row starts where the rows before it end. */
  lemma LastRowStarts(rows: seq<Page>, sha: Sha, d: Delivery, stepId: string, content: string)
    requires rows != [] && RowsServed(rows, sha, d, stepId, content)
    ensures var before, last := rows[..|rows| - 1], rows[|rows| - 1];
      NextOffset(before) == last.byteOffset < last.nextByteOffset == NextOffset(rows)
  {
    RowIsWhole(rows, sha, d, stepId, content, |rows| - 1);
    OffsetBeforeLast(rows);
  }

  lemma OffsetBeforeLast(rows: seq<Page>)
    requires rows != []
    ensures NextOffset(rows[..|rows| - 1]) == if |rows| == 1 then 0 else rows[|rows| - 2].nextByteOffset
  {
  }

  /** The last row holds the text between the end of the rows before it and its own end. */
  lemma LastRowContent(rows: seq<Page>, sha: Sha, d: Delivery, stepId: string, content: string, from: nat, to: nat)
    requires rows != [] && RowsServed(rows, sha, d, stepId, content)
    requires Valid(Encode(content)) && from == rows[|rows| - 1].byteOffset && to == rows[|rows| - 1].nextByteOffset
    requires from <= to <= |Encode(content)| && Valid(Encode(content)[from..to])
    ensures rows[|rows| - 1].content == Text(Encode(content)[from..to])
  {
  }

  lemma {:induction false} JoinServed(rows: seq<Page>, sha: Sha, d: Delivery, stepId: string, content: string)
    requires RowsServed(rows, sha, d, stepId, content)
    ensures Valid(Encode(content)) && Boundary(Encode(content), NextOffset(rows))
    ensures Valid(Encode(content)[..NextOffset(rows)])
    ensures Join(rows) == Text(Encode(content)[..NextOffset(rows)])
  {
    RowsEndAtBoundary(rows, sha, d, stepId, content);
    if rows != [] {
      var b := Encode(content);
      var before, end := rows[..|rows| - 1], NextOffset(rows);
      LastRowStarts(rows, sha, d, stepId, content);
      FewerServed(rows, sha, d, stepId, content, |rows| - 1);
      JoinServed(before, sha, d, stepId, content);
      SlicesJoin(b, 0, NextOffset(before), end);
      LastRowContent(rows, sha, d, stepId, content, NextOffset(before), end);
      assert b[0..end] == b[..end] && b[0..NextOffset(before)] == b[..NextOffset(before)];
    }
  }

  lemma AllRowsServeInFull(rows: seq<Page>, sha: Sha, d: Delivery, stepId: string, content: string)
    requires RowsServed(rows, sha, d, stepId, content) && |rows| == PageCount(content)
    ensures ServedInFull(rows, content)
  {
    var b := Encode(content);
    NextPage(rows, sha, d, stepId, content);
    JoinServed(rows, sha, d, stepId, content);
    assert NextOffset(rows) == |b| && b[..|b|] == b;
    DecodeEncode(content);
    forall j | 0 <= j < |rows|
      ensures rows[j].byteOffset == (if j == 0 then 0 else rows[j - 1].nextByteOffset)
      ensures rows[j].byteOffset < rows[j].nextByteOffset == rows[j].byteOffset + |Encode(rows[j].content)|
      ensures rows[j].eof <==> j == |rows| - 1
    {
      RowIsWhole(rows, sha, d, stepId, content, j);
    }
    if rows == [] {
      assert content == Join(rows);
    } else {
      assert b != [] && Encode("") == [];
    }
  }

  /** In every reachable state the completed steps are the first ones of the brief, and of the others only
      the very next can have rows. */
  lemma CompletedIsPrefix(sha: Sha, library: string -> string, ops: seq<Operation>, id: string) returns (n: nat)
    requires NoCollisions(sha, library, ops) && id in Run(EMPTY, sha, ops).deliveries
    ensures var t := Run(EMPTY, sha, ops); var steps := t.deliveries[id].brief.requiredReads;
      && n <= |steps|
      && (forall i :: 0 <= i < |steps| ==> (IsCompleted(t, t.deliveries[id], steps[i]) <==> i < n))
      && (forall i :: n < i < |steps| ==> RowsOf(t, id, steps[i].stepId) == [])
  {
    RunKeeps(EMPTY, sha, library, ops);
    var t := Run(EMPTY, sha, ops);
    var d := t.deliveries[id];
    var steps := d.brief.requiredReads;
    n := FirstPending(t, id, steps);
    assert DeliveryConsistent(t, sha, library, d);
    forall i | n < i < |steps|
      ensures !IsStarted(t, d, steps[i])
    {
      var next := steps[n];
      assert IsStarted(t, d, steps[i]) ==> IsCompleted(t, d, next);
    }
  }

  /** A step with text is completed exactly when its last stored page is the eof page; an empty one has no pages. */
  lemma CompletedExactlyAtEof(sha: Sha, library: string -> string, ops: seq<Operation>, id: string, i: nat)
    requires NoCollisions(sha, library, ops) && id in Run(EMPTY, sha, ops).deliveries
    requires i < |Run(EMPTY, sha, ops).deliveries[id].brief.requiredReads|
    ensures var t := Run(EMPTY, sha, ops); var d := t.deliveries[id]; var step := d.brief.requiredReads[i];
      var rows := RowsOf(t, id, step.stepId);
      if library(step.revision) == "" then rows == []
      else IsCompleted(t, d, step) <==> rows != [] && rows[|rows| - 1].eof
  {
    RunKeeps(EMPTY, sha, library, ops);
    var t := Run(EMPTY, sha, ops);
    var d := t.deliveries[id];
    var step := d.brief.requiredReads[i];
    var content := library(step.revision);
    var rows := RowsOf(t, id, step.stepId);
    assert DeliveryConsistent(t, sha, library, d) && StepConsistent(t, sha, library, d, step);
    NextPage(rows, sha, d, step.stepId, content);
    if rows != [] {
      RowIsWhole(rows, sha, d, step.stepId, content, |rows| - 1);
    }
    DecodeEncode(content);
    DecodeEncode("");
  }

  /** The text every completed step was served with. */
  lemma CompletedServedInFull(t: Tables, sha: Sha, library: string -> string, id: string, i: nat)
    requires Consistent(t, sha, library) && id in t.deliveries && i < |t.deliveries[id].brief.requiredReads|
    ensures var d := t.deliveries[id]; var step := d.brief.requiredReads[i];
      IsCompleted(t, d, step) ==>
        && ServedInFull(RowsOf(t, id, step.stepId), library(step.revision))
        && sha(Encode(library(step.revision))) == step.revision
  {
    var d := t.deliveries[id];
    var step := d.brief.requiredReads[i];
    assert DeliveryConsistent(t, sha, library, d) && StepConsistent(t, sha, library, d, step);
    if IsCompleted(t, d, step) {
      AllRowsServeInFull(RowsOf(t, id, step.stepId), sha, d, step.stepId, library(step.revision));
    }
  }

  /** Gate safety. In every state any run of operations can reach, an acknowledgement exists only
      for a delivery all of whose required reads have been served in full, byte for byte. */
  lemma GateSafety(sha: Sha, library: string -> string, ops: seq<Operation>, id: string, i: nat)
    requires NoCollisions(sha, library, ops)
    requires id in Run(EMPTY, sha, ops).acknowledgements
    ensures var t := Run(EMPTY, sha, ops);
      && id in t.deliveries
      && (i < |t.deliveries[id].brief.requiredReads| ==>
            var step := t.deliveries[id].brief.requiredReads[i];
            && ServedInFull(RowsOf(t, id, step.stepId), library(step.revision))
            && sha(Encode(library(step.revision))) == step.revision)
  {
    RunKeeps(EMPTY, sha, library, ops);
    var t := Run(EMPTY, sha, ops);
    assert AckConsistent(t, id);
    if i < |t.deliveries[id].brief.requiredReads| {
      var n := FirstPending(t, id, t.deliveries[id].brief.requiredReads);
      CompletedServedInFull(t, sha, library, id, i);
    }
  }

  /** An open gate stays open with the same record, over the same rows, in every later state. */
  lemma GateStaysOpen(t: Tables, sha: Sha, library: string -> string, ops: seq<Operation>, id: string)
    requires NoCollisions(sha, library, ops) && Consistent(t, sha, library) && id in t.acknowledgements
    ensures var t' := Run(t, sha, ops);
      && id in t'.acknowledgements && t'.acknowledgements[id] == t.acknowledgements[id]
      && id in t.deliveries && id in t'.deliveries && t'.deliveries[id] == t.deliveries[id]
      && forall i :: 0 <= i < |t.deliveries[id].brief.requiredReads| ==>
           var stepId := t.deliveries[id].brief.requiredReads[i].stepId;
           RowsOf(t', id, stepId) == RowsOf(t, id, stepId)
  {
    RunGrows(t, sha, ops);
    assert AckConsistent(t, id);
    var n := FirstPending(t, id, t.deliveries[id].brief.requiredReads);
    var t' := Run(t, sha, ops);
    forall i | 0 <= i < |t.deliveries[id].brief.requiredReads|
      ensures var stepId := t.deliveries[id].brief.requiredReads[i].stepId;
        RowsOf(t', id, stepId) == RowsOf(t, id, stepId)
    {
      var key := (id, t.deliveries[id].brief.requiredReads[i].stepId);
      assert key in t.completions;
      assert RowsOf(t', key.0, key.1) == RowsOf(t, key.0, key.1);
    }
  }

  // ---- refusals, replay, rollback ----

  lemma ServedRowMatches(rows: seq<Page>, sha: Sha, d: Delivery, stepId: string, content: string, off: nat)
    requires RowsServed(rows, sha, d, stepId, content) && FindRow(rows, off).Some?
    ensures PageMatches(sha, FindRow(rows, off).value, Encode(content))
  {
    var page := FindRow(rows, off).value;
    var i :| 0 <= i < |rows| && rows[i] == page;
    P.PagerTotals(content);
  }

  /** Inside the transaction, with the pinned source text, only what the caller asked for can be refused. */
  lemma NoConflictInside(t: Tables, sha: Sha, library: string -> string, d: Delivery, step: Step, off: nat, at: string)
    requires StepConsistent(t, sha, library, d, step)
    ensures var r := ReadInside(t, sha, d, step, library(step.revision), off, at);
      r.Err? ==> r.error in {StepOutOfOrder, OffsetOutOfOrder}
  {
    var content := library(step.revision);
    var rows := RowsOf(t, d.receiptId, step.stepId);
    NextPage(rows, sha, d, step.stepId, content);
    if FindRow(rows, off).Some? {
      ServedRowMatches(rows, sha, d, step.stepId, content, off);
    } else if !IsCompleted(t, d, step) {
      if PageCount(content) != 0 {
        RowsContinue(rows, sha, d, step.stepId, content);
      }
    }
  }

  /** The refusals that would mean the store contradicts itself. */
  predicate BlamesStore(e: Error) {
    e in {CompletionConflict, PageSourceConflict, OffsetOutOfRange, EmptySourcePageConflict, PageBoundaryInvalid}
  }

  lemma BlameComesFromInside(t: Tables, sha: Sha, q: ReadRequest)
    requires Read(t, sha, q).1.Err? && BlamesStore(Read(t, sha, q).1.error)
    ensures var found := FindStep(q.delivery.brief.requiredReads, Trim(q.stepId));
      && found.Some? && q.source.Some? && q.byteOffset >= 0 && Stored(t, q.delivery)
      && sha(Encode(q.source.value)) == found.value.revision
      && ReadInside(t, sha, q.delivery, found.value, q.source.value, q.byteOffset, q.completedAt) ==
        Err(Read(t, sha, q).1.error)
  {
  }

  /** On a consistent store a read is refused only for what the caller did: the store's own
      conflict refusals are never raised. */
  lemma NoInternalRefusal(t: Tables, sha: Sha, library: string -> string, q: ReadRequest)
    requires NoCollision(sha, library, q.source) && Consistent(t, sha, library)
    ensures Read(t, sha, q).1.Err? ==> !BlamesStore(Read(t, sha, q).1.error)
  {
    if Read(t, sha, q).1.Err? && BlamesStore(Read(t, sha, q).1.error) {
      BlameComesFromInside(t, sha, q);
      var d := q.delivery;
      var step := FindStep(d.brief.requiredReads, Trim(q.stepId)).value;
      assert library(sha(Encode(q.source.value))) == q.source.value;
      assert DeliveryConsistent(t, sha, library, d) && StepConsistent(t, sha, library, d, step);
      NoConflictInside(t, sha, library, d, step, q.byteOffset, q.completedAt);
    }
  }

  lemma {:induction false} FindStepFinds(steps: seq<Step>, step: Step)
    requires DistinctSteps(steps) && step in steps
    ensures FindStep(steps, step.stepId) == Some(step)
  {
    if steps[0] != step {
      var i :| 0 <= i < |steps| && steps[i] == step;
      assert steps[1..][i - 1] == step;
      FindStepFinds(steps[1..], step);
    }
  }

  /** Inside the transaction a served offset is answered from its row. */
  lemma ServedInside(t: Tables, sha: Sha, library: string -> string, d: Delivery, step: Step, off: nat, at: string)
    requires DeliveryConsistent(t, sha, library, d) && StepConsistent(t, sha, library, d, step)
    requires step in d.brief.requiredReads && FindRow(RowsOf(t, d.receiptId, step.stepId), off).Some?
    ensures var page := FindRow(RowsOf(t, d.receiptId, step.stepId), off);
      var r := ReadInside(t, sha, d, step, library(step.revision), off, at);
      r.Ok? && r.value.0 == t && r.value.1.page == page && r.value.1.content == Some(page.value.content)
  {
    ServedRowMatches(RowsOf(t, d.receiptId, step.stepId), sha, d, step.stepId, library(step.revision), off);
    if !IsCompleted(t, d, step) {
      StartedIsActive(t, sha, library, d, step);
    }
  }

  /** A read that passes the checks before the transaction returns what the transaction does, if that is accepted. */
  lemma CheckedRead(t: Tables, sha: Sha, q: ReadRequest, step: Step)
    requires DistinctSteps(q.delivery.brief.requiredReads) && step in q.delivery.brief.requiredReads
    requires Owned(step) && Trim(q.stepId) == step.stepId != "" && q.byteOffset >= 0 && Stored(t, q.delivery)
    requires q.source.Some? && sha(Encode(q.source.value)) == step.revision && P.BoundOf(q.source.value).Bounded?
    ensures Read(t, sha, q) ==
      match ReadInside(t, sha, q.delivery, step, q.source.value, q.byteOffset, q.completedAt)
      case Err(e) => (t, Err(e))
      case Ok(done) => if q.accepts(done.1) then (done.0, Ok(done.1)) else (t, Err(ResultRejected))
  {
    FindStepFinds(q.delivery.brief.requiredReads, step);
  }

  /** Reading an offset that was already served returns the stored page and changes nothing. */
  lemma ReplayIsIdempotent(t: Tables, sha: Sha, library: string -> string, q: ReadRequest, step: Step)
    requires Consistent(t, sha, library) && Stored(t, q.delivery)
    requires step in q.delivery.brief.requiredReads && Owned(step) && Trim(q.stepId) == step.stepId != ""
    requires q.source == Some(library(step.revision)) && P.BoundOf(q.source.value).Bounded?
    requires q.byteOffset >= 0
    requires FindRow(RowsOf(t, q.delivery.receiptId, step.stepId), q.byteOffset).Some?
    ensures Read(t, sha, q).0 == t
    ensures var r := Read(t, sha, q).1; var page := FindRow(RowsOf(t, q.delivery.receiptId, step.stepId), q.byteOffset);
      r == Err(ResultRejected) || (r.Ok? && r.value.page == page && r.value.content == Some(page.value.content))
  {
    var d := q.delivery;
    assert DeliveryConsistent(t, sha, library, d) && StepConsistent(t, sha, library, d, step);
    ServedInside(t, sha, library, d, step, q.byteOffset, q.completedAt);
    CheckedRead(t, sha, q, step);
  }

  lemma StartedIsActive(t: Tables, sha: Sha, library: string -> string, d: Delivery, step: Step)
    requires DeliveryConsistent(t, sha, library, d) && step in d.brief.requiredReads
    requires IsStarted(t, d, step) && !IsCompleted(t, d, step)
    ensures ProgressOf(t, d).pending != [] && ProgressOf(t, d).pending[0] == step.stepId
  {
    var steps := d.brief.requiredReads;
    var n := FirstPending(t, d.receiptId, steps);
    var i :| 0 <= i < |steps| && steps[i] == step;
    assert i == n;
  }

  /** A refused read, whatever the reason, leaves the store as it was. */
  lemma RefusedReadChangesNothing(t: Tables, sha: Sha, q: ReadRequest)
    ensures Read(t, sha, q).1.Err? ==> Read(t, sha, q).0 == t
    ensures Read(t, sha, q).1.Ok? ==> q.accepts(Read(t, sha, q).1.value)
  {
  }

  lemma AcknowledgedRecord(t: Tables, q: AckRequest)
    requires Acknowledge(t, q).1.Ok?
    ensures var t1 := Acknowledge(t, q).0; var id := q.delivery.receiptId;
      && id in t1.acknowledgements && t1.acknowledgements[id] == Acknowledge(t, q).1.value.acknowledgement
      && Stored(t1, q.delivery) && DistinctSteps(q.delivery.brief.requiredReads)
  {
  }

  lemma AcknowledgedAgain(t: Tables, again: AckRequest)
    requires var id := again.delivery.receiptId; id in t.acknowledgements && AckConsistent(t, id)
    requires Stored(t, again.delivery) && DistinctSteps(again.delivery.brief.requiredReads)
    ensures var recorded := t.acknowledgements[again.delivery.receiptId];
      Acknowledge(t, again) ==
        if again.supplied in {None, Some(recorded.completions)} then (t, Ok(AckResult(AlreadyAcknowledged, recorded)))
        else (t, Err(CompletionsNotServerRecorded))
  {
  }

  /** Acknowledging again after any other calls returns the first record with its first time, if it supplies
      nothing or just the recorded completions; anything else it supplies is refused. */
  lemma AcknowledgementIsFinal(
    t: Tables, sha: Sha, library: string -> string, first: AckRequest, ops: seq<Operation>, again: AckRequest)
    requires NoCollisions(sha, library, ops) && Consistent(t, sha, library)
    requires Acknowledge(t, first).1.Ok? && again.delivery == first.delivery
    ensures var t' := Run(Acknowledge(t, first).0, sha, ops);
      var recorded := Acknowledge(t, first).1.value.acknowledgement;
      Acknowledge(t', again) ==
        if again.supplied in {None, Some(recorded.completions)} then (t', Ok(AckResult(AlreadyAcknowledged, recorded)))
        else (t', Err(CompletionsNotServerRecorded))
  {
    var t1 := Acknowledge(t, first).0;
    var id := first.delivery.receiptId;
    AcknowledgeKeeps(t, sha, library, first);
    RunKeeps(t1, sha, library, ops);
    GateStaysOpen(t1, sha, library, ops, id);
    AcknowledgedRecord(t, first);
    assert AckConsistent(Run(t1, sha, ops), id);
    AcknowledgedAgain(Run(t1, sha, ops), again);
  }
}
