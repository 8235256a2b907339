/** What the store answers: the text that a read hands over, and what the entry packet shows. */
module OrientationReplies {
  import opened OrientationDatabase
  import opened OrientationGate
  import opened OrientationSafety
  import opened OrientationStore
  import opened Strings
  import opened Utf8
  import opened Wrappers
  import P = OrientationPager

  // ---- a fresh read ----

  /** A read of a step with text hands over the text of the one row it stores, which goes on where the rows before
      it ended; a read of an empty source hands over the empty text and stores no row. */
  predicate HandsOver(rows: seq<Page>, rows': seq<Page>, r: ReadResult, content: string) {
    if content == "" then rows == rows' == [] && r.page == None && r.content == Some("")
    else
      && r.page.Some? && rows' == rows + [r.page.value]
      && r.content == Some(r.page.value.content) && r.page.value.content != ""
      && Join(rows') == Join(rows) + r.page.value.content <= content
  }

  /** The result says completed exactly when the step now is, which is when all its text has been handed over. */
  predicate Reports(t': Tables, d: Delivery, step: Step, r: ReadResult, content: string, at: string) {
    var key := (d.receiptId, step.stepId);
    && r.stepId == step.stepId && r.progress == ProgressOf(t', d)
    && r.status in {ReadCompleted, PageEmitted}
    && (r.status == ReadCompleted <==> key in t'.completions)
    && (r.status == ReadCompleted <==> Join(RowsOf(t', d.receiptId, step.stepId)) == content)
    && r.evidence == (if key in t'.completions then Some(t'.completions[key].evidence) else None)
    && (key in t'.completions ==> t'.completions[key].completedAt == at && t'.completions[key].stepId == step.stepId)
  }

  lemma JoinOneMore(rows: seq<Page>, page: Page)
    ensures Join(rows + [page]) == Join(rows) + page.content
  {
    assert (rows + [page])[..|rows|] == rows;
  }

  /** What served rows join to is the front of the text, and all of it exactly when no page is missing. */
  lemma JoinIsFront(rows: seq<Page>, sha: Sha, d: Delivery, stepId: string, content: string)
    requires RowsServed(rows, sha, d, stepId, content)
    ensures Join(rows) <= content && (Join(rows) == content <==> |rows| == PageCount(content))
  {
    JoinServed(rows, sha, d, stepId, content);
    AllAtEnd(rows, sha, d, stepId, content);
    FrontOf(content, NextOffset(rows));
  }

  lemma AllAtEnd(rows: seq<Page>, sha: Sha, d: Delivery, stepId: string, content: string)
    requires RowsServed(rows, sha, d, stepId, content)
    ensures NextOffset(rows) == |Encode(content)| <==> |rows| == PageCount(content)
  {
    NextPage(rows, sha, d, stepId, content);
  }

  lemma FrontOf(content: string, n: nat)
    requires Valid(Encode(content)) && Boundary(Encode(content), n)
    ensures Valid(Encode(content)[..n]) && Text(Encode(content)[..n]) <= content
    ensures Text(Encode(content)[..n]) == content <==> n == |Encode(content)|
  {
    var b := Encode(content);
    DecodeEncode(content);
    SplitAtBoundary(b, n);
    EncodeDecode(b[..n]);
    if n == |b| {
      assert b[..n] == b;
    }
  }

  lemma PageHasText(rows: seq<Page>, sha: Sha, d: Delivery, stepId: string, content: string)
    requires RowsServed(rows, sha, d, stepId, content) && rows != []
    ensures rows[|rows| - 1].content != ""
  {
    RowIsWhole(rows, sha, d, stepId, content, |rows| - 1);
  }

  lemma PageHandedOver(t: Tables, sha: Sha, library: string -> string, d: Delivery, step: Step, off: nat, at: string)
    requires StepConsistent(t, sha, library, d, step) && !IsCompleted(t, d, step) && library(step.revision) != ""
    requires Emit(t, sha, d, step, library(step.revision), off, at).Ok?
    ensures var done := Emit(t, sha, d, step, library(step.revision), off, at).value;
      && HandsOver(RowsOf(t, d.receiptId, step.stepId), RowsOf(done.0, d.receiptId, step.stepId), done.1,
                   library(step.revision))
      && Reports(done.0, d, step, done.1, library(step.revision), at)
  {
    var content := library(step.revision);
    var rows := RowsOf(t, d.receiptId, step.stepId);
    HasPages(content);
    RowsContinue(rows, sha, d, step.stepId, content);
    var page := MakePage(sha, d, step.stepId, Encode(content), off, P.PageEnd(Encode(content), off));
    var e := NextEmission(sha, d, step, content, off, at);
    assert e.page == Some(page);
    var t' := Insert(t, (d.receiptId, step.stepId), e);
    assert RowsOf(t', d.receiptId, step.stepId) == rows + [page];
    JoinOneMore(rows, page);
    JoinIsFront(rows + [page], sha, d, step.stepId, content);
    PageHasText(rows + [page], sha, d, step.stepId, content);
    assert (rows + [page])[|rows|] == page;
  }

  lemma HasPages(content: string)
    ensures PageCount(content) == 0 <==> content == ""
    ensures Encode(content) == [] <==> content == ""
  {
    DecodeEncode(content);
    DecodeEncode("");
  }

  lemma NothingHandedOver(t: Tables, sha: Sha, library: string -> string, d: Delivery, step: Step, off: nat, at: string)
    requires StepConsistent(t, sha, library, d, step) && !IsCompleted(t, d, step) && library(step.revision) == ""
    requires Emit(t, sha, d, step, library(step.revision), off, at).Ok?
    ensures var done := Emit(t, sha, d, step, library(step.revision), off, at).value;
      && HandsOver(RowsOf(t, d.receiptId, step.stepId), RowsOf(done.0, d.receiptId, step.stepId), done.1, "")
      && Reports(done.0, d, step, done.1, "", at)
  {
    HasPages("");
    assert RowsOf(t, d.receiptId, step.stepId) == [];
  }

  /** A read that changes the store hands over exactly what it stores. */
  lemma FreshReadHandsOver(t: Tables, sha: Sha, library: string -> string, q: ReadRequest)
    requires NoCollision(sha, library, q.source) && Consistent(t, sha, library)
    requires Read(t, sha, q).1.Ok? && Read(t, sha, q).0 != t
    ensures FindStep(q.delivery.brief.requiredReads, Trim(q.stepId)).Some? && q.source.Some?
    ensures var (t', r) := Read(t, sha, q); var d := q.delivery;
      var step := FindStep(d.brief.requiredReads, Trim(q.stepId)).value;
      && !IsCompleted(t, d, step)
      && HandsOver(RowsOf(t, d.receiptId, step.stepId), RowsOf(t', d.receiptId, step.stepId), r.value, q.source.value)
      && Reports(t', d, step, r.value, q.source.value, q.completedAt)
  {
    ReadShape(t, sha, q);
    var d := q.delivery;
    var step := FindStep(d.brief.requiredReads, Trim(q.stepId)).value;
    FreshIsEmitted(t, sha, q, step);
    assert DeliveryConsistent(t, sha, library, d) && StepConsistent(t, sha, library, d, step);
    if q.source.value == "" {
      NothingHandedOver(t, sha, library, d, step, q.byteOffset, q.completedAt);
    } else {
      PageHandedOver(t, sha, library, d, step, q.byteOffset, q.completedAt);
    }
  }

  lemma FreshIsEmitted(t: Tables, sha: Sha, q: ReadRequest, step: Step)
    requires Read(t, sha, q).1.Ok? && Read(t, sha, q).0 != t
    requires FindStep(q.delivery.brief.requiredReads, Trim(q.stepId)) == Some(step)
    ensures q.source.Some? && q.byteOffset >= 0 && Stored(t, q.delivery)
    ensures sha(Encode(q.source.value)) == step.revision && step in q.delivery.brief.requiredReads
    ensures Emit(t, sha, q.delivery, step, q.source.value, q.byteOffset, q.completedAt) ==
      Ok((Read(t, sha, q).0, Read(t, sha, q).1.value))
  {
  }

  // ---- which reads are served ----

  /** The request names the i-th required read of a recorded delivery, and its source is the pinned one. */
  predicate Asks(t: Tables, sha: Sha, q: ReadRequest, i: nat) {
    var steps := q.delivery.brief.requiredReads;
    && Stored(t, q.delivery) && i < |steps| && steps[i].stepId == Trim(q.stepId) != "" && q.byteOffset >= 0
    && steps[i].toolName == "agent_orientation_read" && steps[i].toolStepId == steps[i].stepId
    && q.source.Some? && sha(Encode(q.source.value)) == steps[i].revision && P.BoundOf(q.source.value).Bounded?
  }

  /** It is completed, or the first that is not, and the offset is that of a stored row or where the rows end. */
  ghost predicate Due(t: Tables, q: ReadRequest, i: nat)
    requires i < |q.delivery.brief.requiredReads|
  {
    var steps := q.delivery.brief.requiredReads;
    var rows := RowsOf(t, q.delivery.receiptId, steps[i].stepId);
    || IsCompleted(t, q.delivery, steps[i])
    || (&& (forall j :: 0 <= j < i ==> IsCompleted(t, q.delivery, steps[j]))
        && (q.byteOffset == (if rows == [] then 0 else rows[|rows| - 1].nextByteOffset)
            || exists r :: r in rows && r.byteOffset == q.byteOffset))
  }

  lemma AskedIsTheStep(t: Tables, sha: Sha, q: ReadRequest, i: nat)
    requires Asks(t, sha, q, i) && DistinctSteps(q.delivery.brief.requiredReads)
    ensures FindStep(q.delivery.brief.requiredReads, Trim(q.stepId)) == Some(q.delivery.brief.requiredReads[i])
  {
    FindStepFinds(q.delivery.brief.requiredReads, q.delivery.brief.requiredReads[i]);
  }

  lemma FirstInLine(t: Tables, d: Delivery, i: nat)
    requires DistinctSteps(d.brief.requiredReads) && i < |d.brief.requiredReads|
    requires !IsCompleted(t, d, d.brief.requiredReads[i])
    ensures var pending := ProgressOf(t, d).pending; var steps := d.brief.requiredReads;
      pending != [] && (pending[0] == steps[i].stepId <==> forall j :: 0 <= j < i ==> IsCompleted(t, d, steps[j]))
  {
    var n := FirstPending(t, d.receiptId, d.brief.requiredReads);
    assert n <= i;
  }

  lemma InsideServes(t: Tables, sha: Sha, d: Delivery, step: Step, content: string, off: nat, at: string)
    requires ReadInside(t, sha, d, step, content, off, at).Err? ==>
      ReadInside(t, sha, d, step, content, off, at).error in {StepOutOfOrder, OffsetOutOfOrder}
    ensures var rows, pending := RowsOf(t, d.receiptId, step.stepId), ProgressOf(t, d).pending;
      ReadInside(t, sha, d, step, content, off, at).Ok? <==>
        IsCompleted(t, d, step)
        || (pending != [] && pending[0] == step.stepId && (off == NextOffset(rows) || FindRow(rows, off).Some?))
  {
  }

  lemma RowAtIsFound(rows: seq<Page>, off: int)
    ensures FindRow(rows, off).Some? <==> exists r :: r in rows && r.byteOffset == off
  {
  }

  lemma DueMeans(t: Tables, q: ReadRequest, i: nat)
    requires DistinctSteps(q.delivery.brief.requiredReads) && i < |q.delivery.brief.requiredReads|
    ensures var d := q.delivery; var step := d.brief.requiredReads[i];
      var rows, pending := RowsOf(t, d.receiptId, step.stepId), ProgressOf(t, d).pending;
      Due(t, q, i) <==>
        IsCompleted(t, d, step)
        || (pending != [] && pending[0] == step.stepId
            && (q.byteOffset == NextOffset(rows) || FindRow(rows, q.byteOffset).Some?))
  {
    var d := q.delivery;
    var step := d.brief.requiredReads[i];
    RowAtIsFound(RowsOf(t, d.receiptId, step.stepId), q.byteOffset);
    if !IsCompleted(t, d, step) {
      FirstInLine(t, d, i);
    }
  }

  lemma DueInside(t: Tables, sha: Sha, library: string -> string, q: ReadRequest, i: nat)
    requires Consistent(t, sha, library) && Asks(t, sha, q, i)
    requires q.source.value == library(q.delivery.brief.requiredReads[i].revision)
    ensures var step := q.delivery.brief.requiredReads[i];
      ReadInside(t, sha, q.delivery, step, q.source.value, q.byteOffset, q.completedAt).Ok? <==> Due(t, q, i)
  {
    var d := q.delivery;
    var step := d.brief.requiredReads[i];
    assert DeliveryConsistent(t, sha, library, d) && StepConsistent(t, sha, library, d, step);
    NoConflictInside(t, sha, library, d, step, q.byteOffset, q.completedAt);
    InsideServes(t, sha, d, step, q.source.value, q.byteOffset, q.completedAt);
    DueMeans(t, q, i);
  }

  lemma OkIsAsked(t: Tables, sha: Sha, q: ReadRequest)
    requires Read(t, sha, q).1.Ok? || Read(t, sha, q).1 == Err(ResultRejected)
    ensures exists i: nat :: Asks(t, sha, q, i)
  {
    var steps := q.delivery.brief.requiredReads;
    var step := FindStep(steps, Trim(q.stepId)).value;
    var i: nat :| i < |steps| && steps[i] == step;
    assert Asks(t, sha, q, i);
  }

  lemma AskedIsServedWhenDue(t: Tables, sha: Sha, library: string -> string, q: ReadRequest, i: nat)
    requires NoCollision(sha, library, q.source) && Consistent(t, sha, library) && Asks(t, sha, q, i)
    ensures Read(t, sha, q).1.Ok? || Read(t, sha, q).1 == Err(ResultRejected) <==> Due(t, q, i)
  {
    var d := q.delivery;
    var step := d.brief.requiredReads[i];
    assert DeliveryConsistent(t, sha, library, d) && StepConsistent(t, sha, library, d, step);
    DueInside(t, sha, library, q, i);
    NoConflictInside(t, sha, library, d, step, q.byteOffset, q.completedAt);
    CheckedRead(t, sha, q, step);
  }

  lemma InsideRejectsNothing(t: Tables, sha: Sha, d: Delivery, step: Step, content: string, off: nat, at: string)
    ensures ReadInside(t, sha, d, step, content, off, at) != Err(ResultRejected)
  {
  }

  lemma ServedIsAccepted(t: Tables, sha: Sha, q: ReadRequest)
    ensures Read(t, sha, q).1.Ok? ==> q.accepts(Read(t, sha, q).1.value)
    ensures Read(t, sha, q).1 == Err(ResultRejected) ==> exists r :: !q.accepts(r)
  {
    if Read(t, sha, q).1 == Err(ResultRejected) {
      var step := FindStep(q.delivery.brief.requiredReads, Trim(q.stepId)).value;
      InsideRejectsNothing(t, sha, q.delivery, step, q.source.value, q.byteOffset, q.completedAt);
      var done := ReadInside(t, sha, q.delivery, step, q.source.value, q.byteOffset, q.completedAt).value;
      assert !q.accepts(done.1);
    }
  }

  /** A read is served, unless its result is rejected, exactly when the caller asks for a step that is due. */
  lemma ReadIsServedExactlyWhenDue(t: Tables, sha: Sha, library: string -> string, q: ReadRequest)
    requires NoCollision(sha, library, q.source) && Consistent(t, sha, library)
    ensures Read(t, sha, q).1.Ok? || Read(t, sha, q).1 == Err(ResultRejected) <==>
      exists i: nat :: Asks(t, sha, q, i) && Due(t, q, i)
    ensures Read(t, sha, q).1.Ok? ==> q.accepts(Read(t, sha, q).1.value)
    ensures Read(t, sha, q).1 == Err(ResultRejected) ==> exists r :: !q.accepts(r)
  {
    ServedIsAccepted(t, sha, q);
    if Read(t, sha, q).1.Ok? || Read(t, sha, q).1 == Err(ResultRejected) {
      OkIsAsked(t, sha, q);
    }
    forall i: nat | Asks(t, sha, q, i)
      ensures Read(t, sha, q).1.Ok? || Read(t, sha, q).1 == Err(ResultRejected) <==> Due(t, q, i)
    {
      AskedIsServedWhenDue(t, sha, library, q, i);
    }
  }

  /** A read that changes nothing answers from the rows: the row at the offset with its text, and of a completed
      step its evidence, even where no row is. */
  lemma RepeatedReadRepeats(t: Tables, sha: Sha, q: ReadRequest)
    requires Read(t, sha, q).1.Ok? && Read(t, sha, q).0 == t
    ensures FindStep(q.delivery.brief.requiredReads, Trim(q.stepId)).Some?
    ensures var r := Read(t, sha, q).1.value; var d := q.delivery;
      var step := FindStep(d.brief.requiredReads, Trim(q.stepId)).value;
      var rows, key := RowsOf(t, d.receiptId, step.stepId), (d.receiptId, step.stepId);
      && r.stepId == step.stepId && r.progress == ProgressOf(t, d)
      && r.status == (if key in t.completions then AlreadyCompleted else PageAlreadyEmitted)
      && r.evidence == (if key in t.completions then Some(t.completions[key].evidence) else None)
      && (r.page.Some? ==>
            r.page.value in rows && r.page.value.byteOffset == q.byteOffset && r.content == Some(r.page.value.content))
      && (r.page.None? ==>
            key in t.completions && r.content == None && forall p :: p in rows ==> p.byteOffset != q.byteOffset)
  {
    var step := FindStep(q.delivery.brief.requiredReads, Trim(q.stepId)).value;
    if (q.delivery.receiptId, step.stepId) !in t.completions
      && FindRow(RowsOf(t, q.delivery.receiptId, step.stepId), q.byteOffset).None?
    {
      FreshInserts(t, sha, q, step);
    }
  }

  lemma FreshInserts(t: Tables, sha: Sha, q: ReadRequest, step: Step)
    requires Read(t, sha, q).1.Ok? && FindStep(q.delivery.brief.requiredReads, Trim(q.stepId)) == Some(step)
    requires (q.delivery.receiptId, step.stepId) !in t.completions
    requires FindRow(RowsOf(t, q.delivery.receiptId, step.stepId), q.byteOffset).None?
    ensures Read(t, sha, q).0 != t
  {
    var key := (q.delivery.receiptId, step.stepId);
    var e := NextEmission(sha, q.delivery, step, q.source.value, q.byteOffset, q.completedAt);
    if e.page.Some? {
      InsertLengthens(RowsOf(t, key.0, key.1), e.page.value);
    }
  }

  lemma {:induction false} InsertLengthens(rows: seq<Page>, page: Page)
    ensures |InsertRow(rows, page)| == |rows| + 1
  {
    if rows != [] {
      InsertLengthens(rows[1..], page);
    }
  }

  // ---- what a refusal says ----

  /** What must be so for each refusal of a read. */
  ghost predicate Explains(t: Tables, sha: Sha, q: ReadRequest, e: Error) {
    var d := q.delivery;
    var steps := d.brief.requiredReads;
    var step := FindStep(steps, Trim(q.stepId));
    match e
    case StepIdRequired => Trim(q.stepId) == ""
    case OffsetInvalid => q.byteOffset < 0
    case BriefInvalid => !DistinctSteps(steps)
    case StepUnknown => !IsStep(steps, Trim(q.stepId))
    case StepNotOwned => step.Some? && !Owned(step.value)
    case SourceUnavailable => q.source == None
    case SourceStale => step.Some? && q.source.Some? && sha(Encode(q.source.value)) != step.value.revision
    case SourceBoundExceeded => q.source.Some? && !P.BoundOf(q.source.value).Bounded?
    case DeliveryNotPersisted => d.receiptId !in t.deliveries || t.deliveries[d.receiptId] != d
    case StepOutOfOrder => step.Some? && !IsCompleted(t, d, step.value) && !IsFirstPending(t, d, step.value)
    case OffsetOutOfOrder =>
      step.Some? && !IsCompleted(t, d, step.value) && IsFirstPending(t, d, step.value)
      && FindRow(RowsOf(t, d.receiptId, step.value.stepId), q.byteOffset).None?
      && q.byteOffset != NextOffset(RowsOf(t, d.receiptId, step.value.stepId))
    case ResultRejected => exists r :: !q.accepts(r)
    case _ => false
  }

  predicate IsFirstPending(t: Tables, d: Delivery, step: Step) {
    var pending := ProgressOf(t, d).pending;
    pending != [] && pending[0] == step.stepId
  }

  lemma InsideExplains(t: Tables, sha: Sha, d: Delivery, step: Step, content: string, off: nat, at: string)
    ensures var r := ReadInside(t, sha, d, step, content, off, at);
      && (r == Err(StepOutOfOrder) ==> !IsCompleted(t, d, step) && !IsFirstPending(t, d, step))
      && (r == Err(OffsetOutOfOrder) ==>
            && !IsCompleted(t, d, step) && IsFirstPending(t, d, step)
            && FindRow(RowsOf(t, d.receiptId, step.stepId), off).None?
            && off != NextOffset(RowsOf(t, d.receiptId, step.stepId)))
  {
  }

  lemma InsideErrors(t: Tables, sha: Sha, d: Delivery, step: Step, content: string, off: nat, at: string)
    ensures var r := ReadInside(t, sha, d, step, content, off, at);
      r.Err? ==> BlamesStore(r.error) || r.error in {StepOutOfOrder, OffsetOutOfOrder}
  {
  }

  /** The refusals of the checks before the transaction: of the request, and of the step it names. */
  predicate IsChecked(e: Error) {
    e.StepIdRequired? || e.OffsetInvalid? || e.BriefInvalid? || e.StepUnknown? || IsCheckedOfStep(e)
  }

  predicate IsCheckedOfStep(e: Error) {
    e.StepNotOwned? || e.SourceUnavailable? || e.SourceStale? || e.SourceBoundExceeded? || e.DeliveryNotPersisted?
  }

  lemma RequestCheckExplains(t: Tables, sha: Sha, q: ReadRequest, e: Error)
    requires Read(t, sha, q).1 == Err(e) && IsChecked(e) && !IsCheckedOfStep(e)
    ensures Explains(t, sha, q, e)
  {
    CheckedNotInside(t, sha, q, e);
  }

  lemma StepCheckExplains(t: Tables, sha: Sha, q: ReadRequest, e: Error)
    requires Read(t, sha, q).1 == Err(e) && IsCheckedOfStep(e)
    ensures Explains(t, sha, q, e)
  {
    CheckedNotInside(t, sha, q, e);
  }

  lemma CheckedNotInside(t: Tables, sha: Sha, q: ReadRequest, e: Error)
    requires IsChecked(e)
    ensures var step := FindStep(q.delivery.brief.requiredReads, Trim(q.stepId));
      step.Some? && q.byteOffset >= 0 && q.source.Some? ==>
        ReadInside(t, sha, q.delivery, step.value, q.source.value, q.byteOffset, q.completedAt) != Err(e)
  {
    var step := FindStep(q.delivery.brief.requiredReads, Trim(q.stepId));
    if step.Some? && q.byteOffset >= 0 && q.source.Some? {
      InsideErrors(t, sha, q.delivery, step.value, q.source.value, q.byteOffset, q.completedAt);
    }
  }

  lemma ErrorArises(t: Tables, sha: Sha, q: ReadRequest, e: Error)
    requires Read(t, sha, q).1 == Err(e) && !IsChecked(e) && e != ResultRejected
    ensures q.byteOffset >= 0 && FindStep(q.delivery.brief.requiredReads, Trim(q.stepId)).Some? && q.source.Some?
    ensures var step := FindStep(q.delivery.brief.requiredReads, Trim(q.stepId)).value;
      ReadInside(t, sha, q.delivery, step, q.source.value, q.byteOffset, q.completedAt) == Err(e)
  {
  }

  /** On a consistent store every refusal of a read is true of the request. */
  lemma RefusalSaysWhy(t: Tables, sha: Sha, library: string -> string, q: ReadRequest)
    requires NoCollision(sha, library, q.source) && Consistent(t, sha, library)
    ensures Read(t, sha, q).1.Err? ==> Explains(t, sha, q, Read(t, sha, q).1.error)
  {
    if Read(t, sha, q).1.Err? && !Explains(t, sha, q, Read(t, sha, q).1.error) {
      var e := Read(t, sha, q).1.error;
      ServedIsAccepted(t, sha, q);
      if IsCheckedOfStep(e) {
        StepCheckExplains(t, sha, q, e);
      } else if IsChecked(e) {
        RequestCheckExplains(t, sha, q, e);
      }
      ErrorArises(t, sha, q, e);
      NoInternalRefusal(t, sha, library, q);
      var step := FindStep(q.delivery.brief.requiredReads, Trim(q.stepId)).value;
      InsideErrors(t, sha, q.delivery, step, q.source.value, q.byteOffset, q.completedAt);
      InsideExplains(t, sha, q.delivery, step, q.source.value, q.byteOffset, q.completedAt);
      assert false;
    }
  }

  // ---- the times ----

  /** Completions and acknowledgements that are new bear this time. */
  predicate StampedAt(t: Tables, t': Tables, at: string) {
    && (forall k :: k in t'.completions && k !in t.completions ==> t'.completions[k].completedAt == at)
    && (forall id :: id in t'.acknowledgements && id !in t.acknowledgements ==>
          t'.acknowledgements[id].acknowledgedAt == at)
  }

  lemma ReadStamps(t: Tables, sha: Sha, q: ReadRequest)
    ensures StampedAt(t, Read(t, sha, q).0, q.completedAt)
  {
    if Read(t, sha, q).0 != t {
      ReadShape(t, sha, q);
    }
  }

  lemma AcknowledgeStamps(t: Tables, q: AckRequest)
    ensures StampedAt(t, Acknowledge(t, q).0, q.acknowledgedAt)
  {
  }

  // ---- the entry packet ----

  /** The packet shows an open gate exactly when the delivery is acknowledged, and then that very record. */
  lemma PacketShowsGate(t: Tables, d: Delivery)
    requires PacketOf(t, d).Ok?
    ensures Stored(t, d) && PacketOf(t, d).value.progress == ProgressOf(t, d)
    ensures PacketOf(t, d).value.GateOpen() <==> d.receiptId in t.acknowledgements
    ensures PacketOf(t, d).value.GateOpen() ==>
      PacketOf(t, d).value.acknowledgement == Some(t.acknowledgements[d.receiptId])
  {
  }

  /** The packet is refused only for a delivery that was not recorded as it is, or whose step ids repeat. */
  lemma PacketIsGiven(t: Tables, d: Delivery)
    ensures PacketOf(t, d).Ok? <==> Stored(t, d) && DistinctSteps(d.brief.requiredReads)
  {
  }

  // ---- the acknowledgement ----

  lemma {:induction false} CompletionsInOrder(t: Tables, id: string, steps: seq<Step>)
    requires PendingOf(t, id, steps) == []
    ensures |CompletionsOf(t, id, steps)| == |steps|
    ensures forall i :: 0 <= i < |steps| ==>
      (id, steps[i].stepId) in t.completions && CompletionsOf(t, id, steps)[i] == t.completions[(id, steps[i].stepId)]
  {
    if steps != [] {
      CompletionsInOrder(t, id, steps[1..]);
    }
  }

  /** A new acknowledgement holds the stored completion of every required read, in the order of the brief, and the
      time of the request; nothing else changes. */
  lemma AcknowledgementHolds(t: Tables, q: AckRequest)
    requires Acknowledge(t, q).1.Ok? && q.delivery.receiptId !in t.acknowledgements
    ensures var t' := Acknowledge(t, q).0; var ack := Acknowledge(t, q).1.value.acknowledgement;
      var id, steps := q.delivery.receiptId, q.delivery.brief.requiredReads;
      && Acknowledge(t, q).1.value.status == Acknowledged
      && t' == t.(acknowledgements := t'.acknowledgements) && t'.acknowledgements == t.acknowledgements[id := ack]
      && ack.deliveryRef == id && ack.acknowledgedAt == q.acknowledgedAt && |ack.completions| == |steps|
      && forall i :: 0 <= i < |steps| ==>
           (id, steps[i].stepId) in t.completions && ack.completions[i] == t.completions[(id, steps[i].stepId)]
  {
    CompletionsInOrder(t, q.delivery.receiptId, q.delivery.brief.requiredReads);
  }

  lemma {:induction false} NothingPending(t: Tables, id: string, steps: seq<Step>)
    ensures PendingOf(t, id, steps) == [] <==> forall i :: 0 <= i < |steps| ==> (id, steps[i].stepId) in t.completions
  {
    var n := FirstPending(t, id, steps);
  }

  /** What a caller may supply: the stored completion of every required read, in the order of the brief. */
  predicate SuppliesStored(t: Tables, id: string, steps: seq<Step>, supplied: seq<Completion>) {
    && |supplied| == |steps|
    && forall i :: 0 <= i < |steps| ==>
         (id, steps[i].stepId) in t.completions && supplied[i] == t.completions[(id, steps[i].stepId)]
  }

  /** A delivery is acknowledged, or found to be, exactly when it is recorded, all its reads are completed and the
      completions the caller supplied, if any, are the stored ones. */
  lemma AcknowledgedExactlyWhenRead(t: Tables, sha: Sha, library: string -> string, q: AckRequest)
    requires Consistent(t, sha, library)
    ensures var id, steps := q.delivery.receiptId, q.delivery.brief.requiredReads;
      Acknowledge(t, q).1.Ok? <==>
        && Stored(t, q.delivery)
        && (forall i :: 0 <= i < |steps| ==> (id, steps[i].stepId) in t.completions)
        && (q.supplied.Some? ==> SuppliesStored(t, id, steps, q.supplied.value))
  {
    var id, steps := q.delivery.receiptId, q.delivery.brief.requiredReads;
    NothingPending(t, id, steps);
    if Stored(t, q.delivery) {
      assert DeliveryConsistent(t, sha, library, q.delivery);
      if PendingOf(t, id, steps) == [] {
        CompletionsInOrder(t, id, steps);
        assert q.supplied.Some? && SuppliesStored(t, id, steps, q.supplied.value) ==>
          q.supplied.value == CompletionsOf(t, id, steps);
      }
      if id in t.acknowledgements {
        assert AckConsistent(t, id);
      }
    }
  }

  /** What a refused acknowledgement is told, exactly. */
  lemma AcknowledgementRefusalIs(t: Tables, sha: Sha, library: string -> string, q: AckRequest)
    requires Consistent(t, sha, library)
    ensures var r := Acknowledge(t, q).1; var id, steps := q.delivery.receiptId, q.delivery.brief.requiredReads;
      var read := forall i :: 0 <= i < |steps| ==> (id, steps[i].stepId) in t.completions;
      && (r == Err(BriefInvalid) <==> !DistinctSteps(steps))
      && (r == Err(DeliveryNotPersisted) <==> DistinctSteps(steps) && !Stored(t, q.delivery))
      && (r == Err(ReadsIncomplete) <==> Stored(t, q.delivery) && !read)
      && (r == Err(CompletionsNotServerRecorded) <==>
            Stored(t, q.delivery) && read && q.supplied.Some? && !SuppliesStored(t, id, steps, q.supplied.value))
      && (r.Err? ==> r.error in {BriefInvalid, DeliveryNotPersisted, ReadsIncomplete, CompletionsNotServerRecorded})
  {
    NothingPending(t, q.delivery.receiptId, q.delivery.brief.requiredReads);
    AcknowledgedExactlyWhenRead(t, sha, library, q);
    if Stored(t, q.delivery) {
      assert DeliveryConsistent(t, sha, library, q.delivery);
    }
  }

  // ---- the delivery ----

  /** A delivery is new, or there already just as it is; a recorded one never changes. */
  lemma DeliveryIsKept(t: Tables, d: Delivery)
    ensures Deliver(t, d).1.Ok? ==> Stored(Deliver(t, d).0, d) && (Deliver(t, d).1.value <==> !Stored(t, d))
    ensures Deliver(t, d).1.Err? ==> Deliver(t, d).0 == t
    ensures d.receiptId in t.deliveries && t.deliveries[d.receiptId] != d ==> Deliver(t, d).1.Err?
    ensures Deliver(t, d).0 == t.(deliveries := Deliver(t, d).0.deliveries)
  {
  }

  // ---- the evidence ----

  /** Lines joined by one kind of line end. */
  function Lines(lines: seq<string>, end: string): string {
    if lines == [] then "" else if |lines| == 1 then lines[0] else lines[0] + end + Lines(lines[1..], end)
  }

  predicate IsLine(line: string) {
    forall i :: 0 <= i < |line| ==> line[i] != '\r' && line[i] != '\n'
  }

  lemma {:induction false} LineThenRest(line: string, rest: string)
    requires IsLine(line)
    ensures NormalizeLines(line + "\n" + rest) == line + "\n" + NormalizeLines(rest)
    ensures NormalizeLines(line + "\r\n" + rest) == line + "\n" + NormalizeLines(rest)
    ensures LineCount(line + "\n" + rest) == LineCount(line + "\r\n" + rest) == 1 + LineCount(rest)
  {
    var a, b := line + "\n" + rest, line + "\r\n" + rest;
    if line == "" {
      assert a[1..] == rest && b[2..] == rest && b[1..] == "\n" + rest && ("\n" + rest)[1..] == rest;
    } else {
      LineThenRest(line[1..], rest);
      assert a[1..] == line[1..] + "\n" + rest && b[1..] == line[1..] + "\r\n" + rest;
      assert line == [line[0]] + line[1..];
    }
  }

  lemma {:induction false} OneLine(line: string)
    requires IsLine(line)
    ensures NormalizeLines(line) == line && LineCount(line) == 1
  {
    if line != "" {
      OneLine(line[1..]);
    }
  }

  /** The evidence of a text of some lines: the digest of the text, the digest of the lines joined by line feeds,
      whichever of the two line ends the text has, and the number of lines. */
  lemma {:induction false} EvidenceSays(sha: Sha, lines: seq<string>, end: string)
    requires lines != [] && (end == "\n" || end == "\r\n") && forall i :: 0 <= i < |lines| ==> IsLine(lines[i])
    ensures var e := EvidenceOf(sha, Lines(lines, end));
      && e.contentSha256 == sha(Encode(Lines(lines, end)))
      && e.contentWindowSha256 == sha(Encode(Lines(lines, "\n"))) && e.returnedLines == |lines|
  {
    LinesNormalize(lines, end);
  }

  lemma {:induction false} LinesNormalize(lines: seq<string>, end: string)
    requires lines != [] && (end == "\n" || end == "\r\n") && forall i :: 0 <= i < |lines| ==> IsLine(lines[i])
    ensures NormalizeLines(Lines(lines, end)) == Lines(lines, "\n") && LineCount(Lines(lines, end)) == |lines|
  {
    if |lines| == 1 {
      OneLine(lines[0]);
    } else {
      LinesNormalize(lines[1..], end);
      LineThenRest(lines[0], Lines(lines[1..], end));
    }
  }
}
