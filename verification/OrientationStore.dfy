/** The append-only orientation store: deliveries, served pages, completed reads, acknowledgements. */
module OrientationStore {
  import opened Strings
  import opened Utf8
  import opened Wrappers
  import P = OrientationPager

  /** One required read of a brief. `revision` is the digest of the source text it was issued for. */
  datatype Step = Step(stepId: string, toolName: string, toolStepId: string, artifactRef: string, revision: string)
  datatype Brief = Brief(briefId: string, manifestId: string, requiredReads: seq<Step>)
  datatype Delivery = Delivery(receiptId: string, brief: Brief)

  datatype Page = Page(
    deliveryRef: string, manifestId: string, briefId: string, stepId: string,
    byteOffset: nat, returnedBytes: nat, nextByteOffset: nat, eof: bool,
    contentSha256: string, pageSha256: string, content: string)

  datatype Evidence = Evidence(contentSha256: string, contentWindowSha256: string, returnedLines: nat)
  datatype Completion = Completion(stepId: string, evidence: Evidence, completedAt: string)
  datatype Acknowledgement = Acknowledgement(
    deliveryRef: string, completions: seq<Completion>, acknowledgedAt: string)

  /** The four tables. Page rows of one step are kept in the order of their unique index. */
  datatype Tables = Tables(
    deliveries: map<string, Delivery>,
    pages: map<(string, string), seq<Page>>,
    completions: map<(string, string), Completion>,
    acknowledgements: map<string, Acknowledgement>)

  datatype Call = ReadCall(stepId: string, offset: nat) | AcknowledgeCall

  datatype Progress = Progress(completions: seq<Completion>, pending: seq<string>, nextCall: Call)

  datatype ReadStatus = ReadCompleted | PageEmitted | AlreadyCompleted | PageAlreadyEmitted

  datatype ReadResult = ReadResult(
    status: ReadStatus, stepId: string, content: Option<string>, page: Option<Page>,
    evidence: Option<Evidence>, progress: Progress)

  datatype ReadRequest = ReadRequest(
    delivery: Delivery, stepId: string, byteOffset: int, source: Option<string>,
    completedAt: string, accepts: ReadResult -> bool)

  datatype AckStatus = Acknowledged | AlreadyAcknowledged
  datatype AckRequest = AckRequest(
    delivery: Delivery, supplied: Option<seq<Completion>>, acknowledgedAt: string)
  datatype AckResult = AckResult(status: AckStatus, acknowledgement: Acknowledgement)

  datatype Error =
    | BriefInvalid | StepIdRequired | OffsetInvalid | StepUnknown | StepNotOwned
    | SourceUnavailable | SourceStale | SourceBoundExceeded
    | DeliveryNotPersisted | DeliveryConflict
    | CompletionUnknownStep | PageUnknownStep | PageInvalid | PageBindingMismatch
    | PageChainGap | PageAfterEof
    | CompletionConflict | PageSourceConflict | StepOutOfOrder
    | OffsetOutOfOrder | OffsetOutOfRange | EmptySourcePageConflict | PageBoundaryInvalid
    | ResultRejected | ReadsIncomplete | CompletionsNotServerRecorded | AcknowledgementConflict

  type Sha = seq<byte> -> string

  const EMPTY := Tables(map[], map[], map[], map[])

  predicate DistinctSteps(steps: seq<Step>) {
    forall i, j :: 0 <= i < j < |steps| ==> steps[i].stepId != steps[j].stepId
  }

  predicate IsStep(steps: seq<Step>, stepId: string) {
    exists i :: 0 <= i < |steps| && steps[i].stepId == stepId
  }

  function FindStep(steps: seq<Step>, stepId: string): (r: Option<Step>)
    ensures r.Some? ==> r.value in steps && r.value.stepId == stepId
    ensures r.None? ==> !IsStep(steps, stepId)
  {
    if steps == [] then None
    else if steps[0].stepId == stepId then Some(steps[0])
    else FindStep(steps[1..], stepId)
  }

  function RowsOf(t: Tables, receiptId: string, stepId: string): seq<Page> {
    if (receiptId, stepId) in t.pages then t.pages[(receiptId, stepId)] else []
  }

  function FindRow(rows: seq<Page>, offset: int): (r: Option<Page>)
    ensures r.Some? ==> exists i :: 0 <= i < |rows| && rows[i] == r.value && r.value.byteOffset == offset
    ensures r.None? ==> forall i :: 0 <= i < |rows| ==> rows[i].byteOffset != offset
  {
    if rows == [] then None
    else if rows[0].byteOffset == offset then Some(rows[0])
    else FindRow(rows[1..], offset)
  }

  /** Where a new row goes in the offset index. */
  function InsertRow(rows: seq<Page>, page: Page): seq<Page> {
    if rows != [] && rows[0].byteOffset < page.byteOffset
    then [rows[0]] + InsertRow(rows[1..], page)
    else [page] + rows
  }

  function CompletionsOf(t: Tables, receiptId: string, steps: seq<Step>): seq<Completion> {
    if steps == [] then []
    else
      var rest := CompletionsOf(t, receiptId, steps[1..]);
      var key := (receiptId, steps[0].stepId);
      if key in t.completions then [t.completions[key]] + rest else rest
  }

  function PendingOf(t: Tables, receiptId: string, steps: seq<Step>): seq<string> {
    if steps == [] then []
    else
      var rest := PendingOf(t, receiptId, steps[1..]);
      if (receiptId, steps[0].stepId) in t.completions then rest else [steps[0].stepId] + rest
  }

  function NextOffset(rows: seq<Page>): nat {
    if rows == [] then 0 else rows[|rows| - 1].nextByteOffset
  }

  function ProgressOf(t: Tables, d: Delivery): Progress {
    var pending := PendingOf(t, d.receiptId, d.brief.requiredReads);
    Progress(
      CompletionsOf(t, d.receiptId, d.brief.requiredReads),
      pending,
      if pending == [] then AcknowledgeCall
      else ReadCall(pending[0], NextOffset(RowsOf(t, d.receiptId, pending[0]))))
  }

  /** `content.split(/\r?\n/)` joined again with line feeds. */
  function NormalizeLines(text: string): string {
    if text == "" then ""
    else if |text| >= 2 && text[0] == '\r' && text[1] == '\n' then "\n" + NormalizeLines(text[2..])
    else [text[0]] + NormalizeLines(text[1..])
  }

  function LineCount(text: string): nat {
    if text == "" then 1 else LineCount(text[1..]) + if text[0] == '\n' then 1 else 0
  }

  function EvidenceOf(sha: Sha, content: string): Evidence {
    Evidence(sha(Encode(content)), sha(Encode(NormalizeLines(content))), LineCount(content))
  }

  function MakePage(sha: Sha, d: Delivery, stepId: string, b: seq<byte>, off: nat, end: nat): Page
    requires P.Aligned(b, off, end)
  {
    SliceIsValid(b, off, end);
    Page(d.receiptId, d.brief.manifestId, d.brief.briefId, stepId,
         off, end - off, end, end == |b|, sha(b), sha(b[off..end]), Text(b[off..end]))
  }

  /** A stored page still shows the bytes of the current source. */
  predicate PageMatches(sha: Sha, page: Page, b: seq<byte>) {
    && page.contentSha256 == sha(b)
    && P.Aligned(b, page.byteOffset, page.nextByteOffset)
    && (SliceIsValid(b, page.byteOffset, page.nextByteOffset);
        page.content == Text(b[page.byteOffset..page.nextByteOffset]))
  }

  predicate Owned(step: Step) {
    step.toolName == "agent_orientation_read" && step.toolStepId == step.stepId
  }

  predicate Stored(t: Tables, d: Delivery) {
    d.receiptId in t.deliveries && t.deliveries[d.receiptId] == d
  }

  /** The pager moves forward from `off` to a character boundary. */
  predicate CanEmit(b: seq<byte>, off: nat) {
    Valid(b) && Boundary(b, off) && Boundary(b, P.PageEnd(b, off)) && off < P.PageEnd(b, off)
  }

  /** What the next read of a step adds: a page, a completion row, or both. */
  datatype Emission = Emission(page: Option<Page>, completion: Option<Completion>)

  function NextEmission(sha: Sha, d: Delivery, step: Step, content: string, off: nat, at: string): Emission
    requires Encode(content) != [] ==> CanEmit(Encode(content), off)
  {
    var b := Encode(content);
    var completion := Completion(step.stepId, EvidenceOf(sha, content), at);
    if b == [] then Emission(None, Some(completion))
    else
      var page := MakePage(sha, d, step.stepId, b, off, P.PageEnd(b, off));
      Emission(Some(page), if page.eof then Some(completion) else None)
  }

  function Insert(t: Tables, key: (string, string), e: Emission): Tables {
    t.(pages := if e.page.Some? then t.pages[key := InsertRow(RowsOf(t, key.0, key.1), e.page.value)] else t.pages,
       completions := if e.completion.Some? then t.completions[key := e.completion.value] else t.completions)
  }

  /** The last part of the read transaction: nothing is stored yet at this offset. */
  function Emit(t: Tables, sha: Sha, d: Delivery, step: Step, content: string, off: nat, at: string)
    : Result<(Tables, ReadResult), Error>
  {
    var b := Encode(content);
    var key := (d.receiptId, step.stepId);
    if off != NextOffset(RowsOf(t, key.0, key.1)) then Err(OffsetOutOfOrder)
    else if off > |b| then Err(OffsetOutOfRange)
    else if b == [] && RowsOf(t, key.0, key.1) != [] then Err(EmptySourcePageConflict)
    else if b != [] && !CanEmit(b, off) then Err(PageBoundaryInvalid)
    else
      var e := NextEmission(sha, d, step, content, off, at);
      var t1 := Insert(t, key, e);
      Ok((t1, ReadResult(
        if e.completion.Some? then ReadCompleted else PageEmitted, step.stepId,
        Some(if e.page.Some? then e.page.value.content else ""), e.page,
        if e.completion.Some? then Some(e.completion.value.evidence) else None, ProgressOf(t1, d))))
  }

  /** The body of the read transaction: the tables it would leave and the result it would return. */
  function ReadInside(t: Tables, sha: Sha, d: Delivery, step: Step, content: string, off: nat, at: string)
    : Result<(Tables, ReadResult), Error>
  {
    var key := (d.receiptId, step.stepId);
    var existing := FindRow(RowsOf(t, key.0, key.1), off);
    var progress := ProgressOf(t, d);
    if key in t.completions then
      if t.completions[key].evidence != EvidenceOf(sha, content) then Err(CompletionConflict)
      else if existing.Some? && !PageMatches(sha, existing.value, Encode(content)) then Err(PageSourceConflict)
      else Ok((t, ReadResult(AlreadyCompleted, step.stepId,
        if existing.Some? then Some(existing.value.content) else None, existing,
        Some(t.completions[key].evidence), progress)))
    else if progress.pending == [] || progress.pending[0] != step.stepId then Err(StepOutOfOrder)
    else if existing.Some? then
      if !PageMatches(sha, existing.value, Encode(content)) then Err(PageSourceConflict)
      else Ok((t, ReadResult(PageAlreadyEmitted, step.stepId,
        Some(existing.value.content), existing, None, progress)))
    else Emit(t, sha, d, step, content, off, at)
  }

  /** One `recordOrientationRequiredRead`: the tables afterwards and what the caller gets. */
  function Read(t: Tables, sha: Sha, q: ReadRequest): (Tables, Result<ReadResult, Error>) {
    var steps := q.delivery.brief.requiredReads;
    if Trim(q.stepId) == "" then (t, Err(StepIdRequired))
    else if q.byteOffset < 0 then (t, Err(OffsetInvalid))
    else if !DistinctSteps(steps) then (t, Err(BriefInvalid))
    else match FindStep(steps, Trim(q.stepId))
      case None => (t, Err(StepUnknown))
      case Some(step) =>
        if !Owned(step) then (t, Err(StepNotOwned))
        else if q.source.None? then (t, Err(SourceUnavailable))
        else if sha(Encode(q.source.value)) != step.revision then (t, Err(SourceStale))
        else if !P.BoundOf(q.source.value).Bounded? then (t, Err(SourceBoundExceeded))
        else if !Stored(t, q.delivery) then (t, Err(DeliveryNotPersisted))
        else match ReadInside(t, sha, q.delivery, step, q.source.value, q.byteOffset, q.completedAt)
          case Err(e) => (t, Err(e))
          case Ok(done) =>
            if q.accepts(done.1) then (done.0, Ok(done.1)) else (t, Err(ResultRejected))
  }

  function Deliver(t: Tables, d: Delivery): (Tables, Result<bool, Error>) {
    if !DistinctSteps(d.brief.requiredReads) then (t, Err(BriefInvalid))
    else if d.receiptId in t.deliveries then
      if t.deliveries[d.receiptId] == d then (t, Ok(false)) else (t, Err(DeliveryConflict))
    else (t.(deliveries := t.deliveries[d.receiptId := d]), Ok(true))
  }

  function Acknowledge(t: Tables, q: AckRequest): (Tables, Result<AckResult, Error>) {
    var d := q.delivery;
    var progress := ProgressOf(t, d);
    if !DistinctSteps(d.brief.requiredReads) then (t, Err(BriefInvalid))
    else if !Stored(t, d) then (t, Err(DeliveryNotPersisted))
    else if progress.pending != [] then (t, Err(ReadsIncomplete))
    else if q.supplied.Some? && q.supplied.value != progress.completions then (t, Err(CompletionsNotServerRecorded))
    else if d.receiptId in t.acknowledgements then
      var existing := t.acknowledgements[d.receiptId];
      if existing != Acknowledgement(d.receiptId, progress.completions, existing.acknowledgedAt)
      then (t, Err(AcknowledgementConflict))
      else (t, Ok(AckResult(AlreadyAcknowledged, existing)))
    else
      var ack := Acknowledgement(d.receiptId, progress.completions, q.acknowledgedAt);
      (t.(acknowledgements := t.acknowledgements[d.receiptId := ack]), Ok(AckResult(Acknowledged, ack)))
  }
}
