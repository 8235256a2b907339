/** The store as the program runs it: tables updated row by row inside transactions, every stored
    row checked again when it is read back. Each method is tied to the tables and results that
    `OrientationStore` specifies, and none of the read-back checks fails on a valid store. */
module OrientationDatabase {
  import opened OrientationGate
  import opened OrientationStore
  import opened Strings
  import opened Utf8
  import opened Wrappers
  import P = OrientationPager

  datatype EntryPacket = EntryPacket(acknowledgement: Option<Acknowledgement>, progress: Progress) {
    predicate GateOpen() {
      acknowledgement.Some?
    }
  }

  class Database {
    const sha: Sha
    ghost const library: string -> string
    var deliveries: map<string, Delivery>
    var pages: map<(string, string), seq<Page>>
    var completions: map<(string, string), Completion>
    var acknowledgements: map<string, Acknowledgement>

    ghost function State(): Tables
      reads this
    {
      Tables(deliveries, pages, completions, acknowledgements)
    }

    ghost predicate Valid()
      reads this
    {
      Consistent(State(), sha, library)
    }

    constructor (sha: Sha, ghost library: string -> string)
      ensures Valid() && State() == EMPTY && this.sha == sha && this.library == library
    {
      this.sha, this.library := sha, library;
      deliveries, pages, completions, acknowledgements := map[], map[], map[], map[];
    }

    /** The shape checks on one stored page. */
    predicate ParsesAsPage(page: Page) {
      && page.returnedBytes >= 1
      && page.nextByteOffset == page.byteOffset + page.returnedBytes
      && |Encode(page.content)| == page.returnedBytes
      && sha(Encode(page.content)) == page.pageSha256
    }

    predicate BoundTo(page: Page, d: Delivery, stepId: string) {
      && page.deliveryRef == d.receiptId
      && page.manifestId == d.brief.manifestId
      && page.briefId == d.brief.briefId
      && page.stepId == stepId
    }

    /** Why a row read back after `prior` would be refused, if it would. */
    function FaultOf(d: Delivery, stepId: string, prior: seq<Page>, page: Page): Option<Error> {
      if !ParsesAsPage(page) then Some(PageInvalid)
      else if !BoundTo(page, d, stepId) then Some(PageBindingMismatch)
      else if page.byteOffset != NextOffset(prior) then Some(PageChainGap)
      else if exists k :: 0 <= k < |prior| && prior[k].eof then Some(PageAfterEof)
      else None
    }

    lemma ServedRowHasNoFault(rows: seq<Page>, d: Delivery, stepId: string, content: string, j: nat)
      requires RowsServed(rows, sha, d, stepId, content) && j < |rows|
      ensures FaultOf(d, stepId, rows[..j], rows[j]) == None
    {
      RowIsWhole(rows, sha, d, stepId, content, j);
      forall k | 0 <= k < j
        ensures !rows[..j][k].eof
      {
        RowIsWhole(rows, sha, d, stepId, content, k);
      }
      ServedRowIsBound(rows, d, stepId, content, j);
    }

    lemma ServedRowIsBound(rows: seq<Page>, d: Delivery, stepId: string, content: string, j: nat)
      requires RowsServed(rows, sha, d, stepId, content) && j < |rows|
      ensures BoundTo(rows[j], d, stepId) && j < PageCount(content)
    {
    }

    /** Reads back the rows of one step in offset order, checking each against those before it. */
    method CheckedChain(d: Delivery, stepId: string, rows: seq<Page>)
      returns (chain: seq<Page>, fault: Option<Error>)
      ensures fault == None ==> chain == rows
      ensures fault == None <==> forall j :: 0 <= j < |rows| ==> FaultOf(d, stepId, rows[..j], rows[j]) == None
    {
      chain, fault := [], None;
      for j := 0 to |rows|
        invariant chain == rows[..j] && fault == None
        invariant forall k :: 0 <= k < j ==> FaultOf(d, stepId, rows[..k], rows[k]) == None
      {
        fault := FaultOf(d, stepId, chain, rows[j]);
        if fault.Some? {
          return;
        }
        chain := chain + [rows[j]];
      }
    }

    /** Every stored step of the delivery is one of its brief, with rows the pager could have cut. */
    lemma StoredStepServed(d: Delivery, key: (string, string))
      requires Valid() && Stored(State(), d) && key in pages && key.0 == d.receiptId
      ensures IsStep(d.brief.requiredReads, key.1)
      ensures forall j :: 0 <= j < |pages[key]| ==> FaultOf(d, key.1, pages[key][..j], pages[key][j]) == None
    {
      assert DeliveryConsistent(State(), sha, library, d);
      var i :| 0 <= i < |d.brief.requiredReads| && d.brief.requiredReads[i].stepId == key.1;
      assert StepConsistent(State(), sha, library, d, d.brief.requiredReads[i]);
      assert pages[key] == RowsOf(State(), d.receiptId, key.1);
      forall j | 0 <= j < |pages[key]| {
        ServedRowHasNoFault(pages[key], d, key.1, library(d.brief.requiredReads[i].revision), j);
      }
    }

    /** Reads back the pages of one step. */
    method StepPages(d: Delivery, key: (string, string)) returns (chain: seq<Page>, fault: Option<Error>)
      requires Valid() && Stored(State(), d) && key in pages && key.0 == d.receiptId
      ensures fault == None && chain == pages[key]
    {
      StoredStepServed(d, key);
      if !IsStep(d.brief.requiredReads, key.1) {
        return [], Some(PageUnknownStep);
      }
      chain, fault := CheckedChain(d, key.1, pages[key]);
    }

    /** Reads back all pages of a delivery, step by step. */
    method RequiredReadPages(d: Delivery) returns (byStep: map<string, seq<Page>>, fault: Option<Error>)
      requires Valid() && Stored(State(), d)
      ensures fault == None
      ensures forall s :: s in byStep <==> (d.receiptId, s) in pages
      ensures forall s :: s in byStep ==> byStep[s] == pages[(d.receiptId, s)]
    {
      byStep, fault := map[], None;
      var keys := set k | k in pages && k.0 == d.receiptId;
      while keys != {}
        invariant fault == None && keys <= pages.Keys && forall k :: k in keys ==> k.0 == d.receiptId
        invariant forall s :: s in byStep ==> (d.receiptId, s) in pages && byStep[s] == pages[(d.receiptId, s)]
        invariant forall s :: (d.receiptId, s) in pages ==> s in byStep || (d.receiptId, s) in keys
      {
        var key :| key in keys;
        keys := keys - {key};
        var chain;
        chain, fault := StepPages(d, key);
        if fault.Some? {
          return;
        }
        byStep := byStep[key.1 := chain];
      }
    }

    /** Splits the required reads into completed and pending ones. */
    method ScanSteps(id: string, steps: seq<Step>, byStep: map<string, Completion>)
      returns (ordered: seq<Completion>, pending: seq<string>)
      requires forall s :: s in byStep <==> (id, s) in completions
      requires forall s :: s in byStep ==> byStep[s] == completions[(id, s)]
      ensures ordered == CompletionsOf(State(), id, steps)
      ensures pending == PendingOf(State(), id, steps)
    {
      ordered, pending := [], [];
      for i := 0 to |steps|
        invariant CompletionsOf(State(), id, steps) == ordered + CompletionsOf(State(), id, steps[i..])
        invariant PendingOf(State(), id, steps) == pending + PendingOf(State(), id, steps[i..])
      {
        assert steps[i..][1..] == steps[i + 1..];
        if steps[i].stepId in byStep {
          ordered := ordered + [byStep[steps[i].stepId]];
        } else {
          pending := pending + [steps[i].stepId];
        }
      }
    }

    /** Completed and pending steps, and the next call. */
    method RequiredReadProgress(d: Delivery) returns (progress: Progress, fault: Option<Error>)
      requires Valid() && Stored(State(), d)
      ensures fault == None && progress == ProgressOf(State(), d)
    {
      var byStep := map k | k in completions && k.0 == d.receiptId :: k.1 := completions[k];
      assert forall s :: s in byStep <==> (d.receiptId, s) in completions;
      var ordered, pending := ScanSteps(d.receiptId, d.brief.requiredReads, byStep);
      progress, fault := Progress(ordered, pending, AcknowledgeCall), None;
      CompletionRowsCounted(State(), d, byStep.Keys);
      if |byStep| != |ordered| {
        fault := Some(CompletionUnknownStep);
        return;
      }
      var pagesByStep;
      pagesByStep, fault := RequiredReadPages(d);
      if fault.None? && pending != [] {
        var rows := if pending[0] in pagesByStep then pagesByStep[pending[0]] else [];
        progress := progress.(nextCall := ReadCall(pending[0], NextOffset(rows)));
      }
    }

    /** Cuts the page at `off`, or completes an empty source. */
    method CutPage(d: Delivery, step: Step, content: string, off: nat, at: string)
      returns (emission: Emission, fault: Option<Error>)
      requires Encode(content) != [] ==> CanEmit(Encode(content), off)
      ensures fault == None && emission == NextEmission(sha, d, step, content, off, at)
    {
      DecodeEncode(content);
      var b := Encode(content);
      var completion := Completion(step.stepId, EvidenceOf(sha, content), at);
      emission, fault := Emission(None, Some(completion)), None;
      if b != [] {
        var pageEnd := P.OrientationRequiredReadPageEnd(b, off);
        if pageEnd <= off {
          fault := Some(PageBoundaryInvalid);
          return;
        }
        var page := MakePage(sha, d, step.stepId, b, off, pageEnd);
        SliceIsValid(b, off, pageEnd);
        EncodeDecode(b[off..pageEnd]);
        if !ParsesAsPage(page) {
          fault := Some(PageInvalid);
          return;
        }
        emission := Emission(Some(page), if page.eof then Some(completion) else None);
      }
    }

    /** Puts the new page and the completion, if any, into the tables. */
    method StoreEmission(key: (string, string), rows: seq<Page>, emission: Emission)
      requires rows == RowsOf(State(), key.0, key.1)
      modifies this`pages, this`completions
      ensures State() == Insert(old(State()), key, emission)
    {
      if emission.page.Some? {
        pages := pages[key := InsertRow(rows, emission.page.value)];
      }
      if emission.completion.Some? {
        completions := completions[key := emission.completion.value];
      }
    }

    /** The inserting half of the read transaction. */
    method EmitTransaction(d: Delivery, step: Step, content: string, off: nat, at: string)
      returns (r: Result<ReadResult, Error>)
      requires Valid() && Stored(State(), d) && step in d.brief.requiredReads
      requires library(step.revision) == content && sha(Encode(content)) == step.revision
      requires ProgressOf(State(), d).pending != [] && ProgressOf(State(), d).pending[0] == step.stepId
      requires !IsCompleted(State(), d, step)
      modifies this`pages, this`completions
      ensures match Emit(old(State()), sha, d, step, content, off, at)
        case Ok(done) => Valid() && State() == done.0 && r == Ok(done.1)
        case Err(e) => r == Err(e)
    {
      ghost var before := State();
      var key := (d.receiptId, step.stepId);
      var rows := if key in pages then pages[key] else [];
      var b := Encode(content);
      if off != NextOffset(rows) {
        return Err(OffsetOutOfOrder);
      }
      if off > |b| {
        return Err(OffsetOutOfRange);
      }
      if b == [] && rows != [] {
        return Err(EmptySourcePageConflict);
      }
      OffsetCanEmit(before, sha, library, d, step, content);
      var emission, fault := CutPage(d, step, content, off, at);
      match fault {
        case Some(e) => return Err(e);
        case None =>
      }
      EmitKeeps(before, sha, library, d, step, content, off, at);
      StoreEmission(key, rows, emission);
      var progress;
      progress, fault := RequiredReadProgress(d);
      match fault {
        case Some(e) => return Err(e);
        case None =>
      }
      return Ok(ReadResult(
        if emission.completion.Some? then ReadCompleted else PageEmitted, step.stepId,
        Some(if emission.page.Some? then emission.page.value.content else ""), emission.page,
        if emission.completion.Some? then Some(emission.completion.value.evidence) else None, progress));
    }

    /** The body of the read transaction. On an error the tables may be half changed: the caller
        rolls back. */
    method ReadTransaction(d: Delivery, step: Step, content: string, off: nat, at: string)
      returns (r: Result<ReadResult, Error>)
      requires Valid() && Stored(State(), d) && step in d.brief.requiredReads
      requires library(step.revision) == content && sha(Encode(content)) == step.revision
      modifies this`pages, this`completions
      ensures match ReadInside(old(State()), sha, d, step, content, off, at)
        case Ok(done) => Valid() && State() == done.0 && r == Ok(done.1)
        case Err(e) => r == Err(e)
    {
      var key := (d.receiptId, step.stepId);
      var existing := FindRow(if key in pages then pages[key] else [], off);
      var progress, fault := RequiredReadProgress(d);
      match fault {
        case Some(e) => return Err(e);
        case None =>
      }
      if key in completions {
        if completions[key].evidence != EvidenceOf(sha, content) {
          return Err(CompletionConflict);
        }
        if existing.Some? && !PageMatches(sha, existing.value, Encode(content)) {
          return Err(PageSourceConflict);
        }
        var shown := if existing.Some? then Some(existing.value.content) else None;
        return Ok(ReadResult(AlreadyCompleted, step.stepId, shown, existing, Some(completions[key].evidence),
          progress));
      }
      if progress.pending == [] || progress.pending[0] != step.stepId {
        return Err(StepOutOfOrder);
      }
      if existing.Some? {
        if !PageMatches(sha, existing.value, Encode(content)) {
          return Err(PageSourceConflict);
        }
        return Ok(ReadResult(PageAlreadyEmitted, step.stepId, Some(existing.value.content), existing, None, progress));
      }
      r := EmitTransaction(d, step, content, off, at);
    }

    /** One required read: checks, transaction, and rollback when anything refuses the result. */
    method RecordOrientationRequiredRead(q: ReadRequest) returns (r: Result<ReadResult, Error>)
      requires Valid() && NoCollision(sha, library, q.source)
      modifies this
      ensures Valid()
      ensures (State(), r) == Read(old(State()), sha, q)
    {
      if Trim(q.stepId) == "" {
        return Err(StepIdRequired);
      }
      if q.byteOffset < 0 {
        return Err(OffsetInvalid);
      }
      var d := q.delivery;
      if !DistinctSteps(d.brief.requiredReads) {
        return Err(BriefInvalid);
      }
      var found := FindStep(d.brief.requiredReads, Trim(q.stepId));
      if found.None? {
        return Err(StepUnknown);
      }
      if !Owned(found.value) {
        return Err(StepNotOwned);
      }
      if q.source.None? {
        return Err(SourceUnavailable);
      }
      if sha(Encode(q.source.value)) != found.value.revision {
        return Err(SourceStale);
      }
      var bound := P.AssertOrientationRequiredReadSourceBound(q.source.value);
      if !bound.Bounded? {
        return Err(SourceBoundExceeded);
      }
      if !(d.receiptId in deliveries && deliveries[d.receiptId] == d) {
        return Err(DeliveryNotPersisted);
      }
      assert library(sha(Encode(q.source.value))) == q.source.value;
      var savedPages, savedCompletions := pages, completions;
      r := ReadTransaction(d, found.value, q.source.value, q.byteOffset, q.completedAt);
      if r.Ok? && !q.accepts(r.value) {
        r := Err(ResultRejected);
      }
      if r.Err? {
        pages, completions := savedPages, savedCompletions;
        assert State() == old(State());
      }
    }

    method RecordOrientationDeliveryReceipt(d: Delivery) returns (r: Result<bool, Error>)
      requires Valid()
      modifies this
      ensures Valid()
      ensures (State(), r) == Deliver(old(State()), d)
    {
      DeliverKeeps(State(), sha, library, d);
      if !DistinctSteps(d.brief.requiredReads) {
        return Err(BriefInvalid);
      }
      if d.receiptId in deliveries {
        return if deliveries[d.receiptId] == d then Ok(false) else Err(DeliveryConflict);
      }
      deliveries := deliveries[d.receiptId := d];
      return Ok(true);
    }

    method RecordOrientationAcknowledgement(q: AckRequest) returns (r: Result<AckResult, Error>)
      requires Valid()
      modifies this
      ensures Valid()
      ensures (State(), r) == Acknowledge(old(State()), q)
    {
      AcknowledgeKeeps(State(), sha, library, q);
      var d := q.delivery;
      if !DistinctSteps(d.brief.requiredReads) {
        return Err(BriefInvalid);
      }
      if !(d.receiptId in deliveries && deliveries[d.receiptId] == d) {
        return Err(DeliveryNotPersisted);
      }
      var progress, fault := RequiredReadProgress(d);
      match fault {
        case Some(e) => return Err(e);
        case None =>
      }
      if progress.pending != [] {
        return Err(ReadsIncomplete);
      }
      if q.supplied.Some? && q.supplied.value != progress.completions {
        return Err(CompletionsNotServerRecorded);
      }
      var existing := d.receiptId in acknowledgements;
      var at := if existing then acknowledgements[d.receiptId].acknowledgedAt else q.acknowledgedAt;
      var ack := Acknowledgement(d.receiptId, progress.completions, at);
      if existing && acknowledgements[d.receiptId] != ack {
        return Err(AcknowledgementConflict);
      }
      if !existing {
        acknowledgements := acknowledgements[d.receiptId := ack];
      }
      return Ok(AckResult(if existing then AlreadyAcknowledged else Acknowledged, ack));
    }

    /** The entry packet: the gate is open exactly when an acknowledgement is stored. */
    method ReadOrientationEntryPacket(d: Delivery) returns (r: Result<EntryPacket, Error>)
      requires Valid()
      ensures r == PacketOf(State(), d)
    {
      if !DistinctSteps(d.brief.requiredReads) {
        return Err(BriefInvalid);
      }
      if !(d.receiptId in deliveries && deliveries[d.receiptId] == d) {
        return Err(DeliveryNotPersisted);
      }
      var ack := if d.receiptId in acknowledgements then Some(acknowledgements[d.receiptId]) else None;
      var progress, fault := RequiredReadProgress(d);
      match fault {
        case Some(e) => return Err(e);
        case None =>
      }
      return Ok(EntryPacket(ack, progress));
    }

    lemma CompletionRowsCounted(t: Tables, d: Delivery, ids: set<string>)
      requires Consistent(t, sha, library) && Stored(t, d)
      requires forall s :: s in ids <==> (d.receiptId, s) in t.completions
      ensures |ids| == |CompletionsOf(t, d.receiptId, d.brief.requiredReads)|
    {
      assert DeliveryConsistent(t, sha, library, d);
      CompletedIdsCounted(t, d.receiptId, d.brief.requiredReads);
      forall s | s in ids
        ensures IsStep(d.brief.requiredReads, s)
      {
        assert (d.receiptId, s) in t.completions;
      }
      forall s
        ensures s in ids <==> s in CompletedIds(t, d.receiptId, d.brief.requiredReads)
      {
        CompletedIdsAre(t, d.receiptId, d.brief.requiredReads, s);
      }
      assert ids == CompletedIds(t, d.receiptId, d.brief.requiredReads);
    }
  }

  function PacketOf(t: Tables, d: Delivery): Result<EntryPacket, Error> {
    if !DistinctSteps(d.brief.requiredReads) then Err(BriefInvalid)
    else if !Stored(t, d) then Err(DeliveryNotPersisted)
    else Ok(EntryPacket(
      if d.receiptId in t.acknowledgements then Some(t.acknowledgements[d.receiptId]) else None,
      ProgressOf(t, d)))
  }

  /** The offset after the rows of the active step is one the pager can continue from. */
  lemma OffsetCanEmit(t: Tables, sha: Sha, library: string -> string, d: Delivery, step: Step, content: string)
    requires Consistent(t, sha, library) && Stored(t, d) && step in d.brief.requiredReads
    requires library(step.revision) == content && !IsCompleted(t, d, step)
    ensures Encode(content) != [] ==> CanEmit(Encode(content), NextOffset(RowsOf(t, d.receiptId, step.stepId)))
  {
    assert DeliveryConsistent(t, sha, library, d) && StepConsistent(t, sha, library, d, step);
    P.PagerTotals(content);
    if Encode(content) != [] {
      RowsContinue(RowsOf(t, d.receiptId, step.stepId), sha, d, step.stepId, content);
    }
  }

  function CompletedIds(t: Tables, id: string, steps: seq<Step>): set<string> {
    if steps == [] then {}
    else CompletedIds(t, id, steps[1..]) + if (id, steps[0].stepId) in t.completions then {steps[0].stepId} else {}
  }

  lemma StepsSplit(steps: seq<Step>, s: string)
    requires steps != []
    ensures IsStep(steps, s) <==> s == steps[0].stepId || IsStep(steps[1..], s)
  {
    if IsStep(steps, s) && s != steps[0].stepId {
      var i :| 0 <= i < |steps| && steps[i].stepId == s;
      assert steps[1..][i - 1].stepId == s;
    }
    if IsStep(steps[1..], s) {
      var i :| 0 <= i < |steps[1..]| && steps[1..][i].stepId == s;
      assert steps[i + 1].stepId == s;
    }
  }

  lemma {:induction false} CompletedIdsAre(t: Tables, id: string, steps: seq<Step>, s: string)
    ensures s in CompletedIds(t, id, steps) <==> IsStep(steps, s) && (id, s) in t.completions
  {
    if steps != [] {
      CompletedIdsAre(t, id, steps[1..], s);
      StepsSplit(steps, s);
    }
  }

  lemma {:induction false} CompletedIdsCounted(t: Tables, id: string, steps: seq<Step>)
    requires DistinctSteps(steps)
    ensures |CompletedIds(t, id, steps)| == |CompletionsOf(t, id, steps)|
  {
    if steps != [] {
      var first := steps[0].stepId;
      CompletedIdsCounted(t, id, steps[1..]);
      CompletedIdsAre(t, id, steps[1..], first);
      assert !IsStep(steps[1..], first) by {
        assert forall i :: 0 <= i < |steps[1..]| ==> steps[1..][i] == steps[i + 1];
      }
    }
  }
}
