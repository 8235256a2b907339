/** What every reachable state of the orientation store satisfies, and what the open gate means. */
module OrientationGate {
  import opened OrientationStore
  import opened Strings
  import opened Utf8
  import opened Wrappers
  import P = OrientationPager

  /** `library` gives the text each digest stands for; a source that is read is that text, not one that
      collides with it. */
  predicate NoCollision(sha: Sha, library: string -> string, source: Option<string>) {
    source.Some? ==> library(sha(Encode(source.value))) == source.value
  }

  /** The page the pager cuts at position `j`. */
  function RowAt(sha: Sha, d: Delivery, stepId: string, content: string, j: nat): Page
    requires j < PageCount(content)
  {
    P.PagerTotals(content);
    var b := Encode(content);
    var ends := P.PageEnds(b, 0);
    MakePage(sha, d, stepId, b, P.StartOf(ends, 0, j), ends[j])
  }

  /** The rows are the first pages the pager cuts from `content`. */
  ghost predicate RowsServed(rows: seq<Page>, sha: Sha, d: Delivery, stepId: string, content: string) {
    && |rows| <= PageCount(content)
    && forall j :: 0 <= j < |rows| ==> rows[j] == RowAt(sha, d, stepId, content, j)
  }

  function PageCount(content: string): nat {
    P.PagerTotals(content);
    |P.PageEnds(Encode(content), 0)|
  }

  predicate IsCompleted(t: Tables, d: Delivery, step: Step) {
    (d.receiptId, step.stepId) in t.completions
  }

  predicate IsStarted(t: Tables, d: Delivery, step: Step) {
    IsCompleted(t, d, step) || RowsOf(t, d.receiptId, step.stepId) != []
  }

  ghost predicate StepConsistent(t: Tables, sha: Sha, library: string -> string, d: Delivery, step: Step) {
    var content := library(step.revision);
    var rows := RowsOf(t, d.receiptId, step.stepId);
    && RowsServed(rows, sha, d, step.stepId, content)
    && (IsStarted(t, d, step) ==> sha(Encode(content)) == step.revision)
    && (IsCompleted(t, d, step) ==>
          && |rows| == PageCount(content)
          && t.completions[(d.receiptId, step.stepId)].stepId == step.stepId
          && t.completions[(d.receiptId, step.stepId)].evidence == EvidenceOf(sha, content))
    && (!IsCompleted(t, d, step) ==> |rows| < PageCount(content) || PageCount(content) == 0)
  }

  ghost predicate DeliveryConsistent(t: Tables, sha: Sha, library: string -> string, d: Delivery) {
    var steps := d.brief.requiredReads;
    && DistinctSteps(steps)
    && (forall i :: 0 <= i < |steps| ==> StepConsistent(t, sha, library, d, steps[i]))
    && (forall i, j :: 0 <= i < j < |steps| && IsStarted(t, d, steps[j]) ==> IsCompleted(t, d, steps[i]))
  }

  predicate KeysKnown(t: Tables) {
    && (forall id :: id in t.deliveries ==> t.deliveries[id].receiptId == id)
    && (forall k :: k in t.pages ==>
          k.0 in t.deliveries && IsStep(t.deliveries[k.0].brief.requiredReads, k.1))
    && (forall k :: k in t.completions ==>
          k.0 in t.deliveries && IsStep(t.deliveries[k.0].brief.requiredReads, k.1))
  }

  predicate AckConsistent(t: Tables, id: string)
    requires id in t.acknowledgements
  {
    && id in t.deliveries
    && var d := t.deliveries[id]; var progress := ProgressOf(t, d);
       && progress.pending == []
       && t.acknowledgements[id] ==
          Acknowledgement(id, progress.completions, t.acknowledgements[id].acknowledgedAt)
  }

  ghost predicate Consistent(t: Tables, sha: Sha, library: string -> string) {
    && KeysKnown(t)
    && (forall id :: id in t.deliveries ==> DeliveryConsistent(t, sha, library, t.deliveries[id]))
    && (forall id :: id in t.acknowledgements ==> AckConsistent(t, id))
  }

  // ---- pending and completed lists ----

  /** The first pending step: everything before it is completed, it is not. */
  lemma {:induction false} FirstPending(t: Tables, id: string, steps: seq<Step>) returns (n: nat)
    ensures n <= |steps| && (n == |steps| <==> PendingOf(t, id, steps) == [])
    ensures forall i :: 0 <= i < n ==> (id, steps[i].stepId) in t.completions
    ensures n < |steps| ==> (id, steps[n].stepId) !in t.completions && PendingOf(t, id, steps)[0] == steps[n].stepId
  {
    if steps == [] {
      n := 0;
    } else {
      n := FirstPending(t, id, steps[1..]);
      n := if (id, steps[0].stepId) in t.completions then n + 1 else 0;
    }
  }

  /** Progress depends only on the completion rows of the delivery. */
  lemma {:induction false} CompletionsFrame(t: Tables, t': Tables, id: string, steps: seq<Step>)
    requires forall i :: 0 <= i < |steps| ==>
      var key := (id, steps[i].stepId);
      (key in t.completions <==> key in t'.completions)
        && (key in t.completions ==> t.completions[key] == t'.completions[key])
    ensures CompletionsOf(t, id, steps) == CompletionsOf(t', id, steps)
    ensures PendingOf(t, id, steps) == PendingOf(t', id, steps)
  {
    if steps != [] {
      assert forall i :: 0 <= i < |steps[1..]| ==> steps[1..][i] == steps[i + 1];
      CompletionsFrame(t, t', id, steps[1..]);
    }
  }

  // ---- preservation ----

  /** A delivery whose rows do not change stays consistent. */
  lemma SameRowsKeep(t: Tables, t': Tables, sha: Sha, library: string -> string, d: Delivery)
    requires DeliveryConsistent(t, sha, library, d)
    requires forall s :: s in d.brief.requiredReads ==>
      var key := (d.receiptId, s.stepId);
      && RowsOf(t, d.receiptId, s.stepId) == RowsOf(t', d.receiptId, s.stepId)
      && (key in t.completions <==> key in t'.completions)
      && (key in t.completions ==> t.completions[key] == t'.completions[key])
    ensures DeliveryConsistent(t', sha, library, d)
  {
    var steps := d.brief.requiredReads;
    forall i | 0 <= i < |steps|
      ensures StepConsistent(t', sha, library, d, steps[i])
      ensures IsStarted(t', d, steps[i]) == IsStarted(t, d, steps[i])
      ensures IsCompleted(t', d, steps[i]) == IsCompleted(t, d, steps[i])
    {
      assert steps[i] in steps;
      assert StepConsistent(t, sha, library, d, steps[i]);
    }
  }

  lemma NothingServedYet(t: Tables, sha: Sha, library: string -> string, d: Delivery)
    requires DistinctSteps(d.brief.requiredReads)
    requires forall s :: s in d.brief.requiredReads ==>
      (d.receiptId, s.stepId) !in t.pages && (d.receiptId, s.stepId) !in t.completions
    ensures DeliveryConsistent(t, sha, library, d)
  {
    var steps := d.brief.requiredReads;
    forall i | 0 <= i < |steps|
      ensures StepConsistent(t, sha, library, d, steps[i]) && !IsStarted(t, d, steps[i])
    {
      assert steps[i] in steps;
      P.PagerTotals(library(steps[i].revision));
    }
  }

  lemma SameStepsKeepDelivery(t: Tables, t': Tables, sha: Sha, library: string -> string, d: Delivery)
    requires DeliveryConsistent(t, sha, library, d) && t'.pages == t.pages && t'.completions == t.completions
    ensures DeliveryConsistent(t', sha, library, d)
  {
    SameRowsKeep(t, t', sha, library, d);
  }

  lemma SameStepsKeepAck(t: Tables, t': Tables, id: string)
    requires id in t.acknowledgements && AckConsistent(t, id) && t'.completions == t.completions
    requires id in t'.deliveries && t'.deliveries[id] == t.deliveries[id] && t.deliveries[id].receiptId == id
    requires id in t'.acknowledgements && t'.acknowledgements[id] == t.acknowledgements[id]
    ensures AckConsistent(t', id)
  {
    CompletionsFrame(t, t', id, t.deliveries[id].brief.requiredReads);
  }

  lemma NewDeliveryKeepsKeys(t: Tables, d: Delivery)
    requires KeysKnown(t) && d.receiptId !in t.deliveries
    ensures KeysKnown(t.(deliveries := t.deliveries[d.receiptId := d]))
    ensures forall s :: s in d.brief.requiredReads ==>
      (d.receiptId, s.stepId) !in t.pages && (d.receiptId, s.stepId) !in t.completions
  {
    forall s | s in d.brief.requiredReads
      ensures (d.receiptId, s.stepId) !in t.pages && (d.receiptId, s.stepId) !in t.completions
    {
      assert (d.receiptId, s.stepId).0 !in t.deliveries;
    }
  }

  lemma NewDeliveryKeeps(t: Tables, sha: Sha, library: string -> string, d: Delivery)
    requires Consistent(t, sha, library) && DistinctSteps(d.brief.requiredReads) && d.receiptId !in t.deliveries
    ensures Consistent(t.(deliveries := t.deliveries[d.receiptId := d]), sha, library)
  {
    var t' := t.(deliveries := t.deliveries[d.receiptId := d]);
    NewDeliveryKeepsKeys(t, d);
    forall id | id in t'.deliveries
      ensures DeliveryConsistent(t', sha, library, t'.deliveries[id])
    {
      if id == d.receiptId {
        NothingServedYet(t', sha, library, d);
      } else {
        SameStepsKeepDelivery(t, t', sha, library, t.deliveries[id]);
      }
    }
    forall id | id in t.acknowledgements
      ensures AckConsistent(t', id)
    {
      SameStepsKeepAck(t, t', id);
    }
  }

  lemma DeliverKeeps(t: Tables, sha: Sha, library: string -> string, d: Delivery)
    requires Consistent(t, sha, library)
    ensures Consistent(Deliver(t, d).0, sha, library)
  {
    if DistinctSteps(d.brief.requiredReads) && d.receiptId !in t.deliveries {
      NewDeliveryKeeps(t, sha, library, d);
    }
  }

  lemma AcknowledgeKeeps(t: Tables, sha: Sha, library: string -> string, q: AckRequest)
    requires Consistent(t, sha, library)
    ensures Consistent(Acknowledge(t, q).0, sha, library)
  {
    var t' := Acknowledge(t, q).0;
    if t' != t {
      forall id | id in t.deliveries
        ensures DeliveryConsistent(t', sha, library, t.deliveries[id])
      {
        SameStepsKeepDelivery(t, t', sha, library, t.deliveries[id]);
      }
      forall id | id in t'.acknowledgements
        ensures AckConsistent(t', id)
      {
        assert id != q.delivery.receiptId ==> AckConsistent(t, id);
        CompletionsFrame(t, t', id, t.deliveries[id].brief.requiredReads);
      }
    }
  }

  /** The step a read may extend is the one after all completed steps. */
  lemma ActiveStep(t: Tables, d: Delivery, step: Step) returns (n: nat)
    requires DistinctSteps(d.brief.requiredReads) && step in d.brief.requiredReads
    requires ProgressOf(t, d).pending != [] && ProgressOf(t, d).pending[0] == step.stepId
    ensures n < |d.brief.requiredReads| && d.brief.requiredReads[n] == step
    ensures forall i :: 0 <= i < n ==> IsCompleted(t, d, d.brief.requiredReads[i])
    ensures !IsCompleted(t, d, step)
  {
    n := FirstPending(t, d.receiptId, d.brief.requiredReads);
  }

  lemma {:induction false} AppendsLast(rows: seq<Page>, page: Page)
    requires forall j :: 0 <= j < |rows| ==> rows[j].byteOffset < page.byteOffset
    ensures InsertRow(rows, page) == rows + [page]
  {
    if rows != [] {
      AppendsLast(rows[1..], page);
      assert rows == [rows[0]] + rows[1..];
    }
  }

  /** Served rows end where the next page starts. */
  lemma NextPage(rows: seq<Page>, sha: Sha, d: Delivery, stepId: string, content: string)
    requires RowsServed(rows, sha, d, stepId, content)
    ensures Valid(Encode(content))
    ensures var b := Encode(content); var ends := P.PageEnds(b, 0); var off := NextOffset(rows);
      && off == P.StartOf(ends, 0, |rows|) && Boundary(b, off)
      && (forall j :: 0 <= j < |rows| ==> rows[j].byteOffset < rows[j].nextByteOffset <= off)
      && (|rows| < |ends| ==> off < P.PageEnd(b, off) == ends[|rows|] && Boundary(b, P.PageEnd(b, off)))
      && (|rows| < |ends| <==> off < |b|)
      && (|rows| + 1 < |ends| <==> |rows| < |ends| && P.PageEnd(b, off) < |b|)
  {
    P.PagerTotals(content);
    var b := Encode(content);
    var ends := P.PageEnds(b, 0);
    if |rows| < |ends| {
      P.PageAt(b, 0, |rows|);
    }
    forall j | 0 <= j < |rows|
      ensures P.RisesAt(ends, j)
    {
      P.PageIsNonempty(b, j);
    }
    P.RisingEnds(ends, |rows|);
  }

  /** One served row: it starts where the row before it ended, holds the bytes up to its end, and
      is eof exactly when it is the last page. */
  lemma RowIsWhole(rows: seq<Page>, sha: Sha, d: Delivery, stepId: string, content: string, j: nat)
    requires RowsServed(rows, sha, d, stepId, content) && j < |rows|
    ensures rows[j].byteOffset == (if j == 0 then 0 else rows[j - 1].nextByteOffset)
    ensures rows[j].byteOffset < rows[j].nextByteOffset == rows[j].byteOffset + rows[j].returnedBytes
    ensures |Encode(rows[j].content)| == rows[j].returnedBytes
    ensures sha(Encode(rows[j].content)) == rows[j].pageSha256
    ensures rows[j].eof <==> j == PageCount(content) - 1
  {
    P.PagerTotals(content);
    var b := Encode(content);
    var from, to := rows[j].byteOffset, rows[j].nextByteOffset;
    SliceIsValid(b, from, to);
    EncodeDecode(b[from..to]);
  }

  /** Only the rows under `key` may differ. */
  ghost predicate SameExcept(t: Tables, t': Tables, key: (string, string)) {
    && t'.deliveries == t.deliveries && t'.acknowledgements == t.acknowledgements
    && t'.pages.Keys - {key} == t.pages.Keys - {key}
    && t'.completions.Keys - {key} == t.completions.Keys - {key}
    && (forall k :: k in t.pages && k != key ==> k in t'.pages && t'.pages[k] == t.pages[k])
    && (forall k :: k in t.completions && k != key ==> k in t'.completions && t'.completions[k] == t.completions[k])
  }

  lemma OtherRowsSame(t: Tables, t': Tables, key: (string, string), k: (string, string))
    requires SameExcept(t, t', key) && k != key
    ensures RowsOf(t, k.0, k.1) == RowsOf(t', k.0, k.1)
    ensures k in t.completions <==> k in t'.completions
    ensures k in t.completions ==> t.completions[k] == t'.completions[k]
  {
    assert k in t.pages <==> k in t.pages.Keys - {key};
    assert k in t'.pages <==> k in t'.pages.Keys - {key};
    assert k in t.completions <==> k in t.completions.Keys - {key};
    assert k in t'.completions <==> k in t'.completions.Keys - {key};
  }

  /** Extending the rows of the active step keeps its own delivery consistent. */
  lemma ExtendKeepsDelivery(t: Tables, t': Tables, sha: Sha, library: string -> string, d: Delivery, step: Step)
    requires DeliveryConsistent(t, sha, library, d) && step in d.brief.requiredReads
    requires ProgressOf(t, d).pending != [] && ProgressOf(t, d).pending[0] == step.stepId
    requires SameExcept(t, t', (d.receiptId, step.stepId))
    requires StepConsistent(t', sha, library, d, step)
    ensures DeliveryConsistent(t', sha, library, d)
  {
    var steps := d.brief.requiredReads;
    var n := ActiveStep(t, d, step);
    forall i | 0 <= i < |steps|
      ensures StepConsistent(t', sha, library, d, steps[i])
      ensures i != n ==> IsStarted(t', d, steps[i]) == IsStarted(t, d, steps[i])
      ensures i != n ==> IsCompleted(t', d, steps[i]) == IsCompleted(t, d, steps[i])
    {
      if i != n {
        OtherRowsSame(t, t', (d.receiptId, step.stepId), (d.receiptId, steps[i].stepId));
        assert StepConsistent(t, sha, library, d, steps[i]);
      }
    }
  }

  lemma ExtendKeepsKeys(t: Tables, t': Tables, d: Delivery, step: Step)
    requires KeysKnown(t) && Stored(t, d) && step in d.brief.requiredReads
    requires SameExcept(t, t', (d.receiptId, step.stepId))
    ensures KeysKnown(t')
  {
    var key := (d.receiptId, step.stepId);
    assert IsStep(d.brief.requiredReads, step.stepId);
    assert forall k :: k in t'.pages && k != key ==> k in t'.pages.Keys - {key};
    assert forall k :: k in t'.completions && k != key ==> k in t'.completions.Keys - {key};
  }

  lemma ExtendKeepsOther(t: Tables, t': Tables, sha: Sha, library: string -> string, key: (string, string), e: Delivery)
    requires DeliveryConsistent(t, sha, library, e) && SameExcept(t, t', key) && e.receiptId != key.0
    ensures DeliveryConsistent(t', sha, library, e)
  {
    forall s | s in e.brief.requiredReads {
      OtherRowsSame(t, t', key, (e.receiptId, s.stepId));
    }
    SameRowsKeep(t, t', sha, library, e);
  }

  lemma ExtendKeepsAck(t: Tables, t': Tables, key: (string, string), id: string)
    requires id in t.acknowledgements && AckConsistent(t, id) && id == t.deliveries[id].receiptId
      && SameExcept(t, t', key) && id != key.0
    ensures AckConsistent(t', id)
  {
    var steps := t.deliveries[id].brief.requiredReads;
    forall i | 0 <= i < |steps| {
      OtherRowsSame(t, t', key, (id, steps[i].stepId));
    }
    CompletionsFrame(t, t', id, steps);
  }

  lemma ExtendKeeps(t: Tables, t': Tables, sha: Sha, library: string -> string, d: Delivery, step: Step)
    requires Consistent(t, sha, library) && Stored(t, d) && step in d.brief.requiredReads
    requires ProgressOf(t, d).pending != [] && ProgressOf(t, d).pending[0] == step.stepId
    requires SameExcept(t, t', (d.receiptId, step.stepId))
    requires StepConsistent(t', sha, library, d, step)
    ensures Consistent(t', sha, library)
  {
    ExtendKeepsDelivery(t, t', sha, library, d, step);
    ExtendKeepsKeys(t, t', d, step);
    forall id | id in t.deliveries
      ensures DeliveryConsistent(t', sha, library, t.deliveries[id])
    {
      if id != d.receiptId {
        ExtendKeepsOther(t, t', sha, library, (d.receiptId, step.stepId), t.deliveries[id]);
      }
    }
    forall id | id in t.acknowledgements
      ensures AckConsistent(t', id)
    {
      assert AckConsistent(t, id);
      ExtendKeepsAck(t, t', (d.receiptId, step.stepId), id);
    }
  }

  lemma RowAppended(rows: seq<Page>, sha: Sha, d: Delivery, stepId: string, content: string, page: Page)
    requires RowsServed(rows, sha, d, stepId, content) && |rows| < PageCount(content)
    requires page == RowAt(sha, d, stepId, content, |rows|)
    ensures RowsServed(rows + [page], sha, d, stepId, content)
  {
  }

  /** The next page after the rows is a served row too, and eof exactly when it is the last. */
  lemma NextRowServed(rows: seq<Page>, sha: Sha, d: Delivery, stepId: string, content: string)
    requires RowsServed(rows, sha, d, stepId, content) && |rows| < PageCount(content)
    ensures CanEmit(Encode(content), NextOffset(rows))
    ensures var b := Encode(content); var off := NextOffset(rows);
      var page := MakePage(sha, d, stepId, b, off, P.PageEnd(b, off));
      RowsServed(rows + [page], sha, d, stepId, content) && (page.eof <==> |rows| + 1 == PageCount(content))
  {
    NextPage(rows, sha, d, stepId, content);
    var b, off := Encode(content), NextOffset(rows);
    RowAppended(rows, sha, d, stepId, content, MakePage(sha, d, stepId, b, off, P.PageEnd(b, off)));
  }

  lemma RowsBefore(rows: seq<Page>, sha: Sha, d: Delivery, stepId: string, content: string)
    requires RowsServed(rows, sha, d, stepId, content)
    ensures forall j :: 0 <= j < |rows| ==> rows[j].byteOffset < NextOffset(rows)
  {
    NextPage(rows, sha, d, stepId, content);
  }

  /** The next page the pager cuts continues the served rows, and is eof exactly when it is last. */
  lemma RowsContinue(rows: seq<Page>, sha: Sha, d: Delivery, stepId: string, content: string)
    requires RowsServed(rows, sha, d, stepId, content) && |rows| < PageCount(content)
    ensures CanEmit(Encode(content), NextOffset(rows))
    ensures var b := Encode(content); var off := NextOffset(rows);
      var page := MakePage(sha, d, stepId, b, off, P.PageEnd(b, off));
      && RowsServed(rows + [page], sha, d, stepId, content)
      && InsertRow(rows, page) == rows + [page]
      && (page.eof <==> |rows| + 1 == PageCount(content))
  {
    NextRowServed(rows, sha, d, stepId, content);
    RowsBefore(rows, sha, d, stepId, content);
    var b, off := Encode(content), NextOffset(rows);
    AppendsLast(rows, MakePage(sha, d, stepId, b, off, P.PageEnd(b, off)));
  }

  /** The row for a page appended, or the completion written, for a step that is not completed. */
  lemma StepExtended(t: Tables, sha: Sha, library: string -> string, d: Delivery, step: Step,
                     content: string, off: nat, at: string)
    requires StepConsistent(t, sha, library, d, step) && library(step.revision) == content
    requires sha(Encode(content)) == step.revision && !IsCompleted(t, d, step)
    requires off == NextOffset(RowsOf(t, d.receiptId, step.stepId))
    requires Encode(content) != [] ==> CanEmit(Encode(content), off)
    ensures var e := NextEmission(sha, d, step, content, off, at);
      StepConsistent(Insert(t, (d.receiptId, step.stepId), e), sha, library, d, step)
  {
    var e := NextEmission(sha, d, step, content, off, at);
    var t' := Insert(t, (d.receiptId, step.stepId), e);
    var rows := RowsOf(t, d.receiptId, step.stepId);
    P.PagerTotals(content);
    if e.page.Some? {
      RowsContinue(rows, sha, d, step.stepId, content);
      assert RowsOf(t', d.receiptId, step.stepId) == rows + [e.page.value];
    } else {
      assert RowsOf(t', d.receiptId, step.stepId) == rows;
    }
  }

  lemma InsertIsLocal(t: Tables, key: (string, string), e: Emission)
    ensures SameExcept(t, Insert(t, key, e), key)
  {
  }

  lemma EmitKeeps(t: Tables, sha: Sha, library: string -> string, d: Delivery, step: Step,
                  content: string, off: nat, at: string)
    requires Consistent(t, sha, library) && Stored(t, d) && step in d.brief.requiredReads
    requires library(step.revision) == content && sha(Encode(content)) == step.revision
    requires ProgressOf(t, d).pending != [] && ProgressOf(t, d).pending[0] == step.stepId
    requires Emit(t, sha, d, step, content, off, at).Ok?
    ensures Consistent(Emit(t, sha, d, step, content, off, at).value.0, sha, library)
  {
    assert DeliveryConsistent(t, sha, library, d);
    assert StepConsistent(t, sha, library, d, step);
    var n := ActiveStep(t, d, step);
    StepExtended(t, sha, library, d, step, content, off, at);
    var e := NextEmission(sha, d, step, content, off, at);
    var t' := Insert(t, (d.receiptId, step.stepId), e);
    InsertIsLocal(t, (d.receiptId, step.stepId), e);
    ExtendKeeps(t, t', sha, library, d, step);
  }

  lemma ReadKeeps(t: Tables, sha: Sha, library: string -> string, q: ReadRequest)
    requires NoCollision(sha, library, q.source) && Consistent(t, sha, library)
    ensures Consistent(Read(t, sha, q).0, sha, library)
  {
    var steps := q.delivery.brief.requiredReads;
    var found := FindStep(steps, Trim(q.stepId));
    if Read(t, sha, q).0 != t {
      var content := q.source.value;
      assert library(sha(Encode(content))) == content;
      EmitKeeps(t, sha, library, q.delivery, found.value, content, q.byteOffset, q.completedAt);
    }
  }
}
