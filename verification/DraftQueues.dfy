/** The two queues over the draft store: the round-robin scan for dispositions, and the outbox that hands
    each consumer every observation. */
module DraftQueues {
  import opened DraftLifecycle
  import opened OrderedBatch
  import opened Strings
  import opened TicketDrafts
  import opened Utf8
  import opened Wrappers

  function Bounded(limit: int, most: nat): nat
    requires most >= 1
  {
    if limit < 1 then 1 else if limit > most then most else limit
  }

  // ---- the scan ----

  /** Completed operations without an observation. */
  function Candidates(s: Tables): set<string> {
    set k | k in s.operations && s.operations[k].status.Completed? && k !in s.observations
  }

  /** Never scanned first, then by last scan, completion and key. */
  function ScanKey(s: Tables): string -> seq<nat> {
    k => ScanKeyOf(s, k)
  }

  function ScanKeyOf(s: Tables, k: string): seq<nat> {
    var completedAt :=
      if k in s.operations && s.operations[k].status.Completed? then s.operations[k].status.completedAt else 0;
    (if k in s.scans then [1, s.scans[k].lastScannedAt] else [0, 0]) + [completedAt] + Codes(k)
  }

  lemma ScanKeyInjective(s: Tables)
    ensures Injective(ScanKey(s))
  {
    forall x, y | ScanKey(s)(x) == ScanKey(s)(y)
      ensures x == y
    {
      assert Codes(x) == ScanKeyOf(s, x)[3..] && Codes(y) == ScanKeyOf(s, y)[3..];
      CodesInjective(x, y);
    }
  }

  ghost function ListScanCandidates(s: Tables, limit: int): seq<string> {
    ScanKeyInjective(s);
    FirstOf(ScanKey(s), Candidates(s), Bounded(limit, 100))
  }

  /** What the mail service shows of a draft is recorded if it can be, and the draft is marked in any case. */
  function ScanOne(s: Tables, k: string, observe: string -> Option<Observation>, clock: nat): Tables {
    var seen := match observe(k) case Some(o) => Record(s, o).state case None => s;
    MarkScanned(seen, k, clock).state
  }

  function ScanAll(s: Tables, batch: seq<string>, observe: string -> Option<Observation>, clock: nat): Tables
    decreases |batch|
  {
    if batch == [] then s
    else
      ScanAll(ScanOne(s, batch[0], observe, clock), batch[1..], observe, clock + 1)
  }

  /** One scan of the store: its own listing, then every draft listed. */
  ghost function AfterScan(s: Tables, limit: int, observe: string -> Option<Observation>, clock: nat): Tables {
    ScanAll(s, ListScanCandidates(s, limit), observe, clock)
  }

  /** The scan tool: `batch` is what the query returns. */
  method DispositionScan(
    store: DraftStore, ghost limit: int, batch: seq<string>, observe: string -> Option<Observation>, clock: nat)
    requires batch == ListScanCandidates(store.Contents(), limit)
    modifies store
    ensures store.Contents() == AfterScan(old(store.Contents()), limit, observe, clock)
  {
    ScanDrafts(store, batch, observe, clock);
  }

  /** Its loop. */
  method ScanDrafts(store: DraftStore, batch: seq<string>, observe: string -> Option<Observation>, clock: nat)
    modifies store
    ensures store.Contents() == ScanAll(old(store.Contents()), batch, observe, clock)
  {
    var i := 0;
    while i < |batch|
      invariant i <= |batch|
      invariant ScanAll(old(store.Contents()), batch, observe, clock) ==
        ScanAll(store.Contents(), batch[i..], observe, clock + i)
    {
      ScanOneDraft(store, batch[i], observe, clock + i);
      assert batch[i..][1..] == batch[i + 1..];
      i := i + 1;
    }
  }

  method ScanOneDraft(store: DraftStore, k: string, observe: string -> Option<Observation>, clock: nat)
    modifies store
    ensures store.Contents() == ScanOne(old(store.Contents()), k, observe, clock)
  {
    match observe(k) {
      case Some(o) => var _ := store.RecordDispositionObservation(o);
      case None =>
    }
    var _ := store.MarkDispositionScanned(k, clock);
  }

  /** Candidates not scanned since the given time. */
  function Waiting(s: Tables, since: nat): set<string> {
    set k | k in Candidates(s) && !(k in s.scans && s.scans[k].lastScannedAt >= since)
  }

  lemma WaitingLead(s: Tables, since: nat)
    ensures Leads(ScanKey(s), Candidates(s), Waiting(s, since))
  {
    forall x, y | x in Waiting(s, since) && y in Candidates(s) - Waiting(s, since)
      ensures Before(ScanKey(s), x, y)
    {
      var a, b := ScanKeyOf(s, x), ScanKeyOf(s, y);
      assert b[0] == 1 && b[1] >= since;
      assert a[0] == 0 || (a[0] == 1 && a[1] < since);
      if a[0] == 1 {
        assert a[1..][0] < b[1..][0];
      }
    }
  }

  /** The rows before the scan move on and no mark is lost or set back. */
  ghost predicate ScannedOn(s: Tables, t: Tables, since: nat) {
    && t.operations == s.operations
    && (forall k :: k in s.observations ==> k in t.observations)
    && (forall k :: k in s.scans && s.scans[k].lastScannedAt >= since ==>
      k in t.scans && t.scans[k].lastScannedAt >= since)
  }

  lemma OneMark(s: Tables, k: string, observe: string -> Option<Observation>, clock: nat, since: nat)
    requires since <= clock && k in s.operations && s.operations[k].status.Completed?
    ensures var t := ScanOne(s, k, observe, clock);
      ScannedOn(s, t, since) && k in t.scans && t.scans[k].lastScannedAt >= since
  {
    var seen := match observe(k) case Some(o) => Record(s, o).state case None => s;
    assert seen.operations == s.operations && seen.scans == s.scans;
    assert forall j :: j in s.observations ==> j in seen.observations;
  }

  lemma {:induction false} ScanMarks(s: Tables, batch: seq<string>, observe: string -> Option<Observation>,
                                     clock: nat, since: nat)
    requires since <= clock
    requires forall k :: k in batch ==> k in s.operations && s.operations[k].status.Completed?
    ensures var t := ScanAll(s, batch, observe, clock);
      ScannedOn(s, t, since) && forall k :: k in batch ==> k in t.scans && t.scans[k].lastScannedAt >= since
    decreases |batch|
  {
    if batch != [] {
      OneMark(s, batch[0], observe, clock, since);
      ScanMarks(ScanOne(s, batch[0], observe, clock), batch[1..], observe, clock + 1, since);
      assert batch == [batch[0]] + batch[1..];
    }
  }

  lemma BatchIsServed(s: Tables, limit: int, observe: string -> Option<Observation>, clock: nat, since: nat)
    requires since <= clock
    ensures Waiting(AfterScan(s, limit, observe, clock), since)
      <= Waiting(s, since) - Elements(ListScanCandidates(s, limit))
  {
    var batch := ListScanCandidates(s, limit);
    ScanKeyInjective(s);
    BatchSize(ScanKey(s), Candidates(s), Bounded(limit, 100));
    assert forall k :: k in batch ==> k in Elements(batch);
    ScanMarks(s, batch, observe, clock, since);
  }

  /** One round serves as many waiting rows as its limit allows. */
  lemma RoundServes(s: Tables, limit: int, observe: string -> Option<Observation>, clock: nat, since: nat)
    requires since <= clock
    ensures var t := AfterScan(s, limit, observe, clock);
      && Waiting(t, since) <= Waiting(s, since)
      && |Waiting(t, since)| <= |Waiting(s, since)| - Min(Bounded(limit, 100), |Waiting(s, since)|)
  {
    var batch := ListScanCandidates(s, limit);
    var t := AfterScan(s, limit, observe, clock);
    ScanKeyInjective(s);
    WaitingLead(s, since);
    FrontIsServed(ScanKey(s), Candidates(s), Bounded(limit, 100), Waiting(s, since));
    BatchIsServed(s, limit, observe, clock, since);
    SubsetSize(Waiting(t, since), Waiting(s, since) - Elements(batch));
  }

  /** Other calls, then one scan. */
  datatype Round = Round(calls: seq<Call>, limit: int, observe: string -> Option<Observation>, clock: nat)

  ghost function AfterRound(s: Tables, r: Round): Tables {
    AfterScan(Run(s, r.calls), r.limit, r.observe, r.clock)
  }

  ghost function AfterRounds(s: Tables, rounds: seq<Round>): Tables
    decreases |rounds|
  {
    if rounds == [] then s else AfterRounds(AfterRound(s, rounds[0]), rounds[1..])
  }

  /** Only scans mark, at times not before `since`. */
  predicate OrderlyRound(r: Round, since: nat) {
    since <= r.clock && forall c :: c in r.calls ==> !c.DoMarkScanned?
  }

  /** How many drafts complete in the course of the rounds. */
  ghost function Arrivals(s: Tables, rounds: seq<Round>): nat
    decreases |rounds|
  {
    if rounds == [] then 0
    else |Candidates(Run(s, rounds[0].calls)) - Candidates(s)| + Arrivals(AfterRound(s, rounds[0]), rounds[1..])
  }

  function Places(rounds: seq<Round>): nat
    decreases |rounds|
  {
    if rounds == [] then 0 else Bounded(rounds[0].limit, 100) + Places(rounds[1..])
  }

  lemma {:induction false} CallsKeepScans(s: Tables, calls: seq<Call>)
    requires forall c :: c in calls ==> !c.DoMarkScanned?
    ensures Run(s, calls).scans == s.scans
    decreases |calls|
  {
    if calls != [] {
      assert calls[0] in calls;
      assert Apply(s, calls[0]).scans == s.scans;
      CallsKeepScans(Apply(s, calls[0]), calls[1..]);
    }
  }

  /** Calls add to the waiting rows only drafts that have just completed, and none that was done with. */
  lemma CallsAddArrivals(s: Tables, calls: seq<Call>, since: nat)
    requires forall c :: c in calls ==> !c.DoMarkScanned?
    ensures Waiting(Run(s, calls), since) <= Waiting(s, since) + (Candidates(Run(s, calls)) - Candidates(s))
    ensures |Waiting(Run(s, calls), since)| <= |Waiting(s, since)| + |Candidates(Run(s, calls)) - Candidates(s)|
  {
    CallsKeepScans(s, calls);
    var t := Run(s, calls);
    var arrived := Candidates(t) - Candidates(s);
    SubsetSize(Waiting(t, since), Waiting(s, since) + arrived);
    UnionSize(Waiting(s, since), arrived);
  }

  lemma UnionSize<T>(a: set<T>, b: set<T>)
    ensures |a + b| <= |a| + |b|
  {
    assert a + b == a + (b - a);
    SetMinus(b, b * a);
    assert b - b * a == b - a;
  }

  /** A completed draft that is no longer waiting never waits again. */
  lemma DoneStaysDone(s: Tables, r: Round, since: nat, k: string)
    requires OrderlyRound(r, since) && k in s.operations && s.operations[k].status.Completed? && k !in Waiting(s, since)
    ensures var t := AfterRound(s, r); k in t.operations && t.operations[k].status.Completed? && k !in Waiting(t, since)
  {
    var t := Run(s, r.calls);
    RunGoesForward(s, r.calls);
    assert OperationsForward(s, t) && RestForward(s, t);
    CallsKeepScans(s, r.calls);
    assert k !in Waiting(t, since);
    RoundServes(t, r.limit, r.observe, r.clock, since);
    OperationsStay(t, r);
  }

  lemma OperationsStay(t: Tables, r: Round)
    ensures AfterScan(t, r.limit, r.observe, r.clock).operations == t.operations
  {
    var batch := ListScanCandidates(t, r.limit);
    ScanKeyInjective(t);
    BatchSize(ScanKey(t), Candidates(t), Bounded(r.limit, 100));
    assert forall k :: k in batch ==> k in Elements(batch);
    ScanMarks(t, batch, r.observe, r.clock, 0);
  }

  lemma {:induction false} DoneForGood(s: Tables, rounds: seq<Round>, since: nat, k: string)
    requires forall r :: r in rounds ==> OrderlyRound(r, since)
    requires k in s.operations && s.operations[k].status.Completed? && k !in Waiting(s, since)
    ensures k !in Waiting(AfterRounds(s, rounds), since)
    decreases |rounds|
  {
    if rounds != [] {
      DoneStaysDone(s, rounds[0], since, k);
      DoneForGood(AfterRound(s, rounds[0]), rounds[1..], since, k);
    }
  }

  /** No starvation: once the rounds have had as many places as there were waiting rows and arrivals, every
      draft that was completed at the start has been scanned since, or has its observation. */
  lemma {:induction false} NoStarvation(s: Tables, rounds: seq<Round>, since: nat, k: string)
    requires forall r :: r in rounds ==> OrderlyRound(r, since)
    requires k in s.operations && s.operations[k].status.Completed?
    requires Places(rounds) >= |Waiting(s, since)| + Arrivals(s, rounds)
    ensures k !in Waiting(AfterRounds(s, rounds), since)
    decreases |rounds|
  {
    if k !in Waiting(s, since) {
      DoneForGood(s, rounds, since, k);
    } else if rounds == [] {
      SubsetSize({k}, Waiting(s, since));
    } else {
      var r := rounds[0];
      assert OrderlyRound(r, since);
      var t := Run(s, r.calls);
      var u := AfterRound(s, r);
      CallsAddArrivals(s, r.calls, since);
      RoundServes(t, r.limit, r.observe, r.clock, since);
      RunGoesForward(s, r.calls);
      assert OperationsForward(s, t);
      OperationsStay(t, r);
      if |Waiting(t, since)| <= Bounded(r.limit, 100) {
        assert |Waiting(u, since)| == 0;
        DoneForGood(u, rounds[1..], since, k);
      } else {
        NoStarvation(u, rounds[1..], since, k);
      }
    }
  }

  /** Why arrivals must be counted: while the never-scanned fill the batch, no draft scanned before gets in. */
  lemma NeverScannedGoFirst(s: Tables, limit: int, k: string)
    requires k in Candidates(s) && k in s.scans
    requires |Waiting(s, 0)| >= Bounded(limit, 100)
    ensures k !in ListScanCandidates(s, limit)
  {
    ScanKeyInjective(s);
    WaitingLead(s, 0);
    FullFront(ScanKey(s), Candidates(s), Bounded(limit, 100), Waiting(s, 0), k);
  }

  // ---- the outbox ----

  predicate Acknowledged(s: Tables, k: string, consumer: string)
    requires k in s.observations
  {
    (s.observations[k].observationId, consumer) in s.receipts
  }

  /** The operations whose observation the consumer has not acknowledged. */
  function Outbox(s: Tables, consumer: string): set<string> {
    set k | k in s.observations && !Acknowledged(s, k, consumer)
  }

  function OutboxKey(s: Tables): string -> seq<nat> {
    k => OutboxKeyOf(s, k)
  }

  /** Oldest first, then by observation id. */
  function OutboxKeyOf(s: Tables, k: string): seq<nat> {
    if k in s.observations then [0, s.observations[k].observedAt] + Codes(s.observations[k].observationId)
      else [1, 0] + Codes(k)
  }

  lemma OutboxKeyInjective(s: Tables)
    requires UniqueIds(s)
    ensures Injective(OutboxKey(s))
  {
    forall x, y | OutboxKey(s)(x) == OutboxKey(s)(y)
      ensures x == y
    {
      var a, b := OutboxKeyOf(s, x), OutboxKeyOf(s, y);
      assert a[0] == b[0];
      if x in s.observations {
        assert y in s.observations;
        assert Codes(s.observations[x].observationId) == a[2..] && Codes(s.observations[y].observationId) == b[2..];
        CodesInjective(s.observations[x].observationId, s.observations[y].observationId);
        assert Clash(s, x, y);
      } else {
        assert y !in s.observations;
        assert Codes(x) == a[2..] && Codes(y) == b[2..];
        CodesInjective(x, y);
      }
    }
  }

  /** The oldest `n` observations the consumer has not acknowledged. */
  ghost function Oldest(s: Tables, consumer: string, n: nat): seq<string>
    requires UniqueIds(s)
  {
    OutboxKeyInjective(s);
    FirstOf(OutboxKey(s), Outbox(s, consumer), n)
  }

  /** The batch a consumer is handed, as operations; a blank consumer is refused. */
  ghost function ListObservations(s: Tables, consumer: string, limit: int): Result<seq<string>, Error>
    requires UniqueIds(s)
  {
    if Trim(consumer) == "" then Err(ConsumerRequired) else Ok(Oldest(s, Trim(consumer), Bounded(limit, 5)))
  }

  /** A request for `limit` rows gets that many, or at most `most`, or one if it asks for none, or all there are. */
  predicate IsFull(size: nat, limit: int, most: nat, rows: nat) {
    && size <= rows
    && (limit >= most ==> size == most || size == rows < most)
    && (1 <= limit < most ==> size == limit || size == rows < limit)
    && (limit < 1 ==> size == 1 || size == rows == 0)
  }

  /** A listing holds at most five observations, and is refused exactly to a blank name; a scan lists at most a
      hundred drafts. */
  lemma ListingsAreFull(s: Tables, consumer: string, limit: int)
    requires UniqueIds(s)
    ensures ListObservations(s, consumer, limit).Ok? <==> Trim(consumer) != ""
    ensures Trim(consumer) != "" ==>
      IsFull(|ListObservations(s, consumer, limit).value|, limit, 5, |Outbox(s, Trim(consumer))|)
    ensures IsFull(|ListScanCandidates(s, limit)|, limit, 100, |Candidates(s)|)
  {
    OutboxKeyInjective(s);
    BatchSize(OutboxKey(s), Outbox(s, Trim(consumer)), Bounded(limit, 5));
    ScanKeyInjective(s);
    BatchSize(ScanKey(s), Candidates(s), Bounded(limit, 100));
  }

  /** The consumer acknowledges a whole batch. */
  function AcknowledgeAll(s: Tables, batch: seq<string>, consumer: string, ref: string, receipt: string,
                          at: nat): Tables
    decreases |batch|
  {
    if batch == [] || batch[0] !in s.observations then s
    else
      AcknowledgeAll(Acknowledge(s, s.observations[batch[0]].observationId, consumer, ref, receipt, at).state,
                     batch[1..], consumer, ref, receipt, at)
  }

  lemma {:induction false} AcknowledgingEmpties(s: Tables, batch: seq<string>, consumer: string, ref: string,
                                                receipt: string, at: nat)
    requires !TooLarge(receipt) && UniqueIds(s) && Elements(batch) <= s.observations.Keys
    ensures var t := AcknowledgeAll(s, batch, consumer, ref, receipt, at);
      && t.observations == s.observations && UniqueIds(t)
      && Outbox(t, consumer) == Outbox(s, consumer) - Elements(batch)
      && forall other :: other != consumer ==> Outbox(t, other) == Outbox(s, other)
    decreases |batch|
  {
    if batch == [] {
      assert Elements(batch) == {};
    } else {
      var k := batch[0];
      assert k in Elements(batch);
      assert ObservationExists(s, s.observations[k].observationId);
      var next := Acknowledge(s, s.observations[k].observationId, consumer, ref, receipt, at).state;
      OneLeaves(s, k, consumer, ref, receipt, at);
      assert batch == [k] + batch[1..];
      ElementsOfCons(k, batch[1..]);
      AcknowledgingEmpties(next, batch[1..], consumer, ref, receipt, at);
    }
  }

  lemma OneLeaves(s: Tables, k: string, consumer: string, ref: string, receipt: string, at: nat)
    requires !TooLarge(receipt) && UniqueIds(s) && k in s.observations
    ensures var t := Acknowledge(s, s.observations[k].observationId, consumer, ref, receipt, at).state;
      && t.observations == s.observations && UniqueIds(t)
      && Outbox(t, consumer) == Outbox(s, consumer) - {k}
      && forall other :: other != consumer ==> Outbox(t, other) == Outbox(s, other)
  {
    var id := s.observations[k].observationId;
    assert ObservationExists(s, id);
    var t := Acknowledge(s, id, consumer, ref, receipt, at).state;
    forall j | j in s.observations && s.observations[j].observationId == id
      ensures j == k
    {
      assert Clash(s, j, k);
    }
    forall i, j | Clash(t, i, j)
      ensures i == j
    {
      assert Clash(s, i, j);
    }
  }

  /** What one listing hands the consumer: nothing when it is refused. */
  ghost function Handed(s: Tables, consumer: string, limit: int): (batch: seq<string>)
    requires UniqueIds(s)
    ensures Elements(batch) <= s.observations.Keys
  {
    OutboxKeyInjective(s);
    BatchSize(OutboxKey(s), Outbox(s, Trim(consumer)), Bounded(limit, 5));
    match ListObservations(s, consumer, limit)
    case Ok(batch) => batch
    case Err(_) => assert Elements([]) == {}; []
  }

  /** One round: the consumer lists, and acknowledges the whole batch under the name it gave. */
  ghost function AfterDelivery(s: Tables, consumer: string, limit: int, ref: string, receipt: string,
                               at: nat): (t: Tables)
    requires UniqueIds(s) && !TooLarge(receipt)
    ensures UniqueIds(t) && t.observations == s.observations
    ensures Outbox(t, consumer) == Outbox(s, consumer) - Elements(Handed(s, consumer, limit))
    ensures forall other :: other != consumer ==> Outbox(t, other) == Outbox(s, other)
  {
    AcknowledgingEmpties(s, Handed(s, consumer, limit), consumer, ref, receipt, at);
    AcknowledgeAll(s, Handed(s, consumer, limit), consumer, ref, receipt, at)
  }

  type UniqueTables = s: Tables | UniqueIds(s) ghost witness EMPTY

  /** What rounds hand over, batch after batch. */
  ghost function HandOut(
    next: (UniqueTables, int) -> UniqueTables, handed: (UniqueTables, int) -> seq<string>, s: UniqueTables,
    limits: seq<int>)
    : seq<string>
    decreases |limits|
  {
    if limits == [] then [] else handed(s, limits[0]) + HandOut(next, handed, next(s, limits[0]), limits[1..])
  }

  ghost function Delivery(consumer: string, ref: string, receipt: string, at: nat): (UniqueTables, int) -> UniqueTables
    requires !TooLarge(receipt)
  {
    (s: UniqueTables, limit: int) => AfterDelivery(s, consumer, limit, ref, receipt, at)
  }

  ghost function Handing(consumer: string): (UniqueTables, int) -> seq<string> {
    (s: UniqueTables, limit: int) => Handed(s, consumer, limit)
  }

  ghost function Order(consumer: string): (UniqueTables, nat) -> seq<string> {
    (s: UniqueTables, n: nat) => Oldest(s, consumer, n)
  }

  /** All that a consumer is handed in rounds of list and acknowledge. */
  ghost function Deliveries(s: Tables, consumer: string, limits: seq<int>, ref: string, receipt: string,
                            at: nat): seq<string>
    requires UniqueIds(s) && !TooLarge(receipt)
  {
    HandOut(Delivery(consumer, ref, receipt, at), Handing(consumer), s, limits)
  }

  function Total(limits: seq<int>): nat
    decreases |limits|
  {
    if limits == [] then 0 else Bounded(limits[0], 5) + Total(limits[1..])
  }

  lemma {:induction false} SameOrder(s: Tables, t: Tables, pool: set<string>, n: nat)
    requires s.observations == t.observations && Injective(OutboxKey(s)) && Injective(OutboxKey(t))
    ensures FirstOf(OutboxKey(s), pool, n) == FirstOf(OutboxKey(t), pool, n)
    decreases n
  {
    if n > 0 && pool != {} {
      var x, y := Least(OutboxKey(s), pool), Least(OutboxKey(t), pool);
      assert IsLeast(OutboxKey(s), pool, y) by {
        assert forall k :: OutboxKeyOf(s, k) == OutboxKeyOf(t, k);
        forall k | k in pool && k != y
          ensures Before(OutboxKey(s), y, k)
        {
          assert Before(OutboxKey(t), y, k);
        }
      }
      LeastIsUnique(OutboxKey(s), pool, x, y);
      SameOrder(s, t, pool - {x}, n - 1);
    }
  }

  /** The listing trims the consumer's name and the acknowledgement does not: the round trip needs a name
      without surrounding white space. */
  predicate IsName(consumer: string) {
    Trim(consumer) == consumer != ""
  }

  ghost predicate ContinuesAt(
    next: (UniqueTables, int) -> UniqueTables, handed: (UniqueTables, int) -> seq<string>,
    oldest: (UniqueTables, nat) -> seq<string>, s: UniqueTables, limit: int, more: nat)
  {
    oldest(s, Bounded(limit, 5) + more) == handed(s, limit) + oldest(next(s, limit), more)
  }

  /** Each round hands over the front of an order and leaves the rest of it. */
  ghost predicate Continues(
    next: (UniqueTables, int) -> UniqueTables, handed: (UniqueTables, int) -> seq<string>,
    oldest: (UniqueTables, nat) -> seq<string>)
  {
    && (forall s :: oldest(s, 0) == [])
    && (forall s, limit: int, more: nat :: ContinuesAt(next, handed, oldest, s, limit, more))
  }

  lemma {:induction false} RoundsFollowOrder(
    next: (UniqueTables, int) -> UniqueTables, handed: (UniqueTables, int) -> seq<string>,
    oldest: (UniqueTables, nat) -> seq<string>, s: UniqueTables, limits: seq<int>)
    requires Continues(next, handed, oldest)
    ensures HandOut(next, handed, s, limits) == oldest(s, Total(limits))
    decreases |limits|
  {
    if limits != [] {
      assert ContinuesAt(next, handed, oldest, s, limits[0], Total(limits[1..]));
      RoundsFollowOrder(next, handed, oldest, next(s, limits[0]), limits[1..]);
    }
  }

  /** What comes after one delivery is the rest of the same order. */
  lemma DeliveryContinues(s: Tables, t: Tables, consumer: string, n: nat, more: nat)
    requires UniqueIds(s) && UniqueIds(t) && t.observations == s.observations
    requires Outbox(t, consumer) == Outbox(s, consumer) - Elements(Oldest(s, consumer, n))
    ensures Oldest(s, consumer, n + more) == Oldest(s, consumer, n) + Oldest(t, consumer, more)
  {
    OutboxKeyInjective(s);
    OutboxKeyInjective(t);
    SameOrder(s, t, Outbox(t, consumer), more);
    BatchesJoin(OutboxKey(s), Outbox(s, consumer), n, more);
  }

  lemma HandedIsOldest(s: Tables, consumer: string, limit: int)
    requires UniqueIds(s) && IsName(consumer)
    ensures Handed(s, consumer, limit) == Oldest(s, consumer, Bounded(limit, 5))
  {
  }

  lemma RoundContinues(s: Tables, t: Tables, consumer: string, limit: int, more: nat)
    requires UniqueIds(s) && UniqueIds(t) && t.observations == s.observations && IsName(consumer)
    requires Outbox(t, consumer) == Outbox(s, consumer) - Elements(Handed(s, consumer, limit))
    ensures Oldest(s, consumer, Bounded(limit, 5) + more) == Handed(s, consumer, limit) + Oldest(t, consumer, more)
  {
    HandedIsOldest(s, consumer, limit);
    DeliveryContinues(s, t, consumer, Bounded(limit, 5), more);
  }

  lemma Delivered(s: UniqueTables, consumer: string, limit: int, ref: string, receipt: string, at: nat)
    returns (t: UniqueTables)
    requires !TooLarge(receipt)
    ensures t == Delivery(consumer, ref, receipt, at)(s, limit) && t.observations == s.observations
    ensures Outbox(t, consumer) == Outbox(s, consumer) - Elements(Handed(s, consumer, limit))
  {
    t := AfterDelivery(s, consumer, limit, ref, receipt, at);
  }

  lemma OrderAt(consumer: string, s: UniqueTables, n: nat)
    ensures Order(consumer)(s, n) == Oldest(s, consumer, n)
  {
  }

  lemma ContinuesWith(
    next: (UniqueTables, int) -> UniqueTables, handed: (UniqueTables, int) -> seq<string>,
    oldest: (UniqueTables, nat) -> seq<string>, s: UniqueTables, limit: int, more: nat, t: UniqueTables)
    requires t == next(s, limit) && oldest(s, Bounded(limit, 5) + more) == handed(s, limit) + oldest(t, more)
    ensures ContinuesAt(next, handed, oldest, s, limit, more)
  {
  }

  lemma OneRoundContinues(s: UniqueTables, consumer: string, limit: int, more: nat, ref: string, receipt: string,
                          at: nat)
    requires !TooLarge(receipt) && IsName(consumer)
    ensures ContinuesAt(Delivery(consumer, ref, receipt, at), Handing(consumer), Order(consumer), s, limit, more)
  {
    var t := Delivered(s, consumer, limit, ref, receipt, at);
    RoundContinues(s, t, consumer, limit, more);
    OrderAt(consumer, s, Bounded(limit, 5) + more);
    OrderAt(consumer, t, more);
    ContinuesWith(Delivery(consumer, ref, receipt, at), Handing(consumer), Order(consumer), s, limit, more, t);
  }

  lemma OutboxContinues(consumer: string, ref: string, receipt: string, at: nat)
    requires !TooLarge(receipt) && IsName(consumer)
    ensures Continues(Delivery(consumer, ref, receipt, at), Handing(consumer), Order(consumer))
  {
    forall s: UniqueTables
      ensures Order(consumer)(s, 0) == []
    {
    }
    forall s: UniqueTables, limit: int, more: nat
      ensures ContinuesAt(Delivery(consumer, ref, receipt, at), Handing(consumer), Order(consumer), s, limit, more)
    {
      OneRoundContinues(s, consumer, limit, more, ref, receipt, at);
    }
  }

  /** Rounds of list and acknowledge hand over the outbox oldest first, however it is cut into batches. */
  lemma OutboxDrains(s: Tables, consumer: string, limits: seq<int>, ref: string, receipt: string, at: nat)
    requires UniqueIds(s) && !TooLarge(receipt) && IsName(consumer)
    ensures Deliveries(s, consumer, limits, ref, receipt, at) == Oldest(s, consumer, Total(limits))
  {
    OutboxContinues(consumer, ref, receipt, at);
    RoundsFollowOrder(Delivery(consumer, ref, receipt, at), Handing(consumer), Order(consumer), s, limits);
  }

  /** Enough rounds deliver everything, in order and without repeats. */
  lemma EverythingDelivered(s: Tables, consumer: string, limits: seq<int>, ref: string, receipt: string, at: nat)
    requires UniqueIds(s) && !TooLarge(receipt) && IsName(consumer) && Total(limits) >= |Outbox(s, consumer)|
    ensures var all := Deliveries(s, consumer, limits, ref, receipt, at);
      && Elements(all) == Outbox(s, consumer) && |all| == |Outbox(s, consumer)|
      && Sorted(OutboxKey(s), all)
  {
    OutboxDrains(s, consumer, limits, ref, receipt, at);
    OutboxKeyInjective(s);
    FirstOfFacts(OutboxKey(s), Outbox(s, consumer), Total(limits));
    SetMinus(Outbox(s, consumer), Elements(Oldest(s, consumer, Total(limits))));
  }

  /** With white space around its name a consumer is handed the same batch for ever. */
  lemma UntrimmedNeverDrains(s: Tables, consumer: string, limit: int, ref: string, receipt: string, at: nat)
    requires UniqueIds(s) && !TooLarge(receipt) && Trim(consumer) != "" && Trim(consumer) != consumer
    ensures var t := AfterDelivery(s, consumer, limit, ref, receipt, at);
      forall next: int :: ListObservations(t, consumer, next) == ListObservations(s, consumer, next)
  {
    var t := AfterDelivery(s, consumer, limit, ref, receipt, at);
    OutboxKeyInjective(s);
    OutboxKeyInjective(t);
    forall next: int
      ensures ListObservations(t, consumer, next) == ListObservations(s, consumer, next)
    {
      SameOrder(s, t, Outbox(s, Trim(consumer)), Bounded(next, 5));
    }
  }

  /** A round shrinks a nonempty outbox exactly when the consumer's name has no surrounding white space. */
  lemma RoundShrinksExactlyForNames(s: Tables, consumer: string, limit: int, ref: string, receipt: string, at: nat)
    requires UniqueIds(s) && !TooLarge(receipt) && Trim(consumer) != "" && Outbox(s, Trim(consumer)) != {}
    ensures var t := AfterDelivery(s, consumer, limit, ref, receipt, at);
      && Outbox(t, Trim(consumer)) <= Outbox(s, Trim(consumer))
      && (|Outbox(t, Trim(consumer))| < |Outbox(s, Trim(consumer))| <==> Trim(consumer) == consumer)
  {
    var t := AfterDelivery(s, consumer, limit, ref, receipt, at);
    if Trim(consumer) == consumer {
      OutboxKeyInjective(s);
      BatchSize(OutboxKey(s), Outbox(s, consumer), Bounded(limit, 5));
      SetMinus(Outbox(s, consumer), Elements(Handed(s, consumer, limit)));
      assert |Outbox(s, consumer)| > 0;
    } else {
      assert Outbox(t, Trim(consumer)) == Outbox(s, Trim(consumer));
    }
  }

  /** What a consumer acknowledged is never in its outbox again, whatever else is called. */
  lemma AcknowledgedOnce(s: Tables, calls: seq<Call>, consumer: string, k: string)
    requires k in s.observations && k !in Outbox(s, consumer)
    ensures k !in Outbox(Run(s, calls), consumer)
  {
    RunGoesForward(s, calls);
    assert RestForward(s, Run(s, calls));
  }

  // ---- the orders, on the rows ----

  /** Oldest observation first, then by the order of observation ids. */
  ghost predicate ObservedBefore(a: Observation, b: Observation) {
    a.observedAt < b.observedAt || (a.observedAt == b.observedAt && Precedes(a.observationId, b.observationId))
  }

  lemma OutboxKeyMeans(s: Tables, x: string, y: string)
    requires x in s.observations && y in s.observations && Before(OutboxKey(s), x, y)
    ensures ObservedBefore(s.observations[x], s.observations[y])
  {
    var a, b := s.observations[x], s.observations[y];
    var p, q := Codes(a.observationId), Codes(b.observationId);
    assert OutboxKeyOf(s, x) == [0] + ([a.observedAt] + p) && OutboxKeyOf(s, y) == [0] + ([b.observedAt] + q);
    LexBehind(0, 0, [a.observedAt] + p, [b.observedAt] + q);
    LexBehind(a.observedAt, b.observedAt, p, q);
    if a.observedAt == b.observedAt {
      CodesPrecede(a.observationId, b.observationId);
    }
  }

  /** A listing holds as many of the observations that the consumer has not acknowledged as the limit allows, at
      least one and at most five, each once, in order, and before every one that it leaves out. */
  lemma ListingIsOrdered(s: Tables, consumer: string, limit: int)
    requires UniqueIds(s) && ListObservations(s, consumer, limit).Ok?
    ensures var batch := ListObservations(s, consumer, limit).value; var outbox := Outbox(s, Trim(consumer));
      && |batch| == Min(if limit < 1 then 1 else if limit > 5 then 5 else limit, |outbox|)
      && (forall j :: 0 <= j < |batch| ==> batch[j] in outbox)
      && (forall j, k :: 0 <= j < k < |batch| ==> ObservedBefore(s.observations[batch[j]], s.observations[batch[k]]))
      && (forall j, k :: 0 <= j < |batch| && k in outbox && k !in batch ==>
            ObservedBefore(s.observations[batch[j]], s.observations[k]))
  {
    var batch, outbox := ListObservations(s, consumer, limit).value, Outbox(s, Trim(consumer));
    OutboxKeyInjective(s);
    FirstOfFacts(OutboxKey(s), outbox, Bounded(limit, 5));
    forall j | 0 <= j < |batch|
      ensures batch[j] in outbox
    {
      assert batch[j] in Elements(batch);
    }
    forall j, k | 0 <= j < k < |batch|
      ensures ObservedBefore(s.observations[batch[j]], s.observations[batch[k]])
    {
      OutboxKeyMeans(s, batch[j], batch[k]);
    }
    forall j, k | 0 <= j < |batch| && k in outbox && k !in batch
      ensures ObservedBefore(s.observations[batch[j]], s.observations[k])
    {
      assert batch[j] in Elements(batch) && k in outbox - Elements(batch);
      OutboxKeyMeans(s, batch[j], k);
    }
  }

  /** All deliveries together come in that order. */
  lemma DeliveriesAreOrdered(
    s: Tables, consumer: string, limits: seq<int>, ref: string, receipt: string, at: nat, j: nat, k: nat)
    requires UniqueIds(s) && !TooLarge(receipt) && IsName(consumer)
    requires j < k < |Deliveries(s, consumer, limits, ref, receipt, at)|
    ensures var all := Deliveries(s, consumer, limits, ref, receipt, at);
      && all[j] in Outbox(s, consumer) && all[k] in Outbox(s, consumer)
      && ObservedBefore(s.observations[all[j]], s.observations[all[k]])
  {
    OutboxDrains(s, consumer, limits, ref, receipt, at);
    OutboxKeyInjective(s);
    FirstOfFacts(OutboxKey(s), Outbox(s, consumer), Total(limits));
    var all := Deliveries(s, consumer, limits, ref, receipt, at);
    assert all[j] in Elements(all) && all[k] in Elements(all);
    OutboxKeyMeans(s, all[j], all[k]);
  }

  /** Never scanned before scanned, then the older scan, the older completion, the smaller key. */
  ghost predicate ScannedBefore(s: Tables, x: string, y: string)
    requires x in Candidates(s) && y in Candidates(s)
  {
    var p, q := s.operations[x].status.completedAt, s.operations[y].status.completedAt;
    if x in s.scans && y in s.scans && s.scans[x].lastScannedAt != s.scans[y].lastScannedAt
    then s.scans[x].lastScannedAt < s.scans[y].lastScannedAt
    else (x !in s.scans && y in s.scans) || ((x in s.scans <==> y in s.scans) && (p < q || (p == q && Precedes(x, y))))
  }

  lemma ScanKeyMeans(s: Tables, x: string, y: string)
    requires x in Candidates(s) && y in Candidates(s) && Before(ScanKey(s), x, y)
    ensures ScannedBefore(s, x, y)
  {
    var p, q := s.operations[x].status.completedAt, s.operations[y].status.completedAt;
    var a0, a1 := if x in s.scans then 1 else 0, if x in s.scans then s.scans[x].lastScannedAt else 0;
    var b0, b1 := if y in s.scans then 1 else 0, if y in s.scans then s.scans[y].lastScannedAt else 0;
    assert ScanKeyOf(s, x) == [a0] + ([a1] + ([p] + Codes(x)));
    assert ScanKeyOf(s, y) == [b0] + ([b1] + ([q] + Codes(y)));
    LexBehind(a0, b0, [a1] + ([p] + Codes(x)), [b1] + ([q] + Codes(y)));
    if a0 == b0 {
      LexBehind(a1, b1, [p] + Codes(x), [q] + Codes(y));
      if a1 == b1 {
        LexBehind(p, q, Codes(x), Codes(y));
        if p == q {
          CodesPrecede(x, y);
        }
      }
    }
  }

  /** A scan takes as many completed drafts without an observation as its limit allows, at least one and at most a
      hundred, each once, in order, and before every one that it leaves out. */
  lemma ScanIsOrdered(s: Tables, limit: int)
    ensures var batch := ListScanCandidates(s, limit);
      && |batch| == Min(if limit < 1 then 1 else if limit > 100 then 100 else limit, |Candidates(s)|)
      && (forall j :: 0 <= j < |batch| ==> batch[j] in Candidates(s))
      && (forall j, k :: 0 <= j < k < |batch| ==> ScannedBefore(s, batch[j], batch[k]))
      && (forall j, k :: 0 <= j < |batch| && k in Candidates(s) && k !in batch ==> ScannedBefore(s, batch[j], k))
  {
    var batch := ListScanCandidates(s, limit);
    ScanKeyInjective(s);
    FirstOfFacts(ScanKey(s), Candidates(s), Bounded(limit, 100));
    forall j | 0 <= j < |batch|
      ensures batch[j] in Candidates(s)
    {
      assert batch[j] in Elements(batch);
    }
    forall j, k | 0 <= j < k < |batch|
      ensures ScannedBefore(s, batch[j], batch[k])
    {
      ScanKeyMeans(s, batch[j], batch[k]);
    }
    forall j, k | 0 <= j < |batch| && k in Candidates(s) && k !in batch
      ensures ScannedBefore(s, batch[j], k)
    {
      assert batch[j] in Elements(batch) && k in Candidates(s) - Elements(batch);
      ScanKeyMeans(s, batch[j], k);
    }
  }


  /** A draft with an observation is in no later listing, whatever else is called. */
  lemma ObservedIsNeverListed(s: Tables, calls: seq<Call>, limit: int, k: string)
    requires k in s.observations
    ensures k !in ListScanCandidates(Run(s, calls), limit)
  {
    RunGoesForward(s, calls);
    var t := Run(s, calls);
    ScanKeyInjective(t);
    BatchSize(ScanKey(t), Candidates(t), Bounded(limit, 100));
    assert k in ListScanCandidates(t, limit) ==> k in Elements(ListScanCandidates(t, limit));
  }


  // ---- what a scan records ----

  /** The observation is the draft's own, it is not too large, and its ids are free. */
  predicate Recordable(s: Tables, k: string, seen: Option<Observation>) {
    && seen.Some? && seen.value.operationKey == k && |Encode(seen.value.receipt)| <= 16384
    && k in s.operations && k !in s.observations
    && forall x :: x in s.observations ==>
         && s.observations[x].observationId != seen.value.observationId
         && s.observations[x].evidenceId != seen.value.evidenceId
  }

  /** What is seen of another draft has other ids. */
  predicate Apart(k: string, seen: Option<Observation>, o: Observation) {
    seen.Some? ==>
      && seen.value.operationKey == k && seen.value.observationId != o.observationId
      && seen.value.evidenceId != o.evidenceId
  }

  lemma {:induction false} ScanKeepsObservations(
    s: Tables, batch: seq<string>, observe: string -> Option<Observation>, clock: nat)
    ensures forall k :: k in s.observations ==>
      var t := ScanAll(s, batch, observe, clock); k in t.observations && t.observations[k] == s.observations[k]
    decreases |batch|
  {
    if batch != [] {
      ScanKeepsObservations(ScanOne(s, batch[0], observe, clock), batch[1..], observe, clock + 1);
    }
  }

  lemma OneScanRecords(s: Tables, k: string, observe: string -> Option<Observation>, clock: nat)
    requires Recordable(s, k, observe(k))
    ensures k in ScanOne(s, k, observe, clock).observations
    ensures ScanOne(s, k, observe, clock).observations[k] == observe(k).value
  {
  }

  lemma OneScanLeavesRecordable(
    s: Tables, k: string, observe: string -> Option<Observation>, clock: nat, other: string, seen: Option<Observation>)
    requires k != other && Recordable(s, other, seen) && Apart(k, observe(k), seen.value)
    ensures Recordable(ScanOne(s, k, observe, clock), other, seen)
  {
  }

  /** What is seen of a scanned draft is recorded whole, if it is the draft's own and clashes with nothing recorded
      before or seen earlier in the scan. */
  lemma {:induction false} ScanRecords(
    s: Tables, batch: seq<string>, observe: string -> Option<Observation>, clock: nat, i: nat)
    requires i < |batch| && (forall j, l :: 0 <= j < l < |batch| ==> batch[j] != batch[l])
    requires Recordable(s, batch[i], observe(batch[i]))
    requires forall j :: 0 <= j < i ==> Apart(batch[j], observe(batch[j]), observe(batch[i]).value)
    ensures var t := ScanAll(s, batch, observe, clock);
      batch[i] in t.observations && t.observations[batch[i]] == observe(batch[i]).value
    decreases |batch|
  {
    var next, rest := ScanOne(s, batch[0], observe, clock), batch[1..];
    if i == 0 {
      OneScanRecords(s, batch[0], observe, clock);
      ScanKeepsObservations(next, rest, observe, clock + 1);
    } else {
      OneScanLeavesRecordable(s, batch[0], observe, clock, batch[i], observe(batch[i]));
      assert rest[i - 1] == batch[i];
      ScanRecords(next, rest, observe, clock + 1, i - 1);
    }
  }
}
