/** The lock file of the work-scope registry, with processes that crash and pids that are used again. */
module RegistryLock {
  import opened Wrappers

  const GRACE_MS := 30000

  datatype Owner = Owner(pid: nat, instance: nat)

  /** `id` and `opener` tell one lock file from the next; the source sees the creation time and the record. */
  datatype LockFile = LockFile(id: nat, opener: nat, created: nat, record: Option<Owner>)

  /** Where a process is in `withWorkScopeRegistryLock`. */
  datatype Stage =
    | Idle
    | Ready(attempt: nat)
    | Writing(attempt: nat, lock: nat)
    | Inside(attempt: nat, lock: nat)
    | Blocked(attempt: nat)
    | Condemned(lock: nat)

  datatype Process = Process(pid: nat, stage: Stage)

  /** Live processes by instance id, every instance id ever used, the registration file of each pid, the lock. */
  datatype State = State(
    live: map<nat, Process>, used: set<nat>, registered: map<nat, nat>,
    lock: Option<LockFile>, nextLock: nat, now: nat)

  const START := State(map[], {}, map[], None, 0, 0)

  datatype Event =
    | Spawn(i: nat, pid: nat) | Crash(i: nat) | Tick(now: nat)
    | Register(i: nat)
    | Open(i: nat)
    | Write(i: nat) | WriteFails(i: nat) | SyncFails(i: nat)
    | Leave(i: nat) | Throw(i: nat)
    | Judge(i: nat) | Remove(i: nat)

  predicate PidAlive(s: State, pid: nat) {
    exists i :: i in s.live && s.live[i].pid == pid
  }

  /** The stale test: a recorded owner must be a running pid whose registration names the same instance;
      a lock without a readable record is stale once it is older than the grace. */
  predicate Stale(s: State, f: LockFile) {
    match f.record
    case Some(owner) => !PidAlive(s, owner.pid) || owner.pid !in s.registered
      || s.registered[owner.pid] != owner.instance
    case None => f.created <= s.now && s.now - f.created > GRACE_MS
  }

  predicate At(s: State, i: nat, stage: Stage) {
    i in s.live && s.live[i].stage == stage
  }

  predicate IsInside(s: State, i: nat) {
    i in s.live && s.live[i].stage.Inside?
  }

  predicate Possible(s: State, e: Event) {
    match e
    case Spawn(i, pid) => i !in s.used && !PidAlive(s, pid)
    case Crash(i) => i in s.live
    case Tick(now) => s.now <= now
    case Register(i) => At(s, i, Idle)
    case Open(i) => i in s.live && s.live[i].stage.Ready?
    case Write(i) => i in s.live && s.live[i].stage.Writing?
    case WriteFails(i) => i in s.live && s.live[i].stage.Writing?
    case SyncFails(i) => i in s.live && s.live[i].stage.Writing?
    case Leave(i) => IsInside(s, i)
    case Throw(i) => IsInside(s, i)
    case Judge(i) => i in s.live && s.live[i].stage.Blocked?
    case Remove(i) => i in s.live && s.live[i].stage.Condemned?
  }

  function Go(s: State, i: nat, stage: Stage): map<nat, Process>
    requires i in s.live
  {
    s.live[i := s.live[i].(stage := stage)]
  }

  /** The record goes through the handle, so only into the file that the process opened. */
  function Recorded(s: State, i: nat): Option<LockFile>
    requires i in s.live && s.live[i].stage.Writing?
  {
    match s.lock
    case Some(f) =>
      if f.id == s.live[i].stage.lock then Some(f.(record := Some(Owner(s.live[i].pid, i)))) else s.lock
    case None => None
  }

  function Happen(s: State, e: Event): State
    requires Possible(s, e)
  {
    match e
    case Spawn(i, pid) => s.(live := s.live[i := Process(pid, Idle)], used := s.used + {i})
    case Crash(i) => s.(live := s.live - {i})
    case Tick(now) => s.(now := now)
    case Register(i) => s.(registered := s.registered[s.live[i].pid := i], live := Go(s, i, Ready(0)))
    case Open(i) =>
      if s.lock == None then
        s.(lock := Some(LockFile(s.nextLock, i, s.now, None)), nextLock := s.nextLock + 1,
          live := Go(s, i, Writing(s.live[i].stage.attempt, s.nextLock)))
      else s.(live := Go(s, i, Blocked(s.live[i].stage.attempt)))
    case Write(i) =>
      s.(lock := Recorded(s, i), live := Go(s, i, Inside(s.live[i].stage.attempt, s.live[i].stage.lock)))
    case SyncFails(i) =>
      // the record is in the file, but the process does not get inside
      s.(lock := Recorded(s, i), live := Go(s, i, Blocked(s.live[i].stage.attempt)))
    case WriteFails(i) => s.(live := Go(s, i, Blocked(s.live[i].stage.attempt)))
    case Leave(i) => s.(lock := None, live := Go(s, i, Idle))
    case Throw(i) =>
      // the lock is given back first; the handler then looks at whatever lock file is there
      s.(lock := None, live := Go(s, i, Blocked(s.live[i].stage.attempt)))
    case Judge(i) =>
      (match s.lock
       case None => s.(live := Go(s, i, Idle))
       case Some(f) =>
         if s.live[i].stage.attempt == 0 && Stale(s, f) then s.(live := Go(s, i, Condemned(f.id)))
         else s.(live := Go(s, i, Idle)))
    case Remove(i) => s.(lock := None, live := Go(s, i, Ready(1)))
  }

  predicate Trace(s: State, events: seq<Event>)
    decreases |events|
  {
    events == [] || (Possible(s, events[0]) && Trace(Happen(s, events[0]), events[1..]))
  }

  function After(s: State, events: seq<Event>): State
    requires Trace(s, events)
    decreases |events|
  {
    if events == [] then s else After(Happen(s, events[0]), events[1..])
  }

  // ---- the two hypotheses ----

  /** Judging and removing act as one: what is removed is the lock that was judged, or already gone. */
  predicate RemovesWhatItJudged(s: State, e: Event) {
    e.Remove? && e.i in s.live && s.live[e.i].stage.Condemned? && s.lock.Some? ==>
      s.lock.value.id == s.live[e.i].stage.lock
  }

  /** No live process is still writing its record when the grace has passed. */
  predicate WritesInTime(s: State) {
    s.lock.Some? && s.lock.value.created <= s.now && s.now - s.lock.value.created > GRACE_MS ==>
      !(s.lock.value.opener in s.live && s.live[s.lock.value.opener].stage.Writing?
        && s.live[s.lock.value.opener].stage.lock == s.lock.value.id)
  }

  ghost predicate Careful(s: State, events: seq<Event>)
    requires Trace(s, events)
    decreases |events|
  {
    && WritesInTime(s)
    && (events == [] || (RemovesWhatItJudged(s, events[0]) && Careful(Happen(s, events[0]), events[1..])))
  }

  // ---- mutual exclusion ----

  predicate HoldsLock(s: State, i: nat, id: nat) {
    i in s.live && (s.live[i].stage.Writing? || s.live[i].stage.Inside?) && s.live[i].stage.lock == id
  }

  /** Whoever writes or is inside opened the lock file that exists now; inside, it is recorded and registered. */
  predicate HolderSound(s: State, i: nat)
    requires i in s.live
  {
    var p := s.live[i];
    && (p.stage.Writing? || p.stage.Inside? ==>
          s.lock.Some? && s.lock.value.id == p.stage.lock && s.lock.value.opener == i && p.pid in s.registered
            && s.registered[p.pid] == i)
    && (p.stage.Writing? ==> s.lock.value.record == None)
    && (p.stage.Inside? ==> s.lock.value.record == Some(Owner(p.pid, i)))
    && (p.stage.Ready? ==> p.pid in s.registered && s.registered[p.pid] == i)
    && (p.stage.Condemned? || p.stage.Blocked? ==> p.pid in s.registered && s.registered[p.pid] == i)
  }

  ghost predicate Sound(s: State) {
    && (forall i :: i in s.live ==> i in s.used)
    && (forall i, j :: i in s.live && j in s.live && s.live[i].pid == s.live[j].pid ==> i == j)
    && (s.lock.Some? ==> s.lock.value.id < s.nextLock && s.lock.value.opener in s.used)
    && (forall i :: i in s.live ==> HolderSound(s, i))
    && (forall i :: i in s.live && s.live[i].stage.Condemned? ==> NobodyHolds(s, s.live[i].stage.lock))
  }

  ghost predicate NobodyHolds(s: State, id: nat) {
    id < s.nextLock && forall j :: !HoldsLock(s, j, id)
  }

  /** A live owner's lock is never stale: not while it writes its record in time, not while it is inside. */
  lemma OwnerIsNeverStale(s: State, i: nat)
    requires Sound(s) && WritesInTime(s) && s.lock.Some? && HoldsLock(s, i, s.lock.value.id)
    ensures !Stale(s, s.lock.value)
  {
    assert HolderSound(s, i);
    assert s.live[i].pid == s.live[i].pid;
  }

  /** What a stale lock's removal needs: nobody live holds it. */
  lemma StaleIsAbandoned(s: State)
    requires Sound(s) && WritesInTime(s) && s.lock.Some? && Stale(s, s.lock.value)
    ensures NobodyHolds(s, s.lock.value.id)
  {
    forall j
      ensures !HoldsLock(s, j, s.lock.value.id)
    {
      if HoldsLock(s, j, s.lock.value.id) {
        OwnerIsNeverStale(s, j);
      }
    }
  }

  lemma LiveStaysSound(s: State, e: Event)
    requires Sound(s) && Possible(s, e)
    ensures forall i :: i in Happen(s, e).live ==> i in Happen(s, e).used
    ensures forall i, j ::
      i in Happen(s, e).live && j in Happen(s, e).live && Happen(s, e).live[i].pid == Happen(s, e).live[j].pid ==>
        i == j
  {
  }

  lemma HolderStaysSound(s: State, e: Event, k: nat)
    requires Sound(s) && Possible(s, e) && WritesInTime(s) && RemovesWhatItJudged(s, e)
    requires k in Happen(s, e).live
    ensures HolderSound(Happen(s, e), k)
  {
    if k in s.live {
      assert HolderSound(s, k);
    }
    match e {
      case Remove(i) =>
        assert NobodyHolds(s, s.live[i].stage.lock);
        assert !HoldsLock(s, k, s.live[i].stage.lock);
      case Leave(i) => assert HolderSound(s, i);
      case Write(i) => assert HolderSound(s, i);
      case Register(i) => assert k != i ==> s.live[k].pid != s.live[i].pid;
      case _ =>
    }
  }

  lemma CondemnedStaysAbandoned(s: State, e: Event, k: nat)
    requires Sound(s) && Possible(s, e) && WritesInTime(s)
    requires k in Happen(s, e).live && Happen(s, e).live[k].stage.Condemned?
    ensures NobodyHolds(Happen(s, e), Happen(s, e).live[k].stage.lock)
  {
    var t := Happen(s, e);
    var id := t.live[k].stage.lock;
    if e.Judge? && e.i == k {
      StaleIsAbandoned(s);
    } else {
      assert NobodyHolds(s, id);
    }
    forall j
      ensures !HoldsLock(t, j, id)
    {
      assert !HoldsLock(s, j, id);
    }
  }

  lemma EventKeepsSound(s: State, e: Event)
    requires Sound(s) && Possible(s, e) && WritesInTime(s) && RemovesWhatItJudged(s, e)
    ensures Sound(Happen(s, e))
  {
    var t := Happen(s, e);
    LiveStaysSound(s, e);
    forall k | k in t.live
      ensures HolderSound(t, k)
    {
      HolderStaysSound(s, e, k);
    }
    forall k | k in t.live && t.live[k].stage.Condemned?
      ensures NobodyHolds(t, t.live[k].stage.lock)
    {
      CondemnedStaysAbandoned(s, e, k);
    }
  }

  lemma {:induction false} TraceKeepsSound(s: State, events: seq<Event>)
    requires Sound(s) && Trace(s, events) && Careful(s, events)
    ensures Sound(After(s, events)) && WritesInTime(After(s, events))
    decreases |events|
  {
    if events != [] {
      EventKeepsSound(s, events[0]);
      TraceKeepsSound(Happen(s, events[0]), events[1..]);
    }
  }

  /** Mutual exclusion: with crashes and reused pids anywhere, at most one process is inside the locked
      action, and the lock of whoever is inside is not stale. */
  lemma MutualExclusion(events: seq<Event>, i: nat, j: nat)
    requires Trace(START, events) && Careful(START, events)
    ensures IsInside(After(START, events), i) && IsInside(After(START, events), j) ==> i == j
    ensures IsInside(After(START, events), i) ==>
      After(START, events).lock.Some? && !Stale(After(START, events), After(START, events).lock.value)
  {
    TraceKeepsSound(START, events);
    var s := After(START, events);
    if IsInside(s, i) {
      assert HolderSound(s, i);
      OwnerIsNeverStale(s, i);
    }
    if IsInside(s, j) {
      assert HolderSound(s, j);
    }
  }

  // ---- a lock left behind by a live process ----

  /** The lock names a live, registered process that is not inside and not about to be. */
  predicate LeftBehind(s: State, i: nat, f: LockFile) {
    && s.lock == Some(f) && i in s.live && f.record == Some(Owner(s.live[i].pid, i))
    && s.live[i].pid in s.registered && s.registered[s.live[i].pid] == i
    && !s.live[i].stage.Writing? && !s.live[i].stage.Inside?
    && forall k :: k in s.live && s.live[k].stage.Condemned? ==> s.live[k].stage.lock != f.id
  }

  lemma LeftBehindIsNotStale(s: State, i: nat, f: LockFile)
    requires Sound(s) && LeftBehind(s, i, f)
    ensures !Stale(s, f) && forall j :: !IsInside(s, j)
    ensures forall j :: j in s.live ==> !s.live[j].stage.Writing?
  {
    forall j
      ensures !IsInside(s, j)
      ensures j in s.live ==> !s.live[j].stage.Writing?
    {
      assert j in s.live ==> HolderSound(s, j);
    }
  }

  lemma SyncFailureLeavesLock(s: State, i: nat)
    requires Sound(s) && Possible(s, SyncFails(i))
    ensures var t := Happen(s, SyncFails(i)); t.lock.Some? && LeftBehind(t, i, t.lock.value)
  {
    assert HolderSound(s, i);
    forall k | k in s.live && s.live[k].stage.Condemned?
      ensures s.live[k].stage.lock != s.live[i].stage.lock
    {
      assert !HoldsLock(s, i, s.live[k].stage.lock);
    }
  }

  lemma LeftBehindStays(s: State, e: Event, i: nat, f: LockFile)
    requires Sound(s) && LeftBehind(s, i, f) && Possible(s, e) && e != Crash(i) && RemovesWhatItJudged(s, e)
    ensures LeftBehind(Happen(s, e), i, f)
  {
    LeftBehindIsNotStale(s, i, f);
    if e.Register? {
      assert e.i != i ==> s.live[e.i].pid != s.live[i].pid;
    }
  }

  lemma {:induction false} LeftBehindRemains(s: State, events: seq<Event>, i: nat, f: LockFile)
    requires Sound(s) && LeftBehind(s, i, f) && Trace(s, events) && Careful(s, events) && Crash(i) !in events
    ensures LeftBehind(After(s, events), i, f) && Sound(After(s, events))
    decreases |events|
  {
    if events != [] {
      LeftBehindStays(s, events[0], i, f);
      EventKeepsSound(s, events[0]);
      LeftBehindRemains(Happen(s, events[0]), events[1..], i, f);
    }
  }

  /** A process whose record reached the file but not the disk leaves a lock that is never stale while it lives:
      nobody gets inside until it has died, itself included. */
  lemma UnsyncedLockBlocks(s: State, i: nat, events: seq<Event>)
    requires Sound(s) && Possible(s, SyncFails(i)) && Trace(s, [SyncFails(i)] + events)
    requires Careful(s, [SyncFails(i)] + events) && Crash(i) !in events
    ensures var t := After(s, [SyncFails(i)] + events);
      && t.lock == Happen(s, SyncFails(i)).lock && t.lock.Some? && !Stale(t, t.lock.value)
      && forall j :: !IsInside(t, j)
  {
    var u := Happen(s, SyncFails(i));
    assert ([SyncFails(i)] + events)[1..] == events;
    SyncFailureLeavesLock(s, i);
    EventKeepsSound(s, SyncFails(i));
    LeftBehindRemains(u, events, i, u.lock.value);
    LeftBehindIsNotStale(After(u, events), i, u.lock.value);
  }

  // ---- recovery ----

  lemma FirstOf(s: State, e: Event, rest: seq<Event>)
    requires Possible(s, e) && Trace(Happen(s, e), rest)
    ensures Trace(s, [e] + rest) && After(s, [e] + rest) == After(Happen(s, e), rest)
  {
    assert ([e] + rest)[0] == e && ([e] + rest)[1..] == rest;
  }

  lemma {:induction false} Joined(s: State, a: seq<Event>, b: seq<Event>)
    requires Trace(s, a) && Trace(After(s, a), b)
    ensures Trace(s, a + b) && After(s, a + b) == After(After(s, a), b)
    decreases |a|
  {
    if a == [] {
      assert a + b == b;
    } else {
      Joined(Happen(s, a[0]), a[1..], b);
      assert (a + b)[0] == a[0] && (a + b)[1..] == a[1..] + b;
    }
  }

  lemma One(s: State, e: Event)
    requires Possible(s, e)
    ensures Trace(s, [e]) && After(s, [e]) == Happen(s, e)
  {
    FirstOf(s, e, []);
    assert [e] + [] == [e];
  }

  function Takes(i: nat): seq<Event> {
    [Remove(i)] + ([Open(i)] + [Write(i)])
  }

  /** A condemned process gets in, whatever lock is there when it removes. */
  lemma CondemnedGetsIn(s: State, i: nat, lock: nat)
    requires At(s, i, Condemned(lock))
    ensures Trace(s, Takes(i)) && At(After(s, Takes(i)), i, Inside(1, s.nextLock))
    ensures forall j :: j != i ==> (j in After(s, Takes(i)).live <==> j in s.live)
    ensures forall j :: j != i && j in s.live ==> After(s, Takes(i)).live[j] == s.live[j]
  {
    var s1 := Happen(s, Remove(i));
    var s2 := Happen(s1, Open(i));
    One(s2, Write(i));
    FirstOf(s1, Open(i), [Write(i)]);
    FirstOf(s, Remove(i), [Open(i)] + [Write(i)]);
  }

  lemma SamePids(s: State, t: State, pid: nat)
    requires s.live.Keys == t.live.Keys && forall k :: k in s.live ==> s.live[k].pid == t.live[k].pid
    ensures PidAlive(s, pid) == PidAlive(t, pid)
  {
  }

  function Asks(i: nat): seq<Event> {
    [Register(i)] + ([Open(i)] + [Judge(i)])
  }

  /** A recorded lock: the caller's pid was the dead owner's, or that pid is unused or was registered by a later
      instance. A lock without a record: the grace has passed. */
  predicate Recoverable(s: State, i: nat, f: LockFile)
    requires i in s.live
  {
    match f.record
    case Some(owner) =>
      s.live[i].pid == owner.pid || !PidAlive(s, owner.pid)
      || owner.pid !in s.registered || s.registered[owner.pid] != owner.instance
    case None => f.created <= s.now && s.now - f.created > 30000
  }

  /** A lock whose owner, if it names one, has died, and a caller about to ask. */
  predicate Abandoned(s: State, i: nat) {
    At(s, i, Idle) && s.lock.Some? && (s.lock.value.record.Some? ==> s.lock.value.record.value.instance !in s.live)
  }

  lemma AskingJudges(s: State, i: nat)
    requires Sound(s) && Abandoned(s, i)
    ensures Trace(s, Asks(i))
    ensures At(After(s, Asks(i)), i, if Recoverable(s, i, s.lock.value) then Condemned(s.lock.value.id) else Idle)
  {
    var s1 := Happen(s, Register(i));
    var s2 := Happen(s1, Open(i));
    assert s2.lock == s.lock && s2.live[i] == Process(s.live[i].pid, Blocked(0));
    SamePids(s, s2, if s.lock.value.record.Some? then s.lock.value.record.value.pid else 0);
    assert Stale(s2, s.lock.value) <==> Recoverable(s, i, s.lock.value);
    One(s2, Judge(i));
    FirstOf(s1, Open(i), [Judge(i)]);
    FirstOf(s, Register(i), [Open(i)] + [Judge(i)]);
  }

  /** After a crash, inside the action or while writing the record, a caller left alone gets inside if the lock
      left behind is recoverable, and is refused otherwise (before the grace has passed, or with a pid taken over
      by a program that never registers). */
  lemma CrashRecovery(s: State, i: nat)
    requires Sound(s) && Abandoned(s, i)
    ensures Trace(s, Asks(i))
    ensures Recoverable(s, i, s.lock.value) ==>
      Trace(s, Asks(i) + Takes(i)) && IsInside(After(s, Asks(i) + Takes(i)), i)
    ensures !Recoverable(s, i, s.lock.value) ==> At(After(s, Asks(i)), i, Idle)
  {
    AskingJudges(s, i);
    if Recoverable(s, i, s.lock.value) {
      CondemnedGetsIn(After(s, Asks(i)), i, s.lock.value.id);
      Joined(s, Asks(i), Takes(i));
    }
  }

  // ---- without the first hypothesis ----

  /** Two callers judge the same abandoned lock; the second removes the lock the first has just taken. */
  function Race(i: nat, j: nat): seq<Event> {
    [Judge(i)] + [Judge(j)] + Takes(i) + Takes(j)
  }

  /** From every state with a stale lock and two blocked callers, both can end up inside. */
  lemma RaceLetsTwoIn(s: State, i: nat, j: nat)
    requires i != j && At(s, i, Blocked(0)) && At(s, j, Blocked(0)) && s.lock.Some? && Stale(s, s.lock.value)
    ensures Trace(s, Race(i, j))
    ensures IsInside(After(s, Race(i, j)), i) && IsInside(After(s, Race(i, j)), j)
  {
    var id := s.lock.value.id;
    var s1 := Happen(s, Judge(i));
    SamePids(s, s1, if s.lock.value.record.Some? then s.lock.value.record.value.pid else 0);
    var s2 := Happen(s1, Judge(j));
    One(s, Judge(i));
    One(s1, Judge(j));
    Joined(s, [Judge(i)], [Judge(j)]);
    CondemnedGetsIn(s2, i, id);
    Joined(s, [Judge(i)] + [Judge(j)], Takes(i));
    var s3 := After(s2, Takes(i));
    CondemnedGetsIn(s3, j, id);
    Joined(s, [Judge(i)] + [Judge(j)] + Takes(i), Takes(j));
    assert At(After(s3, Takes(j)), i, Inside(1, s2.nextLock)) && At(After(s3, Takes(j)), j, Inside(1, s3.nextLock));
  }

  /** Without the second hypothesis: a caller takes over the lock of a process that is slow to write its record,
      and then both are inside. */
  lemma SlowWriterLetsTwoIn(s: State, i: nat, j: nat)
    requires s.lock.Some? && s.lock.value.record == None && Stale(s, s.lock.value)
    requires i != j && i in s.live && s.live[i].stage.Writing? && At(s, j, Blocked(0))
    ensures var events := [Judge(j)] + Takes(j) + [Write(i)];
      Trace(s, events) && IsInside(After(s, events), i) && IsInside(After(s, events), j)
  {
    var s1 := Happen(s, Judge(j));
    One(s, Judge(j));
    CondemnedGetsIn(s1, j, s.lock.value.id);
    Joined(s, [Judge(j)], Takes(j));
    var s2 := After(s1, Takes(j));
    One(s2, Write(i));
    Joined(s, [Judge(j)] + Takes(j), [Write(i)]);
  }

  function SlowWriter(): seq<Event> {
    [Spawn(0, 10), Spawn(1, 11), Register(0), Register(1), Open(0), Open(1), Tick(GRACE_MS + 1)]
  }

  function SlowPoint(n: nat): State {
    var p0 := Process(10, if n < 3 then Idle else if n < 5 then Ready(0) else Writing(0, 0));
    var p1 := Process(11, if n < 4 then Idle else if n < 6 then Ready(0) else Blocked(0));
    State(
      if n == 0 then map[] else if n == 1 then map[0 := p0] else map[0 := p0, 1 := p1],
      if n == 0 then {} else if n == 1 then {0} else {0, 1},
      if n < 3 then map[] else if n == 3 then map[10 := 0] else map[10 := 0, 11 := 1],
      if n < 5 then None else Some(LockFile(0, 0, 0, None)),
      if n < 5 then 0 else 1, if n < 7 then 0 else GRACE_MS + 1)
  }

  lemma SlowStep(n: nat)
    requires n < 7
    ensures Possible(SlowPoint(n), SlowWriter()[n]) && Happen(SlowPoint(n), SlowWriter()[n]) == SlowPoint(n + 1)
  {
  }

  lemma {:induction false} SlowReaches(n: nat)
    requires n <= 7
    ensures Trace(START, SlowWriter()[..n]) && After(START, SlowWriter()[..n]) == SlowPoint(n)
  {
    var e := SlowWriter();
    if n > 0 {
      SlowReaches(n - 1);
      SlowStep(n - 1);
      One(SlowPoint(n - 1), e[n - 1]);
      Joined(START, e[..n - 1], [e[n - 1]]);
      assert e[..n - 1] + [e[n - 1]] == e[..n];
    }
  }

  /** Such a state is reached by one writer that takes longer than the grace. */
  lemma SlowWriterIsReachable()
    ensures Trace(START, SlowWriter())
    ensures var s := After(START, SlowWriter());
      && s.lock.Some? && s.lock.value.record == None && Stale(s, s.lock.value)
      && 0 in s.live && s.live[0].stage.Writing? && At(s, 1, Blocked(0))
  {
    SlowReaches(7);
    assert SlowWriter()[..7] == SlowWriter();
  }

  function CrashAndTwoCallers(): seq<Event> {
    [Spawn(0, 10), Register(0), Open(0), Write(0), Crash(0),
     Spawn(1, 11), Spawn(2, 12), Register(1), Register(2), Open(1), Open(2)]
  }

  function CrashPoint(n: nat): State {
    var p0 := Process(10, if n < 2 then Idle else if n == 2 then Ready(0) else if n == 3 then Writing(0, 0)
      else Inside(0, 0));
    var p1 := Process(11, if n < 8 then Idle else if n < 10 then Ready(0) else Blocked(0));
    var p2 := Process(12, if n < 9 then Idle else if n < 11 then Ready(0) else Blocked(0));
    State(
      if n == 0 || n == 5 then map[] else if n < 5 then map[0 := p0] else if n == 6 then map[1 := p1]
        else map[1 := p1, 2 := p2],
      if n == 0 then {} else if n < 6 then {0} else if n == 6 then {0, 1} else {0, 1, 2},
      if n < 2 then map[] else if n < 8 then map[10 := 0] else if n == 8 then map[10 := 0, 11 := 1]
        else map[10 := 0, 11 := 1, 12 := 2],
      if n < 3 then None else if n == 3 then Some(LockFile(0, 0, 0, None))
        else Some(LockFile(0, 0, 0, Some(Owner(10, 0)))),
      if n < 3 then 0 else 1, 0)
  }

  lemma CrashStep(n: nat)
    requires n < 11
    ensures Possible(CrashPoint(n), CrashAndTwoCallers()[n])
    ensures Happen(CrashPoint(n), CrashAndTwoCallers()[n]) == CrashPoint(n + 1)
  {
    assert n == 4 ==> CrashPoint(4).live - {0} == map[];
  }

  lemma {:induction false} CrashReaches(n: nat)
    requires n <= 11
    ensures Trace(START, CrashAndTwoCallers()[..n]) && After(START, CrashAndTwoCallers()[..n]) == CrashPoint(n)
  {
    var e := CrashAndTwoCallers();
    if n > 0 {
      CrashReaches(n - 1);
      CrashStep(n - 1);
      One(CrashPoint(n - 1), e[n - 1]);
      Joined(START, e[..n - 1], [e[n - 1]]);
      assert e[..n - 1] + [e[n - 1]] == e[..n];
    }
  }

  /** The states of `RaceLetsTwoIn` are reached: one crash and two callers suffice. */
  lemma RaceIsReachable()
    ensures Trace(START, CrashAndTwoCallers())
    ensures var s := After(START, CrashAndTwoCallers());
      At(s, 1, Blocked(0)) && At(s, 2, Blocked(0)) && s.lock.Some? && Stale(s, s.lock.value)
  {
    CrashReaches(11);
    assert CrashAndTwoCallers()[..11] == CrashAndTwoCallers();
    assert !PidAlive(CrashPoint(11), 10);
  }

  // ---- the lock is given back ----

  /** What a ready process does to get inside. */
  function Enters(j: nat): seq<Event> {
    [Open(j), Write(j)]
  }

  lemma TwoSteps(s: State, e: Event, f: Event)
    requires Possible(s, e) && Possible(Happen(s, e), f)
    ensures Trace(s, [e, f]) && After(s, [e, f]) == Happen(Happen(s, e), f)
  {
    assert [e, f][1..] == [f] && [f][1..] == [];
    assert Trace(Happen(Happen(s, e), f), []);
    assert Trace(Happen(s, e), [f]);
    assert After(Happen(s, e), [f]) == After(Happen(Happen(s, e), f), []);
  }

  /** With no lock file a ready process gets inside, and the lock then names it. */
  lemma FreeLockIsTaken(s: State, j: nat)
    requires s.lock == None && j in s.live && s.live[j].stage.Ready?
    ensures Trace(s, Enters(j)) && IsInside(After(s, Enters(j)), j)
    ensures var f := After(s, Enters(j)).lock; f.Some? && f.value.record == Some(Owner(s.live[j].pid, j))
  {
    TwoSteps(s, Open(j), Write(j));
  }

  lemma GoneLetsOthersIn(s: State, e: Event, i: nat, j: nat)
    requires Sound(s) && IsInside(s, i) && i != j && j in s.live && s.live[j].stage.Ready? && e in {Leave(i), Throw(i)}
    ensures Trace(s, [e] + Enters(j)) && IsInside(After(s, [e] + Enters(j)), j)
    ensures !IsInside(After(s, [e] + Enters(j)), i)
  {
    var t := Happen(s, e);
    FreeLockIsTaken(t, j);
    TwoSteps(t, Open(j), Write(j));
    FirstOf(s, e, Enters(j));
  }

  /** Whoever leaves gives the lock back, and so does whoever throws: a ready process then gets inside. */
  lemma LeavingLetsOthersIn(s: State, i: nat, j: nat)
    requires Sound(s) && IsInside(s, i) && i != j && j in s.live && s.live[j].stage.Ready?
    ensures s.lock.Some?
    ensures forall e :: e in {Leave(i), Throw(i)} ==>
      Trace(s, [e] + Enters(j)) && IsInside(After(s, [e] + Enters(j)), j) && !IsInside(After(s, [e] + Enters(j)), i)
  {
    assert HolderSound(s, i);
    GoneLetsOthersIn(s, Leave(i), i, j);
    GoneLetsOthersIn(s, Throw(i), i, j);
  }

  /** Some live process is writing or inside under the lock file. */
  ghost predicate LockIsHeld(s: State) {
    s.lock.Some? ==> exists i :: HoldsLock(s, i, s.lock.value.id)
  }

  /** Nothing that can leave a lock file behind. */
  predicate Orderly(e: Event) {
    !e.Crash? && !e.SyncFails? && !e.WriteFails?
  }

  lemma HolderGoesOn(s: State, e: Event, i: nat)
    requires Sound(s) && Possible(s, e) && Orderly(e) && s.lock.Some? && HoldsLock(s, i, s.lock.value.id)
    ensures Happen(s, e).lock.Some? ==> HoldsLock(Happen(s, e), i, Happen(s, e).lock.value.id)
  {
    assert HolderSound(s, i);
  }

  lemma HeldStaysHeld(s: State, e: Event)
    requires Sound(s) && LockIsHeld(s) && Possible(s, e) && Orderly(e)
    ensures LockIsHeld(Happen(s, e))
  {
    if s.lock.Some? {
      var i :| HoldsLock(s, i, s.lock.value.id);
      HolderGoesOn(s, e, i);
    } else if e.Open? {
      assert HoldsLock(Happen(s, e), e.i, s.nextLock);
    }
  }

  lemma {:induction false} HeldRemains(s: State, events: seq<Event>)
    requires Sound(s) && LockIsHeld(s) && Trace(s, events) && Careful(s, events)
    requires forall e :: e in events ==> Orderly(e)
    ensures LockIsHeld(After(s, events))
    decreases |events|
  {
    if events != [] {
      HeldStaysHeld(s, events[0]);
      EventKeepsSound(s, events[0]);
      HeldRemains(Happen(s, events[0]), events[1..]);
    }
  }

  /** As long as nobody crashes or fails to write its record, there is a lock file only while some live process is
      writing it or inside. */
  lemma NoLockWithoutHolder(events: seq<Event>)
    requires Trace(START, events) && Careful(START, events) && forall e :: e in events ==> Orderly(e)
    ensures LockIsHeld(After(START, events))
  {
    HeldRemains(START, events);
  }

  /** A caller that finds somebody else's good lock or no lock at all, or has removed one already, is refused and
      changes nothing else. */
  lemma RefusalKeepsLock(s: State, i: nat)
    requires i in s.live && s.live[i].stage.Blocked?
    requires s.lock.Some? && s.live[i].stage.attempt == 0 ==> !Stale(s, s.lock.value)
    ensures Possible(s, Judge(i)) && At(Happen(s, Judge(i)), i, Idle) && Happen(s, Judge(i)).lock == s.lock
    ensures forall j :: j != i && j in s.live ==>
      j in Happen(s, Judge(i)).live && Happen(s, Judge(i)).live[j] == s.live[j]
  {
  }


  /** A process that fails to write its record leaves its lock without one: at any later time until the grace has
      passed others are refused, and after that the next caller takes it over. */
  lemma FailedWriteBlocksForGrace(s: State, i: nat, now: nat, j: nat)
    requires Sound(s) && WritesInTime(s) && Possible(s, WriteFails(i)) && At(s, j, Idle) && s.now <= now
    ensures var t := Happen(Happen(s, WriteFails(i)), Tick(now));
      && t.lock == s.lock && t.lock.Some? && t.lock.value.record == None && Trace(t, Asks(j))
      && if t.lock.value.created <= now && now - t.lock.value.created > 30000
         then Trace(t, Asks(j) + Takes(j)) && IsInside(After(t, Asks(j) + Takes(j)), j)
         else At(After(t, Asks(j)), j, Idle)
  {
    assert HolderSound(s, i);
    EventKeepsSound(s, WriteFails(i));
    EventKeepsSound(Happen(s, WriteFails(i)), Tick(now));
    CrashRecovery(Happen(Happen(s, WriteFails(i)), Tick(now)), j);
  }


  // ---- a throwing action ----

  /** The action throws, another caller takes the lock and dies, and the handler takes it for a lock to recover. */
  function ThrownTwice(i: nat, j: nat): seq<Event> {
    [Throw(i)] + ([Open(j)] + ([Write(j)] + ([Crash(j)] + ([Judge(i)] + Takes(i)))))
  }

  lemma CrashedIsStale(s: State, i: nat, j: nat)
    requires Sound(s) && IsInside(s, j) && At(s, i, Blocked(0)) && i != j
    ensures var t := Happen(s, Crash(j));
      s.lock.Some? && t.lock == s.lock && Stale(t, s.lock.value) && At(t, i, Blocked(0))
  {
    assert HolderSound(s, j);
  }

  lemma HandlerGoesIn(s: State, i: nat)
    requires At(s, i, Blocked(0)) && s.lock.Some? && Stale(s, s.lock.value)
    ensures Trace(s, [Judge(i)] + Takes(i)) && IsInside(After(s, [Judge(i)] + Takes(i)), i)
  {
    CondemnedGetsIn(Happen(s, Judge(i)), i, s.lock.value.id);
    FirstOf(s, Judge(i), Takes(i));
  }

  /** An action that threw runs again when, before its handler looks, another caller has taken the lock and died. */
  lemma ThrownActionRunsAgain(s: State, i: nat, j: nat)
    requires Sound(s) && WritesInTime(s) && i != j && j in s.live && s.live[j].stage.Ready?
    requires IsInside(s, i) && s.live[i].stage.attempt == 0
    ensures Trace(s, ThrownTwice(i, j)) && IsInside(After(s, ThrownTwice(i, j)), i)
  {
    var s1 := Happen(s, Throw(i));
    var s2 := Happen(s1, Open(j));
    var s3 := Happen(s2, Write(j));
    EventKeepsSound(s, Throw(i));
    EventKeepsSound(s1, Open(j));
    EventKeepsSound(s2, Write(j));
    CrashedIsStale(s3, i, j);
    var s4 := Happen(s3, Crash(j));
    HandlerGoesIn(s4, i);
    FirstOf(s3, Crash(j), [Judge(i)] + Takes(i));
    FirstOf(s2, Write(j), [Crash(j)] + ([Judge(i)] + Takes(i)));
    FirstOf(s1, Open(j), [Write(j)] + ([Crash(j)] + ([Judge(i)] + Takes(i))));
    FirstOf(s, Throw(i), [Open(j)] + ([Write(j)] + ([Crash(j)] + ([Judge(i)] + Takes(i)))));
  }
}
