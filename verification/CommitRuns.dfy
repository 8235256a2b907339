/** Many `gitCommitPaths` runs at once over one repository, step by step, with leases coming and going,
    files changing and other programs holding `index.lock`. */
module CommitRuns {
  import opened CommitPaths
  import opened GitPaths
  import opened GitSpelling
  import opened GitTree
  import opened IndexRepair
  import opened Wrappers
  import W = WorkScopes

  datatype Stage =
    | Checked
    | HeadRead(expected: string)
    | Built(prepared: Prepared, source: Tree)
    | Published(prepared: Prepared)
    | Ended

  /** One call: its process and working directory, the lease it was checked under and the paths it asked for. */
  datatype Run = Run(process: nat, lease: W.Lease, dir: string, paths: seq<string>, stage: Stage)

  datatype State = State(
    root: string, world: W.World, commits: map<string, Commit>, head: string,
    index: Option<Tree>, locked: bool, worktree: Tree,
    runs: map<nat, Run>, records: map<string, Record>)

  datatype Event =
    | Lease(event: W.Event)
    | Edit(worktree: Tree)
    | Restage(index: Tree)
    | Lock | Unlock
    | Check(
        run: nat, process: nat, ref: string, dir: string, paths: seq<string>, staged: set<string>,
        conflicts: set<string>)
    | ReadHead(run: nat)
    | Build(run: nat, id: string, names: seq<string>)
    | Publish(run: nat)
    | Repair(run: nat, record: string)
    | Retry(process: nat, ref: string, record: string, dir: string)

  /** What the token registry answers a process that presents a reference. */
  function Resolved(w: W.World, process: nat, ref: string): Result<W.Lease, W.Error> {
    if W.Holds(w, process, ref) then Ok(w.tokens[(process, ref)]) else Err(W.NotFound)
  }

  function StageOf(s: State, run: nat): Stage {
    if run in s.runs then s.runs[run].stage else Ended
  }

  predicate Possible(s: State, e: Event)
    requires s.head in s.commits
  {
    match e
    case Lease(event) => W.Possible(s.world, event)
    case Edit(worktree) => TreeLike(worktree)
    case Restage(index) => !s.locked && TreeLike(index)
    case Lock => !s.locked
    case Unlock => s.locked
    case Check(run, process, ref, dir, paths, staged, conflicts) =>
      run !in s.runs && Refusal(s.root, s.head, Resolved(s.world, process, ref), paths, staged, conflicts) == None
    case ReadHead(run) => StageOf(s, run).Checked?
    case Build(run, id, names) =>
      StageOf(s, run).HeadRead? && s.runs[run].stage.expected in s.commits && names != []
      && var r := s.runs[run]; var c := Candidate(s.commits, r.stage.expected, s.worktree, r.dir, r.paths);
         (id in s.commits ==> s.commits[id] == c)
    case Publish(run) => StageOf(s, run).Built?
    case Repair(run, record) =>
      StageOf(s, run).Published? && StageOf(s, run).prepared.id in s.commits && record !in s.records
    case Retry(process, ref, record, _) =>
      record in s.records && s.records[record].commit in s.commits && !s.locked
      && W.Holds(s.world, process, ref) && ref == s.records[record].leaseRef
      && s.records[record].root == s.root == s.world.tokens[(process, ref)].repositoryRoot
      && InsideLease(s.world.tokens[(process, ref)], s.records[record].names)
  }

  function Moved(s: State, run: nat, stage: Stage): map<nat, Run>
    requires run in s.runs
  {
    s.runs[run := s.runs[run].(stage := stage)]
  }

  function Happen(s: State, e: Event): State
    requires s.head in s.commits && Possible(s, e)
  {
    match e
    case Lease(event) => s.(world := W.Happen(s.world, event))
    case Edit(worktree) => s.(worktree := worktree)
    case Restage(index) => s.(index := Some(index))
    case Lock => s.(locked := true)
    case Unlock => s.(locked := false)
    case Check(run, process, ref, dir, paths, _, _) =>
      s.(runs := s.runs[run := Run(process, s.world.tokens[(process, ref)], dir, paths, Checked)])
    case ReadHead(run) => s.(runs := Moved(s, run, HeadRead(s.head)))
    case Build(run, id, names) =>
      var r := s.runs[run];
      s.(commits := s.commits[id := Candidate(s.commits, r.stage.expected, s.worktree, r.dir, r.paths)],
         runs := Moved(s, run, Built(Prepared(r.stage.expected, id, names, r.lease.ref), s.worktree)))
    case Publish(run) =>
      var p := s.runs[run].stage.prepared;
      if s.head == p.expected && p.id in s.commits then s.(head := p.id, runs := Moved(s, run, Published(p)))
      else s.(runs := Moved(s, run, Ended))
    case Repair(run, record) =>
      var p := s.runs[run].stage.prepared;
      if s.locked then
        s.(records := s.records[record := Record(s.root, p.id, p.names, p.leaseRef)], runs := Moved(s, run, Ended))
      else
        var index := Repaired(s.index, s.commits[p.id].tree, s.runs[run].dir, p.names);
        s.(index := Some(index), runs := Moved(s, run, Ended))
    case Retry(_, _, record, dir) =>
      var kept := s.records[record];
      var index := Repaired(s.index, s.commits[kept.commit].tree, dir, kept.names);
      s.(index := Some(index), records := s.records - {record})
  }

  /** A repository at rest: one commit, no lease, no run. */
  predicate Fresh(s: State) {
    && s.world == W.START && s.head in s.commits && s.runs == map[] && s.records == map[]
    && TreeLike(s.worktree) && forall id :: id in s.commits ==> TreeLike(s.commits[id].tree)
  }

  ghost predicate RunSound(s: State, r: Run) {
    && r.lease.ref in s.world.issued && s.world.issued[r.lease.ref] == r.lease && InsideLease(r.lease, r.paths)
    && match r.stage
       case HeadRead(expected) => expected in s.commits
       case Built(p, source) =>
         p.expected in s.commits && p.id in s.commits && p.leaseRef == r.lease.ref && TreeLike(source)
         && s.commits[p.id] == Candidate(s.commits, p.expected, source, r.dir, r.paths)
       case Published(p) => p.id in s.commits && p.leaseRef == r.lease.ref
       case _ => true
  }

  ghost predicate Extends(c: map<string, Commit>, d: map<string, Commit>) {
    forall id :: id in c ==> id in d && d[id] == c[id]
  }

  ghost predicate RunsSound(s: State) {
    forall k :: k in s.runs ==> RunSound(s, s.runs[k])
  }

  predicate CommitsTreeLike(s: State) {
    forall id :: id in s.commits ==> TreeLike(s.commits[id].tree)
  }

  ghost predicate Sound(s: State) {
    && W.Sound(s.world) && s.head in s.commits && TreeLike(s.worktree) && CommitsTreeLike(s) && RunsSound(s)
    && (forall k :: k in s.records ==> s.records[k].commit in s.commits)
  }

  lemma FreshIsSound(s: State)
    requires Fresh(s)
    ensures Sound(s)
  {
  }

  lemma IssuedGrows(w: W.World, e: W.Event)
    requires W.Possible(w, e)
    ensures forall ref :: ref in w.issued ==>
      ref in W.Happen(w, e).issued && W.Happen(w, e).issued[ref] == w.issued[ref]
  {
  }

  /** A built commit is new or the very same, and its tree is one. */
  lemma BuildGrows(s: State, run: nat, id: string, names: seq<string>)
    requires Sound(s) && Possible(s, Build(run, id, names))
    ensures var t := Happen(s, Build(run, id, names));
      Extends(s.commits, t.commits) && CommitsTreeLike(t) && t.head in t.commits
  {
    var r := s.runs[run];
    OverlayIsTreeLike(s.commits[r.stage.expected].tree, s.worktree, Readings(r.dir, r.paths));
  }

  lemma PublishGrows(s: State, run: nat)
    requires Sound(s) && Possible(s, Publish(run))
    ensures var t := Happen(s, Publish(run)); t.commits == s.commits && t.head in t.commits
  {
    assert RunSound(s, s.runs[run]);
  }

  lemma OtherKeepsCommits(s: State, e: Event)
    requires s.head in s.commits && Possible(s, e) && !e.Build? && !e.Publish?
    ensures Happen(s, e).commits == s.commits && Happen(s, e).head == s.head
  {
  }

  /** Commit objects are never lost or altered, and a published head is one of them. */
  lemma CommitsGrow(s: State, e: Event)
    requires Sound(s) && Possible(s, e)
    ensures Extends(s.commits, Happen(s, e).commits)
    ensures CommitsTreeLike(Happen(s, e)) && Happen(s, e).head in Happen(s, e).commits
  {
    match e {
      case Build(run, id, names) => BuildGrows(s, run, id, names);
      case Publish(run) => PublishGrows(s, run);
      case _ => OtherKeepsCommits(s, e);
    }
  }

  lemma RunStaysSound(s: State, t: State, r: Run)
    requires RunSound(s, r)
    requires forall id :: id in s.commits ==> id in t.commits && t.commits[id] == s.commits[id]
    requires forall ref :: ref in s.world.issued ==> ref in t.world.issued && t.world.issued[ref] == s.world.issued[ref]
    ensures RunSound(t, r)
  {
  }

  lemma OtherRunStays(s: State, e: Event, k: nat)
    requires Sound(s) && Possible(s, e) && k in s.runs && RunSound(s, s.runs[k]) && (MovesRun(e) ==> k != e.run)
    ensures k in Happen(s, e).runs && RunSound(Happen(s, e), Happen(s, e).runs[k])
  {
    OthersKeepRuns(s, e, k);
    CommitsGrow(s, e);
    WorldGrows(s, e);
    RunStaysSound(s, Happen(s, e), s.runs[k]);
  }

  lemma WorldGrows(s: State, e: Event)
    requires s.head in s.commits && Possible(s, e)
    ensures forall ref :: ref in s.world.issued ==>
      ref in Happen(s, e).world.issued && Happen(s, e).world.issued[ref] == s.world.issued[ref]
  {
    if e.Lease? {
      IssuedGrows(s.world, e.event);
    }
  }

  lemma EventKeepsRun(s: State, e: Event, k: nat)
    requires Sound(s) && Possible(s, e) && k in s.runs
    ensures k in Happen(s, e).runs && RunSound(Happen(s, e), Happen(s, e).runs[k])
  {
    assert RunSound(s, s.runs[k]);
    if MovesRun(e) && k == e.run {
      RunMovesOn(s, e);
    } else {
      OtherRunStays(s, e, k);
    }
  }

  lemma CheckedIsSound(s: State, e: Event)
    requires Sound(s) && Possible(s, e) && e.Check?
    ensures RunSound(Happen(s, e), Happen(s, e).runs[e.run])
  {
  }

  lemma EventKeepsRuns(s: State, e: Event)
    requires Sound(s) && Possible(s, e)
    ensures RunsSound(Happen(s, e))
  {
    var t := Happen(s, e);
    forall k | k in t.runs
      ensures RunSound(t, t.runs[k])
    {
      if k in s.runs {
        EventKeepsRun(s, e, k);
      } else {
        CheckedIsSound(s, e);
      }
    }
  }

  predicate MovesRun(e: Event) {
    e.ReadHead? || e.Build? || e.Publish? || e.Repair?
  }

  lemma OthersKeepRuns(s: State, e: Event, k: nat)
    requires s.head in s.commits && Possible(s, e) && k in s.runs && (MovesRun(e) ==> k != e.run)
    ensures k in Happen(s, e).runs && Happen(s, e).runs[k] == s.runs[k]
  {
  }

  /** The run that takes the step stays sound. */
  lemma RunMovesOn(s: State, e: Event)
    requires Sound(s) && Possible(s, e) && MovesRun(e) && RunSound(s, s.runs[e.run])
    ensures e.run in Happen(s, e).runs && RunSound(Happen(s, e), Happen(s, e).runs[e.run])
  {
    match e {
      case ReadHead(run) => ReadHeadIsSound(s, run);
      case Build(run, id, names) => BuildIsSound(s, run, id, names);
      case Publish(run) => PublishIsSound(s, run);
      case Repair(run, record) => RepairIsSound(s, run, record);
    }
  }

  lemma ReadHeadIsSound(s: State, run: nat)
    requires Sound(s) && Possible(s, ReadHead(run)) && RunSound(s, s.runs[run])
    ensures var t := Happen(s, ReadHead(run)); run in t.runs && RunSound(t, t.runs[run])
  {
  }

  lemma RepairIsSound(s: State, run: nat, record: string)
    requires Sound(s) && Possible(s, Event.Repair(run, record)) && RunSound(s, s.runs[run])
    ensures var t := Happen(s, Event.Repair(run, record)); run in t.runs && RunSound(t, t.runs[run])
  {
    assert Happen(s, Event.Repair(run, record)).runs[run].stage == Ended;
  }

  lemma PublishIsSound(s: State, run: nat)
    requires Sound(s) && Possible(s, Publish(run)) && RunSound(s, s.runs[run])
    ensures var t := Happen(s, Publish(run)); run in t.runs && RunSound(t, t.runs[run])
  {
    var t := Happen(s, Publish(run));
    var p := s.runs[run].stage.prepared;
    if s.head == p.expected {
      assert t.runs[run] == s.runs[run].(stage := Published(p));
    } else {
      assert t.runs[run] == s.runs[run].(stage := Ended);
    }
  }

  lemma BuildIsSound(s: State, run: nat, id: string, names: seq<string>)
    requires Sound(s) && Possible(s, Build(run, id, names)) && RunSound(s, s.runs[run])
    ensures var t := Happen(s, Build(run, id, names)); run in t.runs && RunSound(t, t.runs[run])
  {
    var t := Happen(s, Build(run, id, names));
    var expected := s.runs[run].stage.expected;
    assert t.runs[run].stage == Built(Prepared(expected, id, names, s.runs[run].lease.ref), s.worktree);
    assert t.commits[expected] == s.commits[expected];
  }

  lemma EventKeepsSound(s: State, e: Event)
    requires Sound(s) && Possible(s, e)
    ensures Sound(Happen(s, e))
  {
    CommitsGrow(s, e);
    EventKeepsRuns(s, e);
    if e.Lease? {
      W.EventKeepsSound(s.world, e.event);
    }
    if e.Repair? {
      assert RunSound(s, s.runs[e.run]);
    }
  }

  ghost predicate Trace(s: State, events: seq<Event>)
    requires Sound(s)
    decreases |events|
  {
    events == []
      || (Possible(s, events[0]) && (EventKeepsSound(s, events[0]); Trace(Happen(s, events[0]), events[1..])))
  }

  ghost function After(s: State, events: seq<Event>): (t: State)
    requires Sound(s) && Trace(s, events)
    ensures Sound(t)
    decreases |events|
  {
    if events == [] then s
    else
      EventKeepsSound(s, events[0]);
      After(Happen(s, events[0]), events[1..])
  }

  // ---- no published commit is lost ----

  /** `earlier` is reached from `later` through at most `n` parents. */
  predicate Ancestor(commits: map<string, Commit>, earlier: string, later: string, n: nat)
    decreases n
  {
    earlier == later
      || (n > 0 && later in commits && commits[later].parent.Some?
        && Ancestor(commits, earlier, commits[later].parent.value, n - 1))
  }

  lemma {:induction false} AncestorGrows(c: map<string, Commit>, d: map<string, Commit>, a: string, b: string, n: nat)
    requires Ancestor(c, a, b, n)
    requires forall id :: id in c ==> id in d && d[id] == c[id]
    ensures Ancestor(d, a, b, n)
    decreases n
  {
    if a != b {
      AncestorGrows(c, d, a, c[b].parent.value, n - 1);
    }
  }

  lemma {:induction false} AncestorsChain(c: map<string, Commit>, x: string, y: string, z: string, m: nat, n: nat)
    requires Ancestor(c, x, y, m) && Ancestor(c, y, z, n)
    ensures Ancestor(c, x, z, m + n)
    decreases n
  {
    if y == z {
      AncestorMore(c, x, y, m, m + n);
    } else {
      AncestorsChain(c, x, y, c[z].parent.value, m, n - 1);
    }
  }

  lemma {:induction false} AncestorMore(c: map<string, Commit>, x: string, y: string, m: nat, n: nat)
    requires Ancestor(c, x, y, m) && m <= n
    ensures Ancestor(c, x, y, n)
    decreases m
  {
    if x != y {
      AncestorMore(c, x, c[y].parent.value, m - 1, n - 1);
    }
  }

  /** One step: the head stays, or becomes a child of the head it replaces. A lost race changes neither
      the branch nor the shared index. */
  lemma HeadStep(s: State, e: Event)
    requires Sound(s) && Possible(s, e)
    ensures Happen(s, e).head != s.head ==>
      && e.Publish? && s.runs[e.run].stage.prepared.expected == s.head
      && Happen(s, e).head == s.runs[e.run].stage.prepared.id
      && s.commits[Happen(s, e).head].parent == Some(s.head)
    ensures e.Publish? && s.runs[e.run].stage.prepared.expected != s.head ==>
      Happen(s, e) == s.(runs := Moved(s, e.run, Ended))
  {
    if e.Publish? {
      assert RunSound(s, s.runs[e.run]);
    }
  }

  lemma {:induction false} CommitsOnlyGrow(s: State, events: seq<Event>)
    requires Sound(s) && Trace(s, events)
    ensures Extends(s.commits, After(s, events).commits)
    decreases |events|
  {
    if events != [] {
      EventKeepsSound(s, events[0]);
      CommitsGrow(s, events[0]);
      CommitsOnlyGrow(Happen(s, events[0]), events[1..]);
    }
  }

  /** No lost update: however runs interleave, every head the branch ever had is an ancestor of every later head. */
  lemma {:induction false} NoPublishedCommitIsLost(s: State, events: seq<Event>)
    requires Sound(s) && Trace(s, events)
    ensures Ancestor(After(s, events).commits, s.head, After(s, events).head, |events|)
    decreases |events|
  {
    if events != [] {
      var t := Happen(s, events[0]);
      EventKeepsSound(s, events[0]);
      CommitsOnlyGrow(t, events[1..]);
      StepIsAncestor(s, events[0], After(s, events).commits);
      NoPublishedCommitIsLost(t, events[1..]);
      AncestorsChain(After(s, events).commits, s.head, t.head, After(s, events).head, 1, |events| - 1);
    }
  }

  lemma StepIsAncestor(s: State, e: Event, c: map<string, Commit>)
    requires Sound(s) && Possible(s, e) && Extends(Happen(s, e).commits, c)
    ensures Ancestor(c, s.head, Happen(s, e).head, 1)
  {
    CommitsGrow(s, e);
    HeadStep(s, e);
    if Happen(s, e).head != s.head {
      assert Ancestor(c, s.head, s.head, 0);
    }
  }

  /** What a published commit changed: exactly the files that git reads the requested paths as, taken from the
      worktree it staged, and the files that gave way to a directory. It stays inside the lease if and only if all
      of these that changed are the lease's; of the requested ones they are if the paths are read inside it. */
  lemma PublishedStaysInsideLease(s: State, run: nat)
    requires Sound(s) && Possible(s, Publish(run)) && s.head == s.runs[run].stage.prepared.expected
    ensures var r := s.runs[run]; var t := Happen(s, Publish(run));
      var base, tree, read := s.commits[s.head].tree, t.commits[t.head].tree, Readings(r.dir, r.paths);
      && t.head == r.stage.prepared.id && t.commits[t.head].parent == Some(s.head)
      && TakesTouched(tree, base, r.stage.source, read)
      && ((forall p :: At(tree, p) != At(base, p) ==> Covers(r.lease.allowedPaths, p)) <==>
          (forall p :: Reaches(read, p) && At(r.stage.source, p) != At(base, p) ==> Covers(r.lease.allowedPaths, p))
          && (forall p :: p in base && Displaced(r.stage.source, read, p) ==> Covers(r.lease.allowedPaths, p)))
      && (ReadsInside(r.lease, r.dir, r.paths) ==> forall p :: Reaches(read, p) ==> Covers(r.lease.allowedPaths, p))
  {
    var r := s.runs[run];
    assert RunSound(s, r);
    StagedStaysInside(s.commits[s.head].tree, r.stage.source, r.lease, r.dir, r.paths);
  }

  lemma StagedStaysInside(base: Tree, source: Tree, lease: W.Lease, dir: string, paths: seq<string>)
    requires TreeLike(source)
    ensures var read := Readings(dir, paths); var tree := Overlay(base, source, read);
      && TakesTouched(tree, base, source, read)
      && ((forall p :: At(tree, p) != At(base, p) ==> Covers(lease.allowedPaths, p)) <==>
          (forall p :: Reaches(read, p) && At(source, p) != At(base, p) ==> Covers(lease.allowedPaths, p))
          && (forall p :: p in base && Displaced(source, read, p) ==> Covers(lease.allowedPaths, p)))
      && (ReadsInside(lease, dir, paths) ==> forall p :: Reaches(read, p) ==> Covers(lease.allowedPaths, p))
  {
    var read := Readings(dir, paths);
    forall p
      ensures At(Overlay(base, source, read), p) == if Touched(source, read, p) then At(source, p) else At(base, p)
    {
      OverlayAt(base, source, read, p);
    }
    OverlayStaysInside(base, source, read, lease.allowedPaths);
    if ReadsInside(lease, dir, paths) {
      forall p | Reaches(read, p)
        ensures Covers(lease.allowedPaths, p)
      {
        ReachedIsCovered(lease, dir, paths, p);
      }
    }
  }

  // ---- published content survives ----

  /** A run that moves the branch does it while its own lease still holds. */
  predicate Timely(s: State, e: Event) {
    e.Publish? && e.run in s.runs ==> W.Holds(s.world, s.runs[e.run].process, s.runs[e.run].lease.ref)
  }

  /** A run that moves the branch writes inside its own lease: at the root, a lease spelled canonically is enough
      (`CommitPaths.CanonicalLeaseReadsInside`). */
  predicate WritesItsLease(s: State, e: Event) {
    e.Publish? && e.run in s.runs ==> ReadsInside(s.runs[e.run].lease, s.runs[e.run].dir, s.runs[e.run].paths)
  }

  /** While a lease holds, only its own runs publish anything on its paths. */
  lemma OthersSpareLease(s: State, e: Event, process: nat, ref: string, p: string)
    requires Sound(s) && Possible(s, e) && Timely(s, e) && WritesItsLease(s, e)
    requires W.Holds(s.world, process, ref) && Covers(s.world.tokens[(process, ref)].allowedPaths, p)
    requires e.Publish? ==> s.runs[e.run].lease.ref != ref
    ensures At(Happen(s, e).commits[Happen(s, e).head].tree, p) == At(s.commits[s.head].tree, p)
  {
    HeadStep(s, e);
    CommitsGrow(s, e);
    if Happen(s, e).head != s.head {
      var r := s.runs[e.run];
      assert RunSound(s, r);
      var other := s.world.tokens[(process, ref)];
      var mine := r.lease;
      assert W.Registered(s.world, ref) && W.Registered(s.world, mine.ref);
      assert W.Compatible(mine, s.world.issued[ref]);
      var read := Readings(r.dir, r.paths);
      forall q | Reaches(read, q)
        ensures Covers(mine.allowedPaths, q)
      {
        ReachedIsCovered(mine, r.dir, r.paths, q);
      }
      OverlaySparesDisjoint(s.commits[s.head].tree, r.stage.source, read, mine.allowedPaths, other.allowedPaths, p);
    }
  }

  /** All along the events the lease holds, its own runs publish nothing, and whoever publishes is timely and
      writes inside its own lease. */
  ghost predicate Undisturbed(s: State, events: seq<Event>, process: nat, ref: string)
    requires Sound(s) && Trace(s, events)
    decreases |events|
  {
    && W.Holds(s.world, process, ref)
    && (events == [] || (
          Timely(s, events[0]) && WritesItsLease(s, events[0])
          && (events[0].Publish? ==> s.runs[events[0].run].lease.ref != ref)
          && (EventKeepsSound(s, events[0]); Undisturbed(Happen(s, events[0]), events[1..], process, ref))))
  }

  lemma TokenStays(s: State, e: Event, process: nat, ref: string)
    requires Sound(s) && Possible(s, e)
    requires W.Holds(s.world, process, ref) && W.Holds(Happen(s, e).world, process, ref)
    ensures Happen(s, e).world.tokens[(process, ref)] == s.world.tokens[(process, ref)]
  {
    EventKeepsSound(s, e);
    WorldGrows(s, e);
    assert s.world.tokens[(process, ref)] == s.world.issued[ref];
    assert Happen(s, e).world.tokens[(process, ref)] == Happen(s, e).world.issued[ref];
  }

  /** Published content survives: as long as the lease holds, every path it covers keeps, in every later
      head, the content of the head from which we watched. */
  lemma {:induction false} PublishedContentSurvives(s: State, events: seq<Event>, process: nat, ref: string, p: string)
    requires Sound(s) && Trace(s, events) && Undisturbed(s, events, process, ref)
    requires Covers(s.world.tokens[(process, ref)].allowedPaths, p)
    ensures At(After(s, events).commits[After(s, events).head].tree, p) == At(s.commits[s.head].tree, p)
    decreases |events|
  {
    if events != [] {
      EventKeepsSound(s, events[0]);
      OthersSpareLease(s, events[0], process, ref, p);
      TokenStays(s, events[0], process, ref);
      PublishedContentSurvives(Happen(s, events[0]), events[1..], process, ref, p);
    }
  }

  /** A late repair is right: when the lease that published still holds, the retry's own checks pass and git reads
      the names inside the lease, the head still has what was published on every path the repair touches. So, with
      `IndexRepair.RepairsSettle`, the repaired index agrees with the head there and is otherwise unchanged,
      in whatever order such repairs come. */
  lemma LateRepairIsCurrent(s: State, events: seq<Event>, process: nat, record: string, dir: string)
    requires Sound(s) && Trace(s, events)
    requires record in After(s, events).records && s.head == After(s, events).records[record].commit
    requires Undisturbed(s, events, process, After(s, events).records[record].leaseRef)
    requires Possible(After(s, events), Retry(process, After(s, events).records[record].leaseRef, record, dir))
    requires var t := After(s, events); var r := t.records[record];
      ReadsInside(t.world.tokens[(process, r.leaseRef)], dir, r.names)
    ensures var t := After(s, events); var r := t.records[record];
      Current(IndexRepair.Repair.Repair(t.commits[r.commit].tree, Readings(dir, r.names)), t.commits[t.head].tree)
  {
    var t := After(s, events);
    var r := t.records[record];
    var published, now := t.commits[r.commit].tree, t.commits[t.head].tree;
    CommitsOnlyGrow(s, events);
    StillHolds(s, events, process, r.leaseRef);
    var read := Readings(dir, r.names);
    forall q | Reaches(read, q)
      ensures At(now, q) == At(published, q)
    {
      ReachedIsCovered(t.world.tokens[(process, r.leaseRef)], dir, r.names, q);
      PublishedContentSurvives(s, events, process, r.leaseRef, q);
    }
    forall q | Displaced(published, read, q)
      ensures At(now, q) == At(published, q)
    {
      var below :| below in published && Reaches(read, below) && Below(below, q);
      assert At(now, below) == At(published, below);
      assert below in now;
    }
  }

  lemma {:induction false} StillHolds(s: State, events: seq<Event>, process: nat, ref: string)
    requires Sound(s) && Trace(s, events) && Undisturbed(s, events, process, ref)
    ensures W.Holds(After(s, events).world, process, ref)
    ensures After(s, events).world.tokens[(process, ref)] == s.world.tokens[(process, ref)]
    decreases |events|
  {
    if events != [] {
      EventKeepsSound(s, events[0]);
      TokenStays(s, events[0], process, ref);
      StillHolds(Happen(s, events[0]), events[1..], process, ref);
    }
  }

  // ---- what a repair does to the shared index ----

  /** The index has the commit's content on every path that the names touch as read, and is as before elsewhere; a
      missing index was first filled from the commit. */
  ghost predicate TakesOver(before: Option<Tree>, after: Option<Tree>, tree: Tree, read: seq<string>) {
    && after.Some?
    && (forall p :: Touched(tree, read, p) || before.None? ==> At(after.value, p) == At(tree, p))
    && (forall p :: before.Some? && !Touched(tree, read, p) ==> At(after.value, p) == At(before.value, p))
  }

  lemma RepairedTakesOver(index: Option<Tree>, tree: Tree, dir: string, names: seq<string>)
    requires TreeLike(tree)
    ensures TakesOver(index, Some(Repaired(index, tree, dir, names)), tree, Readings(dir, names))
  {
    forall p {
      OverlayAt(match index case Some(t) => t case None => tree, tree, Readings(dir, names), p);
    }
  }

  /** With the index free, a published run ends with the shared index having taken its commit over. */
  lemma RepairTakesOver(s: State, run: nat, record: string)
    requires Sound(s) && Possible(s, Event.Repair(run, record)) && !s.locked
    ensures var r := s.runs[run]; var p := r.stage.prepared; var t := Happen(s, Event.Repair(run, record));
      TakesOver(s.index, t.index, s.commits[p.id].tree, Readings(r.dir, p.names)) && t.records == s.records
  {
    var p := s.runs[run].stage.prepared;
    RepairedTakesOver(s.index, s.commits[p.id].tree, s.runs[run].dir, p.names);
  }

  /** With the index locked it ends with a record of all that a later repair needs, and the index as it was. */
  lemma RepairIsRecorded(s: State, run: nat, record: string)
    requires Sound(s) && Possible(s, Event.Repair(run, record)) && s.locked
    ensures var p := s.runs[run].stage.prepared; var t := Happen(s, Event.Repair(run, record));
      && t.index == s.index && t.records.Keys == s.records.Keys + {record}
      && t.records[record].root == s.root && t.records[record].commit == p.id
      && t.records[record].names == p.names && t.records[record].leaseRef == p.leaseRef
      && forall k :: k in s.records ==> k in t.records && t.records[k] == s.records[k]
  {
  }

  /** A later repair makes the index take the recorded commit over, and drops that record only. */
  lemma RetryTakesOver(s: State, process: nat, ref: string, record: string, dir: string)
    requires Sound(s) && Possible(s, Retry(process, ref, record, dir))
    ensures var kept := s.records[record]; var t := Happen(s, Retry(process, ref, record, dir));
      && TakesOver(s.index, t.index, s.commits[kept.commit].tree, Readings(dir, kept.names))
      && t.records.Keys == s.records.Keys - {record}
      && forall k :: k in t.records ==> t.records[k] == s.records[k]
  {
    var kept := s.records[record];
    RepairedTakesOver(s.index, s.commits[kept.commit].tree, dir, kept.names);
  }

  /** Nothing else but staging by others changes the index or the records. */
  lemma OthersKeepIndex(s: State, e: Event)
    requires s.head in s.commits && Possible(s, e) && !e.Repair? && !e.Retry? && !e.Restage?
    ensures Happen(s, e).index == s.index && Happen(s, e).records == s.records
  {
  }


  /** A record goes only to a process that holds the lease it was made under, in the same repository, with every name
      in it covered by that lease. */
  lemma RecordGoesToItsScope(s: State, e: Event, record: string)
    requires s.head in s.commits && Possible(s, e) && record in s.records && record !in Happen(s, e).records
    ensures e.Retry? && e.record == record && !s.locked
    ensures var kept := s.records[record];
      && e.ref == kept.leaseRef && kept.root == s.root && W.Holds(s.world, e.process, kept.leaseRef)
      && s.world.tokens[(e.process, kept.leaseRef)].repositoryRoot == s.root
      && forall k :: 0 <= k < |kept.names| ==>
           Covers(s.world.tokens[(e.process, kept.leaseRef)].allowedPaths, kept.names[k])
  {
    if !e.Retry? {
      OnlyRetryDrops(s, e);
    }
  }

  lemma OnlyRetryDrops(s: State, e: Event)
    requires s.head in s.commits && Possible(s, e) && !e.Retry?
    ensures s.records.Keys <= Happen(s, e).records.Keys
  {
  }


  /** A run starts only under a lease that holds at that moment, for this repository and based on its head, which
      covers the paths asked for. */
  lemma RunStartsUnderLiveLease(s: State, e: Event, run: nat)
    requires s.head in s.commits && Possible(s, e) && run !in s.runs && run in Happen(s, e).runs
    ensures e.Check? && (e.process, e.ref) in s.world.tokens
    ensures var lease := s.world.tokens[(e.process, e.ref)]; var r := Happen(s, e).runs[run];
      && e.ref in s.world.files && s.world.now < lease.expiresAt && lease.repositoryRoot == s.root
      && lease.baseHead == Some(s.head) && r.lease == lease && r.process == e.process && r.paths == e.paths != []
      && r.dir == e.dir && r.stage.Checked? && forall k :: 0 <= k < |r.paths| ==> Covers(lease.allowedPaths, r.paths[k])
  {
    if !e.Check? {
      OthersStartNothing(s, e);
    }
  }

  lemma OthersStartNothing(s: State, e: Event)
    requires s.head in s.commits && Possible(s, e) && !e.Check?
    ensures Happen(s, e).runs.Keys <= s.runs.Keys
  {
  }
}
