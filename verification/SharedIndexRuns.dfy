/** The shared index over many commits: repairs wait while `index.lock` is taken and come in any order, between
    other commits or after all of them. */
module SharedIndexRuns {
  import opened GitPaths
  import opened GitSpelling
  import opened GitTree
  import opened IndexRepair
  import opened Wrappers

  /** The shared index, the branch's tree, and the repairs of published commits still to be made. */
  datatype State = State(index: Tree, head: Tree, pending: seq<Repair>)

  /** A commit of requested paths from the worktree, with the lines of the status and the names of its diff; or
      one of the pending repairs; each run in some directory. */
  datatype Event =
    | Commit(worktree: Tree, dir: string, requested: seq<string>, lines: set<string>, names: seq<string>)
    | RepairOne(i: nat, dir: string)

  /** The requested paths as git reads them. */
  function Requested(e: Event): seq<string>
    requires e.Commit?
  {
    Readings(e.dir, e.requested)
  }

  predicate PlainTree(t: Tree) {
    TreeLike(t) && forall q :: q in t ==> PlainPath(q)
  }

  /** The commit passed the refusal of its own moment: the status, which has a line for every path that is then
      staged, shows nothing that overlaps. Its diff names every change. */
  predicate Possible(s: State, e: Event) {
    match e
    case Commit(worktree, _, requested, lines, names) =>
      && PlainTree(worktree)
      && Staged(s.index, s.head).Keys <= lines && !OverlapsStaged(requested, lines)
      && NamesChanges(names, s.head, Overlay(s.head, worktree, Requested(e)))
    case RepairOne(i, _) => i < |s.pending|
  }

  function Happen(s: State, e: Event): State
    requires Possible(s, e)
  {
    match e
    case Commit(worktree, _, _, _, names) =>
      var tree := Overlay(s.head, worktree, Requested(e));
      State(s.index, tree, s.pending + [Repair(tree, names)])
    case RepairOne(i, dir) =>
      var r := s.pending[i];
      State(Reset(s.index, r.tree, Readings(dir, r.paths)), s.head, s.pending[..i] + s.pending[i + 1..])
  }

  /** Run at the root, with requested and changed paths spelled canonically (git's own names are, up to a leading
      colon). */
  predicate WellSpelled(e: Event) {
    match e
    case Commit(_, dir, requested, _, names) => Spelled(dir, requested) && Spelled(dir, names)
    case RepairOne(_, dir) => dir == ""
  }

  predicate Trace(s: State, events: seq<Event>)
    decreases |events|
  {
    events == [] || (Possible(s, events[0]) && Trace(Happen(s, events[0]), events[1..]))
  }

  function After(s: State, events: seq<Event>): State
    requires Trace(s, events)
    decreases |events|
  {
    if events == [] then s else After(Happen(s, events[0]), events[1..])
  }

  // ---- the invariant ----

  /** The names of a pending repair are staged: the index still has the old content. They are read as written. */
  predicate NamesStaged(s: State, r: Repair) {
    && AllCanonical(r.paths)
    && forall k :: 0 <= k < |r.paths| ==> PlainPath(r.paths[k]) && r.paths[k] in Staged(s.index, s.head)
  }

  lemma PendingReadsAsWritten(s: State, r: Repair)
    requires NamesStaged(s, r)
    ensures Readings("", r.paths) == r.paths && "" !in r.paths
  {
    SpelledIsItself("", r.paths);
    SpelledIsNonempty("", r.paths);
  }

  /** A repair leaves the names of another one alone. */
  predicate Spares(r: Repair, other: Repair) {
    forall k :: 0 <= k < |other.paths| ==> !Touched(r.tree, r.paths, other.paths[k])
  }

  ghost predicate PendingSound(s: State) {
    && (forall i :: 0 <= i < |s.pending| ==> Current(s.pending[i], s.head) && NamesStaged(s, s.pending[i]))
    && (forall i, j :: 0 <= i < |s.pending| && 0 <= j < |s.pending| && i != j ==> Spares(s.pending[i], s.pending[j]))
  }

  /** Against the start: what was staged there is staged still and no repair touches it; anything else is in step
      with the head or waits for its repair. */
  predicate PathSound(start: State, s: State, p: string) {
    if p in Staged(start.index, start.head)
    then At(s.index, p) == At(start.index, p) && At(s.head, p) == At(start.head, p) && !TouchedByAny(s.pending, p)
    else TouchedByAny(s.pending, p) || At(s.index, p) == At(s.head, p)
  }

  ghost predicate Sound(start: State, s: State) {
    && PlainTree(s.index) && PlainTree(s.head) && PendingSound(s)
    && forall p :: PathSound(start, s, p)
  }

  lemma StartIsSound(start: State)
    requires PlainTree(start.index) && PlainTree(start.head) && start.pending == []
    ensures Sound(start, start)
  {
    forall p
      ensures PathSound(start, start, p)
    {
      StagedAt(start.index, start.head, p);
    }
  }

  // ---- a commit ----

  /** The refusal of the texts was one of the paths as read. */
  lemma CommitIsClear(s: State, e: Event)
    requires PlainTree(s.index) && PlainTree(s.head) && e.Commit? && Possible(s, e) && WellSpelled(e)
    ensures !OverlapsStaged(Requested(e), Staged(s.index, s.head).Keys) && "" !in Requested(e) && "" !in e.names
  {
    SpelledOverlap(e.dir, e.requested, e.lines);
    MoreLinesRefuseMore(Requested(e), Staged(s.index, s.head).Keys, e.lines);
    SpelledIsNonempty(e.dir, e.requested);
    forall k | 0 <= k < |e.names|
      ensures e.names[k] != ""
    {
      assert Canonical(e.names[k]);
    }
  }

  /** A staged path is neither changed by the commit nor touched by its repair. */
  lemma CommitSparesStaged(s: State, e: Event, p: string)
    requires PlainTree(s.index) && PlainTree(s.head) && e.Commit? && Possible(s, e) && WellSpelled(e)
    requires p in Staged(s.index, s.head)
    ensures var tree := Overlay(s.head, e.worktree, Requested(e));
      At(tree, p) == At(s.head, p) && !Touched(e.worktree, Requested(e), p) && !Touched(tree, e.names, p)
  {
    CommitIsClear(s, e);
    GuardSparesStaged(Requested(e), s.index, s.head, e.worktree, p);
    OverlayAt(s.head, e.worktree, Requested(e), p);
    assert p in s.index || p in s.head;
    RepairSparesStaged(s.index, s.head, e.worktree, Requested(e), e.names, p);
  }

  /** A file below a staged name: the commit leaves it as it was. */
  lemma CommitSparesBelow(s: State, e: Event, q: string, p: string)
    requires PlainTree(s.index) && PlainTree(s.head) && e.Commit? && Possible(s, e) && WellSpelled(e)
    requires q in Staged(s.index, s.head) && Below(p, q)
    ensures At(Overlay(s.head, e.worktree, Requested(e)), p) == At(s.head, p)
  {
    var tree := Overlay(s.head, e.worktree, Requested(e));
    OverlayIsTreeLike(s.head, e.worktree, Requested(e));
    CommitSparesStaged(s, e, q);
    if q in s.head {
      assert q in tree;
    } else if p in s.head {
      assert q in s.index && p !in s.index;
      StagedAt(s.index, s.head, p);
      CommitSparesStaged(s, e, p);
    } else {
      OverlayAt(s.head, e.worktree, Requested(e), p);
      assert !Displaced(e.worktree, Requested(e), q);
    }
  }

  lemma MatchIsBelow(p: string, q: string)
    requires PathMatches(p, q) && PlainPath(p) && PlainPath(q)
    ensures p == q || Below(p, q)
  {
  }

  /** A file that the tree of a pending repair holds at or below one of its names stays in the head. */
  lemma CommitKeepsHeld(s: State, e: Event, r: Repair, q: string)
    requires PlainTree(s.index) && PlainTree(s.head) && e.Commit? && Possible(s, e) && WellSpelled(e)
    requires Current(r, s.head) && NamesStaged(s, r) && q in r.tree && Reaches(r.paths, q)
    ensures At(Overlay(s.head, e.worktree, Requested(e)), q) == At(s.head, q)
  {
    assert At(s.head, q) == At(r.tree, q);
    PendingReadsAsWritten(s, r);
    ReachesCovers(r.paths, q);
    var k :| 0 <= k < |r.paths| && PathMatches(q, r.paths[k]);
    MatchIsBelow(q, r.paths[k]);
    if q == r.paths[k] {
      CommitSparesStaged(s, e, q);
    } else {
      CommitSparesBelow(s, e, r.paths[k], q);
    }
  }

  /** So a pending repair stays right across a commit. */
  lemma CommitKeepsCurrent(s: State, e: Event, r: Repair)
    requires PlainTree(s.index) && PlainTree(s.head) && e.Commit? && Possible(s, e) && WellSpelled(e)
    requires Current(r, s.head) && NamesStaged(s, r)
    ensures Current(r, Overlay(s.head, e.worktree, Requested(e)))
  {
    var tree := Overlay(s.head, e.worktree, Requested(e));
    OverlayIsTreeLike(s.head, e.worktree, Requested(e));
    forall p | Touched(r.tree, r.paths, p)
      ensures At(tree, p) == At(r.tree, p)
    {
      assert At(s.head, p) == At(r.tree, p);
      if Displaced(r.tree, r.paths, p) {
        var q :| q in r.tree && Reaches(r.paths, q) && Below(q, p);
        CommitKeepsHeld(s, e, r, q);
        assert At(s.head, q) == At(r.tree, q);
        assert q in tree && p !in tree && p !in r.tree;
      } else if p in s.head {
        CommitKeepsHeld(s, e, r, p);
      } else {
        CommitAddsNothing(s, e, r, p);
      }
    }
  }

  /** Nothing appears at or below a name that a pending repair has yet to take over. */
  lemma CommitAddsNothing(s: State, e: Event, r: Repair, p: string)
    requires PlainTree(s.index) && PlainTree(s.head) && e.Commit? && Possible(s, e) && WellSpelled(e)
    requires NamesStaged(s, r) && Reaches(r.paths, p) && p !in s.head
    ensures p !in Overlay(s.head, e.worktree, Requested(e))
  {
    var tree := Overlay(s.head, e.worktree, Requested(e));
    if p in tree {
      assert PlainPath(p);
      PendingReadsAsWritten(s, r);
      ReachesCovers(r.paths, p);
      var k :| 0 <= k < |r.paths| && PathMatches(p, r.paths[k]);
      MatchIsBelow(p, r.paths[k]);
      if p == r.paths[k] {
        CommitSparesStaged(s, e, p);
      } else {
        CommitSparesBelow(s, e, r.paths[k], p);
      }
    }
  }

  lemma CommitKeepsPending(s: State, e: Event)
    requires PlainTree(s.index) && PlainTree(s.head) && PendingSound(s) && e.Commit? && Possible(s, e) && WellSpelled(e)
    ensures forall i :: 0 <= i < |s.pending| ==>
      Current(s.pending[i], Happen(s, e).head) && NamesStaged(Happen(s, e), s.pending[i])
    ensures forall i :: 0 <= i < |s.pending| ==> Spares(Repair(Happen(s, e).head, e.names), s.pending[i])
  {
    var t := Happen(s, e);
    forall i | 0 <= i < |s.pending|
      ensures Current(s.pending[i], t.head) && NamesStaged(t, s.pending[i])
      ensures Spares(Repair(t.head, e.names), s.pending[i])
    {
      var r := s.pending[i];
      CommitKeepsCurrent(s, e, r);
      forall k | 0 <= k < |r.paths|
        ensures r.paths[k] in Staged(t.index, t.head) && !Touched(t.head, e.names, r.paths[k])
      {
        CommitSparesStaged(s, e, r.paths[k]);
        StagedAt(s.index, s.head, r.paths[k]);
        StagedAt(t.index, t.head, r.paths[k]);
      }
    }
  }

  lemma NewRepairIsSound(s: State, e: Event)
    requires PlainTree(s.index) && PlainTree(s.head) && e.Commit? && Possible(s, e) && WellSpelled(e)
    ensures var t := Happen(s, e); var r := Repair(t.head, e.names); Current(r, t.head) && NamesStaged(t, r)
  {
    var t := Happen(s, e);
    OverlayIsTreeLike(s.head, e.worktree, Requested(e));
    forall k | 0 <= k < |e.names|
      ensures PlainPath(e.names[k]) && e.names[k] in Staged(t.index, t.head)
    {
      var q := e.names[k];
      assert q in s.head.Keys + e.worktree.Keys;
      StagedAt(s.index, s.head, q);
      if q in Staged(s.index, s.head) {
        CommitSparesStaged(s, e, q);
      }
      StagedAt(t.index, t.head, q);
    }
  }

  /** The changed paths of a commit are not touched by the repairs that were pending. */
  lemma PendingSparesNew(s: State, e: Event, r: Repair)
    requires PlainTree(s.index) && PlainTree(s.head) && e.Commit? && Possible(s, e) && WellSpelled(e)
    requires Current(r, s.head) && NamesStaged(s, r)
    ensures Spares(r, Repair(Happen(s, e).head, e.names))
  {
    CommitKeepsCurrent(s, e, r);
    forall k | 0 <= k < |e.names|
      ensures !Touched(r.tree, r.paths, e.names[k])
    {
      assert At(Happen(s, e).head, e.names[k]) != At(s.head, e.names[k]);
    }
  }

  lemma CommitKeepsPath(start: State, s: State, e: Event, p: string)
    requires PlainTree(s.index) && PlainTree(s.head) && PathSound(start, s, p)
    requires e.Commit? && Possible(s, e) && WellSpelled(e)
    ensures PathSound(start, Happen(s, e), p)
  {
    var t := Happen(s, e);
    var r := Repair(t.head, e.names);
    assert TouchedByAny(t.pending, p) <==> TouchedByAny(s.pending, p) || Touched(r.tree, r.paths, p) by {
      LastTouches(s.pending, r, p);
    }
    StagedAt(start.index, start.head, p);
    StagedAt(s.index, s.head, p);
    if p in Staged(start.index, start.head) {
      CommitSparesStaged(s, e, p);
    } else if At(t.head, p) != At(s.head, p) {
      NamedIsReached(e.names, p);
    }
  }

  lemma LastTouches(pending: seq<Repair>, r: Repair, p: string)
    ensures TouchedByAny(pending + [r], p) <==> TouchedByAny(pending, p) || Touched(r.tree, r.paths, p)
  {
    assert r in pending + [r];
  }

  lemma CommitKeepsPendingSound(s: State, e: Event)
    requires PlainTree(s.index) && PlainTree(s.head) && PendingSound(s) && e.Commit? && Possible(s, e) && WellSpelled(e)
    ensures PendingSound(Happen(s, e))
  {
    var t := Happen(s, e);
    var r := Repair(t.head, e.names);
    CommitKeepsPending(s, e);
    NewRepairIsSound(s, e);
    forall i | 0 <= i < |s.pending|
      ensures Spares(s.pending[i], r)
    {
      PendingSparesNew(s, e, s.pending[i]);
    }
    assert forall i :: 0 <= i < |s.pending| ==> t.pending[i] == s.pending[i];
    assert t.pending[|s.pending|] == r;
  }

  lemma CommitKeepsPlain(s: State, e: Event)
    requires PlainTree(s.head) && e.Commit? && Possible(s, e) && WellSpelled(e)
    ensures PlainTree(Happen(s, e).head)
  {
    OverlayIsTreeLike(s.head, e.worktree, Requested(e));
  }

  lemma CommitKeepsSound(start: State, s: State, e: Event)
    requires Sound(start, s) && e.Commit? && Possible(s, e) && WellSpelled(e)
    ensures Sound(start, Happen(s, e))
  {
    CommitKeepsPendingSound(s, e);
    CommitKeepsPlain(s, e);
    forall p
      ensures PathSound(start, Happen(s, e), p)
    {
      CommitKeepsPath(start, s, e, p);
    }
  }

  // ---- a repair ----

  lemma RemovedTouches(pending: seq<Repair>, i: nat, p: string)
    requires i < |pending|
    ensures TouchedByAny(pending, p) <==>
      TouchedByAny(pending[..i] + pending[i + 1..], p) || Touched(pending[i].tree, pending[i].paths, p)
  {
    RestOf(pending, i);
    if TouchedByAny(pending, p) {
      var r :| r in pending && Touched(r.tree, r.paths, p);
      assert r in pending[..i] + pending[i + 1..] || r == pending[i];
    }
  }

  lemma RestOf(pending: seq<Repair>, i: nat)
    requires i < |pending|
    ensures forall r :: r in pending <==> r in pending[..i] + pending[i + 1..] || r == pending[i]
  {
    assert pending == pending[..i] + [pending[i]] + pending[i + 1..];
  }

  lemma RepairKeepsPath(start: State, s: State, i: nat, p: string)
    requires i < |s.pending| && Current(s.pending[i], s.head) && NamesStaged(s, s.pending[i]) && PathSound(start, s, p)
    ensures PathSound(start, Happen(s, RepairOne(i, "")), p)
  {
    var r := s.pending[i];
    PendingReadsAsWritten(s, r);
    OverlayAt(s.index, r.tree, r.paths, p);
    RemovedTouches(s.pending, i, p);
  }

  lemma RepairKeepsPending(s: State, i: nat)
    requires i < |s.pending| && PendingSound(s)
    ensures PendingSound(Happen(s, RepairOne(i, "")))
  {
    var t := Happen(s, RepairOne(i, ""));
    var r := s.pending[i];
    PendingReadsAsWritten(s, r);
    forall j | 0 <= j < |t.pending|
      ensures Current(t.pending[j], t.head) && NamesStaged(t, t.pending[j])
    {
      var other := t.pending[j];
      assert other == s.pending[if j < i then j else j + 1];
      assert Spares(r, other);
      forall k | 0 <= k < |other.paths|
        ensures other.paths[k] in Staged(t.index, t.head)
      {
        OverlayAt(s.index, r.tree, r.paths, other.paths[k]);
        StagedAt(s.index, s.head, other.paths[k]);
        StagedAt(t.index, t.head, other.paths[k]);
      }
    }
    forall j, k | 0 <= j < |t.pending| && 0 <= k < |t.pending| && j != k
      ensures Spares(t.pending[j], t.pending[k])
    {
      assert t.pending[j] == s.pending[if j < i then j else j + 1];
      assert t.pending[k] == s.pending[if k < i then k else k + 1];
    }
  }

  lemma RepairKeepsPlain(s: State, i: nat)
    requires i < |s.pending| && PlainTree(s.index) && PlainTree(s.head) && Current(s.pending[i], s.head)
    requires NamesStaged(s, s.pending[i])
    ensures PlainTree(Happen(s, RepairOne(i, "")).index)
  {
    var r := s.pending[i];
    PendingReadsAsWritten(s, r);
    OverlayIsTreeLike(s.index, r.tree, r.paths);
    forall q | q in Reset(s.index, r.tree, r.paths)
      ensures PlainPath(q)
    {
      if Reaches(r.paths, q) {
        assert At(s.head, q) == At(r.tree, q);
      }
    }
  }

  lemma RepairKeepsSound(start: State, s: State, i: nat)
    requires Sound(start, s) && i < |s.pending|
    ensures Sound(start, Happen(s, RepairOne(i, "")))
  {
    RepairKeepsPending(s, i);
    RepairKeepsPlain(s, i);
    forall p
      ensures PathSound(start, Happen(s, RepairOne(i, "")), p)
    {
      RepairKeepsPath(start, s, i, p);
    }
  }

  lemma EventKeepsSound(start: State, s: State, e: Event)
    requires Sound(start, s) && Possible(s, e) && WellSpelled(e)
    ensures Sound(start, Happen(s, e))
  {
    match e {
      case Commit(_, _, _, _, _) => CommitKeepsSound(start, s, e);
      case RepairOne(i, _) => RepairKeepsSound(start, s, i);
    }
  }

  lemma {:induction false} TraceKeepsSound(start: State, s: State, events: seq<Event>)
    requires Sound(start, s) && Trace(s, events) && forall e :: e in events ==> WellSpelled(e)
    ensures Sound(start, After(s, events))
    decreases |events|
  {
    if events != [] {
      EventKeepsSound(start, s, events[0]);
      TraceKeepsSound(start, Happen(s, events[0]), events[1..]);
    }
  }

  // ---- the staged set ----

  lemma SettledPath(start: State, s: State, order: seq<Repair>, p: string)
    requires Sound(start, s) && forall r :: r in order <==> r in s.pending
    ensures var after := RepairAll(s.index, order);
      && ((At(after, p) != At(s.head, p)) == (At(start.index, p) != At(start.head, p)))
      && (At(after, p) != At(s.head, p) ==> At(after, p) == At(start.index, p))
  {
    assert PathSound(start, s, p);
    StagedAt(start.index, start.head, p);
    RepairsSettle(s.index, order, s.head, p);
    assert TouchedByAny(order, p) <==> TouchedByAny(s.pending, p);
  }

  /** The shared index is preserved: after any commits, each let through by the refusal of its own moment, with
      any repairs in between and the pending ones made in any order and any number of times, the staged set
      against the last head is the one from before the first commit. All are run at the root with paths spelled
      canonically, and then the pending repairs are read as they are written. */
  lemma AllRepairsKeepStaged(start: State, events: seq<Event>, order: seq<Repair>)
    requires PlainTree(start.index) && PlainTree(start.head) && start.pending == [] && Trace(start, events)
    requires forall e :: e in events ==> WellSpelled(e)
    requires forall r :: r in order <==> r in After(start, events).pending
    ensures var s := After(start, events);
      Staged(RepairAll(s.index, order), s.head) == Staged(start.index, start.head)
    ensures forall r :: r in order ==> Readings("", r.paths) == r.paths
  {
    var s := After(start, events);
    StartIsSound(start);
    TraceKeepsSound(start, start, events);
    var after := RepairAll(s.index, order);
    forall p
      ensures (At(after, p) != At(s.head, p)) == (At(start.index, p) != At(start.head, p))
      ensures At(after, p) != At(s.head, p) ==> At(after, p) == At(start.index, p)
    {
      SettledPath(start, s, order, p);
    }
    SameStaged(after, s.head, start.index, start.head);
    forall r | r in order
      ensures Readings("", r.paths) == r.paths
    {
      PendingReadsAsWritten(s, r);
    }
  }
}
