/** A run that outlives its lease: why `CommitRuns` asks publications to be timely. */
module CommitRunsLate {
  import opened CommitPaths
  import opened CommitRuns
  import opened GitPaths
  import opened GitSpelling
  import opened GitTree
  import opened IndexRepair
  import opened Wrappers
  import W = WorkScopes

  const EARLY := W.Lease("early", "/r", "x", W.Paths, ["f"], Some("h0"), 1)
  const LATE := W.Lease("late", "/r", "y", W.Paths, ["f"], Some("h0"), 9)

  /** The first run is checked under a lease that then expires; a second lease on the same file commits;
      only then does the first run read the head. */
  function EventAt(n: nat): Event {
    match n
    case 0 => Lease(W.Begin(0, EARLY))
    case 1 => Check(0, 0, "early", "", ["f"], {}, {})
    case 2 => Lease(W.Tick(1))
    case 3 => Lease(W.Begin(1, LATE))
    case 4 => Check(1, 1, "late", "", ["f"], {}, {})
    case 5 => ReadHead(1)
    case 6 => Build(1, "h1", ["f"])
    case 7 => Publish(1)
    case 8 => Edit(map["f" := "2"])
    case 9 => ReadHead(0)
    case 10 => Build(0, "h2", ["f"])
    case _ => Publish(0)
  }

  function Events(n: nat): seq<Event> {
    if n == 0 then [] else Events(n - 1) + [EventAt(n - 1)]
  }

  function WorldAt(n: nat): W.World {
    if n == 0 then W.START
    else if n < 4 then W.World(
      map["early" := W.LeaseFile(EARLY)], map[(0, "early") := EARLY], map["early" := EARLY], if n < 3 then 0 else 1)
    else W.World(
      map["late" := W.LeaseFile(LATE)], map[(0, "early") := EARLY, (1, "late") := LATE],
      map["early" := EARLY, "late" := LATE], 1)
  }

  function Root(): Commit {
    Commit(None, map[])
  }

  function CommitsAt(n: nat): map<string, Commit> {
    if n < 7 then map["h0" := Root()]
    else if n < 11 then map["h0" := Root(), "h1" := Commit(Some("h0"), map["f" := "1"])]
    else map["h0" := Root(), "h1" := Commit(Some("h0"), map["f" := "1"]), "h2" := Commit(Some("h1"), map["f" := "2"])]
  }

  function FirstStage(n: nat): Stage {
    if n < 10 then Checked
    else if n == 10 then HeadRead("h1")
    else if n == 11 then Built(Prepared("h1", "h2", ["f"], "early"), map["f" := "2"])
    else Published(Prepared("h1", "h2", ["f"], "early"))
  }

  function SecondStage(n: nat): Stage {
    if n < 6 then Checked
    else if n == 6 then HeadRead("h0")
    else if n == 7 then Built(Prepared("h0", "h1", ["f"], "late"), map["f" := "1"])
    else Published(Prepared("h0", "h1", ["f"], "late"))
  }

  function RunsAt(n: nat): map<nat, Run> {
    if n < 2 then map[]
    else if n < 5 then map[0 := Run(0, EARLY, "", ["f"], FirstStage(n))]
    else map[0 := Run(0, EARLY, "", ["f"], FirstStage(n)), 1 := Run(1, LATE, "", ["f"], SecondStage(n))]
  }

  function Point(n: nat): State {
    State("/r", WorldAt(n), CommitsAt(n), if n < 8 then "h0" else if n < 12 then "h1" else "h2",
          Some(map[]), false, if n < 9 then map["f" := "1"] else map["f" := "2"], RunsAt(n), map[])
  }

  lemma Letter()
    ensures PathMatches("f", "f") && Covers(["f"], "f")
    ensures InsideLease(EARLY, ["f"]) && InsideLease(LATE, ["f"])
    ensures !OverlapsStaged(["f"], ScopePaths({}))
    ensures Readings("", ["f"]) == ["f"] && Reaches(["f"], "f")
  {
    assert Normalize("f") == "f";
    assert PathMatches("f", ["f"][0]);
    assert Names(["f"][0], "f");
  }

  lemma Staging(base: Tree, worktree: Tree, f: string, paths: seq<string>)
    requires base.Keys <= {f} && worktree.Keys == {f} && Reaches(paths, f)
    ensures Overlay(base, worktree, paths) == worktree
  {
    var t := Overlay(base, worktree, paths);
    assert f in t && t[f] == worktree[f];
    assert t.Keys == worktree.Keys;
  }

  ghost predicate Steps(n: nat) {
    Possible(Point(n), EventAt(n)) && Happen(Point(n), EventAt(n)) == Point(n + 1)
  }

  lemma LeaseSteps()
    ensures Steps(0) && Steps(2) && Steps(3)
  {
    assert W.WithoutExpired(W.START.files, 0) == map[];
    assert W.WithoutExpired(WorldAt(3).files, 1) == map[];
  }

  lemma Passes(lease: W.Lease)
    requires lease in {EARLY, LATE}
    ensures Refusal("/r", "h0", Ok(lease), ["f"], {}, {}) == None
  {
    Letter();
  }

  lemma FirstCheck()
    ensures Steps(1)
  {
    Passes(EARLY);
    assert W.Holds(WorldAt(1), 0, "early");
  }

  lemma SecondCheck()
    ensures Steps(4)
  {
    Passes(LATE);
    assert W.Holds(WorldAt(4), 1, "late");
    assert RunsAt(5) == RunsAt(4)[1 := Run(1, LATE, "", ["f"], Checked)];
  }

  lemma SecondReadHead()
    ensures Steps(5)
  {
    assert RunsAt(6) == RunsAt(5)[1 := RunsAt(5)[1].(stage := SecondStage(6))];
  }

  lemma SecondCandidate()
    ensures Candidate(CommitsAt(6), "h0", map["f" := "1"], "", ["f"]) == Commit(Some("h0"), map["f" := "1"])
  {
    Letter();
    Staging(map[], map["f" := "1"], "f", ["f"]);
  }

  lemma SecondBuild()
    ensures Steps(6)
  {
    SecondCandidate();
    assert CommitsAt(7) == CommitsAt(6)["h1" := Commit(Some("h0"), map["f" := "1"])];
    assert RunsAt(6)[1].stage == HeadRead("h0");
    assert RunsAt(7) == RunsAt(6)[1 := RunsAt(6)[1].(stage := SecondStage(7))];
  }

  lemma SecondPublish()
    ensures Steps(7)
  {
    assert RunsAt(8) == RunsAt(7)[1 := RunsAt(7)[1].(stage := SecondStage(8))];
  }

  lemma FirstRunSteps()
    ensures Steps(8) && Steps(9)
  {
  }

  lemma LastCandidate()
    ensures Candidate(CommitsAt(10), "h1", map["f" := "2"], "", ["f"]) == Commit(Some("h1"), map["f" := "2"])
  {
    Letter();
    Staging(map["f" := "1"], map["f" := "2"], "f", ["f"]);
  }

  lemma LastBuild()
    ensures Steps(10)
  {
    LastCandidate();
    assert CommitsAt(11) == CommitsAt(10)["h2" := Commit(Some("h1"), map["f" := "2"])];
    assert RunsAt(10)[0].stage == HeadRead("h1");
    assert RunsAt(11) == RunsAt(10)[0 := RunsAt(10)[0].(stage := FirstStage(11))];
  }

  lemma LastPublish()
    ensures Steps(11)
  {
    assert RunsAt(12) == RunsAt(11)[0 := RunsAt(11)[0].(stage := FirstStage(12))];
  }

  lemma {:induction false} OneMore(s: State, events: seq<Event>, e: Event)
    requires Sound(s) && Trace(s, events) && Possible(After(s, events), e)
    ensures Trace(s, events + [e]) && After(s, events + [e]) == Happen(After(s, events), e)
    decreases |events|
  {
    EventKeepsSound(After(s, events), e);
    if events == [] {
      assert events + [e] == [e];
      assert [e][1..] == [];
      assert Trace(Happen(s, e), []);
    } else {
      EventKeepsSound(s, events[0]);
      OneMore(Happen(s, events[0]), events[1..], e);
      assert (events + [e])[0] == events[0] && (events + [e])[1..] == events[1..] + [e];
    }
  }

  lemma {:induction false} ComesTo(n: nat)
    requires n <= 12 && Sound(Point(0)) && forall k: nat :: k < 12 ==> Steps(k)
    ensures Trace(Point(0), Events(n)) && After(Point(0), Events(n)) == Point(n)
  {
    if n > 0 {
      ComesTo(n - 1);
      assert Steps(n - 1);
      OneMore(Point(0), Events(n - 1), EventAt(n - 1));
    }
  }

  lemma EveryStep(k: nat)
    requires k < 12
    ensures Steps(k)
  {
    match k {
      case 1 => FirstCheck();
      case 4 => SecondCheck();
      case 5 => SecondReadHead();
      case 6 => SecondBuild();
      case 7 => SecondPublish();
      case 8 => FirstRunSteps();
      case 9 => FirstRunSteps();
      case 10 => LastBuild();
      case 11 => LastPublish();
      case _ => LeaseSteps();
    }
  }

  lemma Reached(n: nat)
    requires n <= 12
    ensures Fresh(Point(0)) && Sound(Point(0)) && Trace(Point(0), Events(n)) && After(Point(0), Events(n)) == Point(n)
  {
    FreshIsSound(Point(0));
    forall k: nat | k < 12
      ensures Steps(k)
    {
      EveryStep(k);
    }
    ComesTo(n);
  }

  /** The stale run's compare-and-swap succeeds and replaces a file of a lease that still holds. */
  lemma LatePublicationOverwrites()
    ensures Sound(Point(0)) && Trace(Point(0), Events(8)) && Trace(Point(0), Events(12))
    ensures var t, u := After(Point(0), Events(8)), After(Point(0), Events(12));
      && W.Holds(t.world, 1, "late") && W.Holds(u.world, 1, "late") && Covers(LATE.allowedPaths, "f")
      && At(t.commits[t.head].tree, "f") == Some("1")
      && At(u.commits[u.head].tree, "f") == Some("2")
  {
    Reached(8);
    Reached(12);
    LastPoints();
  }

  lemma LastPoints()
    ensures W.Holds(Point(8).world, 1, "late") && W.Holds(Point(12).world, 1, "late") && Covers(LATE.allowedPaths, "f")
    ensures At(Point(8).commits[Point(8).head].tree, "f") == Some("1")
    ensures At(Point(12).commits[Point(12).head].tree, "f") == Some("2")
  {
    Letter();
  }
}
