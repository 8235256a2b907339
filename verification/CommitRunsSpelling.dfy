/** Two spellings of one file: why `CommitRuns` asks publications to write inside their lease as git reads it. */
module CommitRunsSpelling {
  import opened CommitPaths
  import opened CommitRuns
  import opened GitPaths
  import opened GitSpelling
  import opened GitTree
  import opened IndexRepair
  import opened Wrappers
  import L = CommitRunsLate
  import W = WorkScopes

  const FIRST := W.Lease("first", "/r", "x", W.Paths, ["f"], Some("h0"), 9)
  const OTHER := W.Lease("other", "/r", "y", W.Paths, ["./f"], Some("h0"), 9)

  /** The file is leased once as `f` and once as `./f`, and the second lease commits it. */
  function EventAt(n: nat): Event {
    match n
    case 0 => Lease(W.Begin(0, FIRST))
    case 1 => Lease(W.Begin(1, OTHER))
    case 2 => Check(0, 1, "other", "", ["./f"], {}, {})
    case 3 => ReadHead(0)
    case 4 => Build(0, "h1", ["f"])
    case _ => Publish(0)
  }

  function Events(n: nat): seq<Event> {
    if n == 0 then [] else Events(n - 1) + [EventAt(n - 1)]
  }

  function WorldAt(n: nat): W.World {
    if n == 0 then W.START
    else if n == 1 then W.World(
      map["first" := W.LeaseFile(FIRST)], map[(0, "first") := FIRST], map["first" := FIRST], 0)
    else W.World(
      map["first" := W.LeaseFile(FIRST), "other" := W.LeaseFile(OTHER)],
      map[(0, "first") := FIRST, (1, "other") := OTHER], map["first" := FIRST, "other" := OTHER], 0)
  }

  function Root(): Commit {
    Commit(None, map["f" := "old"])
  }

  function Child(): Commit {
    Commit(Some("h0"), map["f" := "new"])
  }

  function StageAt(n: nat): Stage {
    if n < 4 then Checked
    else if n == 4 then HeadRead("h0")
    else if n == 5 then Built(Prepared("h0", "h1", ["f"], "other"), map["f" := "new"])
    else Published(Prepared("h0", "h1", ["f"], "other"))
  }

  function Point(n: nat): State {
    State("/r", WorldAt(n), if n < 5 then map["h0" := Root()] else map["h0" := Root(), "h1" := Child()],
          if n < 6 then "h0" else "h1", Some(map["f" := "old"]), false, map["f" := "new"],
          if n < 3 then map[] else map[0 := Run(1, OTHER, "", ["./f"], StageAt(n))], map[])
  }

  lemma Spellings()
    ensures Normalize("f") == "f" && Normalize("./f") == "./f"
    ensures !PathMatches("f", "./f") && !PathMatches("./f", "f")
    ensures Readings("", ["./f"]) == ["f"] && Names("f", "f")
  {
    assert Normalize("f") == "f";
    assert "./f"[1..] == "/f" && "/f"[1..] == "f";
    assert "./f"[2..] == "f";
  }

  lemma Admitted()
    ensures W.Compatible(OTHER, FIRST) && InsideLease(OTHER, ["./f"]) && !OverlapsStaged(["./f"], ScopePaths({}))
  {
    Spellings();
    assert PathMatches("./f", ["./f"][0]);
  }

  lemma Rebuilt()
    ensures Candidate(map["h0" := Root()], "h0", map["f" := "new"], "", ["./f"]) == Child()
  {
    Spellings();
    assert Names(["f"][0], "f") && Reaches(["f"], "f");
    L.Staging(map["f" := "old"], map["f" := "new"], "f", ["f"]);
  }

  ghost predicate Steps(n: nat) {
    Possible(Point(n), EventAt(n)) && Happen(Point(n), EventAt(n)) == Point(n + 1)
  }

  lemma LeaseSteps()
    ensures Steps(0) && Steps(1)
  {
    Admitted();
    assert W.WithoutExpired(W.START.files, 0) == map[];
    assert W.WithoutExpired(WorldAt(1).files, 0) == WorldAt(1).files;
  }

  lemma CheckSteps()
    ensures Steps(2)
  {
    Admitted();
    assert W.Holds(WorldAt(2), 1, "other");
  }

  lemma BuildSteps()
    ensures Steps(4)
  {
    Rebuilt();
    assert Point(4).runs[0].stage == HeadRead("h0");
  }

  lemma RunSteps()
    ensures Steps(3) && Steps(5)
  {
  }

  lemma {:induction false} ComesTo(n: nat)
    requires n <= 6 && Sound(Point(0)) && forall k: nat :: k < 6 ==> Steps(k)
    ensures Trace(Point(0), Events(n)) && After(Point(0), Events(n)) == Point(n)
  {
    if n > 0 {
      ComesTo(n - 1);
      assert Steps(n - 1);
      L.OneMore(Point(0), Events(n - 1), EventAt(n - 1));
    }
  }

  lemma EveryStep(k: nat)
    requires k < 6
    ensures Steps(k)
  {
    match k {
      case 2 => CheckSteps();
      case 4 => BuildSteps();
      case 3 => RunSteps();
      case 5 => RunSteps();
      case _ => LeaseSteps();
    }
  }

  lemma Reached(n: nat)
    requires n <= 6
    ensures Fresh(Point(0)) && Sound(Point(0)) && Trace(Point(0), Events(n)) && After(Point(0), Events(n)) == Point(n)
  {
    FreshIsSound(Point(0));
    forall k: nat | k < 6
      ensures Steps(k)
    {
      EveryStep(k);
    }
    ComesTo(n);
  }

  /** Both requests make a lease. */
  lemma BothAccepted()
    ensures W.Acceptable("f") && W.Acceptable("./f")
  {
    Spellings();
    assert !W.HasParent("f") && !W.HasParent("./f");
  }

  /** The registry lets both leases in, and a timely commit under the second replaces the file of the first. */
  lemma SpellingOverwritesLease()
    ensures W.Acceptable("f") && W.Acceptable("./f")
    ensures Sound(Point(0)) && Trace(Point(0), Events(5)) && Trace(Point(0), Events(6))
    ensures var t, u := After(Point(0), Events(5)), After(Point(0), Events(6));
      && W.Holds(t.world, 0, "first") && Covers(FIRST.allowedPaths, "f")
      && EventAt(5) == Publish(0) && Possible(t, EventAt(5)) && u == Happen(t, EventAt(5)) && Timely(t, EventAt(5))
      && t.runs[0].lease.ref == "other"
      && At(t.commits[t.head].tree, "f") == Some("old") && At(u.commits[u.head].tree, "f") == Some("new")
  {
    BothAccepted();
    Reached(5);
    Reached(6);
    LastPoints();
  }

  lemma LastPoints()
    ensures Steps(5) && Timely(Point(5), EventAt(5)) && Point(5).runs[0].lease.ref == "other"
    ensures W.Holds(Point(5).world, 0, "first") && Covers(FIRST.allowedPaths, "f")
    ensures At(Point(5).commits[Point(5).head].tree, "f") == Some("old")
    ensures At(Point(6).commits[Point(6).head].tree, "f") == Some("new")
  {
    RunSteps();
    assert W.Holds(Point(5).world, 1, "other");
    assert PathMatches("f", FIRST.allowedPaths[0]);
  }
}
