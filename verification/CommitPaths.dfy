/** `gitCommitPaths`: a commit built in a private index, published by compare-and-swap on the branch,
    then taken over into the shared index, at once or later through a durable record. */
module CommitPaths {
  import opened GitPaths
  import opened GitSpelling
  import opened GitTree
  import opened IndexRepair
  import opened Strings
  import opened Wrappers
  import W = WorkScopes

  datatype Commit = Commit(parent: Option<string>, tree: Tree)

  /** A commit object waiting for the branch to move: the head it was built on and the diff's names. */
  datatype Prepared = Prepared(expected: string, id: string, names: seq<string>, leaseRef: string)

  /** A commit already published whose paths the shared index still lacks. */
  datatype Record = Record(root: string, commit: string, names: seq<string>, leaseRef: string)

  datatype Error =
    | RequiresPaths | Scope(why: W.Error) | BaseStateDrift | OutsideWorkScope
    | SharedIndexOverlap | Conflicts | RequiresChanges | HeadChanged
    | RecordNotFound | RecordOfOtherRepository | RecordOfOtherScope

  datatype Outcome = Committed(id: string) | CommittedRepairPending(id: string, record: string)

  /** A status line as the refusal compares it: trimmed, slashes only, without a leading `./`. */
  function ScopePath(line: string): string {
    var path := Normalize(Trim(line));
    if "./" <= path then path[2..] else path
  }

  function ScopePaths(lines: set<string>): set<string> {
    set line | line in lines && ScopePath(line) != "" :: ScopePath(line)
  }

  predicate InsideLease(lease: W.Lease, paths: seq<string>) {
    forall k :: 0 <= k < |paths| ==> Covers(lease.allowedPaths, paths[k])
  }

  /** The scope a request may use: it resolved, and it is of this repository. */
  function ScopeOf(root: string, lease: Result<W.Lease, W.Error>): (r: Result<W.Lease, W.Error>)
    ensures r.Ok? <==> lease.Ok? && lease.value.repositoryRoot == root
    ensures r.Ok? ==> r == lease
  {
    if lease.Ok? && lease.value.repositoryRoot != root then Err(W.RepositoryMismatch) else lease
  }

  /** Every check made before anything is written, in order. `staged` and `conflicts` are the lines of the status. */
  function Refusal(
    root: string, head: string, lease: Result<W.Lease, W.Error>, paths: seq<string>, staged: set<string>,
    conflicts: set<string>)
    : (r: Option<Error>)
    ensures r == None <==>
      && paths != [] && lease.Ok? && lease.value.repositoryRoot == root
      && lease.value.baseHead == Some(head) && InsideLease(lease.value, paths)
      && !OverlapsStaged(paths, ScopePaths(staged)) && !OverlapsStaged(paths, ScopePaths(conflicts))
    ensures r.Some? ==>
      match r.value
      case RequiresPaths => paths == []
      case Scope(why) => paths != [] && if lease.Err? then lease.error == why else lease.value.repositoryRoot != root
      case BaseStateDrift => lease.Ok? && lease.value.baseHead != Some(head)
      case OutsideWorkScope => lease.Ok? && exists k :: 0 <= k < |paths| && !Covers(lease.value.allowedPaths, paths[k])
      case SharedIndexOverlap => OverlapsStaged(paths, ScopePaths(staged))
      case Conflicts => !OverlapsStaged(paths, ScopePaths(staged)) && OverlapsStaged(paths, ScopePaths(conflicts))
      case _ => false
  {
    if paths == [] then Some(RequiresPaths)
    else match ScopeOf(root, lease)
      case Err(why) => Some(Scope(why))
      case Ok(token) =>
        if token.baseHead != Some(head) then Some(BaseStateDrift)
        else if !InsideLease(token, paths) then Some(OutsideWorkScope)
        else if OverlapsStaged(paths, ScopePaths(staged)) then Some(SharedIndexOverlap)
        else if OverlapsStaged(paths, ScopePaths(conflicts)) then Some(Conflicts)
        else None
  }

  /** A `./` before a status line makes no difference. */
  lemma DotSlashIsDropped(file: string)
    requires file != "" && PlainPath(file) && !IsSpace(file[|file| - 1])
    ensures ScopePath("./" + file) == file
  {
    var line := "./" + file;
    assert IsTrimmed(line);
    TrimmedStays(line);
    NormalizeConcat("./", file);
    assert Normalize("./") == "./";
    assert line[2..] == file;
  }

  lemma OneScopePath(file: string)
    ensures ScopePaths({file}) == if ScopePath(file) == "" then {} else {ScopePath(file)}
  {
  }

  lemma OneOverlap(file: string, line: string)
    ensures OverlapsStaged([file], {line}) <==> PathMatches(line, file) || PathMatches(file, line)
  {
    assert [file][0] == file;
  }

  /** Of a plain name the line is just trimmed. */
  lemma PlainIsTrimmed(file: string)
    requires PlainPath(file) && !("./" <= Trim(file))
    ensures ScopePath(file) == Trim(file) == Normalize(Trim(file))
  {
    NormalMeansNoBackslash(file);
    TrimIsPart(file, '\\');
    NormalMeansNoBackslash(Trim(file));
  }

  lemma ShortenedSeen(file: string, line: string)
    requires file != "" && PlainPath(file) && Normalize(line) == line && line != "" && line <= file
    requires |line| < |file| ==> IsSpace(file[|line|])
    ensures PathMatches(line, file) || PathMatches(file, line) <==> line == file || Stem(line) != line
  {
    assert file == line + file[|line|..];
    WithSlash(line);
    if Stem(line) == line && line != file {
      assert file[|line|] != '/';
    }
  }

  /** A name that starts without white space is trimmed at its end only. */
  lemma EndTrimmedSeen(file: string)
    requires file != "" && PlainPath(file) && !("./" <= file) && !IsSpace(file[0])
    ensures ScopePath(file) == Trim(file) != ""
    ensures PathMatches(Trim(file), file) || PathMatches(file, Trim(file)) <==>
      !IsSpace(file[|file| - 1]) || Stem(Trim(file)) != Trim(file)
  {
    TrimEndKeeps(file);
    assert Trim(file) == TrimEnd(file);
    PlainIsTrimmed(file);
    ShortenedSeen(file, Trim(file));
  }

  lemma LeadingSpaceUnseen(file: string)
    requires file != "" && PlainPath(file) && IsSpace(file[0]) && Trim(file) != ""
    ensures !PathMatches(Trim(file), file) && !PathMatches(file, Trim(file))
  {
    TrimStartsClean(file);
    W.SpaceMatchesNothing(file, Trim(file));
    NothingMatchesSpace(Trim(file), file);
  }

  /** A staged file and its trimmed status line. A name that starts without white space is seen by a request for it
      exactly when it also ends without, or has a slash before the white space at its end. A name that starts
      with white space is not seen (nor leased: see `WorkScopes.NoLeaseCoversSpace`). */
  lemma TrimmedLineSeen(file: string)
    requires file != "" && PlainPath(file) && !("./" <= file)
    ensures !IsSpace(file[0]) ==>
      (OverlapsStaged([file], ScopePaths({file})) <==> !IsSpace(file[|file| - 1]) || Stem(Trim(file)) != Trim(file))
    ensures IsSpace(file[0]) && !("./" <= Trim(file)) ==> !OverlapsStaged([file], ScopePaths({file}))
  {
    OneScopePath(file);
    OneOverlap(file, ScopePath(file));
    if !IsSpace(file[0]) {
      EndTrimmedSeen(file);
    } else if !("./" <= Trim(file)) {
      PlainIsTrimmed(file);
      if Trim(file) != "" {
        LeadingSpaceUnseen(file);
      }
    }
  }

  lemma NothingMatchesSpace(p: string, q: string)
    requires p != "" && !IsSpace(p[0]) && q != "" && IsSpace(q[0])
    ensures !PathMatches(p, q)
  {
    NormalizeAt(p, 0);
    NormalizeAt(q, 0);
  }

  lemma SpacedIsCanonical(name: string)
    requires Canonical(name) && PlainPath(name)
    ensures Canonical(name + " ") && PlainPath(name + " ")
  {
    var s := name + " ";
    NormalizeConcat(name, " ");
    assert Normalize(" ") == " ";
    forall i | 0 <= i < |s| && (i == 0 || s[i - 1] == '/')
      ensures StartsComponent(s, i)
    {
      if i < |name| {
        assert StartsComponent(name, i);
      }
    }
  }

  lemma SpacedIsTrimmed(name: string)
    requires IsTrimmed(name)
    ensures Trim(name + " ") == name
  {
    assert (name + " ")[..|name|] == name;
    assert TrimStart(name + " ") == name + " ";
    assert TrimEnd(name + " ") == TrimEnd(name);
  }

  /** A name with a space at the end, in a directory that is leased and requested: the lease covers it, git reads
      it as it is, and if it is staged its trimmed line does not show it. */
  lemma TrailingSpaceHidesOverlap(above: string, name: string)
    requires Canonical(name) && PlainPath(name) && IsTrimmed(name) && GitTree.Below(name, above)
    ensures var spaced := name + " ";
      && Covers([above], spaced) && Spelled("", [spaced])
      && OverlapsStaged([spaced], {spaced}) && !OverlapsStaged([spaced], ScopePaths({spaced}))
  {
    var spaced := name + " ";
    SpacedIsCanonical(name);
    SpacedIsTrimmed(name);
    assert StartsComponent(spaced, 0);
    TrimmedLineSeen(spaced);
    OneOverlap(spaced, spaced);
    BelowMatches(spaced, above);
    assert PathMatches(spaced, [above][0]);
  }

  /** read-tree of the head, add of the paths in the working directory, write-tree, commit-tree. */
  function Candidate(
    commits: map<string, Commit>, head: string, worktree: Tree, dir: string, paths: seq<string>): Commit
    requires head in commits
  {
    Commit(Some(head), Overlay(commits[head].tree, worktree, Readings(dir, paths)))
  }

  /** A missing index file is first filled from the commit. The reset runs in the working directory. */
  function Repaired(index: Option<Tree>, commit: Tree, dir: string, names: seq<string>): Tree {
    Reset(match index case Some(tree) => tree case None => commit, commit, Readings(dir, names))
  }

  /** What git reads the paths as is inside the lease too. */
  predicate ReadsInside(lease: W.Lease, dir: string, paths: seq<string>) {
    "" !in Readings(dir, paths) && InsideLease(lease, Readings(dir, paths))
  }

  /** At the root a lease that is spelled canonically is enough for that, however the request is spelled. */
  lemma CanonicalLeaseReadsInside(lease: W.Lease, paths: seq<string>)
    requires AllCanonical(lease.allowedPaths) && InsideLease(lease, paths)
    ensures ReadsInside(lease, "", paths)
  {
    var readings := Readings("", paths);
    forall k | 0 <= k < |readings|
      ensures readings[k] != "" && Covers(lease.allowedPaths, readings[k])
    {
      var j :| 0 <= j < |lease.allowedPaths| && PathMatches(paths[k], lease.allowedPaths[j]);
      CanonicalMatchesReading(paths[k], lease.allowedPaths[j]);
      CanonicalMatchesNothingEmpty(lease.allowedPaths[j]);
    }
  }

  lemma CanonicalMatchesNothingEmpty(pattern: string)
    requires Canonical(pattern)
    ensures !PathMatches("", pattern)
  {
  }

  /** A file that git writes or resets for such paths is the lease's. */
  lemma ReachedIsCovered(lease: W.Lease, dir: string, paths: seq<string>, p: string)
    requires ReadsInside(lease, dir, paths) && Reaches(Readings(dir, paths), p)
    ensures Covers(lease.allowedPaths, p)
  {
    ReachesCovers(Readings(dir, paths), p);
    CoversThrough(Readings(dir, paths), lease, p);
  }

  /** A covered path stays covered by any list that covers the pattern. */
  lemma CoversThrough(paths: seq<string>, lease: W.Lease, p: string)
    requires InsideLease(lease, paths) && Covers(paths, p)
    ensures Covers(lease.allowedPaths, p)
  {
    var i :| 0 <= i < |paths| && PathMatches(p, paths[i]);
    assert Covers(lease.allowedPaths, paths[i]);
    var j :| 0 <= j < |lease.allowedPaths| && PathMatches(paths[i], lease.allowedPaths[j]);
    MatchTransitive(p, paths[i], lease.allowedPaths[j]);
  }

  /** The tree has the touched paths from the worktree and the others from the parent. */
  ghost predicate TakesTouched(tree: Tree, parent: Tree, worktree: Tree, paths: seq<string>) {
    forall p :: At(tree, p) == if Touched(worktree, paths, p) then At(worktree, p) else At(parent, p)
  }

  /** There is an index, and every path staged in it has a line of its own. */
  predicate SeesStaged(index: Option<Tree>, head: Tree, lines: set<string>) {
    index.Some? && Staged(index.value, head).Keys <= lines
  }

  /** One repository: object store, branch, shared index and its lock file, worktree and repair records. */
  class Repository {
    const root: string
    const diff: (Tree, Tree) -> seq<string>
    var commits: map<string, Commit>
    var head: string
    var index: Option<Tree>
    var indexLocked: bool
    var worktree: Tree
    var records: map<string, Record>

    constructor (root: string, diff: (Tree, Tree) -> seq<string>, first: string)
      ensures this.root == root && this.diff == diff && commits == map[first := Commit(None, map[])] && head == first
      ensures index == None && !indexLocked && worktree == map[] && records == map[] && Valid()
    {
      this.root, this.diff := root, diff;
      commits, head := map[first := Commit(None, map[])], first;
      index, indexLocked, worktree, records := None, false, map[], map[];
    }

    predicate Valid()
      reads this
    {
      head in commits
    }

    /** Everything up to commit-tree. Only the object store grows. `id` is the hash git will give. */
    method PrepareCommit(
      dir: string, lease: Result<W.Lease, W.Error>, paths: seq<string>, staged: set<string>, conflicts: set<string>,
      id: string)
      returns (r: Result<Prepared, Error>)
      requires Valid()
      requires id in commits ==> commits[id] == Candidate(commits, head, worktree, dir, paths)
      modifies this`commits
      ensures Valid()
      ensures var candidate := Candidate(old(commits), head, worktree, dir, paths);
        var names := diff(old(commits)[head].tree, candidate.tree);
        match Refusal(root, head, lease, paths, staged, conflicts)
        case Some(error) => r == Err(error) && commits == old(commits)
        case None =>
          if names == [] then r == Err(RequiresChanges) && commits == old(commits)
          else r == Ok(Prepared(head, id, names, lease.value.ref)) && commits == old(commits)[id := candidate]
    {
      match Refusal(root, head, lease, paths, staged, conflicts) {
        case Some(error) => return Err(error);
        case None =>
      }
      var expected := head;
      var isolated := commits[expected].tree;
      isolated := Overlay(isolated, worktree, Readings(dir, paths));
      var names := diff(commits[expected].tree, isolated);
      if names == [] {
        return Err(RequiresChanges);
      }
      commits := commits[id := Commit(Some(expected), isolated)];
      return Ok(Prepared(expected, id, names, lease.value.ref));
    }

    /** The repair under `index.lock`; nothing changes while someone else holds the lock, or when git's
        reset fails. */
    method ReconcileSharedIndex(dir: string, commit: string, names: seq<string>, resets: bool)
      returns (reconciled: bool)
      requires commit in commits
      modifies this`index, this`indexLocked
      ensures reconciled == (!old(indexLocked) && resets) && indexLocked == old(indexLocked)
      ensures index == if reconciled then Some(Repaired(old(index), commits[commit].tree, dir, names)) else old(index)
    {
      if indexLocked {
        return false;
      }
      indexLocked := true;
      var private := commits[commit].tree;
      match index {
        case Some(tree) => private := tree;
        case None =>
      }
      if !resets {
        indexLocked := false;
        return false;
      }
      private := Reset(private, commits[commit].tree, Readings(dir, names));
      index, indexLocked := Some(private), false;
      return true;
    }

    /** update-ref with the expected old value, then the repair or a record of it. A branch that has
        moved meanwhile leaves everything as it was. */
    method PublishCommit(dir: string, p: Prepared, record: string, resets: bool) returns (r: Result<Outcome, Error>)
      requires Valid() && p.id in commits && record !in records
      modifies this`head, this`index, this`indexLocked, this`records
      ensures Valid() && indexLocked == old(indexLocked)
      ensures old(head) != p.expected ==>
        r == Err(HeadChanged) && head == old(head) && index == old(index) && records == old(records)
      ensures old(head) == p.expected ==> head == p.id
      ensures old(head) == p.expected && !old(indexLocked) && resets ==>
        r == Ok(Committed(p.id)) && index == Some(Repaired(old(index), commits[p.id].tree, dir, p.names))
          && records == old(records)
      ensures old(head) == p.expected && (old(indexLocked) || !resets) ==>
        r == Ok(CommittedRepairPending(p.id, record)) && index == old(index)
        && records == old(records)[record := Record(root, p.id, p.names, p.leaseRef)]
    {
      if head != p.expected {
        return Err(HeadChanged);
      }
      head := p.id;
      var reconciled := ReconcileSharedIndex(dir, p.id, p.names, resets);
      if !reconciled {
        records := records[record := Record(root, p.id, p.names, p.leaseRef)];
        return Ok(CommittedRepairPending(p.id, record));
      }
      return Ok(Committed(p.id));
    }

    /** One undisturbed commit: its parent is the head it replaced, it takes the touched paths from the worktree
        and the rest from that parent. If the status has a line for every staged path, the diff names every change
        and git reads the requested and the changed paths as they are written, the staged changes against the new
        head are exactly those that were staged against the old one. */
    method GitCommitPaths(
      dir: string, lease: Result<W.Lease, W.Error>, paths: seq<string>, staged: set<string>, conflicts: set<string>,
      id: string, record: string, resets: bool)
      returns (r: Result<Outcome, Error>)
      requires Valid() && id !in commits && record !in records
      requires index.Some? ==> TreeLike(index.value) && forall q :: q in index.value ==> PlainPath(q)
      requires TreeLike(commits[head].tree) && TreeLike(worktree)
      requires forall q :: q in commits[head].tree.Keys + worktree.Keys ==> PlainPath(q)
      modifies this`commits, this`head, this`index, this`indexLocked, this`records
      ensures Valid() && worktree == old(worktree) && indexLocked == old(indexLocked)
      ensures r.Err? ==> head == old(head) && index == old(index) && commits == old(commits) && records == old(records)
      ensures r.Ok? ==> head == id && commits[id].parent == Some(old(head))
      ensures r.Ok? ==> TakesTouched(commits[id].tree, old(commits[head].tree), worktree, Readings(dir, paths))
      ensures (
        && r.Ok? && r.value.Committed? && SeesStaged(old(index), old(commits[head].tree), ScopePaths(staged))
        && NamesChanges(diff(old(commits[head].tree), commits[id].tree), old(commits[head].tree), commits[id].tree)
        && Spelled(dir, paths) && Spelled(dir, diff(old(commits[head].tree), commits[id].tree))
        ) ==>
          index.Some? && Staged(index.value, commits[head].tree) == old(Staged(index.value, commits[head].tree))
    {
      ghost var parent, before := commits[head].tree, index;
      var prepared := PrepareCommit(dir, lease, paths, staged, conflicts, id);
      match prepared {
        case Err(error) => return Err(error);
        case Ok(p) =>
          r := PublishCommit(dir, p, record, resets);
          ghost var readings := Readings(dir, paths);
          if SeesStaged(before, parent, ScopePaths(staged)) && NamesChanges(p.names, parent, commits[id].tree)
            && Spelled(dir, paths) && Spelled(dir, p.names)
          {
            CommitKeepsStaged(before.value, parent, worktree, dir, paths, p.names, ScopePaths(staged));
          }
          forall q
            ensures At(commits[id].tree, q) == if Touched(worktree, readings, q) then At(worktree, q) else At(parent, q)
          {
            OverlayAt(parent, worktree, readings, q);
          }
      }
    }

    /** A later repair: only under the lease that made the commit, and only while that lease covers the names. */
    method GitReconcileIndex(dir: string, record: string, lease: Result<W.Lease, W.Error>, resets: bool)
      returns (r: Result<bool, Error>)
      requires Valid() && (record in records ==> records[record].commit in commits)
      modifies this`index, this`indexLocked, this`records
      ensures r.Ok? <==>
        && record in old(records) && old(records)[record].root == root
        && lease.Ok? && lease.value.repositoryRoot == root && lease.value.ref == old(records)[record].leaseRef
        && InsideLease(lease.value, old(records)[record].names)
      ensures r.Ok? ==> r.value == (!old(indexLocked) && resets)
      ensures r == Ok(true) ==> records == old(records) - {record}
      ensures r == Ok(true) ==>
        index == Some(Repaired(old(index), commits[old(records)[record].commit].tree, dir, old(records)[record].names))
      ensures r != Ok(true) ==> index == old(index) && records == old(records)
      ensures indexLocked == old(indexLocked)
    {
      if record !in records {
        return Err(RecordNotFound);
      }
      var stored := records[record];
      if stored.root != root {
        return Err(RecordOfOtherRepository);
      }
      match ScopeOf(root, lease) {
        case Err(why) => return Err(Scope(why));
        case Ok(token) =>
          if token.ref != stored.leaseRef {
            return Err(RecordOfOtherScope);
          }
          if !InsideLease(token, stored.names) {
            return Err(OutsideWorkScope);
          }
          var reconciled := ReconcileSharedIndex(dir, stored.commit, stored.names, resets);
          if reconciled {
            records := records - {record};
          }
          return Ok(reconciled);
      }
    }
  }
}
