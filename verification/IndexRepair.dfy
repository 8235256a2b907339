/** The shared index after a commit made in a private index: what `git reset commit -- paths` keeps of
    the changes that were already staged. */
module IndexRepair {
  import opened GitPaths
  import opened GitSpelling
  import opened GitStatus
  import opened GitTree
  import opened Wrappers

  /** What is staged against a head: every path where the index differs, with the index's content. */
  function Staged(index: Tree, head: Tree): map<string, Option<string>> {
    map p | p in index.Keys + head.Keys && At(index, p) != At(head, p) :: At(index, p)
  }

  function Reset(index: Tree, commit: Tree, paths: seq<string>): Tree {
    Overlay(index, commit, paths)
  }

  /** A published commit whose paths the shared index has yet to take over. */
  datatype Repair = Repair(tree: Tree, paths: seq<string>)

  function RepairAll(index: Tree, repairs: seq<Repair>): Tree
    decreases |repairs|
  {
    if repairs == [] then index else RepairAll(Reset(index, repairs[0].tree, repairs[0].paths), repairs[1..])
  }

  predicate TouchedByAny(repairs: seq<Repair>, p: string) {
    exists r :: r in repairs && Touched(r.tree, r.paths, p)
  }

  /** On every path the commit's paths touch, the head still has what the commit published. */
  ghost predicate Current(r: Repair, head: Tree) {
    TreeLike(r.tree) && forall p :: Touched(r.tree, r.paths, p) ==> At(head, p) == At(r.tree, p)
  }

  // ---- one commit ----

  lemma StagedAt(index: Tree, head: Tree, p: string)
    ensures p in Staged(index, head) <==> At(index, p) != At(head, p)
    ensures p in Staged(index, head) ==> Staged(index, head)[p] == At(index, p)
  {
  }

  lemma SameStaged(i: Tree, h: Tree, j: Tree, k: Tree)
    requires forall p :: (At(i, p) != At(h, p)) == (At(j, p) != At(k, p))
    requires forall p :: At(i, p) != At(h, p) ==> At(i, p) == At(j, p)
    ensures Staged(i, h) == Staged(j, k)
  {
    forall p
      ensures p in Staged(i, h) <==> p in Staged(j, k)
      ensures p in Staged(i, h) ==> Staged(i, h)[p] == Staged(j, k)[p]
    {
      StagedAt(i, h, p);
      StagedAt(j, k, p);
    }
  }

  /** The staged set survives a commit and its repair exactly when the repaired paths touch nothing
      that was staged and miss nothing that the commit changed (unless its own content was staged there). */
  lemma SharedIndexPreserved(index: Tree, parent: Tree, commit: Tree, paths: seq<string>)
    requires TreeLike(commit)
    ensures Staged(Reset(index, commit, paths), commit) == Staged(index, parent) <==>
      && (forall p :: p in Staged(index, parent) ==> !Touched(commit, paths, p))
      && (forall p :: At(commit, p) != At(parent, p) && !Touched(commit, paths, p) ==>
            At(index, p) != At(parent, p) && At(index, p) != At(commit, p))
  {
    var after := Reset(index, commit, paths);
    forall p
      ensures At(after, p) == if Touched(commit, paths, p) then At(commit, p) else At(index, p)
      ensures p in Staged(after, commit) <==> At(after, p) != At(commit, p)
      ensures p in Staged(index, parent) <==> At(index, p) != At(parent, p)
    {
      OverlayAt(index, commit, paths, p);
      StagedAt(after, commit, p);
      StagedAt(index, parent, p);
    }
    if (forall p :: p in Staged(index, parent) ==> !Touched(commit, paths, p))
      && (forall p :: At(commit, p) != At(parent, p) && !Touched(commit, paths, p) ==>
            At(index, p) != At(parent, p) && At(index, p) != At(commit, p))
    {
      SameStaged(after, commit, index, parent);
    }
  }

  /** The refusal in `gitCommitPaths`: a staged path above, below or equal to a requested one. */
  predicate OverlapsStaged(requested: seq<string>, staged: set<string>) {
    exists i, s :: 0 <= i < |requested| && s in staged && (PathMatches(s, requested[i]) || PathMatches(requested[i], s))
  }

  lemma CoveredOverlaps(requested: seq<string>, staged: set<string>, s: string, r: string)
    requires !OverlapsStaged(requested, staged) && "" !in requested && Reaches(requested, r) && s in staged
    ensures !PathMatches(s, r) && !PathMatches(r, s)
  {
    ReachesCovers(requested, r);
    var i :| 0 <= i < |requested| && PathMatches(r, requested[i]);
    if PathMatches(s, r) {
      MatchTransitive(s, r, requested[i]);
    }
    if PathMatches(r, s) {
      SharedPathNests(r, s, requested[i]);
    }
  }

  /** The two sides of the guard that matter: no staged path is requested, none is displaced. */
  lemma GuardSparesStaged(requested: seq<string>, index: Tree, parent: Tree, worktree: Tree, p: string)
    requires !OverlapsStaged(requested, Staged(index, parent).Keys) && "" !in requested
    requires p in Staged(index, parent)
    ensures !Touched(worktree, requested, p)
  {
    var staged := Staged(index, parent).Keys;
    if Reaches(requested, p) {
      CoveredOverlaps(requested, staged, p, p);
      assert PathMatches(p, p);
    }
    if Displaced(worktree, requested, p) {
      var r :| r in worktree && Reaches(requested, r) && Below(r, p);
      CoveredOverlaps(requested, staged, p, r);
      BelowMatches(r, p);
    }
  }

  /** The diff names exactly the paths that changed. */
  predicate NamesChanges(names: seq<string>, parent: Tree, commit: Tree) {
    && (forall p :: p in parent.Keys + commit.Keys && At(commit, p) != At(parent, p) ==> p in names)
    && (forall k :: 0 <= k < |names| ==> At(commit, names[k]) != At(parent, names[k]))
  }

  lemma NamedIsReached(names: seq<string>, p: string)
    requires p in names
    ensures Reaches(names, p)
  {
    var k :| 0 <= k < |names| && names[k] == p;
    assert Names(names[k], p);
  }

  /** A changed path was requested, or is a file that a requested path displaced. */
  lemma ChangedIsTouched(parent: Tree, worktree: Tree, requested: seq<string>, q: string)
    requires TreeLike(worktree)
    requires At(Overlay(parent, worktree, requested), q) != At(parent, q)
    ensures Touched(worktree, requested, q)
  {
    OverlayAt(parent, worktree, requested, q);
  }

  /** Nothing is staged below or above a file of the parent that changed. */
  lemma NothingStagedAround(index: Tree, parent: Tree, worktree: Tree, requested: seq<string>, q: string, p: string)
    requires TreeLike(index) && TreeLike(parent) && TreeLike(worktree)
    requires !OverlapsStaged(requested, Staged(index, parent).Keys) && "" !in requested
    requires At(Overlay(parent, worktree, requested), q) != At(parent, q) && q in parent
    requires Below(p, q) || Below(q, p)
    ensures p !in Staged(index, parent)
  {
    ChangedIsTouched(parent, worktree, requested, q);
    if q in Staged(index, parent) {
      GuardSparesStaged(requested, index, parent, worktree, q);
      assert false;
    }
    assert q in index;
  }

  lemma TwoAbove(r: string, p: string, q: string)
    requires Below(r, p) && Below(r, q)
    ensures p == q || Below(p, q) || Below(q, p)
  {
    if |p| <= |q| {
      PrefixesNest(p + "/", q + "/", r);
      assert |p| == |q| ==> p == (p + "/")[..|p|] == (q + "/")[..|q|] == q;
    } else {
      PrefixesNest(q + "/", p + "/", r);
    }
  }

  /** The repair by the changed names spares whatever the refusal let stay staged. */
  lemma RepairSparesStaged(index: Tree, parent: Tree, worktree: Tree, requested: seq<string>, names: seq<string>,
                           p: string)
    requires TreeLike(index) && TreeLike(parent) && TreeLike(worktree)
    requires !OverlapsStaged(requested, Staged(index, parent).Keys) && "" !in requested && "" !in names
    requires NamesChanges(names, parent, Overlay(parent, worktree, requested))
    requires forall q :: q in parent.Keys + worktree.Keys ==> PlainPath(q)
    requires PlainPath(p) && p in Staged(index, parent)
    ensures !Touched(Overlay(parent, worktree, requested), names, p)
  {
    var commit := Overlay(parent, worktree, requested);
    OverlayIsTreeLike(parent, worktree, requested);
    if Reaches(names, p) {
      ReachesCovers(names, p);
      var k :| 0 <= k < |names| && PathMatches(p, names[k]);
      NameTouches(index, parent, worktree, requested, names, k, p, p);
    }
    if Displaced(commit, names, p) {
      var r :| r in commit && Reaches(names, r) && Below(r, p);
      ReachesCovers(names, r);
      var k :| 0 <= k < |names| && PathMatches(r, names[k]);
      NameTouches(index, parent, worktree, requested, names, k, r, p);
    }
  }

  /** No changed name matches a staged path, nor a committed path below one. */
  lemma NameTouches(index: Tree, parent: Tree, worktree: Tree, requested: seq<string>, names: seq<string>, k: nat,
                    r: string, p: string)
    requires TreeLike(index) && TreeLike(parent) && TreeLike(worktree)
    requires !OverlapsStaged(requested, Staged(index, parent).Keys) && "" !in requested
    requires k < |names| && NamesChanges(names, parent, Overlay(parent, worktree, requested))
    requires forall q :: q in parent.Keys + worktree.Keys ==> PlainPath(q)
    requires PlainPath(p) && p in Staged(index, parent)
    requires r == p || (r in Overlay(parent, worktree, requested) && Below(r, p))
    ensures !PathMatches(r, names[k])
  {
    var commit := Overlay(parent, worktree, requested);
    var q := names[k];
    OverlayIsTreeLike(parent, worktree, requested);
    assert q in parent.Keys + worktree.Keys;
    if PathMatches(r, q) {
      ChangedIsTouched(parent, worktree, requested, q);
      GuardSparesStaged(requested, index, parent, worktree, p);
      assert r == q || Below(r, q);
      if r == p {
        assert q != p;
        assert q !in parent by {
          if q in parent {
            NothingStagedAround(index, parent, worktree, requested, q, p);
          }
        }
        assert Reaches(requested, q);
        ReachesBelow(requested, p, q);
        assert false;
      } else if r == q {
        assert false;
      } else {
        assert q !in commit && q in parent;
        TwoAbove(r, p, q);
        if p == q {
          assert false;
        } else {
          NothingStagedAround(index, parent, worktree, requested, q, p);
          assert false;
        }
      }
    }
  }

  lemma MoreLinesRefuseMore(requested: seq<string>, some: set<string>, lines: set<string>)
    requires some <= lines && !OverlapsStaged(requested, lines)
    ensures !OverlapsStaged(requested, some)
  {
  }

  lemma SpelledOverlap(dir: string, requested: seq<string>, lines: set<string>)
    requires Spelled(dir, requested)
    ensures OverlapsStaged(Readings(dir, requested), lines) <==> OverlapsStaged(requested, lines)
  {
    var readings := Readings(dir, requested);
    forall i, line | 0 <= i < |requested| && line in lines
      ensures PathMatches(line, readings[i]) == PathMatches(line, requested[i])
      ensures PathMatches(readings[i], line) == PathMatches(requested[i], line)
    {
      SpelledReading(dir, requested, i);
      NormalizeTwice(requested[i]);
    }
  }

  lemma NamedPathIsPlain(names: seq<string>, parent: Tree, worktree: Tree, readings: seq<string>, k: nat)
    requires forall q :: q in parent.Keys + worktree.Keys ==> PlainPath(q)
    requires k < |names| && NamesChanges(names, parent, Overlay(parent, worktree, readings))
    ensures PlainPath(names[k])
  {
    assert names[k] in parent.Keys + worktree.Keys;
  }

  /** What keeps the staged set, of the paths and names as git reads them. */
  lemma ReadingsKeepStaged(index: Tree, parent: Tree, worktree: Tree, requested: seq<string>, names: seq<string>)
    requires TreeLike(index) && TreeLike(parent) && TreeLike(worktree)
    requires forall q :: q in parent.Keys + worktree.Keys + index.Keys ==> PlainPath(q)
    requires !OverlapsStaged(requested, Staged(index, parent).Keys) && "" !in requested && "" !in names
    requires NamesChanges(names, parent, Overlay(parent, worktree, requested))
    ensures var commit := Overlay(parent, worktree, requested);
      Staged(Reset(index, commit, names), commit) == Staged(index, parent)
  {
    var commit := Overlay(parent, worktree, requested);
    OverlayIsTreeLike(parent, worktree, requested);
    forall p | p in Staged(index, parent)
      ensures !Touched(commit, names, p)
    {
      RepairSparesStaged(index, parent, worktree, requested, names, p);
    }
    forall p | At(commit, p) != At(parent, p)
      ensures Touched(commit, names, p)
    {
      NamedIsReached(names, p);
    }
    SharedIndexPreserved(index, parent, commit, names);
  }

  /** `gitCommitPaths` keeps the staged set: when the status has a line for every staged path (no rename is
      shown as one line) and the refusal let the request pass, with a diff that names every change, and with
      requested and changed paths that git reads as they are written, the staged changes against the new head
      are those that were staged against the old one. */
  lemma CommitKeepsStaged(index: Tree, parent: Tree, worktree: Tree, dir: string, requested: seq<string>,
                          names: seq<string>, lines: set<string>)
    requires TreeLike(index) && TreeLike(parent) && TreeLike(worktree)
    requires forall q :: q in parent.Keys + worktree.Keys + index.Keys ==> PlainPath(q)
    requires Staged(index, parent).Keys <= lines && !OverlapsStaged(requested, lines)
    requires NamesChanges(names, parent, Overlay(parent, worktree, Readings(dir, requested)))
    requires Spelled(dir, requested) && Spelled(dir, names)
    ensures var commit := Overlay(parent, worktree, Readings(dir, requested));
      Staged(Reset(index, commit, Readings(dir, names)), commit) == Staged(index, parent)
  {
    var readings := Readings(dir, requested);
    SpelledOverlap(dir, requested, lines);
    MoreLinesRefuseMore(readings, Staged(index, parent).Keys, lines);
    SpelledIsNonempty(dir, requested);
    SpelledIsNonempty(dir, names);
    forall k | 0 <= k < |names|
      ensures Normalize(names[k]) == names[k]
    {
      NamedPathIsPlain(names, parent, worktree, readings, k);
    }
    SpelledIsItself(dir, names);
    ReadingsKeepStaged(index, parent, worktree, readings, names);
  }

  // ---- several commits, repaired late and in any order ----

  /** What any series of repairs leaves at a path depends only on which paths are touched. */
  lemma {:induction false} RepairsSettle(index: Tree, repairs: seq<Repair>, head: Tree, p: string)
    requires forall r :: r in repairs ==> Current(r, head)
    ensures At(RepairAll(index, repairs), p) == if TouchedByAny(repairs, p) then At(head, p) else At(index, p)
    decreases |repairs|
  {
    if repairs == [] {
    } else {
      var first := repairs[0];
      assert Current(first, head);
      OverlayAt(index, first.tree, first.paths, p);
      RepairsSettle(Reset(index, first.tree, first.paths), repairs[1..], head, p);
      assert TouchedByAny(repairs, p) <==> Touched(first.tree, first.paths, p) || TouchedByAny(repairs[1..], p) by {
        assert repairs == [first] + repairs[1..];
      }
    }
  }

  /** Repairs commute and repeating them changes nothing: only the set of repairs matters. */
  lemma RepairOrderIsFree(index: Tree, some: seq<Repair>, others: seq<Repair>, head: Tree)
    requires forall r :: r in some <==> r in others
    requires forall r :: r in some ==> Current(r, head)
    ensures RepairAll(index, some) == RepairAll(index, others)
  {
    var a, b := RepairAll(index, some), RepairAll(index, others);
    forall p
      ensures At(a, p) == At(b, p)
    {
      RepairsSettle(index, some, head, p);
      RepairsSettle(index, others, head, p);
    }
    SameTree(a, b);
  }

  lemma SameTree(a: Tree, b: Tree)
    requires forall p :: At(a, p) == At(b, p)
    ensures a == b
  {
    assert forall p :: p in a <==> At(a, p) != None;
    assert forall p :: p in b <==> At(b, p) != None;
    assert forall p :: p in a ==> At(a, p) == Some(a[p]);
    assert forall p :: p in b ==> At(b, p) == Some(b[p]);
    assert a.Keys == b.Keys;
  }

  // ---- where the source falls short ----

  /** Rename pairing in the name-only diff prints only the new name of a moved file, and the old one
      then shows as staged: nothing was staged before, a file is staged after. */
  lemma RenamePairingLeavesOldName()
    ensures var parent: Tree, worktree: Tree := map["a" := "text"], map["b" := "text"];
      var commit := Overlay(parent, worktree, ["a", "b"]);
      && commit == worktree
      && !OverlapsStaged(["a", "b"], Staged(parent, parent).Keys)
      && Staged(parent, parent) == map[]
      && "a" in Staged(Reset(parent, commit, ["b"]), commit)
  {
    var parent: Tree, worktree: Tree := map["a" := "text"], map["b" := "text"];
    var requested := ["a", "b"];
    LetterMatches();
    assert Names(requested[0], "a") && Names(requested[1], "b");
    assert Reaches(requested, "a") && Reaches(requested, "b");
    var commit := Overlay(parent, worktree, requested);
    assert commit == worktree;
    assert !Reaches(["b"], "a");
    assert !Displaced(commit, ["b"], "a") by {
      assert !Below("b", "a");
    }
    assert "a" in Reset(parent, commit, ["b"]);
  }

  lemma LetterMatches()
    ensures forall c, d: char :: c in "ab" && d in "ab" ==> (PathMatches([c], [d]) <==> c == d)
  {
    forall c, d: char | c in "ab" && d in "ab"
      ensures PathMatches([c], [d]) <==> c == d
    {
      assert Normalize([c]) == [c] && Normalize([d]) == [d];
    }
  }

  /** When the refusal sees a staged rename through its one line: never by the old name, and by the new name
      exactly when the line continues it with a slash (the old name lies below the new one, or looks so). */
  lemma RenameLineSeen(source: string, target: string)
    requires source != "" && target != "" && PlainPath(source) && PlainPath(target)
    ensures OverlapsStaged([target], {RenameDisplay(source, target)}) <==> target + "/" <= RenameDisplay(source, target)
    ensures !OverlapsStaged([source], {RenameDisplay(source, target)})
  {
    var line := RenameDisplay(source, target);
    RenameLineIsPlain(source, target);
    assert line[|source|] == ' ';
    var later, earlier := [target], [source];
    assert later[0] == target && earlier[0] == source;
    assert PathMatches(line, target) <==> target + "/" <= line;
    assert !PathMatches(target, line);
    assert !PathMatches(line, source) && !PathMatches(source, line);
  }

  lemma RenameLineIsPlain(source: string, target: string)
    requires source != "" && target != "" && PlainPath(source) && PlainPath(target)
    ensures PlainPath(RenameDisplay(source, target))
    ensures |RenameDisplay(source, target)| == |source| + 4 + |target|
  {
    var line := RenameDisplay(source, target);
    NormalizeConcat(source + " <- ", target);
    NormalizeConcat(source, " <- ");
    ArrowIsPlain();
    assert line[|line| - 1] == target[|target| - 1];
    assert target[|target| - 1] != '/';
  }

  lemma ArrowIsPlain()
    ensures Normalize(" <- ") == " <- "
  {
    NormalizeConcat(" <", "- ");
  }

  /** The status shows a staged rename as one line, and the refusal compares requested paths with that
      line: unless the line continues the new name with a slash it misses the overlap, and the staged content
      of the new name is lost from the index. */
  lemma RenameDisplayHidesOverlap(source: string, target: string, staged: string, edited: string)
    requires source != "" && target != "" && PlainPath(source) && PlainPath(target) && source != target
      && staged != edited
    ensures var parent: Tree, index: Tree, worktree: Tree := map[source := staged], map[target := staged],
      map[target := edited];
      var commit := Overlay(parent, worktree, [target]);
      && OverlapsStaged([target], Staged(index, parent).Keys)
      && (OverlapsStaged([target], {RenameDisplay(source, target)}) <==> target + "/" <= RenameDisplay(source, target))
      && At(index, target) == Some(staged) && target in Staged(index, parent)
      && At(Reset(index, commit, [target]), target) == Some(edited)
      && target !in Staged(Reset(index, commit, [target]), commit)
  {
    var parent: Tree, index: Tree, worktree: Tree := map[source := staged], map[target := staged],
      map[target := edited];
    var requested := [target];
    assert PathMatches(target, requested[0]);
    assert Names(requested[0], target);
    assert Reaches(requested, target);
    assert target in Staged(index, parent);
    RenameLineSeen(source, target);
    var commit := Overlay(parent, worktree, requested);
    assert At(commit, target) == Some(edited);
    assert At(Reset(index, commit, requested), target) == Some(edited);
  }

  /** The file a request stages when git reads it at the root. */
  predicate StagesFile(request: string, file: string) {
    file == Reading("", request) && file != "" && Stem(file) == file && file[0] != ':'
  }

  /** The refusal sees the very file that a request stages, and a lease on the request covers it, exactly when
      the request is spelled canonically. */
  lemma SeenExactlyWhenCanonical(request: string, file: string)
    requires StagesFile(request, file)
    ensures OverlapsStaged([request], {file}) <==> Canonical(request)
    ensures Covers([request], file) <==> Canonical(request)
  {
    var p := Normalize(request);
    ReadingIsNormal(request);
    NormalizeLength(request);
    assert [request][0] == request;
    if Canonical(request) {
      RootReadsAsWritten(request);
    } else {
      RootReadsAsWritten(request);
      CleanLength(WithoutMagic(p), true);
      assert !PathMatches(file, request);
      if PathMatches(request, file) {
        NothingBelow(p, file);
      }
    }
  }

  /** What is read as a file does not go on below that file. */
  lemma NothingBelow(p: string, file: string)
    requires file != "" && Stem(file) == file && file[0] != ':' && Clean(WithoutMagic(p), true) == file
    ensures !(file + "/" <= p)
  {
    if file + "/" <= p {
      var t := p[|file| + 1..];
      assert p[0] == file[0] && p == file + "/" + t;
      CleanIsTidy(p, true);
      CleanStays(file, true);
      CleanJoin(file, t, true);
      TidyWithSlash(file);
      assert false;
    }
  }

  lemma OneLine(file: string, content: string)
    ensures var index: Tree := map[file := content]; Staged(index, map[]).Keys == {file}
  {
  }

  /** Any other spelling of the file passes the refusal and its staged content is lost; and if the repair is
      left for later, the lease that the request used does not cover the recorded name. */
  lemma OtherSpellingLosesStaged(request: string, file: string, staged: string, edited: string)
    requires StagesFile(request, file) && !Canonical(request) && staged != edited
    ensures var parent: Tree, index: Tree, worktree: Tree := map[], map[file := staged], map[file := edited];
      var commit := Overlay(parent, worktree, Readings("", [request]));
      var after := Reset(index, commit, Readings("", [file]));
      && Staged(index, parent) == map[file := Some(staged)] && !OverlapsStaged([request], Staged(index, parent).Keys)
      && NamesChanges([file], parent, commit)
      && At(after, file) == Some(edited) && Staged(after, commit) == map[]
      && Covers([request], request) && !Covers([request], file)
  {
    var parent: Tree, index: Tree, worktree: Tree := map[], map[file := staged], map[file := edited];
    SeenExactlyWhenCanonical(request, file);
    OneLine(file, staged);
    StagedFileReads(request, file);
    assert Readings("", [request]) == [file] && Readings("", [file]) == [file];
    assert Names([file][0], file) && Reaches([file], file);
    var commit := Overlay(parent, worktree, [file]);
    assert commit == worktree;
    assert Reset(index, commit, [file]) == commit;
    assert PathMatches(request, [request][0]);
  }

  lemma StagedFileReads(request: string, file: string)
    requires StagesFile(request, file)
    ensures Reading("", file) == file
  {
    ReadingIsNormal(request);
    CleanIsTidy(WithoutMagic(Normalize(request)), true);
    RootReadsAsWritten(file);
  }

  lemma OverlayOfOne(file: string, text: string, edited: string, reading: string)
    ensures var t := Overlay(map[file := text], map[file := edited], [reading]);
      t == if Names(reading, file) then map[file := edited] else map[file := text]
  {
    assert Names([reading][0], file) <==> Names(reading, file);
    assert Reaches([reading], file) <==> Names(reading, file);
    assert !Below(file, file);
  }

  lemma MissedRepair(file: string, missed: string, text: string, edited: string)
    requires Names(file, file) && !Names(missed, file) && text != edited
    ensures var parent: Tree, worktree: Tree := map[file := text], map[file := edited];
      && Overlay(parent, worktree, [file]) == worktree && NamesChanges([file], parent, worktree)
      && Staged(parent, parent) == map[]
      && Reset(parent, worktree, [missed]) == parent && file in Staged(parent, worktree)
  {
    OverlayOfOne(file, text, edited, file);
    OverlayOfOne(file, text, edited, missed);
  }

  /** A path in a directory below the root, and the name of the file it stages, as git reads both there. */
  lemma ReadInDirectory(dir: string, path: string)
    requires IsDirectory(dir) && Canonical(path) && PlainPath(path)
    ensures var file := dir + "/" + path;
      && Readings(dir, [path]) == [file] && Readings(dir, [file]) == [dir + "/" + file]
      && Names(file, file) && !Names(dir + "/" + file, file)
  {
    var file := dir + "/" + path;
    FileBelow(dir, path);
    BelowIsCanonical(dir, path);
    FileBelow(dir, file);
    NormalizeLength(dir + "/" + file);
    NormalizeLength(file);
  }

  /** From a directory below the root the repair misses its paths: the names of the diff count from the root and
      git reads them from the directory. A file that was in step then shows as staged. */
  lemma SubdirectoryRepairsNothing(dir: string, path: string, text: string, edited: string)
    requires IsDirectory(dir) && Canonical(path) && PlainPath(path) && text != edited
    ensures var file := dir + "/" + path;
      var parent: Tree, worktree: Tree := map[file := text], map[file := edited];
      var commit := Overlay(parent, worktree, Readings(dir, [path]));
      && commit == worktree && NamesChanges([file], parent, commit) && Staged(parent, parent) == map[]
      && Reset(parent, commit, Readings(dir, [file])) == parent && file in Staged(parent, commit)
  {
    ReadInDirectory(dir, path);
    MissedRepair(dir + "/" + path, dir + "/" + (dir + "/" + path), text, edited);
  }
}
