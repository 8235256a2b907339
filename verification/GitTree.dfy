/** Trees of files, and what `git add` and `git reset` of paths do to them. */
module GitTree {
  import opened GitPaths
  import opened GitSpelling
  import opened Wrappers

  type Tree = map<string, string>

  function At(t: Tree, path: string): Option<string> {
    if path in t then Some(t[path]) else None
  }

  /** `r` lies in the directory `q`. */
  predicate Below(r: string, q: string) {
    q + "/" <= r
  }

  /** No path is both a file and a directory. */
  predicate TreeLike(t: Tree) {
    forall q, r :: q in t && r in t ==> !Below(r, q)
  }

  /** The source holds a listed path inside the directory `q`, so no file `q` can stay. */
  predicate Displaced(source: Tree, listed: seq<string>, q: string) {
    exists r :: r in source && Reaches(listed, r) && Below(r, q)
  }

  predicate Touched(source: Tree, listed: seq<string>, path: string) {
    Reaches(listed, path) || Displaced(source, listed, path)
  }

  /** The files that a list of readings names, taken from `source`; the rest from `base`. With the worktree as
      source and the paths as git reads them this is `git add -- paths`; with a commit's tree it is
      `git reset commit -- paths`. */
  function Overlay(base: Tree, source: Tree, listed: seq<string>): Tree {
    map p | p in base.Keys + source.Keys
      && (if Reaches(listed, p) then p in source else p in base && !Displaced(source, listed, p))
      :: if Reaches(listed, p) then source[p] else base[p]
  }

  lemma BelowMatches(r: string, q: string)
    requires Below(r, q)
    ensures PathMatches(r, q)
  {
    assert r == q + "/" + r[|q| + 1..];
    NormalizeConcat(q + "/", r[|q| + 1..]);
    NormalizeConcat(q, "/");
    var s := Normalize(q);
    assert Normalize("/") == "/";
    assert s + "/" <= Normalize(r);
    if s != "" && s[|s| - 1] == '/' {
      assert Stem(s) + "/" == s;
      assert s <= s + "/";
    }
  }

  lemma CoversBelow(listed: seq<string>, r: string, q: string)
    requires Covers(listed, q) && Below(r, q)
    ensures Covers(listed, r)
  {
    var i :| 0 <= i < |listed| && PathMatches(q, listed[i]);
    BelowMatches(r, q);
    MatchTransitive(r, q, listed[i]);
  }

  lemma ReachesBelow(listed: seq<string>, r: string, q: string)
    requires Reaches(listed, q) && Below(r, q)
    ensures Reaches(listed, r)
  {
    var i :| 0 <= i < |listed| && Names(listed[i], q);
    BelowMatches(r, q);
    if listed[i] != "" {
      MatchTransitive(r, q, listed[i]);
    }
    assert Names(listed[i], r);
  }

  /** What an overlay holds at every path. */
  lemma OverlayAt(base: Tree, source: Tree, listed: seq<string>, p: string)
    requires TreeLike(source)
    ensures At(Overlay(base, source, listed), p) == if Touched(source, listed, p) then At(source, p) else At(base, p)
  {
    if !Reaches(listed, p) && Displaced(source, listed, p) {
      var r :| r in source && Reaches(listed, r) && Below(r, p);
      assert p !in source;
    }
  }

  lemma OverlayIsTreeLike(base: Tree, source: Tree, listed: seq<string>)
    requires TreeLike(base) && TreeLike(source)
    ensures TreeLike(Overlay(base, source, listed))
  {
    var t := Overlay(base, source, listed);
    forall q, r | q in t && r in t
      ensures !Below(r, q)
    {
      if Below(r, q) && Reaches(listed, q) {
        ReachesBelow(listed, r, q);
      }
    }
  }

  /** Staging changes a tree only inside a lease if and only if every changed file that a reading names is the
      lease's, and so is every file that gave way to a directory. */
  lemma OverlayStaysInside(base: Tree, source: Tree, listed: seq<string>, lease: seq<string>)
    requires TreeLike(source)
    ensures (forall p :: At(Overlay(base, source, listed), p) != At(base, p) ==> Covers(lease, p)) <==>
      && (forall p :: Reaches(listed, p) && At(source, p) != At(base, p) ==> Covers(lease, p))
      && (forall p :: p in base && Displaced(source, listed, p) ==> Covers(lease, p))
  {
    var t := Overlay(base, source, listed);
    forall p
      ensures At(t, p) != At(base, p) <==>
        (Reaches(listed, p) && At(source, p) != At(base, p)) || (p in base && Displaced(source, listed, p))
    {
      OverlayChanges(base, source, listed, p);
    }
    if forall p :: At(t, p) != At(base, p) ==> Covers(lease, p) {
      forall p | (Reaches(listed, p) && At(source, p) != At(base, p)) || (p in base && Displaced(source, listed, p))
        ensures Covers(lease, p)
      {
        assert At(t, p) != At(base, p);
      }
    }
  }

  lemma OverlayChanges(base: Tree, source: Tree, listed: seq<string>, p: string)
    requires TreeLike(source)
    ensures At(Overlay(base, source, listed), p) != At(base, p) <==>
      (Reaches(listed, p) && At(source, p) != At(base, p)) || (p in base && Displaced(source, listed, p))
  {
    OverlayAt(base, source, listed, p);
    if Displaced(source, listed, p) {
      var r :| r in source && Reaches(listed, r) && Below(r, p);
      assert p !in source;
    }
  }

  /** A lease disjoint from the one that staged loses nothing, not even to a displaced file. */
  lemma OverlaySparesDisjoint(base: Tree, source: Tree, listed: seq<string>, mine: seq<string>, other: seq<string>,
                              p: string)
    requires TreeLike(source) && Disjoint(mine, other)
    requires forall q :: Reaches(listed, q) ==> Covers(mine, q)
    requires Covers(other, p)
    ensures !Touched(source, listed, p)
    ensures At(Overlay(base, source, listed), p) == At(base, p)
  {
    if Reaches(listed, p) {
      DisjointCoversNothing(mine, other, p);
    }
    if Displaced(source, listed, p) {
      var r :| r in source && Reaches(listed, r) && Below(r, p);
      CoversBelow(other, r, p);
      DisjointCoversNothing(mine, other, r);
    }
    OverlayAt(base, source, listed, p);
  }

  /** A lease on `a/b` alone commits the loss of a file `a` it does not own, once `a` is a directory. */
  lemma DirectoryReplacesFileOutsideLease()
    ensures var base, worktree, lease := map["a" := "old"], map["a/b" := "new"], ["a/b"];
      && TreeLike(base) && TreeLike(worktree)
      && !Covers(lease, "a")
      && Overlay(base, worktree, lease) == map["a/b" := "new"]
  {
    var base: Tree, worktree: Tree, lease := map["a" := "old"], map["a/b" := "new"], ["a/b"];
    assert Normalize("a") == "a";
    assert Normalize("a/b") == "a/b" by {
      assert "a/b"[1..] == "/b" && "/b"[1..] == "b";
    }
    assert !("a/b" + "/" <= "a");
    assert Names(lease[0], "a/b");
    assert !Names(lease[0], "a");
    assert Below("a/b", "a") by {
      assert "a" + "/" == "a/b"[..2];
    }
    assert Displaced(worktree, lease, "a");
  }
}
