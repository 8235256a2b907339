/** How a path matches a lease or pathspec entry without glob characters. */
module GitPaths {
  /** Backslashes become slashes. */
  function Normalize(path: string): string {
    if path == "" then "" else [if path[0] == '\\' then '/' else path[0]] + Normalize(path[1..])
  }

  predicate IsGlobFree(path: string) {
    '*' !in path && '?' !in path && '[' !in path
  }

  /** One trailing slash is dropped. */
  function Stem(pattern: string): string {
    if pattern != "" && pattern[|pattern| - 1] == '/' then pattern[..|pattern| - 1] else pattern
  }

  /** Plain file names: forward slashes, none at the end. */
  predicate PlainPath(p: string) {
    Normalize(p) == p && Stem(p) == p
  }

  /** The literal case of `pathMatches`: the same path, or one below it. */
  predicate PathMatches(path: string, pattern: string) {
    var p, q := Normalize(path), Normalize(pattern);
    p == q || Stem(q) + "/" <= p
  }

  predicate Covers(patterns: seq<string>, path: string) {
    exists i :: 0 <= i < |patterns| && PathMatches(path, patterns[i])
  }

  /** Two lists of patterns share no path in either direction. */
  predicate Disjoint(a: seq<string>, b: seq<string>) {
    forall i, j :: 0 <= i < |a| && 0 <= j < |b| ==> !PathMatches(a[i], b[j]) && !PathMatches(b[j], a[i])
  }

  lemma {:induction false} NormalizeLength(path: string)
    ensures |Normalize(path)| == |path|
  {
    if path != "" {
      NormalizeLength(path[1..]);
    }
  }

  lemma {:induction false} NormalizeAt(path: string, i: nat)
    requires i < |path|
    ensures |Normalize(path)| == |path| && Normalize(path)[i] == if path[i] == '\\' then '/' else path[i]
  {
    NormalizeLength(path);
    if i > 0 {
      NormalizeAt(path[1..], i - 1);
    }
  }

  lemma {:induction false} NormalizeConcat(a: string, b: string)
    ensures Normalize(a + b) == Normalize(a) + Normalize(b)
  {
    if a == "" {
      assert a + b == b;
    } else {
      NormalizeConcat(a[1..], b);
      assert (a + b)[1..] == a[1..] + b;
    }
  }

  lemma NormalizeTwice(path: string)
    ensures Normalize(Normalize(path)) == Normalize(path)
  {
    NormalizeLength(path);
    NormalizeLength(Normalize(path));
    forall i | 0 <= i < |path|
      ensures Normalize(Normalize(path))[i] == Normalize(path)[i]
    {
      NormalizeAt(path, i);
      NormalizeAt(Normalize(path), i);
    }
  }

  /** A path is normalized exactly when it has no backslash. */
  lemma NormalMeansNoBackslash(path: string)
    ensures Normalize(path) == path <==> '\\' !in path
  {
    NormalizeLength(path);
    forall i | 0 <= i < |path|
      ensures Normalize(path)[i] == path[i] <==> path[i] != '\\'
    {
      NormalizeAt(path, i);
    }
  }

  /** A normalized path has no backslash, and no glob character it did not have. */
  lemma NormalizedIsPlain(path: string)
    requires IsGlobFree(path)
    ensures '\\' !in Normalize(path) && IsGlobFree(Normalize(path))
  {
    NormalizeLength(path);
    forall i | 0 <= i < |Normalize(path)|
      ensures Normalize(path)[i] !in "\\*?["
    {
      NormalizeAt(path, i);
      assert path[i] in path;
    }
  }

  lemma PrefixesNest(s: string, t: string, p: string)
    requires s <= p && t <= p && |s| <= |t|
    ensures s <= t
  {
    assert s == p[..|s|] && t == p[..|t|];
  }

  /** What lies below the stem of a path lies below every stem above it. */
  lemma StemBelow(q: string, r: string)
    requires Stem(r) + "/" <= q
    ensures Stem(r) + "/" <= Stem(q) + "/"
  {
    if q != "" && q[|q| - 1] == '/' {
      assert Stem(q) + "/" == q;
    } else {
      assert Stem(q) == q;
    }
  }

  /** Matching is transitive. */
  lemma MatchTransitive(a: string, b: string, c: string)
    requires PathMatches(a, b) && PathMatches(b, c)
    ensures PathMatches(a, c)
  {
    var p, q, r := Normalize(a), Normalize(b), Normalize(c);
    if p != q && q != r {
      StemBelow(q, r);
    }
  }

  /** A path that matches two patterns makes one of them match the other, trailing slash or not. */
  lemma SharedPathNests(path: string, a: string, b: string)
    requires PathMatches(path, a) && PathMatches(path, b)
    ensures PathMatches(a, b) || PathMatches(b, a)
  {
    var p, q, r := Normalize(path), Normalize(a), Normalize(b);
    if p != q && p != r {
      if |Stem(q)| <= |Stem(r)| {
        StemsNest(p, q, r);
      } else {
        StemsNest(p, r, q);
      }
    }
  }

  lemma StemsNest(p: string, q: string, r: string)
    requires Stem(q) + "/" <= p && Stem(r) + "/" <= p && |Stem(q)| <= |Stem(r)|
    ensures r == q || Stem(q) + "/" <= r || Stem(r) + "/" <= q
  {
    PrefixesNest(Stem(q) + "/", Stem(r) + "/", p);
    if |Stem(q)| == |Stem(r)| {
      assert Stem(q) == (Stem(q) + "/")[..|Stem(q)|] == (Stem(r) + "/")[..|Stem(r)|] == Stem(r);
      if r != q {
        assert r == Stem(q) + "/" || q == Stem(r) + "/" || (r == Stem(r) && q == Stem(q)) by {
          assert r[..|r|] == r && q[..|q|] == q;
          WithSlash(q);
          WithSlash(r);
        }
      }
    } else {
      assert Stem(q) + "/" <= Stem(r);
    }
  }

  lemma WithSlash(q: string)
    ensures q == Stem(q) || q == Stem(q) + "/"
  {
  }

  /** Leases that were admitted against each other never cover the same path. */
  lemma DisjointCoversNothing(a: seq<string>, b: seq<string>, path: string)
    requires Disjoint(a, b)
    ensures !(Covers(a, path) && Covers(b, path))
  {
    if Covers(a, path) && Covers(b, path) {
      var i :| 0 <= i < |a| && PathMatches(path, a[i]);
      var j :| 0 <= j < |b| && PathMatches(path, b[j]);
      SharedPathNests(path, a[i], b[j]);
    }
  }
}
