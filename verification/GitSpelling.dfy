/** How git reads the text of a path, which the leases and the refusals compare as it stands. */
module GitSpelling {
  import opened GitPaths

  /** The text without its empty and `.` components; `start` says whether a component starts here. A slash at
      the end stays: what ends in one is only ever a directory. */
  function Clean(s: string, start: bool): string {
    if s == "" || (start && s == ".") then ""
    else if start && s[0] == '/' then Clean(s[1..], true)
    else if start && "./" <= s then Clean(s[2..], true)
    else [s[0]] + Clean(s[1..], s[0] == '/')
  }

  function WithoutColon(path: string): string {
    if ":" <= path then path[1..] else path
  }

  /** The text behind a `:/`, or behind another leading colon, and behind a colon after that. */
  function WithoutMagic(path: string): string {
    if ":/" <= path then WithoutColon(path[2..])
    else if ":" <= path then WithoutColon(path[1..])
    else path
  }

  /** A path below the directory `dir`, where the empty text is the root. */
  function InDirectory(dir: string, path: string): string {
    if dir == "" then path else dir + "/" + path
  }

  /** What git takes a path for when it runs in the directory `dir` of the worktree: `:/` goes to the root,
      another leading colon is dropped. The empty reading is the whole tree. */
  function Reading(dir: string, path: string): string {
    var p := Normalize(path);
    Clean(if ":/" <= p then WithoutMagic(p) else InDirectory(dir, WithoutMagic(p)), true)
  }

  function Readings(dir: string, paths: seq<string>): (r: seq<string>)
    ensures |r| == |paths| && forall i :: 0 <= i < |r| ==> r[i] == Reading(dir, paths[i])
  {
    if paths == [] then [] else [Reading(dir, paths[0])] + Readings(dir, paths[1..])
  }

  /** A file that a reading names. */
  predicate Names(reading: string, file: string) {
    reading == "" || PathMatches(file, reading)
  }

  /** A file that one of the readings names. */
  predicate Reaches(readings: seq<string>, file: string) {
    exists i :: 0 <= i < |readings| && Names(readings[i], file)
  }

  // ---- canonical spelling ----

  /** No component that starts in the text is empty or `.`. */
  predicate Tidy(s: string, start: bool) {
    forall i :: 0 <= i < |s| && (if i == 0 then start else s[i - 1] == '/') ==> StartsComponent(s, i)
  }

  predicate StartsComponent(s: string, i: nat)
    requires i < |s|
  {
    s[i] != '/' && (s[i] == '.' ==> i + 1 < |s| && s[i + 1] != '/')
  }

  /** Slashes as they are and no leading colon, no empty and no `.` component. */
  predicate Canonical(path: string) {
    var p := Normalize(path);
    p != "" && p[0] != ':' && Tidy(p, true)
  }

  predicate AllCanonical(paths: seq<string>) {
    forall i :: 0 <= i < |paths| ==> Canonical(paths[i])
  }

  lemma {:induction false} CleanLength(s: string, start: bool)
    ensures |Clean(s, start)| <= |s|
  {
    if s == "" || (start && s == ".") {
    } else if start && s[0] == '/' {
      CleanLength(s[1..], true);
    } else if start && "./" <= s {
      CleanLength(s[2..], true);
    } else {
      CleanLength(s[1..], s[0] == '/');
    }
  }

  lemma TidyTail(s: string, start: bool)
    requires s != ""
    ensures Tidy(s, start) <==> (start ==> StartsComponent(s, 0)) && Tidy(s[1..], s[0] == '/')
  {
    var t := s[1..];
    forall i | 0 <= i < |t|
      ensures StartsComponent(t, i) == StartsComponent(s, i + 1)
      ensures (if i == 0 then s[0] == '/' else t[i - 1] == '/') == (s[i] == '/')
    {
    }
    if Tidy(s, start) {
      assert start ==> StartsComponent(s, 0);
      forall i | 0 <= i < |t| && (if i == 0 then s[0] == '/' else t[i - 1] == '/')
        ensures StartsComponent(t, i)
      {
        assert StartsComponent(s, i + 1);
      }
    }
    if (start ==> StartsComponent(s, 0)) && Tidy(t, s[0] == '/') {
      forall i | 0 <= i < |s| && (if i == 0 then start else s[i - 1] == '/')
        ensures StartsComponent(s, i)
      {
        if i > 0 {
          assert StartsComponent(t, i - 1);
        }
      }
    }
  }

  /** Cleaning changes nothing exactly when the text is tidy. */
  lemma {:induction false} CleanStays(s: string, start: bool)
    ensures Clean(s, start) == s <==> Tidy(s, start)
  {
    if s != "" {
      TidyTail(s, start);
      if start && s == "." {
      } else if start && s[0] == '/' {
        CleanLength(s[1..], true);
      } else if start && "./" <= s {
        CleanLength(s[2..], true);
      } else {
        CleanStays(s[1..], s[0] == '/');
        assert s == [s[0]] + s[1..];
      }
    }
  }

  lemma {:induction false} CleanIsNormal(s: string, start: bool)
    requires '\\' !in s
    ensures '\\' !in Clean(s, start)
  {
    if s == "" || (start && s == ".") {
    } else if start && s[0] == '/' {
      CleanIsNormal(s[1..], true);
    } else if start && "./" <= s {
      CleanIsNormal(s[2..], true);
    } else {
      CleanIsNormal(s[1..], s[0] == '/');
    }
  }

  lemma ReadingIsNormal(path: string)
    ensures Normalize(Reading("", path)) == Reading("", path)
  {
    NormalizeTwice(path);
    NormalMeansNoBackslash(Normalize(path));
    CleanIsNormal(WithoutMagic(Normalize(path)), true);
    NormalMeansNoBackslash(Reading("", path));
  }

  // ---- joined texts ----

  lemma SlashAfter(a: string, k: nat)
    requires k <= |a|
    ensures (a + "/")[k..] == a[k..] + "/"
  {
  }

  lemma JoinAfter(a: string, t: string, k: nat)
    requires k <= |a|
    ensures (a + "/" + t)[k..] == a[k..] + "/" + t
  {
  }

  /** How much one step of cleaning takes: an empty or a `.` component with its slash, or one character. */
  function Step(a: string, start: bool): nat
    requires a != ""
  {
    if start && a[0] != '/' && "./" <= a then 2 else 1
  }

  /** What the step keeps of it. */
  function Kept(a: string, start: bool): string
    requires a != ""
  {
    if start && (a[0] == '/' || "./" <= a) then "" else [a[0]]
  }

  /** A step does not depend on what follows the text, if a slash does. */
  lemma CleanSteps(a: string, t: string, start: bool)
    requires a != "" && !(start && a == ".")
    ensures var k := Step(a, start); var next := k == 2 || a[0] == '/';
      && k <= |a|
      && Clean(a, start) == Kept(a, start) + Clean(a[k..], next)
      && Clean(a + "/" + t, start) == Kept(a, start) + Clean(a[k..] + "/" + t, next)
  {
    JoinAfter(a, t, Step(a, start));
  }

  /** Cleaning works through a text component by component. */
  lemma {:induction false} CleanJoin(a: string, t: string, start: bool)
    ensures Clean(a + "/" + t, start) == Clean(a + "/", start) + Clean(t, true)
  {
    assert a + "/" + "" == a + "/";
    if a == "" {
      assert a + "/" == "/" && (a + "/" + t)[1..] == t;
    } else if start && a == "." {
      assert a + "/" == "./" && (a + "/" + t)[2..] == t;
    } else {
      var k := Step(a, start);
      CleanSteps(a, t, start);
      CleanSteps(a, "", start);
      assert a[k..] + "/" + "" == a[k..] + "/";
      CleanJoin(a[k..], t, k == 2 || a[0] == '/');
    }
  }

  /** With a slash at the end a text cleans to nothing or to its own cleaning with one slash. */
  lemma {:induction false} CleanSlash(a: string, start: bool)
    ensures var c := Clean(a + "/", start);
      && (c == Clean(a, start) || c == Clean(a, start) + "/")
      && (c == "" || c[|c| - 1] == '/')
  {
    assert a + "/" + "" == a + "/";
    if a == "" {
      assert a + "/" == "/";
    } else if start && a == "." {
      assert a + "/" == "./" && (a + "/")[2..] == "";
    } else {
      var k := Step(a, start);
      CleanSteps(a, "", start);
      assert a[k..] + "/" + "" == a[k..] + "/";
      CleanSlash(a[k..], k == 2 || a[0] == '/');
      EndsAfter(Kept(a, start), Clean(a[k..], k == 2 || a[0] == '/'), Clean(a[k..] + "/", k == 2 || a[0] == '/'));
    }
  }

  lemma EndsAfter(a: string, c: string, d: string)
    requires (d == c || d == c + "/") && (d == "" || d[|d| - 1] == '/') && |a| <= 1 && (a != "" ==> a == "/" || d != "")
    ensures a + d == a + c || a + d == a + c + "/"
    ensures a + d == "" || (a + d)[|a + d| - 1] == '/'
  {
    assert a + (c + "/") == a + c + "/";
  }

  // ---- as written ----

  /** A cleaned text is tidy. */
  lemma {:induction false} CleanIsTidy(s: string, start: bool)
    ensures Tidy(Clean(s, start), start)
  {
    if s == "" || (start && s == ".") {
    } else if start && s[0] == '/' {
      CleanIsTidy(s[1..], true);
    } else if start && "./" <= s {
      CleanIsTidy(s[2..], true);
    } else {
      var t := Clean(s[1..], s[0] == '/');
      CleanIsTidy(s[1..], s[0] == '/');
      assert ([s[0]] + t)[1..] == t;
      TidyTail([s[0]] + t, start);
      assert s[0] == '.' && start ==> s[1] != '/';
    }
  }

  lemma RootReadsAsWritten(path: string)
    requires path != ""
    ensures Reading("", path) == Normalize(path) <==> Canonical(path)
  {
    var p := Normalize(path);
    NormalizeLength(path);
    if ":" <= p {
      CleanLength(WithoutMagic(p), true);
    } else {
      CleanStays(p, true);
    }
  }

  /** Where git can run below the root. */
  predicate IsDirectory(dir: string) {
    Canonical(dir) && Normalize(dir) == dir == Stem(dir)
  }

  /** A tidy text that does not end in a slash stays tidy with one. */
  lemma TidyWithSlash(s: string)
    requires Tidy(s, true) && s != "" && Stem(s) == s
    ensures Clean(s + "/", true) == s + "/"
  {
    var t := s + "/";
    forall i | 0 <= i < |t| && (i == 0 || t[i - 1] == '/')
      ensures StartsComponent(t, i)
    {
      assert i < |s| && StartsComponent(s, i);
    }
    CleanStays(t, true);
  }

  /** In a directory a relative path is read below it. */
  lemma ReadsBelow(dir: string, p: string)
    requires IsDirectory(dir)
    ensures Clean(dir + "/" + p, true) == dir + "/" + Clean(p, true)
  {
    CleanJoin(dir, p, true);
    TidyWithSlash(dir);
  }

  lemma BelowIsCanonical(dir: string, path: string)
    requires IsDirectory(dir) && Canonical(path) && PlainPath(path)
    ensures Canonical(dir + "/" + path)
  {
    var s := dir + "/" + path;
    FileBelow(dir, path);
    CleanStays(path, true);
    ReadsBelow(dir, path);
    CleanStays(s, true);
  }

  /** Git reads a path as it is written exactly when it runs at the root and the path is spelled canonically. */
  lemma ReadsAsWritten(dir: string, path: string)
    requires path != "" && (dir == "" || IsDirectory(dir))
    ensures Reading(dir, path) == Normalize(path) <==> dir == "" && Canonical(path)
  {
    var p := Normalize(path);
    NormalizeLength(path);
    if dir == "" {
      RootReadsAsWritten(path);
    } else if ":/" <= p {
      CleanLength(WithoutMagic(p), true);
    } else {
      ReadsBelow(dir, WithoutMagic(p));
      var c := Clean(WithoutMagic(p), true);
      if dir + "/" + c == p {
        assert p[0] == dir[0];
        ReadsBelow(dir, c);
        CleanIsTidy(p, true);
        CleanStays(c, true);
      }
    }
  }

  /** A plain path below a directory, both spelled canonically, is read below it. */
  lemma FileBelow(dir: string, path: string)
    requires IsDirectory(dir) && Canonical(path) && PlainPath(path)
    ensures Reading(dir, path) == dir + "/" + path && PlainPath(dir + "/" + path)
  {
    ReadsBelow(dir, path);
    CleanStays(path, true);
    NormalizeConcat(dir + "/", path);
    NormalizeConcat(dir, "/");
    assert Normalize("/") == "/";
    assert (dir + "/" + path)[|dir| + |path|] == path[|path| - 1];
  }

  // ---- patterns and the files they name ----

  lemma NamesGrow(c: string, x: string, f: string)
    requires c == "" || c[|c| - 1] == '/'
    requires Names(c + x, f)
    ensures Names(c, f)
  {
    if c != "" {
      NormalizeConcat(c, x);
      NormalizeAt(c, |c| - 1);
      PrefixGrows(Normalize(c), Normalize(x), Normalize(f));
    }
  }

  lemma PrefixGrows(c: string, x: string, f: string)
    requires c != "" && c[|c| - 1] == '/' && (f == c + x || Stem(c + x) + "/" <= f)
    ensures Stem(c) + "/" <= f
  {
    assert Stem(c) + "/" == c;
    assert x != "" ==> Stem(c + x) == c + Stem(x);
  }

  lemma NamesWithSlash(y: string, f: string)
    requires Names(y + "/", f)
    ensures Names(y, f)
  {
    NormalizeConcat(y, "/");
    assert Normalize("/") == "/";
    assert Stem(Normalize(y) + "/") == Normalize(y);
  }

  /** What a text below another one names, the other one names too, cleaned or not. */
  lemma CleanUnder(q: string, r: string, f: string)
    requires q == r || Stem(q) + "/" <= r
    requires Names(Clean(r, true), f)
    ensures Names(Clean(q, true), f)
  {
    if q != r {
      var t := r[|Stem(q)| + 1..];
      assert r == Stem(q) + "/" + t;
      StemNames(Stem(q), t, f);
      WithSlash(q);
    }
  }

  lemma StemNames(a: string, t: string, f: string)
    requires Names(Clean(a + "/" + t, true), f)
    ensures Names(Clean(a + "/", true), f) && Names(Clean(a, true), f)
  {
    CleanJoin(a, t, true);
    CleanSlash(a, true);
    NamesGrow(Clean(a + "/", true), Clean(t, true), f);
    if Clean(a + "/", true) != Clean(a, true) {
      NamesWithSlash(Clean(a, true), f);
    }
  }

  lemma MagicUnder(q: string, r: string)
    requires Stem(q) + "/" <= r
    ensures WithoutMagic(q) == "" || Stem(WithoutMagic(q)) + "/" <= WithoutMagic(r)
  {
    var k := |q| - |WithoutMagic(q)|;
    if WithoutMagic(q) != "" {
      MagicLength(q);
      SameMagic(q, r, k);
      DropBoth(q, r, k);
    }
  }

  lemma DropBoth(q: string, r: string, k: nat)
    requires k < |q| && Stem(q) + "/" <= r
    ensures k <= |r| && Stem(q[k..]) + "/" <= r[k..]
  {
    StemDrop(q, k);
    SlashAfter(Stem(q), k);
    assert (Stem(q) + "/")[k..] <= r[k..];
  }

  lemma StemDrop(q: string, k: nat)
    requires k < |q|
    ensures k <= |Stem(q)| && Stem(q[k..]) == Stem(q)[k..]
  {
    assert q[k..][|q| - k - 1] == q[|q| - 1];
  }

  lemma StemAgrees(q: string, r: string, i: nat)
    requires Stem(q) + "/" <= r && i < |q|
    ensures i < |r| && q[i] == r[i]
  {
    WithSlash(q);
    assert q[i] == (Stem(q) + "/")[i];
  }

  lemma MagicLength(q: string)
    ensures var k := |q| - |WithoutMagic(q)|;
      && 0 <= k <= 3 && WithoutMagic(q) == q[k..]
      && (k == 0 <==> !(":" <= q))
      && (k == 1 ==> |q| == 1 || (q[1] != '/' && q[1] != ':'))
      && (k == 2 ==> (q[1] == '/' && (|q| == 2 || q[2] != ':')) || q[1] == ':')
      && (k == 3 ==> q[1] == '/' && q[2] == ':')
  {
  }

  /** What lies below a text with something behind its leading colons has the same leading colons. */
  lemma SameMagic(q: string, r: string, k: nat)
    requires k < |q| && k == |q| - |WithoutMagic(q)| && Stem(q) + "/" <= r
    ensures WithoutMagic(r) == r[k..]
  {
    MagicLength(q);
    MagicLength(r);
    StemAgrees(q, r, 0);
    StemAgrees(q, r, k);
    if k > 0 {
      StemAgrees(q, r, 1);
    }
    if k == 3 {
      StemAgrees(q, r, 2);
    }
  }

  /** At the root a pattern names every file that a path it matches names. */
  lemma MatchedNamesLess(path: string, pattern: string, f: string)
    requires PathMatches(path, pattern) && Names(Reading("", path), f)
    ensures Names(Reading("", pattern), f)
  {
    var p, q := Normalize(path), Normalize(pattern);
    if p != q {
      MagicUnder(q, p);
      if WithoutMagic(q) != "" {
        CleanUnder(WithoutMagic(q), WithoutMagic(p), f);
      }
    }
  }

  /** A path matched by a canonical pattern is read as a path that the pattern matches. */
  lemma CanonicalMatchesReading(path: string, pattern: string)
    requires PathMatches(path, pattern) && Canonical(pattern)
    ensures PathMatches(Reading("", path), pattern)
  {
    var r := Reading("", path);
    assert Names(r, r);
    MatchedNamesLess(path, pattern, r);
    RootReadsAsWritten(pattern);
    NormalizeTwice(pattern);
  }

  // ---- lists of paths ----

  /** Given at the root, every path spelled canonically: git reads the list as it is written. */
  predicate Spelled(dir: string, paths: seq<string>) {
    dir == "" && AllCanonical(paths)
  }

  lemma SpelledReading(dir: string, paths: seq<string>, i: nat)
    requires Spelled(dir, paths) && i < |paths|
    ensures Readings(dir, paths)[i] == Normalize(paths[i]) != ""
  {
    assert Canonical(paths[i]);
    RootReadsAsWritten(paths[i]);
  }

  lemma SpelledIsNonempty(dir: string, paths: seq<string>)
    requires Spelled(dir, paths)
    ensures "" !in Readings(dir, paths)
  {
    forall i | 0 <= i < |paths|
      ensures Readings(dir, paths)[i] != ""
    {
      SpelledReading(dir, paths, i);
    }
  }

  lemma SpelledIsItself(dir: string, paths: seq<string>)
    requires Spelled(dir, paths) && forall i :: 0 <= i < |paths| ==> Normalize(paths[i]) == paths[i]
    ensures Readings(dir, paths) == paths
  {
    forall i | 0 <= i < |paths|
      ensures Readings(dir, paths)[i] == paths[i]
    {
      SpelledReading(dir, paths, i);
    }
  }

  lemma ReachesCovers(readings: seq<string>, file: string)
    requires "" !in readings
    ensures Reaches(readings, file) <==> Covers(readings, file)
  {
    forall i | 0 <= i < |readings|
      ensures Names(readings[i], file) <==> PathMatches(file, readings[i])
    {
      assert readings[i] in readings;
    }
  }
}
