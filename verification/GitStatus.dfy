/** Reading `git status --porcelain=v1 -z -b`. */
module GitStatus {
  import opened Wrappers

  const NUL: char := 0 as char

  datatype Entry = Entry(x: char, y: char, path: string, original: Option<string>)

  /** How a renamed or copied path is shown. */
  function RenameDisplay(source: string, target: string): string {
    source + " <- " + target
  }

  function Display(e: Entry): string {
    match e.original case Some(source) => RenameDisplay(source, e.path) case None => e.path
  }

  predicate IsUntracked(e: Entry) {
    e.x == '?' && e.y == '?'
  }

  predicate IsConflict(e: Entry) {
    e.x == 'U' || e.y == 'U' || (e.x == 'A' && e.y == 'A') || (e.x == 'D' && e.y == 'D')
  }

  predicate IsStaged(e: Entry) {
    e.x != ' ' && e.x != '?'
  }

  predicate IsUnstaged(e: Entry) {
    e.y != ' ' && e.y != '?'
  }

  /** The displays of the entries that meet a test, in order. */
  function Shown(entries: seq<Entry>, test: Entry -> bool): seq<string> {
    if entries == [] then []
    else (if test(entries[0]) then [Display(entries[0])] else []) + Shown(entries[1..], test)
  }

  lemma {:induction false} ShownAdds(a: seq<Entry>, e: Entry, test: Entry -> bool)
    ensures Shown(a + [e], test) == Shown(a, test) + if test(e) then [Display(e)] else []
  {
    if a == [] {
      assert [] + [e] == [e];
    } else {
      ShownAdds(a[1..], e, test);
      assert (a + [e])[1..] == a[1..] + [e];
    }
  }

  // ---- fields ----

  function Piece(s: string): (p: string)
    ensures p <= s && NUL !in p && (|p| < |s| ==> s[|p|] == NUL)
  {
    if s == "" || s[0] == NUL then "" else [s[0]] + Piece(s[1..])
  }

  /** The nonempty texts between the NULs. */
  function Fields(s: string): (fields: seq<string>)
    ensures forall i :: 0 <= i < |fields| ==> fields[i] != "" && NUL !in fields[i]
    decreases |s|
  {
    if s == "" then []
    else
      var p := Piece(s);
      (if p == "" then [] else [p]) + Fields(if |p| < |s| then s[|p| + 1..] else "")
  }

  predicate HasBranchLine(fields: seq<string>) {
    fields != [] && "## " <= fields[0]
  }

  function StatusFields(fields: seq<string>): seq<string> {
    if HasBranchLine(fields) then fields[1..] else fields
  }

  function BranchLine(fields: seq<string>): string {
    if HasBranchLine(fields) then fields[0][3..] else ""
  }

  predicate HasOriginal(x: char) {
    x == 'R' || x == 'C'
  }

  /** One entry from its field and, for a rename or copy, the field after it. */
  function EntryOf(field: string, next: Option<string>): Entry
    requires field != ""
  {
    var y := if |field| > 1 then field[1] else ' ';
    Entry(field[0], y, if |field| >= 3 then field[3..] else "", if HasOriginal(field[0]) then next else None)
  }

  function Entries(fields: seq<string>): seq<Entry>
    requires forall i :: 0 <= i < |fields| ==> fields[i] != ""
    decreases |fields|
  {
    if fields == [] then []
    else
      var next := if |fields| > 1 then Some(fields[1]) else None;
      [EntryOf(fields[0], next)] + Entries(if HasOriginal(fields[0][0]) && |fields| > 1 then fields[2..]
        else fields[1..])
  }

  datatype Lists = Lists(staged: seq<string>, unstaged: seq<string>, untracked: seq<string>, conflicts: seq<string>)

  predicate ShowsStaged(e: Entry) {
    IsStaged(e) && !IsUntracked(e)
  }

  predicate ShowsUnstaged(e: Entry) {
    IsUnstaged(e) && !IsUntracked(e)
  }

  predicate ShowsConflict(e: Entry) {
    IsConflict(e) && !IsUntracked(e)
  }

  /** The four lists are the flag projections of the entries; untracked files are in no other list. */
  predicate AreProjections(l: Lists, entries: seq<Entry>) {
    && l.staged == Shown(entries, ShowsStaged)
    && l.unstaged == Shown(entries, ShowsUnstaged)
    && l.untracked == Shown(entries, IsUntracked)
    && l.conflicts == Shown(entries, ShowsConflict)
  }

  /** `parseStatus`. */
  method ParseStatus(output: string) returns (branchLine: string, entries: seq<Entry>, lists: Lists, clean: bool)
    ensures branchLine == BranchLine(Fields(output)) && entries == Entries(StatusFields(Fields(output)))
    ensures AreProjections(lists, entries)
    ensures clean <==> lists == Lists([], [], [], [])
  {
    var fields := Fields(output);
    branchLine := "";
    if HasBranchLine(fields) {
      branchLine := fields[0][3..];
      fields := fields[1..];
    }
    entries, lists := ParseEntries(fields);
    clean := |lists.staged| + |lists.unstaged| + |lists.untracked| + |lists.conflicts| == 0;
  }

  method ParseEntries(fields: seq<string>) returns (entries: seq<Entry>, lists: Lists)
    requires forall i :: 0 <= i < |fields| ==> fields[i] != ""
    ensures entries == Entries(fields) && AreProjections(lists, entries)
  {
    entries, lists := [], Lists([], [], [], []);
    var i := 0;
    while i < |fields|
      invariant i <= |fields|
      invariant ParsedSoFar(fields, i, entries)
      invariant AreProjections(lists, entries)
    {
      var x := fields[i][0];
      var e := EntryOf(fields[i], if i + 1 < |fields| then Some(fields[i + 1]) else None);
      OneMoreParsed(fields, i, entries);
      lists := ListEntry(lists, entries, e);
      entries := entries + [e];
      if HasOriginal(x) && i + 1 < |fields| {
        i := i + 1;
      }
      i := i + 1;
    }
    assert fields[i..] == [] && entries + [] == entries;
  }

  /** The entries read so far and those still to come are all the entries. */
  predicate ParsedSoFar(fields: seq<string>, i: nat, entries: seq<Entry>)
    requires i <= |fields| && forall k :: 0 <= k < |fields| ==> fields[k] != ""
  {
    entries + Entries(fields[i..]) == Entries(fields)
  }

  lemma OneMoreParsed(fields: seq<string>, i: nat, entries: seq<Entry>)
    requires i < |fields| && forall k :: 0 <= k < |fields| ==> fields[k] != ""
    requires ParsedSoFar(fields, i, entries)
    ensures var e := EntryOf(fields[i], if i + 1 < |fields| then Some(fields[i + 1]) else None);
      ParsedSoFar(fields, if HasOriginal(fields[i][0]) && i + 1 < |fields| then i + 2 else i + 1, entries + [e])
  {
    var e := EntryOf(fields[i], if i + 1 < |fields| then Some(fields[i + 1]) else None);
    var j := if HasOriginal(fields[i][0]) && i + 1 < |fields| then i + 2 else i + 1;
    NextEntry(fields, i);
    assert entries + ([e] + Entries(fields[j..])) == entries + [e] + Entries(fields[j..]);
  }

  /** The end of the loop body: where one more entry is pushed. */
  method ListEntry(lists: Lists, ghost entries: seq<Entry>, e: Entry) returns (r: Lists)
    requires AreProjections(lists, entries)
    ensures AreProjections(r, entries + [e])
  {
    ShownAdds(entries, e, ShowsStaged);
    ShownAdds(entries, e, ShowsUnstaged);
    ShownAdds(entries, e, IsUntracked);
    ShownAdds(entries, e, ShowsConflict);
    r := lists;
    if IsUntracked(e) {
      return r.(untracked := r.untracked + [Display(e)]);
    }
    if IsConflict(e) {
      r := r.(conflicts := r.conflicts + [Display(e)]);
    }
    if IsStaged(e) {
      r := r.(staged := r.staged + [Display(e)]);
    }
    if IsUnstaged(e) {
      r := r.(unstaged := r.unstaged + [Display(e)]);
    }
  }

  lemma NextEntry(fields: seq<string>, i: nat)
    requires i < |fields| && forall k :: 0 <= k < |fields| ==> fields[k] != ""
    ensures var next := if i + 1 < |fields| then Some(fields[i + 1]) else None;
      Entries(fields[i..]) == [EntryOf(fields[i], next)]
        + Entries(fields[if HasOriginal(fields[i][0]) && i + 1 < |fields| then i + 2 else i + 1..])
  {
    var f := fields[i..];
    assert f[0] == fields[i] && (|f| > 1 ==> f[1] == fields[i + 1] && f[2..] == fields[i + 2..])
      && f[1..] == fields[i + 1..];
  }

  // ---- the round trip ----

  /** An entry that git can print: a path without NUL, and an original path exactly for renames and copies. */
  predicate Printable(e: Entry) {
    && e.x != NUL && e.y != NUL && e.path != "" && NUL !in e.path
    && (e.original.Some? <==> HasOriginal(e.x))
    && (e.original.Some? ==> e.original.value != "" && NUL !in e.original.value)
  }

  function EntryField(e: Entry): string {
    [e.x, e.y, ' '] + e.path
  }

  function EntryFields(e: Entry): seq<string> {
    [EntryField(e)] + match e.original case Some(source) => [source] case None => []
  }

  function AllFields(entries: seq<Entry>): seq<string> {
    if entries == [] then [] else EntryFields(entries[0]) + AllFields(entries[1..])
  }

  /** The fields, each ended by a NUL. */
  function Render(fields: seq<string>): string {
    if fields == [] then "" else fields[0] + [NUL] + Render(fields[1..])
  }

  lemma {:induction false} PieceOf(f: string, rest: string)
    requires NUL !in f
    ensures Piece(f + [NUL] + rest) == f
  {
    var s := f + [NUL] + rest;
    if f != "" {
      assert s[0] == f[0] && s[0] in f;
      assert s[1..] == f[1..] + [NUL] + rest;
      PieceOf(f[1..], rest);
      assert [f[0]] + f[1..] == f;
    }
  }

  lemma {:induction false} FieldsReadBack(fields: seq<string>)
    requires forall i :: 0 <= i < |fields| ==> fields[i] != "" && NUL !in fields[i]
    ensures Fields(Render(fields)) == fields
  {
    if fields != [] {
      var s := Render(fields);
      PieceOf(fields[0], Render(fields[1..]));
      assert s[|fields[0]| + 1..] == Render(fields[1..]);
      FieldsReadBack(fields[1..]);
      assert [fields[0]] + fields[1..] == fields;
    }
  }

  lemma {:induction false} AllFieldsPrintable(entries: seq<Entry>)
    requires forall i :: 0 <= i < |entries| ==> Printable(entries[i])
    ensures forall i :: 0 <= i < |AllFields(entries)| ==> AllFields(entries)[i] != "" && NUL !in AllFields(entries)[i]
  {
    if entries != [] {
      AllFieldsPrintable(entries[1..]);
      EntryFieldsPrintable(entries[0]);
    }
  }

  lemma EntryFieldsPrintable(e: Entry)
    requires Printable(e)
    ensures forall i :: 0 <= i < |EntryFields(e)| ==> EntryFields(e)[i] != "" && NUL !in EntryFields(e)[i]
  {
    assert NUL !in EntryField(e);
  }

  lemma {:induction false} EntriesReadBack(entries: seq<Entry>)
    requires forall i :: 0 <= i < |entries| ==> Printable(entries[i])
    requires forall i :: 0 <= i < |AllFields(entries)| ==> AllFields(entries)[i] != ""
    ensures Entries(AllFields(entries)) == entries
  {
    if entries != [] {
      var e, fields, more := entries[0], AllFields(entries), AllFields(entries[1..]);
      assert Printable(e);
      assert fields[0] == EntryField(e) && fields[0][3..] == e.path;
      assert fields[if e.original.Some? then 2 else 1..] == more;
      forall i | 0 <= i < |more|
        ensures more[i] != ""
      {
        assert more[i] == fields[i + |EntryFields(e)|];
      }
      EntriesReadBack(entries[1..]);
      assert [e] + entries[1..] == entries;
    }
  }

  /** Parsing what git prints for any branch line and any entries gives them back. */
  lemma StatusRoundTrip(branch: string, entries: seq<Entry>)
    requires NUL !in branch && forall i :: 0 <= i < |entries| ==> Printable(entries[i])
    ensures var fields := Fields(Render(["## " + branch] + AllFields(entries)));
      BranchLine(fields) == branch && Entries(StatusFields(fields)) == entries
  {
    var line := "## " + branch;
    var fields := [line] + AllFields(entries);
    AllFieldsPrintable(entries);
    assert NUL !in line;
    FieldsReadBack(fields);
    EntriesReadBack(entries);
    assert fields[1..] == AllFields(entries) && line[3..] == branch;
    assert "## " <= line;
  }

  // ---- the columns ----

  /** The letters git prints for a change. */
  predicate IsChange(c: char) {
    c in "MTADRCU"
  }

  lemma ChangeIsMark(c: char)
    requires IsChange(c)
    ensures c != ' ' && c != '?'
  {
  }

  lemma OneShown(e: Entry, test: Entry -> bool)
    ensures Shown([e], test) == if test(e) then [Display(e)] else []
  {
    assert [e][1..] == [];
  }

  /** Which lists one entry is in: the first column is the index, the second the worktree; `??` is untracked and
      nothing else; a `U` in either column, two `A` or two `D` are a conflict. */
  lemma ColumnsDecide(e: Entry)
    ensures var staged, untracked := Shown([e], ShowsStaged), Shown([e], IsUntracked);
      && (IsChange(e.x) ==> staged == [Display(e)] && untracked == [])
      && (e.x == ' ' ==> staged == [])
      && (e.x == '?' && e.y == '?' ==> staged == [] && untracked == [Display(e)])
    ensures var unstaged, untracked := Shown([e], ShowsUnstaged), Shown([e], IsUntracked);
      && (IsChange(e.y) ==> unstaged == [Display(e)] && untracked == [])
      && (e.y == ' ' ==> unstaged == [])
      && (e.x == '?' && e.y == '?' ==> unstaged == [])
    ensures var conflicts := Shown([e], ShowsConflict);
      && (e.x == 'U' || e.y == 'U' || (e.x == 'A' && e.y == 'A') || (e.x == 'D' && e.y == 'D') ==>
            conflicts == [Display(e)])
      && (e.x != 'U' && e.y != 'U' && (e.x != e.y || (e.x != 'A' && e.x != 'D')) ==> conflicts == [])
  {
    OneShown(e, ShowsStaged);
    OneShown(e, ShowsUnstaged);
    OneShown(e, IsUntracked);
    OneShown(e, ShowsConflict);
    if IsChange(e.x) {
      ChangeIsMark(e.x);
    }
    if IsChange(e.y) {
      ChangeIsMark(e.y);
    }
  }

  /** One printed entry is read with the index column first, the worktree column second and the path after a space. */
  lemma OneEntryIsRead(x: char, y: char, path: string)
    requires x != NUL && y != NUL && path != "" && NUL !in path && x != 'R' && x != 'C'
    requires !("## " <= [x, y, ' '] + path)
    ensures var entries := Entries(StatusFields(Fields([x, y, ' '] + path + [NUL])));
      |entries| == 1 && entries[0].x == x && entries[0].y == y && entries[0].path == path && entries[0].original == None
      && Display(entries[0]) == path
  {
    var e := Entry(x, y, path, None);
    var field := [x, y, ' '] + path;
    AllFieldsPrintable([e]);
    assert AllFields([e]) == [field] by {
      assert [e][1..] == [];
    }
    assert Render([field]) == field + [NUL] by {
      assert [field][1..] == [];
    }
    FieldsReadBack([field]);
    EntriesReadBack([e]);
  }

  /** A renamed file shows its old name, an arrow to the left and its new name. */
  lemma RenameIsShown(x: char, y: char, source: string, target: string)
    requires x == 'R' || x == 'C'
    ensures Display(EntryOf([x, y, ' '] + target, Some(source))) == source + " <- " + target
  {
    assert ([x, y, ' '] + target)[3..] == target;
  }
}
