/** Work-scope leases: the shared registry, the tokens of each process, and who may touch a path. */
module WorkScopes {
  import opened GitPaths
  import opened GitSpelling
  import opened Strings
  import opened Wrappers

  const TOKEN_TTL_MS := 15 * 60 * 1000

  datatype Authority = Paths | RepositoryTopology

  datatype Lease = Lease(
    ref: string, repositoryRoot: string, ownerId: string, authority: Authority,
    allowedPaths: seq<string>, baseHead: Option<string>, expiresAt: nat)

  datatype RegistryFile = LeaseFile(lease: Lease) | CorruptFile

  datatype Error =
    | RequiresOwner | RequiresPaths | TopologyTakesNoPaths | RequiresExplicitPaths
    | EmptyPath | LeadingDash | AbsolutePath | ParentPath | MagicPathspec | BaseStateMismatch
    | RegistryCorrupt | PathAlreadyOwned(holder: string) | RefExists
    | NotFound | Released | Expired | RepositoryMismatch | OwnerMismatch

  /** A `..` between slashes of either kind. */
  predicate HasParent(path: string) {
    var p := Normalize(path);
    exists i :: 0 <= i <= |p| - 2 && ParentAt(p, i)
  }

  predicate ParentAt(p: string, i: nat)
    requires i + 2 <= |p|
  {
    && p[i] == '.' && p[i + 1] == '.'
    && (i == 0 || p[i - 1] == '/')
    && (i + 2 == |p| || p[i + 2] == '/')
  }

  ghost predicate ParentBetween(p: string, before: string, after: string) {
    && p == before + ".." + after
    && (before == "" || before[|before| - 1] in "/\\") && (after == "" || after[0] in "/\\")
  }

  /** A path has a parent component exactly when a `..` in it stands between slashes of either kind or the ends. */
  lemma ParentIsBetween(p: string)
    ensures HasParent(p) <==> exists before, after :: ParentBetween(p, before, after)
  {
    var q := Normalize(p);
    NormalizeLength(p);
    if HasParent(p) {
      var i :| 0 <= i <= |q| - 2 && ParentAt(q, i);
      ParentSplits(p, i);
    }
    if before, after :| ParentBetween(p, before, after) {
      SplitIsParent(p, before, after);
    }
  }

  /** What a lease can be asked for: an explicit relative path that goes down only, without glob characters. */
  lemma AcceptableIs(value: string)
    ensures Acceptable(value) <==> var p := Trim(value);
      && p != "" && p != "." && !("-" <= p) && !("/" <= p) && !(":(" <= p)
      && '*' !in p && '?' !in p && '[' !in p && forall before, after :: !ParentBetween(p, before, after)
  {
    ParentIsBetween(Trim(value));
  }

  lemma ParentSplits(p: string, i: nat)
    requires |Normalize(p)| == |p| && i + 2 <= |p| && ParentAt(Normalize(p), i)
    ensures ParentBetween(p, p[..i], p[i + 2..])
  {
    NormalizeAt(p, i);
    NormalizeAt(p, i + 1);
    assert p[i..i + 2] == "..";
    assert p == p[..i] + p[i..i + 2] + p[i + 2..];
    if i > 0 {
      NormalizeAt(p, i - 1);
    }
    if i + 2 < |p| {
      NormalizeAt(p, i + 2);
    }
  }

  lemma SplitIsParent(p: string, before: string, after: string)
    requires |Normalize(p)| == |p| && ParentBetween(p, before, after)
    ensures |before| + 2 <= |p| && ParentAt(Normalize(p), |before|)
  {
    var i := |before|;
    NormalizeAt(p, i);
    NormalizeAt(p, i + 1);
    if i > 0 {
      NormalizeAt(p, i - 1);
      assert p[i - 1] == before[i - 1];
    }
    if after != "" {
      NormalizeAt(p, i + 2);
      assert p[i + 2] == after[0];
    }
  }

  /** `validateGitPathspec`: a trimmed relative path without parents and long magic. */
  function ValidatePathspec(value: string): (r: Result<string, Error>)
    ensures r.Err? ==>
      match r.error
      case EmptyPath => Trim(value) == ""
      case LeadingDash => "-" <= Trim(value)
      case AbsolutePath => "/" <= Trim(value)
      case ParentPath => HasParent(Trim(value))
      case MagicPathspec => ":(" <= Trim(value)
      case _ => false
  {
    var path := Trim(value);
    if path == "" then Err(EmptyPath)
    else if path[0] == '-' then Err(LeadingDash)
    else if path[0] == '/' then Err(AbsolutePath)
    else if HasParent(path) then Err(ParentPath)
    else if ":(" <= path then Err(MagicPathspec)
    else Ok(path)
  }

  /** What a path may be in a request for a lease. */
  predicate Acceptable(value: string) {
    var path := Trim(value);
    path != "" && path[0] !in "-/" && !HasParent(path) && !(":(" <= path) && path != "." && IsGlobFree(path)
  }

  function LeasePath(value: string): (r: Result<string, Error>)
    ensures r.Ok? <==> Acceptable(value)
    ensures r.Ok? ==> '\\' !in r.value && IsGlobFree(r.value) && Normalize(r.value) == r.value == Normalize(Trim(value))
  {
    match ValidatePathspec(value)
    case Err(error) => Err(error)
    case Ok(path) =>
      if path == "." || !IsGlobFree(path) then Err(RequiresExplicitPaths)
      else
        NormalizedIsPlain(path);
        NormalizeTwice(path);
        Ok(Normalize(path))
  }

  /** The requested paths as a lease holds them, each once, or the first refusal. */
  function LeasePaths(values: seq<string>): (r: Result<seq<string>, Error>)
    ensures r.Ok? <==> forall i :: 0 <= i < |values| ==> Acceptable(values[i])
    ensures r.Ok? ==> (r.value == [] <==> values == [])
    ensures r.Ok? ==> forall p :: p in r.value <==> exists i :: 0 <= i < |values| && p == Normalize(Trim(values[i]))
    ensures r.Ok? ==> forall i, j :: 0 <= i < j < |r.value| ==> r.value[i] != r.value[j]
  {
    if values == [] then Ok([])
    else match LeasePath(values[0])
      case Err(error) => Err(error)
      case Ok(path) =>
        match LeasePaths(values[1..])
        case Err(error) => Err(error)
        case Ok(rest) => Ok(if path in rest then rest else [path] + rest)
  }

  /** Head, index digest and worktree digest; in a request each may be left out. */
  datatype BaseState = BaseState(head: Option<string>, index: Option<string>, worktree: Option<string>)

  datatype SuppliedBase =
    SuppliedBase(head: Option<Option<string>>, index: Option<Option<string>>, worktree: Option<Option<string>>)

  predicate Agrees(supplied: SuppliedBase, base: BaseState) {
    supplied.head in {None, Some(base.head)} && supplied.index in {None, Some(base.index)}
    && supplied.worktree in {None, Some(base.worktree)}
  }

  /** The request of `gitBeginWorkScope` becomes a lease, or is refused before the registry is touched. */
  function LeaseFor(
    ref: string, root: string, ownerId: string, topology: bool, paths: seq<string>, supplied: SuppliedBase,
    base: BaseState, now: nat): (r: Result<Lease, Error>)
    ensures r.Ok? <==>
      && Trim(ownerId) != "" && (supplied.head.Some? ==> supplied.head.value == base.head)
      && (supplied.index.Some? ==> supplied.index.value == base.index)
      && (supplied.worktree.Some? ==> supplied.worktree.value == base.worktree)
      && if topology then paths == [] else paths != [] && forall i :: 0 <= i < |paths| ==> Acceptable(paths[i])
    ensures r.Ok? ==> r.value.expiresAt == now + 900000 && !Expires(r.value, now) && r.value.baseHead == base.head
    ensures r.Ok? ==> r.value.ref == ref && r.value.repositoryRoot == root && r.value.ownerId == Trim(ownerId)
    ensures r.Ok? ==> (r.value.authority == RepositoryTopology <==> r.value.allowedPaths == [])
    ensures r.Ok? ==> forall p ::
      p in r.value.allowedPaths <==> exists i :: 0 <= i < |paths| && p == Normalize(Trim(paths[i]))
  {
    if Trim(ownerId) == "" then Err(RequiresOwner)
    else if !topology && paths == [] then Err(RequiresPaths)
    else if topology && paths != [] then Err(TopologyTakesNoPaths)
    else match LeasePaths(paths)
      case Err(error) => Err(error)
      case Ok(allowed) =>
        if !Agrees(supplied, base) then Err(BaseStateMismatch)
        else
          var mode := if topology then RepositoryTopology else Paths;
          Ok(Lease(ref, root, Trim(ownerId), mode, allowed, base.head, now + TOKEN_TTL_MS))
  }

  /** A lease covers exactly what matches one of the requested paths, trimmed. */
  lemma LeaseCoversRequest(
    ref: string, root: string, ownerId: string, topology: bool, paths: seq<string>, supplied: SuppliedBase,
    base: BaseState, now: nat, p: string)
    requires LeaseFor(ref, root, ownerId, topology, paths, supplied, base, now).Ok?
    ensures Covers(LeaseFor(ref, root, ownerId, topology, paths, supplied, base, now).value.allowedPaths, p) <==>
      exists i :: 0 <= i < |paths| && PathMatches(p, Trim(paths[i]))
  {
    var allowed := LeaseFor(ref, root, ownerId, topology, paths, supplied, base, now).value.allowedPaths;
    if Covers(allowed, p) {
      var k :| 0 <= k < |allowed| && PathMatches(p, allowed[k]);
      assert allowed[k] in allowed;
      var i :| 0 <= i < |paths| && allowed[k] == Normalize(Trim(paths[i]));
      NormalizeTwice(Trim(paths[i]));
      assert PathMatches(p, Trim(paths[i]));
    }
    if i :| 0 <= i < |paths| && PathMatches(p, Trim(paths[i])) {
      NormalizeTwice(Trim(paths[i]));
      var q := Normalize(Trim(paths[i]));
      assert q in allowed;
      var k :| 0 <= k < |allowed| && allowed[k] == q;
      assert PathMatches(p, allowed[k]);
    }
  }

  /** No lease covers a path that starts with white space. */
  lemma NoLeaseCoversSpace(
    ref: string, root: string, ownerId: string, topology: bool, paths: seq<string>, supplied: SuppliedBase,
    base: BaseState, now: nat, p: string)
    requires LeaseFor(ref, root, ownerId, topology, paths, supplied, base, now).Ok? && p != "" && IsSpace(p[0])
    ensures !Covers(LeaseFor(ref, root, ownerId, topology, paths, supplied, base, now).value.allowedPaths, p)
  {
    LeaseCoversRequest(ref, root, ownerId, topology, paths, supplied, base, now, p);
    forall i | 0 <= i < |paths|
      ensures !PathMatches(p, Trim(paths[i]))
    {
      assert Acceptable(paths[i]);
      TrimStartsClean(paths[i]);
      SpaceMatchesNothing(p, Trim(paths[i]));
    }
  }

  lemma SpaceMatchesNothing(p: string, q: string)
    requires p != "" && IsSpace(p[0]) && q != "" && !IsSpace(q[0])
    ensures !PathMatches(p, q)
  {
    NormalizeAt(p, 0);
    NormalizeAt(q, 0);
  }

  predicate Expires(lease: Lease, now: nat) {
    lease.expiresAt <= now
  }

  /** Neither lease takes the whole topology and their paths do not overlap. */
  predicate Compatible(a: Lease, b: Lease) {
    a.authority == Paths && b.authority == Paths && Disjoint(a.allowedPaths, b.allowedPaths)
  }

  /** The overlap test of `gitBeginWorkScope` between a new token and a held lease. */
  predicate Overlaps(token: Lease, held: Lease) {
    token.authority == RepositoryTopology || held.authority == RepositoryTopology
    || exists i :: 0 <= i < |token.allowedPaths| &&
         exists j :: 0 <= j < |held.allowedPaths| &&
           (PathMatches(token.allowedPaths[i], held.allowedPaths[j])
             || PathMatches(held.allowedPaths[j], token.allowedPaths[i]))
  }

  lemma OverlapIsIncompatibility(a: Lease, b: Lease)
    ensures Overlaps(a, b) <==> !Compatible(a, b)
  {
    if !Overlaps(a, b) {
      forall i, j | 0 <= i < |a.allowedPaths| && 0 <= j < |b.allowedPaths|
        ensures !PathMatches(a.allowedPaths[i], b.allowedPaths[j]) && !PathMatches(b.allowedPaths[j], a.allowedPaths[i])
      {
      }
    }
  }

  /** Only files of expired leases may have gone. */
  predicate OnlyExpiredRemoved(before: map<string, RegistryFile>, after: map<string, RegistryFile>, now: nat) {
    && (forall name :: name in after ==> name in before && after[name] == before[name])
    && (forall name :: name in before && name !in after ==>
          before[name].LeaseFile? && Expires(before[name].lease, now))
  }

  function WithoutExpired(files: map<string, RegistryFile>, now: nat): map<string, RegistryFile> {
    map name | name in files && !(files[name].LeaseFile? && Expires(files[name].lease, now)) :: files[name]
  }

  /** The registry lets the token in: every file is readable, no unexpired lease overlaps, and its
      file name is free. */
  predicate Admits(files: map<string, RegistryFile>, token: Lease, now: nat) {
    && token.ref !in WithoutExpired(files, now)
    && forall name :: name in files ==>
         files[name].LeaseFile? && (Expires(files[name].lease, now) || Compatible(token, files[name].lease))
  }

  /** The lease files every process shares, and the tokens one process holds in memory. */
  class Registry {
    var files: map<string, RegistryFile>
    var tokens: map<string, Lease>

    constructor ()
      ensures files == map[] && tokens == map[]
    {
      files, tokens := map[], map[];
    }

    /** `gitBeginWorkScope` inside the registry lock, then storing the token. The request was
        validated before: see `LeaseFor`. */
    method BeginWorkScope(token: Lease, now: nat) returns (r: Result<Lease, Error>)
      modifies this
      ensures r.Ok? <==> Admits(old(files), token, now)
      ensures r.Ok? ==> r.value == token && token.ref in tokens && tokens[token.ref] == token
      ensures r.Ok? ==> files == WithoutExpired(old(files), now)[token.ref := LeaseFile(token)]
      ensures r.Ok? ==> forall name :: name in files && name != token.ref ==>
        files[name].LeaseFile? && !Expires(files[name].lease, now)
      ensures r.Err? ==> OnlyExpiredRemoved(old(files), files, now) && tokens == old(tokens)
      ensures forall ref :: ref in old(tokens) && !Expires(old(tokens)[ref], now) && ref != token.ref ==>
        ref in tokens && tokens[ref] == old(tokens)[ref]
      ensures forall ref :: ref in tokens && ref != token.ref ==> ref in old(tokens) && tokens[ref] == old(tokens)[ref]
    {
      var names := files.Keys;
      while names != {}
        invariant names <= files.Keys
        invariant OnlyExpiredRemoved(old(files), files, now) && tokens == old(tokens)
        invariant forall name :: name in files && name !in names ==>
          files[name].LeaseFile? && !Expires(files[name].lease, now) && Compatible(token, files[name].lease)
      {
        var name :| name in names;
        names := names - {name};
        match files[name] {
          case CorruptFile => return Err(RegistryCorrupt);
          case LeaseFile(lease) =>
            if Expires(lease, now) {
              files := files - {name};
            } else {
              OverlapIsIncompatibility(token, lease);
              if Overlaps(token, lease) {
                return Err(PathAlreadyOwned(lease.ref));
              }
            }
        }
      }
      assert files == WithoutExpired(old(files), now);
      if token.ref in files {
        return Err(RefExists);
      }
      files := files[token.ref := LeaseFile(token)];
      StoreScopeToken(token, now);
      return Ok(token);
    }

    /** Drops expired tokens of this process, then adds the new one. */
    method StoreScopeToken(token: Lease, now: nat)
      modifies this`tokens
      ensures tokens ==
        (map ref | ref in old(tokens) && !Expires(old(tokens)[ref], now) :: old(tokens)[ref])[token.ref := token]
    {
      var refs := tokens.Keys;
      while refs != {}
        invariant refs <= tokens.Keys <= old(tokens).Keys
        invariant forall ref :: ref in tokens ==>
          tokens[ref] == old(tokens)[ref] && (ref in refs || !Expires(tokens[ref], now))
        invariant forall ref :: ref in old(tokens) && ref !in tokens ==> Expires(old(tokens)[ref], now)
      {
        var ref :| ref in refs;
        refs := refs - {ref};
        if Expires(tokens[ref], now) {
          tokens := tokens - {ref};
        }
      }
      tokens := tokens[token.ref := token];
    }

    /** A token is good while this process holds it, its file exists and it has not expired. */
    method ResolveScopeToken(ref: string, now: nat) returns (r: Result<Lease, Error>)
      modifies this`tokens
      ensures r.Ok? <==>
        Trim(ref) in old(tokens) && old(tokens)[Trim(ref)].ref in files && !Expires(old(tokens)[Trim(ref)], now)
      ensures r.Ok? ==> r.value == old(tokens)[Trim(ref)] && tokens == old(tokens)
      ensures tokens.Keys <= old(tokens).Keys && forall k :: k in tokens ==> tokens[k] == old(tokens)[k]
    {
      var key := Trim(ref);
      if key !in tokens {
        return Err(NotFound);
      }
      var token := tokens[key];
      if token.ref !in files {
        tokens := tokens - {token.ref};
        return Err(Released);
      }
      if Expires(token, now) {
        tokens := tokens - {token.ref};
        return Err(Expired);
      }
      return Ok(token);
    }

    /** Releases a lease: only its owner, only in its repository. */
    method EndWorkScope(ref: string, ownerId: string, root: string) returns (r: Result<Lease, Error>)
      modifies this
      ensures r.Ok? <==>
        && ref in old(files) && old(files)[ref].LeaseFile?
        && old(files)[ref].lease.repositoryRoot == root && old(files)[ref].lease.ownerId == ownerId
      ensures r.Ok? ==> r.value == old(files)[ref].lease && files == old(files) - {ref} && tokens == old(tokens) - {ref}
      ensures r.Err? ==> files == old(files) && tokens == old(tokens)
    {
      if ref !in files {
        return Err(NotFound);
      }
      match files[ref] {
        case CorruptFile => return Err(RegistryCorrupt);
        case LeaseFile(lease) =>
          if lease.repositoryRoot != root {
            return Err(RepositoryMismatch);
          }
          if lease.ownerId != ownerId {
            return Err(OwnerMismatch);
          }
          files := files - {ref};
          tokens := tokens - {ref};
          return Ok(lease);
      }
    }
  }

  // ---- several processes over one registry ----

  /** All processes: the shared files, each process's tokens, every lease ever issued, and the clock. */
  datatype World = World(
    files: map<string, RegistryFile>, tokens: map<(nat, string), Lease>,
    issued: map<string, Lease>, now: nat)

  const START := World(map[], map[], map[], 0)

  /** What can happen. References are never reused, the clock never runs backwards, and a crash in
      the middle of writing can leave any lease file unreadable. */
  datatype Event =
    | Begin(process: nat, token: Lease)
    | BeginRefused(remaining: map<string, RegistryFile>)
    | End(process: nat, ref: string)
    | Forget(process: nat, ref: string)
    | Damage(ref: string)
    | Tick(now: nat)

  predicate Possible(w: World, e: Event) {
    match e
    case Begin(_, token) => Admits(w.files, token, w.now) && token.ref !in w.issued
    case BeginRefused(remaining) => OnlyExpiredRemoved(w.files, remaining, w.now)
    case End(_, ref) => ref in w.files
    case Forget(process, ref) => (process, ref) in w.tokens
    case Damage(ref) => ref in w.files
    case Tick(now) => w.now <= now
  }

  function Happen(w: World, e: Event): World
    requires Possible(w, e)
  {
    match e
    case Begin(process, token) => World(
      WithoutExpired(w.files, w.now)[token.ref := LeaseFile(token)],
      w.tokens[(process, token.ref) := token], w.issued[token.ref := token], w.now)
    case BeginRefused(remaining) => w.(files := remaining)
    case End(process, ref) => w.(files := w.files - {ref}, tokens := w.tokens - {(process, ref)})
    case Forget(process, ref) => w.(tokens := w.tokens - {(process, ref)})
    case Damage(ref) => w.(files := w.files[ref := CorruptFile])
    case Tick(now) => w.(now := now)
  }

  predicate Trace(w: World, events: seq<Event>)
    decreases |events|
  {
    events == [] || (Possible(w, events[0]) && Trace(Happen(w, events[0]), events[1..]))
  }

  function After(w: World, events: seq<Event>): World
    requires Trace(w, events)
    decreases |events|
  {
    if events == [] then w else After(Happen(w, events[0]), events[1..])
  }

  /** The token resolves for its process: registered, and not expired. */
  predicate Holds(w: World, process: nat, ref: string) {
    (process, ref) in w.tokens && ref in w.files && !Expires(w.tokens[(process, ref)], w.now)
  }

  predicate Authorised(w: World, process: nat, ref: string, path: string) {
    Holds(w, process, ref) && Covers(w.tokens[(process, ref)].allowedPaths, path)
  }

  /** The file still shows a lease that was issued and has not expired. */
  predicate Registered(w: World, ref: string) {
    ref in w.files && ref in w.issued && !Expires(w.issued[ref], w.now)
  }

  ghost predicate Sound(w: World) {
    && (forall ref :: ref in w.files ==>
      ref in w.issued && (w.files[ref].LeaseFile? ==> w.files[ref].lease == w.issued[ref]))
    && (forall k :: k in w.tokens ==> k.1 in w.issued && w.tokens[k] == w.issued[k.1])
    && (forall ref :: ref in w.issued ==> w.issued[ref].ref == ref)
    && (forall a, b :: Registered(w, a) && Registered(w, b) && a != b ==> Compatible(w.issued[a], w.issued[b]))
  }

  lemma CompatibleSymmetric(a: Lease, b: Lease)
    requires Compatible(a, b)
    ensures Compatible(b, a)
  {
  }

  lemma EventKeepsSound(w: World, e: Event)
    requires Sound(w) && Possible(w, e)
    ensures Sound(Happen(w, e))
  {
    var w' := Happen(w, e);
    if e.Begin? {
      forall a, b | Registered(w', a) && Registered(w', b) && a != b
        ensures Compatible(w'.issued[a], w'.issued[b])
      {
        if a == e.token.ref {
          assert b in w.files && Compatible(e.token, w.files[b].lease);
        } else if b == e.token.ref {
          assert a in w.files;
          CompatibleSymmetric(e.token, w.files[a].lease);
        } else {
          assert Registered(w, a) && Registered(w, b);
        }
      }
    } else {
      forall a, b | Registered(w', a) && Registered(w', b) && a != b
        ensures Compatible(w'.issued[a], w'.issued[b])
      {
        assert Registered(w, a) && Registered(w, b);
      }
    }
  }

  lemma {:induction false} TraceKeepsSound(w: World, events: seq<Event>)
    requires Sound(w) && Trace(w, events)
    ensures Sound(After(w, events))
    decreases |events|
  {
    if events != [] {
      EventKeepsSound(w, events[0]);
      TraceKeepsSound(Happen(w, events[0]), events[1..]);
    }
  }

  // ---- the files behind the paths ----

  /** A request that the lease covers can make git write the file, run at the root. */
  ghost predicate MayWrite(lease: Lease, file: string) {
    exists r :: Covers(lease.allowedPaths, r) && Names(Reading("", r), file)
  }

  /** The overlap test on the paths as git reads them. */
  predicate ReadingsApart(a: seq<string>, b: seq<string>) {
    forall i, j :: 0 <= i < |a| && 0 <= j < |b| ==> Apart(Reading("", a[i]), Reading("", b[j]))
  }

  predicate Apart(x: string, y: string) {
    x != "" && y != "" && !PathMatches(x, y) && !PathMatches(y, x)
  }

  /** Requests reach no further than the lease's own paths. */
  lemma MayWriteExactly(lease: Lease, file: string)
    ensures MayWrite(lease, file) <==> Reaches(Readings("", lease.allowedPaths), file)
  {
    var readings := Readings("", lease.allowedPaths);
    if MayWrite(lease, file) {
      var r :| Covers(lease.allowedPaths, r) && Names(Reading("", r), file);
      var i :| 0 <= i < |lease.allowedPaths| && PathMatches(r, lease.allowedPaths[i]);
      MatchedNamesLess(r, lease.allowedPaths[i], file);
      assert Names(readings[i], file);
    }
    if Reaches(readings, file) {
      var i :| 0 <= i < |readings| && Names(readings[i], file);
      assert PathMatches(lease.allowedPaths[i], lease.allowedPaths[i]);
      assert Covers(lease.allowedPaths, lease.allowedPaths[i]);
    }
  }

  lemma ApartNamesNothing(x: string, y: string, file: string)
    requires Apart(x, y)
    ensures !(Names(x, file) && Names(y, file))
  {
    if Names(x, file) && Names(y, file) {
      SharedPathNests(file, x, y);
    }
  }

  /** Two readings that are not apart name a common file. */
  lemma CommonFile(x: string, y: string) returns (file: string)
    requires Normalize(x) == x && Normalize(y) == y && !Apart(x, y)
    ensures file != "" && PlainPath(file) && Names(x, file) && Names(y, file)
  {
    if x == "" || (y != "" && PathMatches(y, x)) {
      file := FileOf(y);
      if x != "" {
        MatchTransitive(file, y, x);
      }
    } else {
      file := FileOf(x);
      if y != "" {
        MatchTransitive(file, x, y);
      }
    }
  }

  lemma FileOf(x: string) returns (file: string)
    requires Normalize(x) == x
    ensures file != "" && PlainPath(file) && Names(x, file) && (x != "" ==> PathMatches(file, x))
  {
    file := if x != "" && Stem(x) == x then x else x + "f";
    NormalizeConcat(x, "f");
    assert Normalize("f") == "f";
    WithSlash(x);
  }

  /** Two leases let their holders write a common file exactly when their paths overlap as git reads them. */
  lemma FilesApartExactly(a: Lease, b: Lease)
    ensures ReadingsApart(a.allowedPaths, b.allowedPaths) ==> forall file :: !(MayWrite(a, file) && MayWrite(b, file))
    ensures !ReadingsApart(a.allowedPaths, b.allowedPaths) ==>
      exists file :: file != "" && PlainPath(file) && MayWrite(a, file) && MayWrite(b, file)
  {
    var x, y := Readings("", a.allowedPaths), Readings("", b.allowedPaths);
    if ReadingsApart(a.allowedPaths, b.allowedPaths) {
      forall file
        ensures !(MayWrite(a, file) && MayWrite(b, file))
      {
        MayWriteExactly(a, file);
        MayWriteExactly(b, file);
        forall i, j | 0 <= i < |x| && 0 <= j < |y| {
          ApartNamesNothing(x[i], y[j], file);
        }
      }
    } else {
      var i, j :| 0 <= i < |x| && 0 <= j < |y|
        && !Apart(Reading("", a.allowedPaths[i]), Reading("", b.allowedPaths[j]));
      ReadingIsNormal(a.allowedPaths[i]);
      ReadingIsNormal(b.allowedPaths[j]);
      var file := CommonFile(x[i], y[j]);
      MayWriteExactly(a, file);
      MayWriteExactly(b, file);
      assert Names(x[i], file) && Names(y[j], file);
    }
  }

  /** For canonical spellings the registry's test on the texts is the test on the files. */
  lemma CanonicalApart(a: seq<string>, b: seq<string>)
    requires AllCanonical(a) && AllCanonical(b)
    ensures ReadingsApart(a, b) <==> Disjoint(a, b)
  {
    forall i, j | 0 <= i < |a| && 0 <= j < |b|
      ensures Apart(Reading("", a[i]), Reading("", b[j])) <==> !PathMatches(a[i], b[j]) && !PathMatches(b[j], a[i])
    {
      RootReadsAsWritten(a[i]);
      RootReadsAsWritten(b[j]);
      NormalizeTwice(a[i]);
      NormalizeTwice(b[j]);
    }
    if ReadingsApart(a, b) {
      forall i, j | 0 <= i < |a| && 0 <= j < |b|
        ensures !PathMatches(a[i], b[j]) && !PathMatches(b[j], a[i])
      {
        assert Apart(Reading("", a[i]), Reading("", b[j]));
      }
    }
  }

  /** Lease exclusion. After any events no path is authorised by two different leases, and while a
      topology lease holds no other lease does. No file can be written under both exactly when the paths do not
      overlap as git reads them, which canonical spelling guarantees. */
  lemma LeaseExclusion(events: seq<Event>, p: nat, a: string, q: nat, b: string, path: string)
    requires Trace(START, events) && a != b
    ensures var w := After(START, events);
      && !(Authorised(w, p, a, path) && Authorised(w, q, b, path))
      && (Holds(w, p, a) && Holds(w, q, b) ==>
            var x, y := w.tokens[(p, a)], w.tokens[(q, b)];
            && x.authority == Paths && y.authority == Paths
            && ((forall file :: !(MayWrite(x, file) && MayWrite(y, file))) <==>
                  ReadingsApart(x.allowedPaths, y.allowedPaths))
            && (AllCanonical(x.allowedPaths) && AllCanonical(y.allowedPaths) ==>
                  forall file :: !(MayWrite(x, file) && MayWrite(y, file))))
  {
    TraceKeepsSound(START, events);
    var w := After(START, events);
    if Holds(w, p, a) && Holds(w, q, b) {
      var x, y := w.issued[a], w.issued[b];
      assert Registered(w, a) && Registered(w, b);
      assert Compatible(x, y);
      DisjointCoversNothing(x.allowedPaths, y.allowedPaths, path);
      FilesApartExactly(x, y);
      if AllCanonical(x.allowedPaths) && AllCanonical(y.allowedPaths) {
        CanonicalApart(x.allowedPaths, y.allowedPaths);
      }
    }
  }

  /** Two leases that ever hold at one moment have disjoint paths for good. */
  lemma HeldTogetherAreDisjoint(events: seq<Event>, p: nat, a: string, q: nat, b: string)
    requires Trace(START, events) && a != b
    requires Holds(After(START, events), p, a) && Holds(After(START, events), q, b)
    ensures var w := After(START, events);
      Disjoint(w.tokens[(p, a)].allowedPaths, w.tokens[(q, b)].allowedPaths)
  {
    TraceKeepsSound(START, events);
    var w := After(START, events);
    assert Registered(w, a) && Registered(w, b);
    assert Compatible(w.issued[a], w.issued[b]);
  }


  // ---- paths come free ----

  /** No other lease than these stands in the way of the token at that time. */
  predicate OnlyThese(w: World, token: Lease, refs: set<string>, now: nat) {
    forall name :: name in w.files && name !in refs ==>
      w.files[name].LeaseFile? && (w.files[name].lease.expiresAt <= now || Compatible(token, w.files[name].lease))
  }

  /** A lease that is ended is held by nobody, and whoever it alone kept out gets in. */
  lemma EndedLetsOthersIn(w: World, owner: nat, ref: string, process: nat, token: Lease)
    requires Sound(w) && ref in w.files && token.ref !in w.issued && w.now < token.expiresAt
    requires OnlyThese(w, token, {ref}, w.now)
    ensures Trace(w, [End(owner, ref), Begin(process, token)])
    ensures var t := After(w, [End(owner, ref), Begin(process, token)]);
      Holds(t, process, token.ref) && forall p :: !Holds(t, p, ref)
  {
    var ended := Happen(w, End(owner, ref));
    assert Admits(ended.files, token, w.now);
    TwoEvents(w, End(owner, ref), Begin(process, token));
  }

  /** So does whoever only leases kept out that have expired by then. */
  lemma ExpiryLetsOthersIn(w: World, now: nat, process: nat, token: Lease)
    requires Sound(w) && w.now <= now < token.expiresAt && token.ref !in w.issued && OnlyThese(w, token, {}, now)
    ensures Trace(w, [Tick(now), Begin(process, token)])
    ensures Holds(After(w, [Tick(now), Begin(process, token)]), process, token.ref)
  {
    assert Admits(Happen(w, Tick(now)).files, token, now);
    TwoEvents(w, Tick(now), Begin(process, token));
  }

  lemma TwoEvents(w: World, first: Event, second: Event)
    requires Possible(w, first) && Possible(Happen(w, first), second)
    ensures Trace(w, [first, second]) && After(w, [first, second]) == Happen(Happen(w, first), second)
  {
    var events := [first, second];
    var middle := Happen(w, first);
    assert events[1..] == [second] && [second][1..] == [];
    assert Trace(middle, [second]) && After(middle, [second]) == Happen(middle, second);
  }
}
