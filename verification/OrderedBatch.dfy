/** The first rows of a query with an `order by` that leaves no ties, and a `limit`. */
module OrderedBatch {
  import opened CanonicalJson

  /** A text as a sort key. */
  function Codes(s: string): (r: seq<nat>)
    ensures |r| == |s| && forall i :: 0 <= i < |s| ==> r[i] == s[i] as nat
  {
    seq(|s|, i requires 0 <= i < |s| => s[i] as nat)
  }

  lemma CodesInjective(a: string, b: string)
    requires Codes(a) == Codes(b)
    ensures a == b
  {
    assert |a| == |b|;
    forall i | 0 <= i < |a|
      ensures a[i] == b[i]
    {
      assert Codes(a)[i] == Codes(b)[i];
    }
  }

  predicate Tie(key: string -> seq<nat>, x: string, y: string) {
    key(x) == key(y)
  }

  ghost predicate Injective(key: string -> seq<nat>) {
    forall x, y :: Tie(key, x, y) ==> x == y
  }

  predicate Before(key: string -> seq<nat>, x: string, y: string) {
    LexLess(key(x), key(y))
  }

  ghost predicate IsLeast(key: string -> seq<nat>, pool: set<string>, x: string) {
    x in pool && forall y :: y in pool && y != x ==> Before(key, x, y)
  }

  lemma {:induction false} LeastExists(key: string -> seq<nat>, pool: set<string>) returns (x: string)
    requires Injective(key) && pool != {}
    ensures IsLeast(key, pool, x)
    decreases |pool|
  {
    var some :| some in pool;
    var rest := pool - {some};
    if rest == {} {
      x := some;
      assert forall y :: y in pool && y != some ==> y in rest;
    } else {
      var best := LeastExists(key, rest);
      assert !Tie(key, some, best);
      LexTotal(key(some), key(best));
      x := if Before(key, best, some) then best else some;
      forall y | y in pool && y != x
        ensures Before(key, x, y)
      {
        if x == some && y != best {
          assert y in rest && Before(key, best, y);
          assert Before(key, some, best);
          LexTransitive(key(some), key(best), key(y));
        }
      }
    }
  }

  lemma LeastIsUnique(key: string -> seq<nat>, pool: set<string>, x: string, y: string)
    requires IsLeast(key, pool, x) && IsLeast(key, pool, y)
    ensures x == y
  {
    if x != y {
      LexTotal(key(x), key(y));
    }
  }

  ghost function Least(key: string -> seq<nat>, pool: set<string>): (x: string)
    requires Injective(key) && pool != {}
    ensures IsLeast(key, pool, x)
  {
    assert exists l :: IsLeast(key, pool, l) by {
      var l := LeastExists(key, pool);
      assert IsLeast(key, pool, l);
    }
    var l :| IsLeast(key, pool, l);
    l
  }

  /** The first `limit` of the pool in order. */
  ghost function FirstOf(key: string -> seq<nat>, pool: set<string>, limit: nat): seq<string>
    requires Injective(key)
    decreases limit
  {
    if limit == 0 || pool == {} then []
    else
      var x := Least(key, pool);
      [x] + FirstOf(key, pool - {x}, limit - 1)
  }

  function Min(a: nat, b: nat): nat {
    if a < b then a else b
  }

  function Elements(s: seq<string>): set<string> {
    set x | x in s
  }

  /** Nothing outside `front` comes before anything in it. */
  ghost predicate Leads(key: string -> seq<nat>, pool: set<string>, front: set<string>) {
    front <= pool && forall x, y :: x in front && y in pool - front ==> Before(key, x, y)
  }

  lemma ElementsOfCons(x: string, s: seq<string>)
    ensures Elements([x] + s) == {x} + Elements(s)
  {
  }

  lemma {:induction false} BatchSize(key: string -> seq<nat>, pool: set<string>, limit: nat)
    requires Injective(key)
    ensures var r := FirstOf(key, pool, limit); Elements(r) <= pool && |r| == |Elements(r)| == Min(limit, |pool|)
    decreases limit
  {
    if limit == 0 || pool == {} {
      assert Elements([]) == {};
    } else {
      var x := Least(key, pool);
      var rest := FirstOf(key, pool - {x}, limit - 1);
      BatchSize(key, pool - {x}, limit - 1);
      ElementsOfCons(x, rest);
      assert x !in Elements(rest);
    }
  }

  lemma {:induction false} BatchLeads(key: string -> seq<nat>, pool: set<string>, limit: nat)
    requires Injective(key)
    ensures Leads(key, pool, Elements(FirstOf(key, pool, limit)))
    decreases limit
  {
    BatchSize(key, pool, limit);
    if limit > 0 && pool != {} {
      var x := Least(key, pool);
      var rest := FirstOf(key, pool - {x}, limit - 1);
      BatchLeads(key, pool - {x}, limit - 1);
      ElementsOfCons(x, rest);
      forall a, b | a in {x} + Elements(rest) && b in pool - ({x} + Elements(rest))
        ensures Before(key, a, b)
      {
        if a != x {
          assert b in (pool - {x}) - Elements(rest);
        }
      }
    }
  }

  ghost predicate Sorted(key: string -> seq<nat>, r: seq<string>) {
    forall i, j :: 0 <= i < j < |r| ==> Before(key, r[i], r[j])
  }

  lemma {:induction false} BatchSorted(key: string -> seq<nat>, pool: set<string>, limit: nat)
    requires Injective(key)
    ensures Sorted(key, FirstOf(key, pool, limit))
    decreases limit
  {
    if limit > 0 && pool != {} {
      var x := Least(key, pool);
      var rest := FirstOf(key, pool - {x}, limit - 1);
      BatchSorted(key, pool - {x}, limit - 1);
      BatchSize(key, pool - {x}, limit - 1);
      forall j | 0 <= j < |rest|
        ensures Before(key, x, rest[j])
      {
        assert rest[j] in Elements(rest);
      }
    }
  }

  /** The batch holds exactly as many rows as the limit and the pool allow, without repeats, in order,
      and ahead of all that it leaves. */
  lemma FirstOfFacts(key: string -> seq<nat>, pool: set<string>, limit: nat)
    requires Injective(key)
    ensures var r := FirstOf(key, pool, limit);
      && Elements(r) <= pool && |r| == |Elements(r)| == Min(limit, |pool|)
      && Leads(key, pool, Elements(r)) && Sorted(key, r)
  {
    BatchSize(key, pool, limit);
    BatchLeads(key, pool, limit);
    BatchSorted(key, pool, limit);
  }

  /** A long batch is a short one followed by the batch of what that one left. */
  lemma {:induction false} BatchesJoin(key: string -> seq<nat>, pool: set<string>, m: nat, n: nat)
    requires Injective(key)
    ensures FirstOf(key, pool, m + n) == FirstOf(key, pool, m) + FirstOf(key, pool - Elements(FirstOf(key, pool, m)), n)
    decreases m
  {
    if m == 0 || pool == {} {
      assert Elements([]) == {};
      assert pool - {} == pool;
    } else {
      var x := Least(key, pool);
      var rest := FirstOf(key, pool - {x}, m - 1);
      BatchesJoin(key, pool - {x}, m - 1, n);
      ElementsOfCons(x, rest);
      assert pool - ({x} + Elements(rest)) == (pool - {x}) - Elements(rest);
    }
  }

  /** Of two leading parts of the pool, one contains the other. */
  lemma LeadingPartsNest(key: string -> seq<nat>, pool: set<string>, a: set<string>, b: set<string>)
    requires Leads(key, pool, a) && Leads(key, pool, b)
    ensures a <= b || b <= a
  {
    if !(a <= b) && !(b <= a) {
      var x :| x in a && x !in b;
      var y :| y in b && y !in a;
      assert Before(key, x, y) && Before(key, y, x);
      LexTotal(key(x), key(y));
      assert false;
    }
  }

  /** Rows that lead the order fill the batch first. */
  lemma FrontIsServed(key: string -> seq<nat>, pool: set<string>, limit: nat, front: set<string>)
    requires Injective(key) && Leads(key, pool, front)
    ensures |front - Elements(FirstOf(key, pool, limit))| == |front| - Min(limit, |front|)
  {
    var batch := Elements(FirstOf(key, pool, limit));
    BatchSize(key, pool, limit);
    BatchLeads(key, pool, limit);
    LeadingPartsNest(key, pool, front, batch);
    SubsetSize(front, pool);
    if front <= batch {
      assert front - batch == {};
      SubsetSize(front, batch);
    } else {
      SetMinus(front, batch);
      SubsetSize(batch, front);
    }
  }

  /** When the leading rows fill the batch, nothing else gets in. */
  lemma FullFront(key: string -> seq<nat>, pool: set<string>, limit: nat, front: set<string>, x: string)
    requires Injective(key) && Leads(key, pool, front) && |front| >= limit && x !in front
    ensures x !in FirstOf(key, pool, limit)
  {
    var batch := Elements(FirstOf(key, pool, limit));
    BatchSize(key, pool, limit);
    BatchLeads(key, pool, limit);
    LeadingPartsNest(key, pool, front, batch);
    if x in batch {
      SubsetSize(front + {x}, batch);
    }
  }

  lemma {:induction false} SubsetSize<T>(a: set<T>, b: set<T>)
    requires a <= b
    ensures |a| <= |b|
  {
    SetMinus(b, a);
  }

  lemma SetMinus<T>(a: set<T>, b: set<T>)
    requires b <= a
    ensures |a - b| == |a| - |b|
  {
    assert a == (a - b) + b;
  }

  // ---- the order of texts ----

  /** String order: at the first difference the smaller character, or the end of the text. */
  ghost predicate Precedes(a: string, b: string) {
    exists n: nat :: n <= |a| && DiffersAt(a, b, n)
  }

  predicate DiffersAt(a: string, b: string, n: nat)
    requires n <= |a|
  {
    n < |b| && a[..n] == b[..n] && (n == |a| || a[n] < b[n])
  }

  /** The order of the sort keys is the order of the texts. */
  lemma CodesPrecede(a: string, b: string)
    requires LexLess(Codes(a), Codes(b))
    ensures Precedes(a, b)
  {
    var n := FirstDifference(Codes(a), Codes(b));
    forall i | 0 <= i < n
      ensures a[i] == b[i]
    {
      assert Codes(a)[..n][i] == Codes(b)[..n][i];
    }
    assert DiffersAt(a, b, n);
  }

  /** Behind equal numbers the rest decides. */
  lemma LexBehind(x: nat, y: nat, a: seq<nat>, b: seq<nat>)
    requires LexLess([x] + a, [y] + b)
    ensures x < y || (x == y && LexLess(a, b))
  {
    assert ([x] + a)[1..] == a && ([y] + b)[1..] == b;
  }
}
