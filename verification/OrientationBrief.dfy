/** The page bound over a whole brief, and what it says about the length of an occupant's run. */
module OrientationBrief {
  import opened OccupantRun
  import opened OrientationGate
  import opened OrientationStore
  import opened Wrappers
  import P = OrientationPager

  datatype BriefBound =
    | BriefBounded(pageCount: nat)
    | SourceRefused(why: P.SourceBound)
    | AggregateExceeded

  function PagesOf(source: Option<string>): nat {
    if source.Some? then PageCount(source.value) else 0
  }

  predicate Admitted(source: Option<string>) {
    source.Some? ==> P.BoundOf(source.value).Bounded?
  }

  /** The sources of a brief are the site's law and the continuity material, each if there is one. */
  method AssertBriefBound(law: Option<string>, continuity: Option<string>) returns (r: BriefBound)
    ensures r.BriefBounded? <==>
      Admitted(law) && Admitted(continuity) && PagesOf(law) + PagesOf(continuity) <= 128
    ensures r.BriefBounded? ==> r.pageCount == PagesOf(law) + PagesOf(continuity)
  {
    var count := 0;
    if law.Some? {
      var bound := P.AssertOrientationRequiredReadSourceBound(law.value);
      if !bound.Bounded? {
        return SourceRefused(bound);
      }
      count := count + bound.pageCount;
    }
    if continuity.Some? {
      var bound := P.AssertOrientationRequiredReadSourceBound(continuity.value);
      if !bound.Bounded? {
        return SourceRefused(bound);
      }
      count := count + bound.pageCount;
    }
    if count > P.MAX_TOTAL_PAGES {
      return AggregateExceeded;
    }
    return BriefBounded(count);
  }

  function TotalPages(library: string -> string, steps: seq<Step>): nat {
    if steps == [] then 0 else PageCount(library(steps[0].revision)) + TotalPages(library, steps[1..])
  }

  lemma {:induction false} CallsPerPage(library: string -> string, steps: seq<Step>)
    ensures TotalPages(library, steps) <= ReadCalls(library, steps) <= TotalPages(library, steps) + |steps|
    ensures ReadCalls(library, steps) == TotalPages(library, steps) + |steps| ==> TotalPages(library, steps) == 0
  {
    if steps != [] {
      CallsPerPage(library, steps[1..]);
    }
  }

  /** A brief of at most two sources within the aggregate bound opens the gate at call 131 at the latest. */
  lemma BoundedBriefOpens(t: Tables, env: Env, library: string -> string, d: Delivery, k: nat)
    requires Oriented(t, env, library, d)
    requires forall s :: s in d.brief.requiredReads ==>
      (d.receiptId, s.stepId) !in t.pages && (d.receiptId, s.stepId) !in t.completions
    requires |d.brief.requiredReads| <= 2 && TotalPages(library, d.brief.requiredReads) <= 128
    ensures k >= 131 ==> Open(Calls(Session(t, None), env, d, k), d)
  {
    OccupantRunLength(t, env, library, d, k);
    CallsPerPage(library, d.brief.requiredReads);
  }
}
