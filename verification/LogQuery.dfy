/** internal/endpoint/log.go and mcp.go: the period of a query as the period of a scan. */
module LogQueries {
  import opened Common
  import opened Matchers
  import opened Query
  import opened R = TimeRange
  import Glob

  /** What the log is scanned for: from `start` on, but only up to in front of `end`. */
  datatype Period = Period(start: Time, end: Time) {
    predicate Holds(t: Time) {
      start <= t < end
    }
  }

  /** The period that the log endpoint scans for a query; a side without a bound is filled in. */
  function PeriodOf(rg: Range, now: Time, defaultPeriod: Time): Period {
    match rg
    case Range(None, Some(end)) => Period(end - defaultPeriod, end)
    case Range(Some(start), None) => Period(start, now)
    case Range(Some(start), Some(end)) => Period(start, end)
    case Range(None, None) => Period(now - defaultPeriod, now)
  }

  /** An instant in the range that the scan does not come by: the very last one, and what the filled-in side cuts off. */
  predicate CutOff(rg: Range, now: Time, defaultPeriod: Time, t: Time) {
    match rg
    case Range(None, Some(end)) => t == end || t < end - defaultPeriod
    case Range(Some(_), None) => now <= t
    case Range(Some(_), Some(end)) => t == end
    case Range(None, None) => now <= t || t < now - defaultPeriod
  }

  lemma InRangeCutOff(rg: Range, now: Time, defaultPeriod: Time, t: Time)
    requires InRange(rg, t)
    ensures !PeriodOf(rg, now, defaultPeriod).Holds(t) <==> CutOff(rg, now, defaultPeriod, t)
  {
  }

  /** The endpoint takes the last instant of the range for the first one behind the scan, so that of the records a query
    * matches, with both bounds, exactly those at that instant are not scanned. */
  lemma ScanLosesIff(q: Query, r: Record, now: Time, defaultPeriod: Time)
    requires Prunable(Optimize(q)) && "time" !in r.extra && Match(q, r)
    ensures var rg := R.TimeRange(Optimize(q));
            !PeriodOf(rg, now, defaultPeriod).Holds(r.time) <==> CutOff(rg, now, defaultPeriod, r.time)
  {
    PruningLosesNothing(q, r);
    InRangeCutOff(R.TimeRange(Optimize(q)), now, defaultPeriod, r.time);
  }

  /** What the endpoint shows of some records: those in the scanned period that the optimized query matches. */
  ghost function Shown(log: seq<Record>, q: Query, p: Period): seq<Record> {
    if log == [] then []
    else
      var r, rest := log[|log| - 1], Shown(log[..|log| - 1], q, p);
      if p.Holds(r.time) && Match(Optimize(q), r) then rest + [r] else rest
  }

  ghost function Matching(log: seq<Record>, q: Query): seq<Record> {
    if log == [] then []
    else
      var r, rest := log[|log| - 1], Matching(log[..|log| - 1], q);
      if Match(q, r) then rest + [r] else rest
  }

  /** Nothing that the query matches is cut off. */
  ghost predicate NothingCutOff(log: seq<Record>, q: Query, now: Time, defaultPeriod: Time) {
    forall r :: r in log && Match(q, r) ==> !CutOff(R.TimeRange(Optimize(q)), now, defaultPeriod, r.time)
  }

  lemma {:induction false} ShownFewer(log: seq<Record>, q: Query, p: Period)
    ensures |Shown(log, q, p)| <= |Matching(log, q)|
  {
    if log != [] {
      ShownFewer(log[..|log| - 1], q, p);
      OptimizeKeepsMatch(q, log[|log| - 1]);
    }
  }

  lemma SnocEqual<T>(a: seq<T>, b: seq<T>, x: T)
    ensures a + [x] == b + [x] <==> a == b
  {
    if a + [x] == b + [x] {
      assert (a + [x])[..|a|] == a && (b + [x])[..|b|] == b;
    }
  }

  lemma CutOffSnoc(log: seq<Record>, r: Record, q: Query, now: Time, defaultPeriod: Time)
    ensures NothingCutOff(log + [r], q, now, defaultPeriod) <==>
            NothingCutOff(log, q, now, defaultPeriod)
            && (Match(q, r) ==> !CutOff(R.TimeRange(Optimize(q)), now, defaultPeriod, r.time))
  {
    assert r in log + [r] && forall x :: x in log + [r] <==> x in log || x == r;
  }

  /** The endpoint shows all matches, in their order, exactly when none of them is cut off. */
  lemma {:induction false} ShowsAllIff(log: seq<Record>, q: Query, now: Time, defaultPeriod: Time, p: Period)
    requires Prunable(Optimize(q)) && forall r :: r in log ==> "time" !in r.extra
    requires p == PeriodOf(R.TimeRange(Optimize(q)), now, defaultPeriod)
    ensures Shown(log, q, p) == Matching(log, q) <==> NothingCutOff(log, q, now, defaultPeriod)
  {
    if log != [] {
      var init, r := log[..|log| - 1], log[|log| - 1];
      assert log == init + [r];
      ShowsAllIff(init, q, now, defaultPeriod, p);
      ShownFewer(init, q, p);
      OptimizeKeepsMatch(q, r);
      CutOffSnoc(init, r, q, now, defaultPeriod);
      SnocEqual(Shown(init, q, p), Matching(init, q), r);
      if Match(q, r) {
        ScanLosesIff(q, r, now, defaultPeriod);
      }
    }
  }

  /** The period that a tool call scans, `since` and `until` being its own. */
  function Narrowed(rg: Range, since: Time, until: Time): Period {
    Period(if rg.start.Some? then Max(since, rg.start.value) else since,
           if rg.end.Some? then Min(until, rg.end.value) else until)
  }

  lemma InRangeNarrowed(rg: Range, since: Time, until: Time, t: Time)
    requires InRange(rg, t) && since <= t < until
    ensures !Narrowed(rg, since, until).Holds(t) <==> rg.end == Some(t)
  {
  }

  /** There too: of the matches between `since` and `until` exactly those at the end of the range are not scanned. */
  lemma CallLosesIff(q: Query, r: Record, since: Time, until: Time)
    requires Prunable(Optimize(q)) && "time" !in r.extra && Match(q, r) && since <= r.time < until
    ensures var rg := R.TimeRange(Optimize(q));
            !Narrowed(rg, since, until).Holds(r.time) <==> rg.end == Some(r.time)
  {
    PruningLosesNothing(q, r);
    InRangeNarrowed(R.TimeRange(Optimize(q)), since, until, r.time);
  }

  /** A condition on one whole nanosecond matches records and never shows any. */
  lemma InstantShowsNothing(t: Time, str: string, log: seq<Record>, now: Time, defaultPeriod: Time, r: Record)
    requires r.time == t && "time" !in r.extra
    ensures var q := Leaf(Field(Glob.Exact("time"), TimeMatcher(Equal, t, 1, str)));
            Match(q, r) && Shown(log, q, PeriodOf(R.TimeRange(Optimize(q)), now, defaultPeriod)) == []
  {
    var l := Field(Glob.Exact("time"), TimeMatcher(Equal, t, 1, str));
    TimeLeafExact(l, r);
    Glob.ExactSplits("time", "time");
    NoneShown(log, Leaf(l), PeriodOf(R.TimeRange(Optimize(Leaf(l))), now, defaultPeriod));
  }

  lemma {:induction false} NoneShown(log: seq<Record>, q: Query, p: Period)
    requires p.end <= p.start
    ensures Shown(log, q, p) == []
  {
    if log != [] {
      NoneShown(log[..|log| - 1], q, p);
    }
  }
}
