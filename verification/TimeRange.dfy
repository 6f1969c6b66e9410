/** internal/query/query.go: the period a query confines its records to, used to prune the log. */
module TimeRange {
  import opened Common
  import opened Matchers
  import opened Query

  ghost function TimeRange(q: Query): Range
    decreases q, 1
  {
    match q
    case Leaf(l) => LeafRange(l)
    case And(qs) => Meet(Ranges(qs))
    case Or(qs) => Closed(Join(Ranges(qs)))
    case Not(x) => Complement(TimeRange(x))
  }

  ghost function Ranges(qs: seq<Query>): (rs: seq<Range>)
    ensures |rs| == |qs| && forall i :: 0 <= i < |qs| ==> rs[i] == TimeRange(qs[i])
    decreases qs, 0
  {
    if qs == [] then [] else [TimeRange(qs[0])] + Ranges(qs[1..])
  }

  /** The minimum period: the latest start and the earliest end. */
  function Meet(rs: seq<Range>): Range {
    if rs == [] then EVERYTHING else Narrow(Meet(rs[..|rs| - 1]), rs[|rs| - 1])
  }

  function Narrow(acc: Range, rg: Range): Range {
    Range(if rg.start.Some? && (acc.start == None || rg.start.value > acc.start.value) then rg.start else acc.start,
          if rg.end.Some? && (acc.end == None || rg.end.value < acc.end.value) then rg.end else acc.end)
  }

  /** The maximum period: the earliest start and the latest end of those parts that have one. */
  function Join(rs: seq<Range>): Range {
    if rs == [] then EVERYTHING else Widen(Join(rs[..|rs| - 1]), rs[|rs| - 1])
  }

  function Widen(acc: Range, rg: Range): Range {
    Range(if rg.start.Some? && (acc.start == None || rg.start.value < acc.start.value) then rg.start else acc.start,
          if rg.end.Some? && (acc.end == None || rg.end.value > acc.end.value) then rg.end else acc.end)
  }

  /** A period that starts behind its end is taken for no period at all. */
  function Closed(rg: Range): Range {
    if Crosses(rg) then EVERYTHING else rg
  }

  predicate Crosses(rg: Range) {
    rg.start.Some? && rg.end.Some? && rg.start.value > rg.end.value
  }

  /** A period with one end is complemented; any other tells nothing. */
  function Complement(rg: Range): Range {
    if rg.start.Some? && rg.end == None then Range(None, Some(rg.start.value - 1))
    else if rg.start == None && rg.end.Some? then Range(Some(rg.end.value + 1), None)
    else EVERYTHING
  }

  /** The loop of `And.TimeRange` computes Meet. */
  method AndTimeRange(rs: seq<Range>) returns (rg: Range)
    ensures rg == Meet(rs)
  {
    var start: Option<Time>, end: Option<Time> := None, None;
    for i := 0 to |rs|
      invariant Range(start, end) == Meet(rs[..i])
    {
      assert rs[..i + 1][..i] == rs[..i];
      var s, e := rs[i].start, rs[i].end;
      if s.Some? && (start == None || s.value > start.value) {
        start := s;
      }
      if e.Some? && (end == None || e.value < end.value) {
        end := e;
      }
    }
    assert rs[..|rs|] == rs;
    rg := Range(start, end);
  }

  /** The loop of `Or.TimeRange` computes the closed Join. */
  method OrTimeRange(rs: seq<Range>) returns (rg: Range)
    ensures rg == Closed(Join(rs))
  {
    var start: Option<Time>, end: Option<Time> := None, None;
    for i := 0 to |rs|
      invariant Range(start, end) == Join(rs[..i])
    {
      assert rs[..i + 1][..i] == rs[..i];
      var s, e := rs[i].start, rs[i].end;
      if s.Some? && (start == None || s.value < start.value) {
        start := s;
      }
      if e.Some? && (end == None || e.value > end.value) {
        end := e;
      }
    }
    assert rs[..|rs|] == rs;
    if start.Some? && end.Some? && start.value > end.value {
      return EVERYTHING;
    }
    rg := Range(start, end);
  }

  /** Meet is the intersection. */
  lemma {:induction false} MeetExact(rs: seq<Range>, t: Time)
    ensures InRange(Meet(rs), t) <==> forall i :: 0 <= i < |rs| ==> InRange(rs[i], t)
  {
    if rs != [] {
      MeetExact(rs[..|rs| - 1], t);
    }
  }

  ghost predicate InSome(rs: seq<Range>, t: Time) {
    exists i :: 0 <= i < |rs| && InRange(rs[i], t)
  }

  /** Each side is bounded by all of the parts or by none of them. */
  ghost predicate SidesAgree(rs: seq<Range>) {
    && ((exists i :: 0 <= i < |rs| && rs[i].start.Some?) ==> forall i :: 0 <= i < |rs| ==> rs[i].start.Some?)
    && ((exists i :: 0 <= i < |rs| && rs[i].end.Some?) ==> forall i :: 0 <= i < |rs| ==> rs[i].end.Some?)
  }

  /** The complement of a period holds exactly the other instants if and only if the period is bounded on exactly one
    * side, or holds no instant at all. */
  lemma ComplementExactIff(rg: Range)
    ensures (forall t :: InRange(Complement(rg), t) <==> !InRange(rg, t))
            <==> (rg.start.Some? <==> rg.end == None) || Crosses(rg)
  {
    if rg == EVERYTHING {
      assert InRange(Complement(rg), 0) && InRange(rg, 0);
    } else if rg.start.Some? && rg.end.Some? && !Crosses(rg) {
      assert InRange(Complement(rg), rg.start.value) && InRange(rg, rg.start.value);
    }
  }

  /** The start of a Join is the least of the starts there are, and its end the greatest of the ends;
    * both are bounds of some part. */
  lemma {:induction false} JoinBounds(rs: seq<Range>)
    ensures Join(rs).start.Some? <==> exists i :: 0 <= i < |rs| && rs[i].start.Some?
    ensures Join(rs).end.Some? <==> exists i :: 0 <= i < |rs| && rs[i].end.Some?
    ensures forall i :: 0 <= i < |rs| && rs[i].start.Some? ==> Join(rs).start.value <= rs[i].start.value
    ensures forall i :: 0 <= i < |rs| && rs[i].end.Some? ==> rs[i].end.value <= Join(rs).end.value
    ensures Join(rs).start.Some? ==> exists i :: 0 <= i < |rs| && rs[i].start == Join(rs).start
    ensures Join(rs).end.Some? ==> exists i :: 0 <= i < |rs| && rs[i].end == Join(rs).end
  {
    if rs != [] {
      var init, last := rs[..|rs| - 1], |rs| - 1;
      JoinBounds(init);
      assert forall i :: 0 <= i < last ==> init[i] == rs[i];
      assert Join(rs) == Widen(Join(init), rs[last]);
      assert Join(rs).start == rs[last].start || Join(rs).start == Join(init).start;
      assert Join(rs).end == rs[last].end || Join(rs).end == Join(init).end;
    }
  }

  /** The closed Join holds every instant of every part if and only if the parts bound the same sides
    * or the bounds they have cross. */
  lemma JoinSoundIff(rs: seq<Range>)
    requires forall i :: 0 <= i < |rs| ==> !Crosses(rs[i])
    ensures (forall t :: InSome(rs, t) ==> InRange(Closed(Join(rs)), t)) <==> SidesAgree(rs) || Crosses(Join(rs))
  {
    JoinBounds(rs);
    var j := Join(rs);
    if !SidesAgree(rs) && !Crosses(j) {
      var i := UnboundedPart(rs);
      if j.start.Some? && rs[i].start == None {
        var t := if rs[i].end.Some? then Min(j.start.value, rs[i].end.value) - 1 else j.start.value - 1;
        assert InSome(rs, t) && !InRange(j, t);
      } else {
        var t := if rs[i].start.Some? then Max(j.end.value, rs[i].start.value) + 1 else j.end.value + 1;
        assert InSome(rs, t) && !InRange(j, t);
      }
    }
  }

  lemma UnboundedPart(rs: seq<Range>) returns (i: nat)
    requires !SidesAgree(rs)
    ensures i < |rs|
    ensures (rs[i].start == None && Join(rs).start.Some?) || (rs[i].end == None && Join(rs).end.Some?)
  {
    JoinBounds(rs);
    if (exists k :: 0 <= k < |rs| && rs[k].start.Some?) && !(forall k :: 0 <= k < |rs| ==> rs[k].start.Some?) {
      i :| i < |rs| && rs[i].start == None;
    } else {
      i :| i < |rs| && rs[i].end == None;
    }
  }

  /** ---- Pruning the log by the period of a query loses no record ---- */

  /** The queries the period is right for: Not only above leaves, positive time conditions only on
    * exactly the field `time`, and Ors whose parts bound the same sides. */
  ghost predicate Prunable(q: Query) {
    match q
    case Leaf(l) => LeafRange(l) == EVERYTHING || ExactTimeLeaf(l)
    case And(qs) => forall x :: x in qs ==> Prunable(x)
    case Or(qs) => (forall x :: x in qs ==> Prunable(x)) && (SidesAgree(Ranges(qs)) || Crosses(Join(Ranges(qs))))
    case Not(x) => x.Leaf? && PositiveResolution(x.leaf)
  }

  lemma {:induction false} TimeRangeSound(q: Query, r: Record)
    requires Prunable(q) && "time" !in r.extra && Match(q, r)
    ensures InRange(TimeRange(q), r.time)
  {
    match q
    case Leaf(l) =>
      if LeafRange(l) != EVERYTHING {
        TimeLeafExact(l, r);
      }
    case And(qs) =>
      forall i | 0 <= i < |qs|
        ensures InRange(Ranges(qs)[i], r.time)
      {
        TimeRangeSound(qs[i], r);
      }
      MeetExact(Ranges(qs), r.time);
    case Or(qs) =>
      var x :| x in qs && Match(x, r);
      TimeRangeSound(x, r);
      var i :| 0 <= i < |qs| && qs[i] == x;
      assert InRange(Ranges(qs)[i], r.time);
      JoinSound(Ranges(qs), i, r.time);
    case Not(x) =>
      UnmatchedOutside(x.leaf, r);
  }

  /** ---- Where the period is exact ---- */

  predicate OnlyStart(rg: Range) { rg.start.Some? && rg.end == None }
  predicate OnlyEnd(rg: Range) { rg.start == None && rg.end.Some? }

  /** Queries of conditions on exactly the field `time`, put together by conjunctions, by disjunctions of periods with a
    * start only or an end only, and by negations of periods with one end. */
  ghost predicate Exact(q: Query) {
    match q
    case Leaf(l) => ExactTimeLeaf(l)
    case And(qs) => forall x :: x in qs ==> Exact(x)
    case Or(qs) =>
      && qs != [] && (forall x :: x in qs ==> Exact(x))
      && ((forall x :: x in qs ==> OnlyStart(TimeRange(x))) || forall x :: x in qs ==> OnlyEnd(TimeRange(x)))
    case Not(x) => Exact(x) && (OnlyStart(TimeRange(x)) || OnlyEnd(TimeRange(x)) || Crosses(TimeRange(x)))
  }

  /** A disjunction of periods that all go on for ever, or all come from for ever, is exactly their Join. */
  lemma JoinExact(rs: seq<Range>, t: Time)
    requires rs != []
    requires (forall i :: 0 <= i < |rs| ==> OnlyStart(rs[i])) || forall i :: 0 <= i < |rs| ==> OnlyEnd(rs[i])
    ensures InRange(Closed(Join(rs)), t) <==> InSome(rs, t)
  {
    JoinBounds(rs);
    if OnlyStart(rs[0]) {
      var i :| 0 <= i < |rs| && rs[i].start == Join(rs).start;
      assert InRange(Join(rs), t) ==> InRange(rs[i], t);
    } else {
      var i :| 0 <= i < |rs| && rs[i].end == Join(rs).end;
      assert InRange(Join(rs), t) ==> InRange(rs[i], t);
    }
  }

  /** Such a query matches exactly the records in its period. */
  lemma {:induction false} TimeRangeExact(q: Query, r: Record)
    requires Exact(q) && "time" !in r.extra
    ensures Match(q, r) <==> InRange(TimeRange(q), r.time)
  {
    match q
    case Leaf(l) =>
      TimeLeafExact(l, r);
    case And(qs) =>
      forall i | 0 <= i < |qs|
        ensures Match(qs[i], r) <==> InRange(Ranges(qs)[i], r.time)
      {
        TimeRangeExact(qs[i], r);
      }
      MeetExact(Ranges(qs), r.time);
    case Or(qs) =>
      var rs := Ranges(qs);
      forall i | 0 <= i < |qs|
        ensures Match(qs[i], r) <==> InRange(rs[i], r.time)
      {
        TimeRangeExact(qs[i], r);
      }
      assert forall i :: 0 <= i < |rs| ==> qs[i] in qs;
      JoinExact(rs, r.time);
    case Not(x) =>
      TimeRangeExact(x, r);
      ComplementExactIff(TimeRange(x));
  }

  ghost function Leaves(ls: seq<Leaf>): (qs: seq<Query>)
    ensures |qs| == |ls| && forall i :: 0 <= i < |ls| ==> qs[i] == Query.Leaf(ls[i])
  {
    if ls == [] then [] else [Query.Leaf(ls[0])] + Leaves(ls[1..])
  }

  /** Every record the query matches lies in its period. */
  ghost predicate Confined(q: Query) {
    forall r: Record :: "time" !in r.extra && Match(q, r) ==> InRange(TimeRange(q), r.time)
  }

  lemma TimeLeavesPrunable(ls: seq<Leaf>)
    requires forall i :: 0 <= i < |ls| ==> ExactTimeLeaf(ls[i])
    ensures forall x :: x in Leaves(ls) ==> Prunable(x)
  {
  }

  /** A record at an instant, and nothing else. */
  lemma RecordAt(l: Leaf, t: Time) returns (r: Record)
    requires ExactTimeLeaf(l) && InRange(LeafRange(l), t)
    ensures r.time == t && "time" !in r.extra && Match(Query.Leaf(l), r)
  {
    r := Record(t, Other, Other, Other, Other, map[]);
    TimeLeafExact(l, r);
  }

  lemma ConfinedAt(qs: seq<Query>, q: Query, r: Record)
    requires q in qs && Match(q, r) && "time" !in r.extra && Confined(Or(qs))
    ensures InRange(TimeRange(Or(qs)), r.time)
  {
    assert Match(Or(qs), r);
  }

  lemma PrunableConfined(q: Query)
    requires Prunable(q)
    ensures Confined(q)
  {
    forall r: Record | "time" !in r.extra && Match(q, r)
      ensures InRange(TimeRange(q), r.time)
    {
      TimeRangeSound(q, r);
    }
  }

  lemma UnconfinedInstant(ls: seq<Leaf>, rs: seq<Range>) returns (t: Time, i: nat)
    requires rs == Ranges(Leaves(ls)) && !SidesAgree(rs) && !Crosses(Join(rs))
    requires forall i :: 0 <= i < |rs| ==> !Crosses(rs[i])
    ensures i < |rs| == |ls| && InRange(rs[i], t) && !InRange(Closed(Join(rs)), t)
  {
    JoinSoundIff(rs);
    t :| InSome(rs, t) && !InRange(Closed(Join(rs)), t);
    i :| i < |rs| && InRange(rs[i], t);
  }

  lemma ExactLeafRanges(ls: seq<Leaf>)
    requires forall i :: 0 <= i < |ls| ==> ExactTimeLeaf(ls[i])
    ensures forall i :: 0 <= i < |ls| ==> Ranges(Leaves(ls))[i] == LeafRange(ls[i]) && !Crosses(Ranges(Leaves(ls))[i])
  {
    forall i | 0 <= i < |ls|
      ensures Ranges(Leaves(ls))[i] == LeafRange(ls[i]) && !Crosses(Ranges(Leaves(ls))[i])
    {
      ExactLeafNotCrossed(ls[i]);
      assert Leaves(ls)[i] == Query.Leaf(ls[i]);
    }
  }

  lemma ExactLeafNotCrossed(l: Leaf)
    requires ExactTimeLeaf(l)
    ensures !Crosses(LeafRange(l))
  {
    var m := l.fieldValue;
    assert !Crosses(MatcherRange(m.op, m.value, m.resolution)) && !Crosses(EVERYTHING);
  }

  /** For a disjunction of time conditions the period is right if and only if they bound the same sides
    * or their bounds cross. */
  lemma TimeDisjunctionIff(ls: seq<Leaf>)
    requires forall i :: 0 <= i < |ls| ==> ExactTimeLeaf(ls[i])
    ensures Confined(Or(Leaves(ls))) <==> SidesAgree(Ranges(Leaves(ls))) || Crosses(Join(Ranges(Leaves(ls))))
  {
    ExactLeafRanges(ls);
    var rs := Ranges(Leaves(ls));
    if SidesAgree(rs) || Crosses(Join(rs)) {
      TimeLeavesPrunable(ls);
      PrunableConfined(Or(Leaves(ls)));
    } else if Confined(Or(Leaves(ls))) {
      var t, i := UnconfinedInstant(ls, rs);
      var r := RecordAt(ls[i], t);
      ConfinedAt(Leaves(ls), Leaves(ls)[i], r);
    }
  }

  lemma JoinSound(rs: seq<Range>, i: nat, t: Time)
    requires i < |rs| && InRange(rs[i], t) && (SidesAgree(rs) || Crosses(Join(rs)))
    ensures InRange(Closed(Join(rs)), t)
  {
    JoinBounds(rs);
  }

  /** The period of the optimized query, which is what `ParseQuery` gives out, prunes nothing the query matches. */
  lemma PruningLosesNothing(q: Query, r: Record)
    requires Prunable(Optimize(q)) && "time" !in r.extra && Match(q, r)
    ensures InRange(TimeRange(Optimize(q)), r.time)
  {
    OptimizeKeepsMatch(q, r);
    TimeRangeSound(Optimize(q), r);
  }

  /** A disjunct without a bound is ignored: `time>=t OR <anything>` matches every record, but is taken
    * to confine the records to those from t on. */
  lemma UnboundedDisjunctLost(t: Time, r: Record)
    requires r.time < t
    ensures var q := Or([Leaf(Field(Glob.Exact("time"), TimeMatcher(GreaterEqual, t, 1, ""))), Leaf(Simple(AnyMatcher))]);
            && Match(q, r) && Optimize(q) == q
            && TimeRange(q) == Range(Some(t), None) && !InRange(TimeRange(q), r.time)
  {
    var a, b := Leaf(Field(Glob.Exact("time"), TimeMatcher(GreaterEqual, t, 1, ""))), Leaf(Simple(AnyMatcher));
    var qs := [a, b];
    assert b in qs && Match(b, r);
    Glob.ExactSplits("time", "time");
    NormalIsOptimal(Or(qs));
    assert Ranges(qs) == [Range(Some(t), None), EVERYTHING];
    var rs := Ranges(qs);
    assert rs[..1] == [rs[0]] && rs[..1][..0] == [];
    assert Join(rs[..1]) == rs[0];
  }

  /** A time without a field name is looked for in every field, but is taken to confine the time of the record: of
    * the records it matches, those are lost whose own time it does not match. */
  lemma BareTimeLostIff(op: Operator, value: Time, resolution: Time, str: string, r: Record)
    requires resolution > 0
    ensures var m := TimeMatcher(op, value, resolution, str);
            var q := Leaf(Simple(m));
            && Optimize(q) == q
            && (Match(q, r) && !InRange(TimeRange(q), r.time) <==>
                !TimeMatch(op, value, resolution, r.time)
                && exists v :: v in {r.status, r.latency, r.target, r.message} && ValueMatch(m, v))
  {
    MatcherRangeExact(op, value, resolution, r.time);
  }

  /** There is always such a record: one from another time whose message holds the text of the word. */
  lemma BareTimeLost(value: Time, resolution: Time, str: string, t: Time)
    requires resolution > 0 && !(value <= t < value + resolution)
    ensures var q := Leaf(Simple(TimeMatcher(Includes, value, resolution, str)));
            var r := Record(t, Other, Other, Other, Text("since " + str, None), map[]);
            Match(q, r) && !InRange(TimeRange(Optimize(q)), r.time)
  {
    var message := "since " + str;
    assert message[6..6 + |str|] == str;
    assert Glob.OccursAt(message, str, 6);
  }

  /** An instant that the matcher matches, and one that it does not. */
  lemma InAndOut(op: Operator, value: Time, resolution: Time) returns (t: Time, u: Time)
    requires resolution > 0
    ensures TimeMatch(op, value, resolution, t) && !TimeMatch(op, value, resolution, u)
  {
    match op {
      case Includes => t, u := value, value - 1;
      case Equal => t, u := value, value - 1;
      case LessThan => t, u := value - 1, value;
      case LessEqual => t, u := value, value + 1;
      case GreaterThan => t, u := value + 1, value;
      case GreaterEqual => t, u := value, value - 1;
    }
  }

  /** With whatever operator, a time without a field name never confines the records it matches: one from outside may
    * tell a matching time in its message, however that is told. */
  lemma BareTimeUnconfined(op: Operator, value: Time, resolution: Time, str: string, told: string)
    requires resolution > 0
    ensures !Confined(Leaf(Simple(TimeMatcher(op, value, resolution, str))))
  {
    var m := TimeMatcher(op, value, resolution, str);
    var t, u := InAndOut(op, value, resolution);
    var message := Text(told, Some(t));
    var r := Record(u, Other, Other, Other, message, map[]);
    assert ValueMatch(m, message);
    MatcherRangeExact(op, value, resolution, u);
    assert Match(Leaf(Simple(m)), r);
  }
}
