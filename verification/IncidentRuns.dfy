/** What incidents are, for records that arrive in time order: the maximal runs of equal states of each target. */
module IncidentRuns {
  import opened Common
  import opened Records

  const INCIDENT_HISTORY_LEN: nat := 20

  /** The same status and the same message up to masking. */
  predicate SameState(a: Record, b: Record) {
    a.status == b.status && a.message.masked == b.message.masked
  }

  /** The records of a target that say something about it. */
  function Sub(log: seq<Record>, u: URL): seq<Record> {
    if log == [] then []
    else
      var r, rest := log[|log| - 1], Sub(log[..|log| - 1], u);
      if r.target == u && r.status != Aborted then rest + [r] else rest
  }

  /** Cuts a list into its maximal runs of equal states. */
  function Runs(s: seq<Record>): (runs: seq<seq<Record>>)
    ensures forall i :: 0 <= i < |runs| ==> runs[i] != []
    ensures s != [] ==> runs != [] && Last(runs[|runs| - 1]) == s[|s| - 1]
  {
    if s == [] then []
    else
      var r, runs := s[|s| - 1], Runs(s[..|s| - 1]);
      if runs != [] && SameState(Last(runs[|runs| - 1]), r)
      then runs[..|runs| - 1] + [runs[|runs| - 1] + [r]]
      else runs + [[r]]
  }

  function Last(s: seq<Record>): Record
    requires s != []
  {
    s[|s| - 1]
  }

  function Concat(runs: seq<seq<Record>>): seq<Record> {
    if runs == [] then [] else Concat(runs[..|runs| - 1]) + runs[|runs| - 1]
  }

  ghost predicate Uniform(run: seq<Record>) {
    run != [] && forall i :: 0 <= i < |run| ==> SameState(run[i], run[0])
  }

  lemma ConcatSnoc(runs: seq<seq<Record>>, run: seq<Record>)
    ensures Concat(runs + [run]) == Concat(runs) + run
  {
    assert (runs + [run])[..|runs|] == runs;
  }

  lemma {:induction false} RunsConcat(s: seq<Record>)
    ensures Concat(Runs(s)) == s
  {
    if s != [] {
      var init, r := s[..|s| - 1], s[|s| - 1];
      RunsConcat(init);
      var runs := Runs(init);
      var n := |runs|;
      if n > 0 && SameState(Last(runs[n - 1]), r) {
        ConcatSnoc(runs[..n - 1], runs[n - 1]);
        ConcatSnoc(runs[..n - 1], runs[n - 1] + [r]);
        assert runs[..n - 1] + [runs[n - 1]] == runs;
        assert Concat(runs[..n - 1]) + (runs[n - 1] + [r]) == Concat(runs) + [r];
      } else {
        ConcatSnoc(runs, [r]);
      }
      assert s == init + [r];
    }
  }

  lemma UniformGrows(run: seq<Record>, r: Record)
    requires Uniform(run) && SameState(Last(run), r)
    ensures Uniform(run + [r])
  {
    assert SameState(run[|run| - 1], run[0]);
  }

  /** Runs puts the list together again, each run has one state, and neighbours have different ones. */
  lemma {:induction false} RunsAreMaximal(s: seq<Record>)
    ensures Concat(Runs(s)) == s
    ensures forall i :: 0 <= i < |Runs(s)| ==> Uniform(Runs(s)[i])
    ensures forall i :: 0 < i < |Runs(s)| ==> !SameState(Runs(s)[i - 1][0], Runs(s)[i][0])
  {
    RunsConcat(s);
    if s != [] {
      var init, r := s[..|s| - 1], s[|s| - 1];
      RunsAreMaximal(init);
      var runs := Runs(init);
      var n := |runs|;
      if n > 0 {
        assert Uniform(runs[n - 1]) && SameState(Last(runs[n - 1]), runs[n - 1][0]);
        if SameState(Last(runs[n - 1]), r) {
          UniformGrows(runs[n - 1], r);
        }
      }
    }
  }

  /** ---- The reference: what the store holds after a log ---- */

  datatype Open = Open(status: Status, message: Message, startsAt: Time)
  datatype Closed = Closed(target: URL, status: Status, message: Message, startsAt: Time, endsAt: Time)

  predicate Sick(r: Record) {
    r.status != Healthy && r.status != Aborted
  }

  /** The last run of a target. */
  function Current(log: seq<Record>, u: URL): (run: seq<Record>) {
    var runs := Runs(Sub(log, u));
    if runs == [] then [] else runs[|runs| - 1]
  }

  function OpenOf(run: seq<Record>): Open
    requires run != []
  {
    Open(Last(run).status, Last(run).message, run[0].time)
  }

  function ClosedOf(u: URL, run: seq<Record>, endsAt: Time): Closed
    requires run != []
  {
    Closed(u, Last(run).status, Last(run).message, run[0].time, endsAt)
  }

  /** The record `r` ends the last run of its target. */
  predicate Ends(log: seq<Record>, r: Record) {
    r.status != Aborted && Current(log, r.target) != [] && !SameState(Last(Current(log, r.target)), r)
  }

  /** The record `r` is the first of a run of its target. */
  predicate Begins(log: seq<Record>, r: Record) {
    r.status != Aborted && (Current(log, r.target) == [] || !SameState(Last(Current(log, r.target)), r))
  }

  /** The incidents closed so far, in the order in which they were closed. */
  function Closings(log: seq<Record>): seq<Closed> {
    if log == [] then []
    else
      var init, r := log[..|log| - 1], log[|log| - 1];
      if Ends(init, r) && Sick(Last(Current(init, r.target)))
      then Closings(init) + [ClosedOf(r.target, Current(init, r.target), r.time)]
      else Closings(init)
  }

  /** The number of incidents begun so far. */
  function Beginnings(log: seq<Record>): nat {
    if log == [] then 0
    else
      var init, r := log[..|log| - 1], log[|log| - 1];
      Beginnings(init) + if Begins(init, r) && Sick(r) then 1 else 0
  }

  /** What every status-change handler is called with: the first record of each incident, and each
    * healthy record that ends one. */
  function Calls(log: seq<Record>): seq<Record> {
    if log == [] then []
    else
      var init, r := log[..|log| - 1], log[|log| - 1];
      if (Begins(init, r) && Sick(r)) || (Ends(init, r) && Sick(Last(Current(init, r.target))) && r.status == Healthy)
      then Calls(init) + [r] else Calls(init)
  }

  /** ---- The closings are the sick runs of each target but the last ---- */

  function Of(cs: seq<Closed>, u: URL): seq<Closed> {
    if cs == [] then []
    else
      var rest := Of(cs[..|cs| - 1], u);
      if cs[|cs| - 1].target == u then rest + [cs[|cs| - 1]] else rest
  }

  /** The sick runs that another run follows, with the time of its first record. */
  function ClosedRuns(u: URL, runs: seq<seq<Record>>): seq<Closed>
    requires forall i :: 0 <= i < |runs| ==> runs[i] != []
  {
    if |runs| <= 1 then []
    else
      var n := |runs|;
      var rest := ClosedRuns(u, runs[..n - 1]);
      if Sick(Last(runs[n - 2])) then rest + [ClosedOf(u, runs[n - 2], runs[n - 1][0].time)] else rest
  }

  /** ClosedRuns does not look at the last run beyond its first record. */
  lemma ClosedRunsGrown(u: URL, runs: seq<seq<Record>>, r: Record)
    requires runs != [] && forall i :: 0 <= i < |runs| ==> runs[i] != []
    ensures ClosedRuns(u, runs[..|runs| - 1] + [runs[|runs| - 1] + [r]]) == ClosedRuns(u, runs)
  {
    var n := |runs|;
    var grown := runs[..n - 1] + [runs[n - 1] + [r]];
    assert grown[..n - 1] == runs[..n - 1];
  }

  lemma ClosedRunsNext(u: URL, runs: seq<seq<Record>>, r: Record)
    requires runs != [] && forall i :: 0 <= i < |runs| ==> runs[i] != []
    ensures ClosedRuns(u, runs + [[r]]) == ClosedRuns(u, runs)
            + if Sick(Last(runs[|runs| - 1])) then [ClosedOf(u, runs[|runs| - 1], r.time)] else []
  {
    assert (runs + [[r]])[..|runs|] == runs;
  }

  lemma OfSnoc(cs: seq<Closed>, c: Closed, u: URL)
    ensures Of(cs + [c], u) == if c.target == u then Of(cs, u) + [c] else Of(cs, u)
  {
    assert (cs + [c])[..|cs|] == cs;
  }

  lemma SubSnoc(log: seq<Record>, r: Record, u: URL)
    ensures Sub(log + [r], u) == if r.target == u && r.status != Aborted then Sub(log, u) + [r] else Sub(log, u)
  {
    assert (log + [r])[..|log|] == log;
  }

  /** A further record begins a run or makes the last one longer. */
  lemma RunsSnoc(s: seq<Record>, r: Record)
    ensures var runs := Runs(s);
            Runs(s + [r]) == if runs != [] && SameState(Last(runs[|runs| - 1]), r)
                             then runs[..|runs| - 1] + [runs[|runs| - 1] + [r]] else runs + [[r]]
  {
    assert (s + [r])[..|s|] == s;
  }

  /** The incident of `u` that `r` closes, if any. */
  function ClosedBy(log: seq<Record>, r: Record, u: URL): seq<Closed> {
    if r.target == u && Ends(log, r) && Sick(Last(Current(log, u))) then [ClosedOf(u, Current(log, u), r.time)] else []
  }

  lemma ClosingsStep(log: seq<Record>, r: Record, u: URL)
    ensures Of(Closings(log + [r]), u) == Of(Closings(log), u) + ClosedBy(log, r, u)
  {
    assert (log + [r])[..|log|] == log;
    var c := ClosedBy(log, r, r.target);
    if c != [] {
      OfSnoc(Closings(log), c[0], u);
    }
  }

  lemma RunsStep(log: seq<Record>, r: Record, u: URL)
    ensures ClosedRuns(u, Runs(Sub(log + [r], u))) == ClosedRuns(u, Runs(Sub(log, u))) + ClosedBy(log, r, u)
  {
    SubSnoc(log, r, u);
    if r.target == u && r.status != Aborted {
      var runs := Runs(Sub(log, u));
      RunsSnoc(Sub(log, u), r);
      if runs != [] {
        if SameState(Last(runs[|runs| - 1]), r) {
          ClosedRunsGrown(u, runs, r);
        } else {
          ClosedRunsNext(u, runs, r);
        }
      }
    }
  }

  /** Per target, the closed incidents are the closed sick runs. */
  lemma {:induction false} ClosingsAreRuns(log: seq<Record>, u: URL)
    ensures Of(Closings(log), u) == ClosedRuns(u, Runs(Sub(log, u)))
  {
    if log != [] {
      var init, r := log[..|log| - 1], log[|log| - 1];
      assert log == init + [r];
      ClosingsAreRuns(init, u);
      ClosingsStep(init, r, u);
      RunsStep(init, r, u);
    }
  }

  /** ---- One record more ---- */

  /** The incident going on for a target, if any. */
  function Expected(log: seq<Record>, u: URL): Option<Open> {
    var run := Current(log, u);
    if run != [] && Sick(Last(run)) then Some(OpenOf(run)) else None
  }

  lemma CurrentSnoc(log: seq<Record>, r: Record, u: URL)
    ensures Current(log + [r], u) ==
            if r.target != u || r.status == Aborted then Current(log, u)
            else if Current(log, u) != [] && SameState(Last(Current(log, u)), r) then Current(log, u) + [r]
            else [r]
  {
    SubSnoc(log, r, u);
    var runs := Runs(Sub(log, u));
    RunsSnoc(Sub(log, u), r);
    assert Current(log, u) == if runs == [] then [] else runs[|runs| - 1];
  }

  /** The record says what the incident going on says. */
  predicate InState(cur: Option<Open>, r: Record) {
    cur.Some? && cur.value.status == r.status && cur.value.message.masked == r.message.masked
  }

  predicate NewState(cur: Option<Open>, r: Record) {
    r.status != Aborted && !InState(cur, r)
  }

  function NextOpen(cur: Option<Open>, r: Record): Option<Open> {
    if r.status == Aborted then cur
    else if InState(cur, r) then Some(cur.value.(message := r.message))
    else if Sick(r) then Some(Open(r.status, r.message, r.time))
    else None
  }

  /** The incident a record ends, if any. */
  function Ended(cur: Option<Open>, r: Record): seq<Closed> {
    if cur.Some? && NewState(cur, r)
    then [Closed(r.target, cur.value.status, cur.value.message, cur.value.startsAt, r.time)] else []
  }

  /** What a record changes of the reference is told by the incident going on alone. */
  lemma ReferenceStep(log: seq<Record>, r: Record)
    ensures forall u :: Expected(log + [r], u) ==
                        if u == r.target then NextOpen(Expected(log, r.target), r) else Expected(log, u)
    ensures var cur := Expected(log, r.target);
            && Closings(log + [r]) == Closings(log) + Ended(cur, r)
            && Beginnings(log + [r]) == Beginnings(log) + (if NewState(cur, r) && Sick(r) then 1 else 0)
            && Calls(log + [r]) == Calls(log) + (if NewState(cur, r) && (Sick(r) || cur.Some?) then [r] else [])
  {
    assert (log + [r])[..|log|] == log;
    forall u
      ensures Expected(log + [r], u) == if u == r.target then NextOpen(Expected(log, r.target), r) else Expected(log, u)
    {
      CurrentSnoc(log, r, u);
    }
  }

  ghost predicate InOrder(log: seq<Record>) {
    forall i, j :: 0 <= i < j < |log| && log[i].target == log[j].target ==> log[i].time <= log[j].time
  }

  lemma {:induction false} SubMembers(log: seq<Record>, u: URL, x: Record)
    requires x in Sub(log, u)
    ensures x in log && x.target == u
  {
    if log != [] {
      var init, r := log[..|log| - 1], log[|log| - 1];
      assert log == init + [r];
      if x in Sub(init, u) {
        SubMembers(init, u, x);
      }
    }
  }

  lemma {:induction false} RunMembers(s: seq<Record>, i: nat, x: Record)
    requires i < |Runs(s)| && x in Runs(s)[i]
    ensures x in s
  {
    var init, r := s[..|s| - 1], s[|s| - 1];
    assert s == init + [r];
    RunsSnoc(init, r);
    var runs := Runs(init);
    if x != r {
      if i < |runs| && x in runs[i] {
        RunMembers(init, i, x);
      }
    }
  }

  /** The records of the last run of a target are records of the log about it. */
  lemma CurrentMembers(log: seq<Record>, u: URL, x: Record)
    requires x in Current(log, u)
    ensures x in log && x.target == u
  {
    var s := Sub(log, u);
    RunMembers(s, |Runs(s)| - 1, x);
    SubMembers(log, u, x);
  }

  /** An incident was closed by a record of its own target. */
  lemma {:induction false} ClosedByRecord(log: seq<Record>, c: Closed)
    requires c in Closings(log)
    ensures exists r :: r in log && r.target == c.target && r.time == c.endsAt
  {
    var init, r := log[..|log| - 1], log[|log| - 1];
    assert log == init + [r];
    if c in Closings(init) {
      ClosedByRecord(init, c);
      var x :| x in init && x.target == c.target && x.time == c.endsAt;
      assert x in log;
    } else {
      assert r in log;
    }
  }
}
