/** internal/store/store.go: the store of probe records and incidents. */
module Stores {
  import opened Common
  import opened Records
  import opened ProbeHistories
  import opened IncidentRuns
  import opened Incidents

  class Store {
    const probes: ProbeHistoryMap
    /** Trims line ends off a message. */
    const trim: Message -> Message
    var currentIncidents: map<URL, Incident>
    var incidentHistory: seq<Incident>
    var incidentCount: nat
    /** What each of the status-change handlers was called with. */
    var fired: seq<seq<Record>>

    ghost predicate IncidentsOk()
      reads `currentIncidents, `incidentHistory, currentIncidents.Values, incidentHistory
    {
      CurrentOk(currentIncidents) && HistoryOk(incidentHistory)
    }

    ghost predicate Valid()
      reads this, currentIncidents.Values, incidentHistory, probes, probes.m.Values
    {
      IncidentsOk() && probes.Valid() && forall r :: r in probes.log ==> r.time != ZERO
    }

    /** The store holds what the runs of the log say. */
    ghost predicate Refines(log: seq<Record>)
      reads `currentIncidents, `incidentHistory, `incidentCount, `fired, currentIncidents.Values, incidentHistory
    {
      && CurrentAsIn(currentIncidents, log) && HistoryAsIn(incidentHistory, log)
      && incidentCount == Beginnings(log) && forall h :: 0 <= h < |fired| ==> fired[h] == Calls(log)
    }

    constructor (handlers: nat, trim: Message -> Message)
      ensures this.trim == trim
      ensures Valid() && probes.log == [] && probes.reports == iset{} && Refines([])
      ensures |fired| == handlers
      ensures fresh(probes) && probes.m == map[] && Held(currentIncidents, incidentHistory) == {}
    {
      probes := new ProbeHistoryMap();
      currentIncidents, incidentHistory, incidentCount := map[], [], 0;
      fired := seq(handlers, _ => []);
      this.trim := trim;
    }

    /** The record without line ends around its message. */
    function Trimmed(r: Record): (t: Record)
      ensures t.target == r.target && t.time == r.time && t.status == r.status && t.message == trim(r.message)
    {
      r.(message := trim(r.message))
    }

    /** The incident a record of `target` at `t` belongs to: the one going on, or a late one's in the history. */
    method SearchLastIncident(target: URL, t: Time, records: seq<Record>) returns (x: Incident?)
      ensures x == Found(currentIncidents, incidentHistory, records, target, t)
    {
      if target in currentIncidents {
        return currentIncidents[target];
      }
      if |records| > 0 && records[|records| - 1].time < t {
        return null;
      }
      var i := |incidentHistory| - 1;
      assert incidentHistory[..i + 1] == incidentHistory;
      while i >= 0
        invariant -1 <= i < |incidentHistory|
        invariant LastIncident(incidentHistory[..i + 1], records, target, t) == LastIncident(incidentHistory, records, target, t)
      {
        var y := incidentHistory[i];
        assert incidentHistory[..i + 1][..i] == incidentHistory[..i];
        if y.target == target && t < y.endsAt {
          if y.startsAt < t {
            return y;
          }
          var preceded := IsPrecededBefore(records, y.startsAt, t);
          if preceded {
            return y;
          }
        }
        i := i - 1;
      }
      return null;
    }

    /** Resolves an incident with the record that ends it. */
    method Resolve(x: Incident, r: Record, needCallback: bool)
      requires IncidentsOk()
      requires x.target == r.target && SickStatus(x.status) && r.time != ZERO && x.startsAt <= r.time
      requires r.target in currentIncidents ==> currentIncidents[r.target] == x
      modifies `currentIncidents, `incidentHistory, `fired, x`endsAt
      ensures IncidentsOk()
      ensures x.endsAt == r.time
      ensures incidentHistory == Trim(old(incidentHistory) + [x])
      ensures currentIncidents == old(currentIncidents) - {r.target}
      ensures AllSent(old(fired), fired, if r.status == Healthy && needCallback then [r] else [])
    {
      x.endsAt := r.time;
      incidentHistory := incidentHistory + [x];
      currentIncidents := currentIncidents - {r.target};
      if |incidentHistory| > INCIDENT_HISTORY_LEN {
        incidentHistory := incidentHistory[1..];
      }
      if r.status == Healthy && needCallback {
        fired := Notify(fired, [r]);
      }
    }

    /** Files a new incident as going on. */
    method BeginOngoing(x: Incident, r: Record, needCallback: bool)
      requires CurrentOk(currentIncidents) && OngoingOk(x, r.target)
      modifies `currentIncidents, `fired, `incidentCount
      ensures CurrentOk(currentIncidents) && currentIncidents == old(currentIncidents)[r.target := x]
      ensures incidentCount == old(incidentCount) + if needCallback then 1 else 0
      ensures AllSent(old(fired), fired, if needCallback then [r] else [])
    {
      currentIncidents := currentIncidents[r.target := x];
      if needCallback {
        incidentCount := incidentCount + 1;
        fired := Notify(fired, [r]);
      }
    }

    /** Files the incident of a late record as one that the next record ended. The history is not trimmed. */
    method BeginLate(x: Incident, r: Record, records: seq<Record>, needCallback: bool)
      requires HistoryOk(incidentHistory) && Late(records, r.time) && (forall h :: h in records ==> h.time != ZERO)
      requires SickStatus(x.status) && x.startsAt == r.time && Sick(r)
      modifies `incidentHistory, `fired, `incidentCount, x`endsAt
      ensures HistoryOk(incidentHistory) && incidentHistory == old(incidentHistory) + [x]
      ensures x.endsAt == NextAfter(records, r.time).time
      ensures incidentCount == old(incidentCount) + if needCallback then 1 else 0
      ensures AllSent(old(fired), fired, if needCallback then Sent(r, records, false) else [])
    {
      var next := FirstAfter(records, r.time);
      x.endsAt := next.time;
      incidentHistory := incidentHistory + [x];
      if needCallback {
        incidentCount := incidentCount + 1;
        fired := Notify(fired, if next.status == Healthy then [r, next] else [r]);
      }
    }

    /** Begins an incident. */
    method Begin(r: Record, records: seq<Record>, needCallback: bool)
      requires IncidentsOk() && r.time != ZERO && Sick(r) && r.target !in currentIncidents
      requires forall h :: h in records ==> h.time != ZERO
      modifies `currentIncidents, `incidentHistory, `fired, `incidentCount
      ensures IncidentsOk()
      ensures forall y :: y in Held(currentIncidents, incidentHistory) ==>
                y in old(Held(currentIncidents, incidentHistory)) || fresh(y)
      ensures Filed(old(incidentHistory), old(currentIncidents), r, records, incidentHistory, currentIncidents)
      ensures Late(records, r.time) ==> NewestBeganLate(incidentHistory, r, records)
      ensures incidentCount == old(incidentCount) + if needCallback then 1 else 0
      ensures AllSent(old(fired), fired, if needCallback then Sent(r, records, false) else [])
    {
      var y := new Incident(r);
      if |records| > 0 && records[|records| - 1].time > r.time {
        BeginLate(y, r, records, needCallback);
        LateBegun(incidentHistory, r, records);
      } else {
        BeginOngoing(y, r, needCallback);
      }
    }

    /** What a record that is not aborted does once the incident it belongs to is known and does not go on:
      * that incident, if any, is resolved, and an unhealthy record begins a new one. */
    method ChangeState(x: Incident?, r: Record, records: seq<Record>, needCallback: bool)
      requires IncidentsOk() && r.time != ZERO && r.status != Aborted
      requires forall h :: h in records ==> h.time != ZERO
      requires x != null ==> x.target == r.target && SickStatus(x.status) && x.startsAt <= r.time
      requires r.target in currentIncidents ==> currentIncidents[r.target] == x
      modifies `currentIncidents, `incidentHistory, `fired, `incidentCount, if x != null then {x} else {}
      ensures IncidentsOk()
      ensures forall y :: y in Held(currentIncidents, incidentHistory) ==>
                y in old(Held(currentIncidents, incidentHistory)) || y == x || fresh(y)
      ensures x != null ==> x.endsAt == r.time && x.startsAt == old(x.startsAt) && x.message == old(x.message)
      ensures Filed(Kept(old(incidentHistory), x), old(currentIncidents) - {r.target}, r, records,
                    incidentHistory, currentIncidents)
      ensures incidentCount == old(incidentCount) + if Sick(r) && needCallback then 1 else 0
      ensures AllSent(old(fired), fired, if needCallback then Sent(r, records, x != null) else [])
      ensures Sick(r) && Late(records, r.time) ==> NewestBeganLate(incidentHistory, r, records)
    {
      if x != null {
        Resolve(x, r, needCallback);
      }
      if r.status != Healthy {
        Begin(r, records, needCallback);
      }
    }

    /** The incident that a record belongs to. */
    ghost function FoundBy(r: Record, records: seq<Record>): Incident?
      reads `currentIncidents, `incidentHistory, incidentHistory
    {
      Found(currentIncidents, incidentHistory, records, r.target, r.time)
    }

    /** The one incident that a record may change: the one it belongs to, which is of its own target. */
    ghost function Touched(r: Record, records: seq<Record>): set<Incident>
      reads `currentIncidents, `incidentHistory, incidentHistory
    {
      var x := Found(currentIncidents, incidentHistory, records, r.target, r.time);
      if r.status != Aborted && x != null then {x} else {}
    }

    lemma TouchesOwnTarget(r: Record, records: seq<Record>)
      requires IncidentsOk()
      ensures forall x :: x in Touched(r, records) ==> x.target == r.target
      ensures forall u :: u in currentIncidents && u != r.target ==> currentIncidents[u] !in Touched(r, records)
      ensures forall u :: u in currentIncidents ==> currentIncidents[u] !in incidentHistory
    {
      FoundFacts(currentIncidents, incidentHistory, records, r.target, r.time);
      forall u | u in currentIncidents
        ensures currentIncidents[u] !in incidentHistory && currentIncidents[u].target == u
      {
        assert OngoingOk(currentIncidents[u], u);
      }
    }

    /** Adds the record to the incident `x`, which may begin earlier now; tells whether the incident goes on. */
    method JoinIncident(x: Incident, r: Record) returns (on: bool)
      requires IncidentsOk()
      modifies x`startsAt, x`message
      ensures IncidentsOk()
      ensures on == old(GoesOn(x, r)) && x.startsAt == Min(old(x.startsAt), r.time)
      ensures x.message == if on then r.message else old(x.message)
    {
      if x.startsAt > r.time {
        x.startsAt := r.time;
      }
      on := Continues(x.status, x.message, r) && (x.endsAt == ZERO || x.endsAt > r.time);
      if on {
        x.message := r.message;
      }
    }

    /** Applies a record that is not aborted to the incident it belongs to, if any. */
    method Apply(x: Incident?, r: Record, records: seq<Record>, needCallback: bool)
      requires IncidentsOk() && r.time != ZERO && r.status != Aborted
      requires forall h :: h in records ==> h.time != ZERO
      requires x != null ==> x.target == r.target && SickStatus(x.status)
      requires r.target in currentIncidents ==> currentIncidents[r.target] == x
      modifies `currentIncidents, `incidentHistory, `fired, `incidentCount, if x != null then {x} else {}
      ensures IncidentsOk()
      ensures forall y :: y in Held(currentIncidents, incidentHistory) ==>
                y in old(Held(currentIncidents, incidentHistory)) || y == x || fresh(y)
      ensures x != null ==>
                && x.startsAt == Min(old(x.startsAt), r.time)
                && (if old(GoesOn(x, r)) then x.message == r.message && x.endsAt == old(x.endsAt)
                    else x.message == old(x.message) && x.endsAt == r.time)
      ensures old(Carried(x, r)) ==>
                && currentIncidents == old(currentIncidents) && incidentHistory == old(incidentHistory)
                && incidentCount == old(incidentCount) && fired == old(fired)
      ensures !old(Carried(x, r)) && Sick(r) && Late(records, r.time) ==>
                NewestBeganLate(incidentHistory, r, records)
      ensures !old(Carried(x, r)) ==>
                && Filed(Kept(old(incidentHistory), x), old(currentIncidents) - {r.target}, r, records,
                         incidentHistory, currentIncidents)
                && incidentCount == old(incidentCount) + (if Sick(r) && needCallback then 1 else 0)
                && AllSent(old(fired), fired, if needCallback then Sent(r, records, x != null) else [])
    {
      if x != null {
        var on := JoinIncident(x, r);
        if on {
          return;
        }
      }
      ChangeState(x, r, records, needCallback);
    }

    /** What a record does to the incidents, in any order of records: the incident `x` it belongs to goes on or is
      * resolved, and an unhealthy record that begins one is filed; counter and callbacks follow. */
    twostate predicate Updated(x: Incident?, r: Record, records: seq<Record>, needCallback: bool)
      reads `currentIncidents, `incidentHistory, `incidentCount, `fired
      reads Newest(r, records, incidentHistory, currentIncidents), if x != null then {x} else {}
    {
      && (r.status == Aborted || old(Carried(x, r)) ==>
            && currentIncidents == old(currentIncidents) && incidentHistory == old(incidentHistory)
            && incidentCount == old(incidentCount) && fired == old(fired))
      && (r.status != Aborted && x != null ==>
            && x.startsAt == Min(old(x.startsAt), r.time)
            && (if old(GoesOn(x, r)) then x.message == r.message && x.endsAt == old(x.endsAt)
                else x.message == old(x.message) && x.endsAt == r.time))
      && (r.status != Aborted && !old(Carried(x, r)) ==>
            && Filed(Kept(old(incidentHistory), x), old(currentIncidents) - {r.target}, r, records,
                     incidentHistory, currentIncidents)
            && incidentCount == old(incidentCount) + (if Sick(r) && needCallback then 1 else 0)
            && AllSent(old(fired), fired, if needCallback then Sent(r, records, x != null) else []))
    }

    /** What a record will do to the length of the history. */
    ghost function StepOf(r: Record, records: seq<Record>): HistoryStep
      reads `currentIncidents, `incidentHistory, currentIncidents.Values, incidentHistory
    {
      var x := FoundBy(r, records);
      if r.status == Aborted || Carried(x, r) then HistoryStep(false, false)
      else HistoryStep(x != null, Sick(r) && Late(records, r.time))
    }

    /** Updates the incidents by a record; `records` is the window of its target. */
    method SetIncidentIfNeed(r: Record, records: seq<Record>, needCallback: bool)
      requires IncidentsOk() && r.time != ZERO && forall h :: h in records ==> h.time != ZERO
      modifies `currentIncidents, `incidentHistory, `fired, `incidentCount, Touched(r, records)
      ensures IncidentsOk()
      ensures forall y :: y in Held(currentIncidents, incidentHistory) ==>
                y in old(Held(currentIncidents, incidentHistory)) || fresh(y)
      ensures Updated(old(FoundBy(r, records)), r, records, needCallback)
      ensures StepLeaves(old(StepOf(r, records)), r, old(currentIncidents), old(incidentHistory), currentIncidents, incidentHistory)
      ensures old(StepOf(r, records)).beginsLate ==> NewestBeganLate(incidentHistory, r, records)
    {
      if r.status == Aborted {
        return;
      }
      FoundFacts(currentIncidents, incidentHistory, records, r.target, r.time);
      var x := SearchLastIncident(r.target, r.time, records);
      Apply(x, r, records, needCallback);
    }

    /** The record belongs to the incident going on, if any, which did not begin later, and is not late. */
    ghost predicate Timely(r: Record, records: seq<Record>)
      reads `currentIncidents, `incidentHistory, currentIncidents.Values, incidentHistory
    {
      && !Late(records, r.time)
      && (r.target in currentIncidents ==> currentIncidents[r.target].startsAt <= r.time)
      && (r.target !in currentIncidents ==> Found(currentIncidents, incidentHistory, records, r.target, r.time) == null)
    }

    /** For records in time order the incident a record belongs to is the one going on, and it is never late. */
    lemma InOrderFacts(r: Record, records: seq<Record>, log: seq<Record>)
      requires Refines(log) && InOrder(log + [r])
      requires forall h :: h in records ==> h in log && h.target == r.target
      ensures Timely(r, records) && Holds(currentIncidents, Opens(log)) && r.target in Opens(log)
    {
      CurrentHolds(currentIncidents, log);
      forall h | h in log && h.target == r.target
        ensures h.time <= r.time
      {
        var i :| 0 <= i < |log| && log[i] == h;
        assert (log + [r])[i] == h && (log + [r])[|log|] == r;
      }
      if r.target in currentIncidents {
        assert OpenAt(currentIncidents, r.target) == Expected(log, r.target);
        CurrentMembers(log, r.target, Current(log, r.target)[0]);
      } else {
        NoneInHistory(incidentHistory, records, log, r);
      }
    }

    /** What a timely record does, told by values: `opens` are the incidents going on and `cs` those over. */
    method SetTimely(r: Record, records: seq<Record>, ghost timely: bool,
                     ghost opens: imap<URL, Option<Open>>, ghost cs: seq<Closed>)
      requires IncidentsOk() && r.time != ZERO && forall h :: h in records ==> h.time != ZERO
      requires timely ==>
                 && Timely(r, records) && Holds(currentIncidents, opens) && Views(incidentHistory) == cs
                 && r.target in opens
      modifies `currentIncidents, `incidentHistory, `fired, `incidentCount, Touched(r, records)
      ensures IncidentsOk()
      ensures StepLeaves(old(StepOf(r, records)), r, old(currentIncidents), old(incidentHistory), currentIncidents, incidentHistory)
      ensures forall y :: y in Held(currentIncidents, incidentHistory) ==>
                y in old(Held(currentIncidents, incidentHistory)) || fresh(y)
      ensures |fired| == old(|fired|)
      ensures timely ==>
                && Holds(currentIncidents, opens[r.target := NextOpen(opens[r.target], r)])
                && Views(incidentHistory) == NextClosed(cs, opens[r.target], r)
                && incidentCount == old(incidentCount) + (if NewState(opens[r.target], r) && Sick(r) then 1 else 0)
                && AllSent(old(fired), fired,
                           if NewState(opens[r.target], r) && (Sick(r) || opens[r.target].Some?) then [r] else [])
    {
      ghost var x := Found(currentIncidents, incidentHistory, records, r.target, r.time);
      ghost var others, history := currentIncidents - {r.target}, incidentHistory;
      if timely {
        FoundFacts(currentIncidents, incidentHistory, records, r.target, r.time);
        HoldsWithout(currentIncidents, opens, r.target);
        assert x != null ==> x !in others.Values && x !in history;
      }
      SetIncidentIfNeed(r, records, true);
      if timely && r.status != Aborted {
        assert Holds(others, opens[r.target := None]) && Views(history) == cs;
        if InState(opens[r.target], r) {
          HoldsWith(others, currentIncidents, opens, r.target);
        } else {
          FiledHolds(Kept(history, x), others, r, records, incidentHistory, currentIncidents, opens);
          KeptViews(history, x, r, opens[r.target]);
        }
      }
    }

    /** The incident half of a report: a record in time order keeps the store in step with the log. */
    method ReportIncident(r: Record, records: seq<Record>, ghost log: seq<Record>)
      requires IncidentsOk() && r.time != ZERO && forall h :: h in records ==> h.time != ZERO
      requires forall h :: h in records ==> h in log && h.target == r.target
      modifies `currentIncidents, `incidentHistory, `fired, `incidentCount, Touched(r, records)
      ensures IncidentsOk()
      ensures StepLeaves(old(StepOf(r, records)), r, old(currentIncidents), old(incidentHistory), currentIncidents, incidentHistory)
      ensures forall y :: y in Held(currentIncidents, incidentHistory) ==>
                y in old(Held(currentIncidents, incidentHistory)) || fresh(y)
      ensures |fired| == old(|fired|)
      ensures old(Refines(log)) && InOrder(log + [r]) ==> Refines(log + [r])
    {
      ghost var inOrder := Refines(log) && InOrder(log + [r]);
      if inOrder {
        InOrderFacts(r, records, log);
      }
      SetTimely(r, records, inOrder, Opens(log), LastN(Closings(log), INCIDENT_HISTORY_LEN));
      if inOrder {
        Advanced(currentIncidents, incidentHistory, incidentCount, fired, log, r);
      }
    }

    /** The incident half of a report leaves the probe history alone. */
    method RecordIncident(r: Record)
      requires Valid() && r.time != ZERO
      modifies `currentIncidents, `incidentHistory, `fired, `incidentCount, Touched(r, RecordsOf(probes.m, r.target))
      ensures IncidentsOk() && probes.Valid()
      ensures StepLeaves(old(StepOf(r, RecordsOf(probes.m, r.target))), r, old(currentIncidents), old(incidentHistory),
                    currentIncidents, incidentHistory)
      ensures forall y :: y in Held(currentIncidents, incidentHistory) ==>
                y in old(Held(currentIncidents, incidentHistory)) || fresh(y)
      ensures |fired| == old(|fired|)
      ensures old(Refines(probes.log)) && InOrder(probes.log + [r]) ==> Refines(probes.log + [r])
    {
      WindowRecords(r.target);
      ReportIncident(r, RecordsOf(probes.m, r.target), probes.log);
    }

    /** The probe half of a report leaves the incidents alone. */
    method RecordProbe(source: URL, r: Record)
      requires probes.Valid() && IncidentsOk()
      modifies probes, probes.Own(r.target)
      ensures probes.Valid() && IncidentsOk()
      ensures forall h :: h in probes.m.Values ==> h in old(probes.m.Values) || fresh(h)
      ensures probes.log == old(probes.log) + [r] && probes.reports == old(probes.reports) + iset{(r.target, source)}
    {
      probes.Append(source, r);
    }

    /** The probe half of a report leaves a store that is in step with the log in step. */
    method RecordProbeInStep(source: URL, r: Record, ghost inOrder: bool, ghost log: seq<Record>)
      requires probes.Valid() && IncidentsOk() && (inOrder ==> Refines(log))
      modifies probes, probes.Own(r.target)
      ensures probes.Valid() && IncidentsOk() && (inOrder ==> Refines(log))
      ensures forall h :: h in probes.m.Values ==> h in old(probes.m.Values) || fresh(h)
      ensures probes.log == old(probes.log) + [r] && probes.reports == old(probes.reports) + iset{(r.target, source)}
    {
      RecordProbe(source, r);
    }

    /** Records a report about a target that is not Ayd itself. */
    method Record(source: URL, r: Record)
      requires Valid() && r.time != ZERO
      modifies `currentIncidents, `incidentHistory, `fired, `incidentCount, Touched(r, RecordsOf(probes.m, r.target))
      modifies probes, probes.Own(r.target)
      ensures Valid() && probes.log == old(probes.log) + [r]
      ensures StepLeaves(old(StepOf(r, RecordsOf(probes.m, r.target))), r, old(currentIncidents), old(incidentHistory),
                    currentIncidents, incidentHistory)
      ensures forall y :: y in Held(currentIncidents, incidentHistory) ==>
                y in old(Held(currentIncidents, incidentHistory)) || fresh(y)
      ensures |fired| == old(|fired|)
      ensures forall h :: h in probes.m.Values ==> h in old(probes.m.Values) || fresh(h)
      ensures old(Refines(probes.log)) && InOrder(probes.log) ==> Refines(probes.log)
      ensures probes.reports == old(probes.reports) + iset{(r.target, source)}
    {
      ghost var inOrder := Refines(probes.log) && InOrder(probes.log + [r]);
      RecordIncident(r);
      RecordProbeInStep(source, r, inOrder, probes.log + [r]);
    }

    lemma WindowRecords(u: URL)
      requires Valid()
      ensures forall h :: h in RecordsOf(probes.m, u) ==> h in probes.log && h.target == u && h.time != ZERO
    {
      forall h | h in RecordsOf(probes.m, u)
        ensures h in probes.log && h.target == u
      {
        probes.RecordMembers(u, h);
      }
    }

    /** What a report will do to the length of the history; records about Ayd itself do nothing. */
    ghost function ReportStep(r: Record): HistoryStep
      reads this, currentIncidents.Values, incidentHistory, probes, probes.m.Values
    {
      if Internal(r.target) then HistoryStep(false, false) else StepOf(r, RecordsOf(probes.m, r.target))
    }

    /** Reports a record, with its message trimmed. Records about Ayd itself and about alerts are logged only. The invariant holds in
      * every run; in a run in time order the store holds what the runs of the log say. */
    method Report(source: URL, r: Record)
      requires Valid() && r.time != ZERO
      modifies `currentIncidents, `incidentHistory, `fired, `incidentCount, Touched(r, RecordsOf(probes.m, r.target))
      modifies probes, probes.Own(r.target)
      ensures Valid() && probes.log == if Internal(r.target) then old(probes.log) else old(probes.log) + [Trimmed(r)]
      ensures |incidentHistory| == LengthAfter(old(|incidentHistory|), old(ReportStep(Trimmed(r))))
      ensures !Internal(r.target) ==>
                StepLeaves(old(ReportStep(Trimmed(r))), r, old(currentIncidents), old(incidentHistory), currentIncidents, incidentHistory)
      ensures forall y :: y in Held(currentIncidents, incidentHistory) ==>
                y in old(Held(currentIncidents, incidentHistory)) || fresh(y)
      ensures |fired| == old(|fired|)
      ensures forall h :: h in probes.m.Values ==> h in old(probes.m.Values) || fresh(h)
      ensures old(Refines(probes.log)) && InOrder(probes.log) ==> Refines(probes.log)
      ensures probes.reports == old(probes.reports) + if Internal(r.target) then iset{} else iset{(r.target, source)}
    {
      if !Internal(r.target) {
        Record(source, Trimmed(r));
      }
    }

    /** Only an unhealthy record behind a later one of its target begins an incident late. */
    lemma LateStep(r: Record)
      requires Valid() && ReportStep(r).beginsLate
      ensures LateFor(probes.log, r)
    {
      var records := RecordsOf(probes.m, r.target);
      WindowRecords(r.target);
      assert records[|records| - 1] in records;
    }

    /** What a report may change besides the store itself. */
    lemma ReportFootprint(r: Record)
      requires Valid()
      ensures forall x :: x in Touched(r, RecordsOf(probes.m, r.target)) ==> x in Held(currentIncidents, incidentHistory)
      ensures forall h :: h in probes.Own(r.target) ==> h in probes.m.Values
    {
      FoundFacts(currentIncidents, incidentHistory, RecordsOf(probes.m, r.target), r.target, r.time);
    }

    /** Marks a target as reported by a source. */
    method ActivateTarget(source: URL, target: URL)
      requires Valid()
      modifies probes`m, probes`reports, probes.Own(target)
      ensures Valid() && probes.reports == old(probes.reports) + iset{(target, source)}
    {
      probes.AddSource(source, target);
    }

    /** Marks targets as not reported by a source any more. */
    method DeactivateTarget(source: URL, targets: seq<URL>)
      requires Valid()
      modifies probes`reports, probes.m.Values
      ensures Valid() && probes.reports == old(probes.reports) - iset u | u in targets :: (u, source)
    {
      for i := 0 to |targets|
        invariant Valid() && probes.reports == old(probes.reports) - iset u | u in targets[..i] :: (u, source)
      {
        probes.RemoveSource(source, targets[i]);
      }
    }
  }

  function WithRecord(log: seq<Record>, r: Record): seq<Record> {
    if Internal(r.target) then log else log + [r]
  }

  /** The records that reach the store's memory. */
  function Logged(reports: seq<(URL, Record)>): seq<Record> {
    if reports == [] then []
    else
      WithRecord(Logged(reports[..|reports| - 1]), reports[|reports| - 1].1)
  }

  /** An unhealthy record about a target that is not Ayd itself, when a later one of the target is in the log. */
  ghost predicate LateFor(log: seq<Record>, r: Record) {
    !Internal(r.target) && Sick(r) && exists h :: h in log && h.target == r.target && h.time > r.time
  }

  /** The steps are one for each report, and only late records begin late incidents. */
  ghost predicate StepsOf(steps: seq<HistoryStep>, reports: seq<(URL, Record)>) {
    |steps| == |reports| &&
    forall i :: 0 <= i < |steps| && steps[i].beginsLate ==> LateFor(Logged(reports[..i]), reports[i].1)
  }

  /** What a store is made of besides itself. */
  datatype Repr = Repr(incidents: set<Incident>, histories: set<ProbeHistory>)

  ghost predicate Owns(s: Store, repr: Repr)
    reads s, s.probes
  {
    Held(s.currentIncidents, s.incidentHistory) <= repr.incidents && s.probes.m.Values <= repr.histories
  }

  /** `l` is the log. It serves as a trigger: what is said of every such list is unfolded only where one is named, so
    * that the proofs of runs need not look into the store at every step. */
  predicate IsLog(l: seq<Record>, log: seq<Record>) {
    l == log
  }

  /** The store was given the records of the log: its invariant holds, and when they came in time order, it holds
    * what the runs of the log say. */
  ghost predicate Given(s: Store, repr: Repr, log: seq<Record>, handlers: nat)
    reads s, s.probes, s.probes.m.Values, s.currentIncidents.Values, s.incidentHistory
  {
    forall l {:trigger IsLog(l, log)} :: IsLog(l, log) ==>
      Owns(s, repr) && s.Valid() && |s.fired| == handlers && s.probes.log == l && (InOrder(l) ==> s.Refines(l))
  }

  lemma IsGiven(s: Store, repr: Repr, log: seq<Record>, handlers: nat)
    requires Given(s, repr, log, handlers)
    ensures Owns(s, repr) && s.Valid() && |s.fired| == handlers && s.probes.log == log && (InOrder(log) ==> s.Refines(log))
  {
    assert IsLog(log, log);
  }

  /** A report of `raw`, which is `r` when it is trimmed, changes the store's own parts only. */
  method ReportWithin(s: Store, source: URL, raw: Record, ghost r: Record, ghost repr: Repr) returns (ghost repr': Repr)
    requires r == s.Trimmed(raw)
    requires s.Valid() && r.time != ZERO && Owns(s, repr)
    modifies s, s.probes, repr.incidents, repr.histories
    ensures s.Valid() && Owns(s, repr') && |s.fired| == old(|s.fired|)
    ensures fresh(repr'.incidents - repr.incidents) && fresh(repr'.histories - repr.histories)
    ensures s.probes.log == WithRecord(old(s.probes.log), r)
    ensures old(s.Refines(s.probes.log)) && InOrder(s.probes.log) ==> s.Refines(s.probes.log)
    ensures ReportLeaves(old(s.ReportStep(r)), r, old(s.currentIncidents), old(s.incidentHistory),
                  s.currentIncidents, s.incidentHistory)
  {
    s.ReportFootprint(raw);
    s.Report(source, raw);
    repr' := Repr(repr.incidents + Held(s.currentIncidents, s.incidentHistory), repr.histories + s.probes.m.Values);
  }

  predicate ReportLeaves(step: HistoryStep, r: Record, current: map<URL, Incident>, history: seq<Incident>,
                  current': map<URL, Incident>, history': seq<Incident>) {
    && |history'| == LengthAfter(|history|, step)
    && (!Internal(r.target) ==> StepLeaves(step, r, current, history, current', history'))
  }

  /** A report as a step of a run. */
  method Next(s: Store, source: URL, raw: Record, ghost r: Record, ghost repr: Repr, ghost log: seq<Record>, ghost handlers: nat)
    returns (ghost step: HistoryStep, ghost repr': Repr)
    requires Given(s, repr, log, handlers) && r.time != ZERO && r == s.Trimmed(raw)
    modifies s, s.probes, repr.incidents, repr.histories
    ensures Given(s, repr', WithRecord(log, r), handlers)
    ensures fresh(repr'.incidents - repr.incidents) && fresh(repr'.histories - repr.histories)
    ensures step == old(s.ReportStep(r)) && (step.beginsLate ==> LateFor(log, r))
    ensures ReportLeaves(step, r, old(s.currentIncidents), old(s.incidentHistory), s.currentIncidents, s.incidentHistory)
  {
    IsGiven(s, repr, log, handlers);
    step := s.ReportStep(r);
    if step.beginsLate {
      s.LateStep(r);
    }
    if InOrder(WithRecord(log, r)) {
      InOrderBefore(log, r);
    }
    repr' := ReportWithin(s, source, raw, r, repr);
  }

  /** The reports with trimmed messages. */
  ghost function TrimAll(raw: seq<(URL, Record)>, trim: Message -> Message): (reports: seq<(URL, Record)>)
    ensures |reports| == |raw| && forall i :: 0 <= i < |raw| ==>
              reports[i] == (raw[i].0, raw[i].1.(message := trim(raw[i].1.message)))
  {
    seq(|raw|, i requires 0 <= i < |raw| => (raw[i].0, raw[i].1.(message := trim(raw[i].1.message))))
  }

  method RunAll(handlers: nat, trim: Message -> Message, raw: seq<(URL, Record)>, ghost reports: seq<(URL, Record)>)
    returns (s: Store, ghost steps: seq<HistoryStep>, ghost repr: Repr)
    requires reports == TrimAll(raw, trim) && forall i :: 0 <= i < |raw| ==> raw[i].1.time != ZERO
    ensures fresh(s) && fresh(s.probes) && fresh(repr.incidents) && fresh(repr.histories) && s.trim == trim
    ensures Given(s, repr, Logged(reports), handlers) && StepsOf(steps, reports) && |s.incidentHistory| == Length(steps)
  {
    var n := |raw| - 1;
    if raw == [] {
      s := new Store(handlers, trim);
      steps, repr := [], Repr({}, {});
    } else {
      assert reports[..n + 1] == reports;
      assert reports[..n] == TrimAll(raw[..n], trim);
      s, steps, repr := RunAll(handlers, trim, raw[..n], reports[..n]);
      LoggedSnoc(reports, n);
      ghost var step;
      step, repr := Next(s, raw[n].0, raw[n].1, reports[n].1, repr, Logged(reports[..n]), handlers);
      OneMore(steps, reports, n, step);
      steps := steps + [step];
    }
  }

  /** A whole run: the invariant holds at its end whatever was reported in whatever order, and when the records of
    * each target came in time order, the store holds what the runs of the log say. The history is as long as
    * its steps make it. */
  method Run(handlers: nat, trim: Message -> Message, raw: seq<(URL, Record)>) returns (s: Store, ghost steps: seq<HistoryStep>)
    requires forall i :: 0 <= i < |raw| ==> raw[i].1.time != ZERO
    ensures var reports := TrimAll(raw, trim);
            && fresh(s) && s.Valid() && |s.fired| == handlers && s.probes.log == Logged(reports)
            && (InOrder(Logged(reports)) ==> s.Refines(Logged(reports)))
            && StepsOf(steps, reports) && |s.incidentHistory| == Length(steps)
  {
    ghost var repr;
    s, steps, repr := RunAll(handlers, trim, raw, TrimAll(raw, trim));
    IsGiven(s, repr, Logged(TrimAll(raw, trim)), handlers);
  }

  lemma OneMore(steps: seq<HistoryStep>, reports: seq<(URL, Record)>, i: nat, step: HistoryStep)
    requires i < |reports| && StepsOf(steps, reports[..i])
    requires step.beginsLate ==> LateFor(Logged(reports[..i]), reports[i].1)
    ensures StepsOf(steps + [step], reports[..i + 1])
    ensures Length(steps + [step]) == LengthAfter(Length(steps), step)
  {
    var steps' := steps + [step];
    assert steps'[..i] == steps;
    forall j | 0 <= j <= i && steps'[j].beginsLate
      ensures LateFor(Logged(reports[..i + 1][..j]), reports[..i + 1][j].1)
    {
      assert reports[..i + 1][..j] == reports[..j] && (j < i ==> reports[..i][..j] == reports[..j]);
    }
  }

  /** The reports that are late when they arrive. */
  ghost function LateReports(reports: seq<(URL, Record)>): nat {
    if reports == [] then 0
    else
      var init := reports[..|reports| - 1];
      LateReports(init) + if LateFor(Logged(init), reports[|reports| - 1].1) then 1 else 0
  }

  /** At the end of a run the history is over its bound by no more than the number of late reports. */
  lemma {:induction false} HistoryBounded(steps: seq<HistoryStep>, reports: seq<(URL, Record)>)
    requires StepsOf(steps, reports)
    ensures Length(steps) <= INCIDENT_HISTORY_LEN + LateReports(reports)
    ensures LateBeginnings(steps) <= LateReports(reports)
  {
    LengthBounded(steps);
    if reports != [] {
      var n := |reports| - 1;
      forall i | 0 <= i < n && steps[..n][i].beginsLate
        ensures LateFor(Logged(reports[..n][..i]), reports[..n][i].1)
      {
        assert reports[..n][..i] == reports[..i];
      }
      HistoryBounded(steps[..n], reports[..n]);
    }
  }

  /** In a run in time order no report is late. */
  lemma {:induction false} NoneLateInOrder(reports: seq<(URL, Record)>)
    requires InOrder(Logged(reports))
    ensures LateReports(reports) == 0
  {
    if reports != [] {
      var n := |reports| - 1;
      assert reports[..n + 1] == reports;
      LoggedSnoc(reports, n);
      NoneLateInOrder(reports[..n]);
      var log, r := Logged(reports[..n]), reports[n].1;
      if !Internal(r.target) {
        forall k | 0 <= k < |log| && log[k].target == r.target
          ensures log[k].time <= r.time
        {
          assert (log + [r])[k] == log[k] && (log + [r])[|log|] == r;
        }
      }
    }
  }

  /** For each of some targets a healthy record, and an unhealthy one from before that arrives behind it. */
  function Backwards(targets: seq<URL>, m: Message): seq<(URL, Record)> {
    if targets == [] then []
    else
      var u := targets[|targets| - 1];
      Backwards(targets[..|targets| - 1], m) + [(u, Record(2, Healthy, u, m))] + [(u, Record(1, Failure, u, m))]
  }

  lemma BackwardsPair(targets: seq<URL>, m: Message, u: URL)
    requires !Internal(u)
    ensures Logged(Backwards(targets + [u], m))
         == Logged(Backwards(targets, m)) + [Record(2, Healthy, u, m)] + [Record(1, Failure, u, m)]
  {
    var reports, r0, r1 := Backwards(targets, m), Record(2, Healthy, u, m), Record(1, Failure, u, m);
    assert (targets + [u])[..|targets|] == targets;
    assert (reports + [(u, r0)])[..|reports|] == reports;
    assert (reports + [(u, r0)] + [(u, r1)])[..|reports| + 1] == reports + [(u, r0)];
  }

  /** Nothing goes on, and the history and the log are about some targets only. */
  ghost predicate OnlyAbout(s: Store, log: seq<Record>, targets: seq<URL>)
    reads s
  {
    && s.currentIncidents == map[]
    && (forall k :: 0 <= k < |s.incidentHistory| ==> s.incidentHistory[k].target in targets)
    && (forall k :: 0 <= k < |log| ==> log[k].target in targets)
  }

  method ReportBackwards(targets: seq<URL>, m: Message, trim: Message -> Message) returns (s: Store, ghost repr: Repr)
    requires NoRepeats(targets) && forall k :: 0 <= k < |targets| ==> !Internal(targets[k])
    ensures fresh(s) && fresh(s.probes) && fresh(repr.incidents) && fresh(repr.histories) && s.trim == trim
    ensures Given(s, repr, Logged(Backwards(targets, trim(m))), 0)
    ensures OnlyAbout(s, Logged(Backwards(targets, trim(m))), targets) && |s.incidentHistory| == |targets|
  {
    if targets == [] {
      s := new Store(0, trim);
      repr := Repr({}, {});
    } else {
      ghost var init, log := targets[..|targets| - 1], Logged(Backwards(targets[..|targets| - 1], trim(m)));
      var u := targets[|targets| - 1];
      assert targets == init + [u];
      s, repr := ReportBackwards(targets[..|targets| - 1], m, trim);
      repr := ReportPair(s, u, m, repr, log, init);
      BackwardsPair(init, trim(m), u);
    }
  }

  /** However many targets there are, each begins a late incident, and the history keeps them all. */
  method RunBackwards(targets: seq<URL>, m: Message, trim: Message -> Message) returns (s: Store)
    requires NoRepeats(targets) && forall k :: 0 <= k < |targets| ==> !Internal(targets[k])
    ensures fresh(s) && s.Valid() && s.probes.log == Logged(Backwards(targets, trim(m))) && |s.incidentHistory| == |targets|
  {
    ghost var repr;
    s, repr := ReportBackwards(targets, m, trim);
    IsGiven(s, repr, Logged(Backwards(targets, trim(m))), 0);
  }

  /** A new target's healthy record, and the unhealthy one from before it. */
  method ReportPair(s: Store, u: URL, m: Message, ghost repr: Repr, ghost log: seq<Record>, ghost before: seq<URL>)
    returns (ghost repr': Repr)
    requires Given(s, repr, log, 0) && OnlyAbout(s, log, before) && u !in before && !Internal(u)
    modifies s, s.probes, repr.incidents, repr.histories
    ensures var log' := log + [Record(2, Healthy, u, s.trim(m))] + [Record(1, Failure, u, s.trim(m))];
            && Given(s, repr', log', 0) && fresh(repr'.incidents - repr.incidents) && fresh(repr'.histories - repr.histories)
            && OnlyAbout(s, log', before + [u]) && |s.incidentHistory| == old(|s.incidentHistory|) + 1
  {
    ghost var r0, r1 := Record(2, Healthy, u, s.trim(m)), Record(1, Failure, u, s.trim(m));
    ghost var step0, step1;
    NewTarget(s, repr, log, before, r0);
    step0, repr' := Next(s, u, Record(2, Healthy, u, m), r0, repr, log, 0);
    BeginsLate(s, repr', log + [r0], before, r0, r1);
    step1, repr' := Next(s, u, Record(1, Failure, u, m), r1, repr', log + [r0], 0);
  }

  /** The first record of a target, a healthy one, does nothing to the incidents. */
  lemma NewTarget(s: Store, repr: Repr, log: seq<Record>, before: seq<URL>, r: Record)
    requires Given(s, repr, log, 0) && OnlyAbout(s, log, before) && r.target !in before && r.status == Healthy
    ensures s.ReportStep(r) == HistoryStep(false, false)
  {
    IsGiven(s, repr, log, 0);
    NoneOfTarget(s.incidentHistory, RecordsOf(s.probes.m, r.target), r.target, r.time);
  }

  /** The second record of a target, an unhealthy one from before, begins a late incident. */
  lemma BeginsLate(s: Store, repr: Repr, log: seq<Record>, before: seq<URL>, r0: Record, r: Record)
    requires Given(s, repr, log, 0) && s.currentIncidents == map[] && !Internal(r.target)
    requires forall k :: 0 <= k < |s.incidentHistory| ==> s.incidentHistory[k].target in before
    requires r.target !in before && Sick(r) && r0 in log && r0.target == r.target && r0.time > r.time
    ensures s.ReportStep(r) == HistoryStep(false, true)
  {
    IsGiven(s, repr, log, 0);
    NoneOfTarget(s.incidentHistory, RecordsOf(s.probes.m, r.target), r.target, r.time);
    s.probes.LatestRecord(r0);
  }

  lemma {:induction false} NoneOfTarget(history: seq<Incident>, records: seq<Record>, u: URL, t: Time)
    requires forall k :: 0 <= k < |history| ==> history[k].target != u
    ensures LastIncident(history, records, u, t) == null
  {
    if history != [] {
      NoneOfTarget(history[..|history| - 1], records, u, t);
    }
  }

  lemma LoggedSnoc(reports: seq<(URL, Record)>, i: nat)
    requires i < |reports|
    ensures var r := reports[i].1;
            Logged(reports[..i + 1]) == WithRecord(Logged(reports[..i]), r)
    ensures InOrder(Logged(reports[..i + 1])) ==> InOrder(Logged(reports[..i]))
  {
    assert reports[..i + 1][..i] == reports[..i];
    if InOrder(Logged(reports[..i + 1])) {
      InOrderBefore(Logged(reports[..i]), reports[i].1);
    }
  }

  lemma InOrderBefore(log: seq<Record>, r: Record)
    requires InOrder(WithRecord(log, r))
    ensures InOrder(log)
  {
    assert forall k :: 0 <= k < |log| ==> WithRecord(log, r)[k] == log[k];
  }
}
