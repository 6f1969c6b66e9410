/** internal/store/store.go: incidents, those going on and those over. */
module Incidents {
  import opened Common
  import opened Records
  import opened IncidentRuns
  import opened ProbeHistories

  /** The zero instant: an incident that ends then has not ended. */
  const ZERO: Time := 0

  class Incident {
    const target: URL
    const status: Status
    var message: Message
    var startsAt: Time
    var endsAt: Time

    constructor (r: Record)
      ensures target == r.target && status == r.status && message == r.message && startsAt == r.time && endsAt == ZERO
    {
      target, status, message, startsAt, endsAt := r.target, r.status, r.message, r.time, ZERO;
    }
  }

  predicate SickStatus(s: Status) {
    s != Healthy && s != Aborted
  }

  /** An incident that is going on, filed under its own target. */
  ghost predicate OngoingOk(x: Incident, u: URL)
    reads x
  {
    x.target == u && x.endsAt == ZERO && SickStatus(x.status)
  }

  /** An incident that is over. */
  ghost predicate OverOk(x: Incident)
    reads x
  {
    x.endsAt != ZERO && x.startsAt <= x.endsAt && SickStatus(x.status)
  }

  ghost predicate CurrentOk(current: map<URL, Incident>)
    reads current.Values
  {
    forall u :: u in current ==> current[u] in current.Values && OngoingOk(current[u], u)
  }

  ghost predicate HistoryOk(history: seq<Incident>)
    reads history
  {
    forall x :: x in history ==> OverOk(x)
  }

  /** The latest record before `startsAt` is before `t`. */
  function PrecededBefore(records: seq<Record>, startsAt: Time, t: Time): bool {
    if records == [] then false
    else
      var h := records[|records| - 1];
      if h.time < startsAt then h.time < t else PrecededBefore(records[..|records| - 1], startsAt, t)
  }

  /** The latest entry of the history that a record of `target` at `t` belongs to. */
  ghost function LastIncident(history: seq<Incident>, records: seq<Record>, target: URL, t: Time): (x: Incident?)
    reads history
    ensures x != null ==> x in history && x.target == target && t < x.endsAt
  {
    if history == [] then null
    else
      var x := history[|history| - 1];
      if x.target == target && t < x.endsAt && (x.startsAt < t || PrecededBefore(records, x.startsAt, t)) then x
      else LastIncident(history[..|history| - 1], records, target, t)
  }

  /** The records are looked through from the latest to the first one that is before `startsAt`. */
  lemma {:induction false} PrecededBeforeIff(records: seq<Record>, startsAt: Time, t: Time)
    ensures PrecededBefore(records, startsAt, t) <==>
            exists i :: 0 <= i < |records| && records[i].time < startsAt && records[i].time < t
                        && forall j :: i < j < |records| ==> records[j].time >= startsAt
  {
    if records != [] {
      var init, last := records[..|records| - 1], |records| - 1;
      PrecededBeforeIff(init, startsAt, t);
      assert forall i :: 0 <= i < last ==> init[i] == records[i];
      if records[last].time >= startsAt {
        if i :| 0 <= i < last && init[i].time < startsAt && init[i].time < t
                && forall j :: i < j < last ==> init[j].time >= startsAt {
          assert records[i].time < startsAt && forall j :: i < j < |records| ==> records[j].time >= startsAt;
        }
      }
    }
  }

  /** Of the ended incidents of the target that end after `t`, it is the last in the history that began before `t` or
    * directly behind a record before `t`; there is none if and only if no entry is like that. */
  lemma {:induction false} LastIncidentIs(history: seq<Incident>, records: seq<Record>, target: URL, t: Time)
    ensures var In := (x: Incident) reads x =>
              x.target == target && t < x.endsAt && (x.startsAt < t || PrecededBefore(records, x.startsAt, t));
            var x := LastIncident(history, records, target, t);
            && (x == null <==> forall i :: 0 <= i < |history| ==> !In(history[i]))
            && (x != null ==> exists i :: 0 <= i < |history| && history[i] == x && In(x)
                                          && forall j :: i < j < |history| ==> !In(history[j]))
  {
    if history != [] {
      var init, last := history[..|history| - 1], |history| - 1;
      LastIncidentIs(init, records, target, t);
      assert forall i :: 0 <= i < last ==> init[i] == history[i];
    }
  }

  /** The latest record of its target belongs to no incident of the history, whatever is in there. */
  lemma LatestJoinsNone(current: map<URL, Incident>, history: seq<Incident>, records: seq<Record>, target: URL, t: Time)
    requires target !in current && records != [] && records[|records| - 1].time < t
    ensures Found(current, history, records, target, t) == null
  {
  }

  /** A record inside an incident of the history with its state, which is not the latest record of its target, goes on
    * with that incident, where no later entry is of the target and ends behind the record. */
  lemma JoinsHistory(current: map<URL, Incident>, history: seq<Incident>, records: seq<Record>, r: Record, i: nat)
    requires r.target !in current && (records == [] || records[|records| - 1].time >= r.time)
    requires i < |history| && history[i].target == r.target && history[i].startsAt < r.time < history[i].endsAt
    requires history[i].status == r.status && history[i].message.masked == r.message.masked
    requires forall j :: i < j < |history| ==> history[j].target != r.target || history[j].endsAt <= r.time
    ensures Found(current, history, records, r.target, r.time) == history[i] && Carried(history[i], r)
  {
    LastIncidentIs(history, records, r.target, r.time);
  }

  /** A later record of the target has arrived already. */
  predicate Late(records: seq<Record>, t: Time) {
    records != [] && records[|records| - 1].time > t
  }

  /** Dropping one entry from the front when there are too many. */
  function Trim<T>(h: seq<T>): seq<T> {
    if |h| > INCIDENT_HISTORY_LEN then h[1..] else h
  }

  ghost function OpenView(x: Incident): Open
    reads x
  {
    Open(x.status, x.message, x.startsAt)
  }

  ghost function ClosedView(x: Incident): Closed
    reads x
  {
    Closed(x.target, x.status, x.message, x.startsAt, x.endsAt)
  }

  ghost function Views(history: seq<Incident>): (cs: seq<Closed>)
    reads history
    ensures |cs| == |history| && forall i :: 0 <= i < |cs| ==> cs[i] == ClosedView(history[i])
  {
    seq(|history|, i requires 0 <= i < |history| reads history => ClosedView(history[i]))
  }

  /** The record continues the state of the incident. */
  predicate Continues(status: Status, message: Message, r: Record) {
    status == r.status && message.masked == r.message.masked
  }

  /** The history after the incident `x`, if any, is resolved. */
  ghost function Kept(history: seq<Incident>, x: Incident?): seq<Incident> {
    if x != null then Trim(history + [x]) else history
  }

  /** Where an incident begun by the record is to be found. */
  ghost function Newest(r: Record, records: seq<Record>, history: seq<Incident>, current: map<URL, Incident>): set<Incident> {
    if Late(records, r.time) then if history == [] then {} else {history[|history| - 1]}
    else if r.target in current then {current[r.target]} else {}
  }

  /** How a record is filed once its target has no incident going on: not at all when it is healthy, in
    * the history when it is late, and as going on otherwise. */
  ghost predicate Filed(kept: seq<Incident>, others: map<URL, Incident>, r: Record, records: seq<Record>,
                        history: seq<Incident>, current: map<URL, Incident>)
    reads Newest(r, records, history, current)
  {
    if !Sick(r) then history == kept && current == others
    else if Late(records, r.time) then
      && current == others && |history| == |kept| + 1 && history[..|kept|] == kept
      && ClosedView(history[|history| - 1]) == Closed(r.target, r.status, r.message, r.time, NextAfter(records, r.time).time)
    else
      && history == kept
      && r.target in current && current == others[r.target := current[r.target]]
      && current[r.target] in current.Values && OpenView(current[r.target]) == Open(r.status, r.message, r.time)
  }

  ghost function OpenAt(current: map<URL, Incident>, u: URL): Option<Open>
    reads current.Values
  {
    if u in current then Some(OpenView(current[u])) else None
  }

  /** The incidents going on are those of the log. */
  ghost predicate CurrentAsIn(current: map<URL, Incident>, log: seq<Record>)
    reads current.Values
  {
    forall u :: OpenAt(current, u) == Expected(log, u)
  }

  ghost predicate HistoryAsIn(history: seq<Incident>, log: seq<Record>)
    reads history
  {
    Views(history) == LastN(Closings(log), INCIDENT_HISTORY_LEN)
  }

  lemma LastNSnoc<T>(s: seq<T>, x: T, n: nat)
    requires n > 0
    ensures LastN(s + [x], n) == if |LastN(s, n) + [x]| > n then (LastN(s, n) + [x])[1..] else LastN(s, n) + [x]
  {
  }

  lemma {:induction false} ViewsConcat(a: seq<Incident>, b: seq<Incident>)
    ensures Views(a + b) == Views(a) + Views(b)
  {
  }

  lemma ViewsTrim(h: seq<Incident>)
    ensures Views(Trim(h)) == Trim(Views(h))
  {
  }

  /** The incidents going on after a log. */
  ghost function Opens(log: seq<Record>): imap<URL, Option<Open>> {
    imap u: URL | true :: Expected(log, u)
  }

  lemma CurrentHolds(current: map<URL, Incident>, log: seq<Record>)
    requires CurrentAsIn(current, log)
    ensures Holds(current, Opens(log))
  {
  }

  lemma HoldsCurrent(current: map<URL, Incident>, log: seq<Record>)
    requires Holds(current, Opens(log))
    ensures CurrentAsIn(current, log)
  {
    forall u
      ensures OpenAt(current, u) == Expected(log, u)
    {
      assert u in Opens(log) && OpenAt(current, u) == Opens(log)[u];
    }
  }

  /** The state a timely record leads to is that of the longer log. */
  lemma Advanced(current: map<URL, Incident>, history: seq<Incident>, count: nat, fired: seq<seq<Record>>,
                 log: seq<Record>, r: Record)
    requires var cur := Opens(log)[r.target];
             && Holds(current, Opens(log)[r.target := NextOpen(cur, r)])
             && Views(history) == NextClosed(LastN(Closings(log), INCIDENT_HISTORY_LEN), cur, r)
             && count == Beginnings(log) + (if NewState(cur, r) && Sick(r) then 1 else 0)
             && forall h :: 0 <= h < |fired| ==>
                  fired[h] == Calls(log) + if NewState(cur, r) && (Sick(r) || cur.Some?) then [r] else []
    ensures CurrentAsIn(current, log + [r]) && HistoryAsIn(history, log + [r])
    ensures count == Beginnings(log + [r]) && forall h :: 0 <= h < |fired| ==> fired[h] == Calls(log + [r])
  {
    OpensStep(log, r);
    ClosingsTrimmed(log, r);
    HoldsCurrent(current, log + [r]);
    ReferenceStep(log, r);
  }

  lemma OpensStep(log: seq<Record>, r: Record)
    ensures Opens(log)[r.target := NextOpen(Expected(log, r.target), r)] == Opens(log + [r])
  {
    ReferenceStep(log, r);
  }

  lemma ClosingsTrimmed(log: seq<Record>, r: Record)
    ensures NextClosed(LastN(Closings(log), INCIDENT_HISTORY_LEN), Expected(log, r.target), r)
         == LastN(Closings(log + [r]), INCIDENT_HISTORY_LEN)
  {
    ReferenceStep(log, r);
    var ended := Ended(Expected(log, r.target), r);
    if ended != [] {
      LastNSnoc(Closings(log), ended[0], INCIDENT_HISTORY_LEN);
    }
  }

  lemma HoldsWithout(current: map<URL, Incident>, opens: imap<URL, Option<Open>>, u: URL)
    requires Holds(current, opens) && CurrentOk(current)
    ensures Holds(current - {u}, opens[u := None])
    ensures u in opens && opens[u] == OpenAt(current, u)
    ensures u in current ==> current[u] !in (current - {u}).Values
  {
    forall v
      ensures v in opens[u := None] && OpenAt(current - {u}, v) == opens[u := None][v]
    {
      assert v in opens && OpenAt(current, v) == opens[v];
    }
    assert u in opens && OpenAt(current, u) == opens[u];
    if u in current {
      forall v | v in current - {u}
        ensures (current - {u})[v] != current[u]
      {
        assert OngoingOk(current[v], v) && OngoingOk(current[u], u);
      }
    }
  }

  lemma HoldsWith(others: map<URL, Incident>, current: map<URL, Incident>, opens: imap<URL, Option<Open>>, u: URL)
    requires Holds(others, opens[u := None]) && u in current && current - {u} == others
    ensures Holds(current, opens[u := Some(OpenView(current[u]))])
  {
    var opens' := opens[u := Some(OpenView(current[u]))];
    forall v
      ensures v in opens' && OpenAt(current, v) == opens'[v]
    {
      assert v in opens[u := None] && OpenAt(others, v) == opens[u := None][v];
      if v != u && v in current {
        assert v in others && others[v] == current[v];
      }
    }
  }

  lemma FiledHolds(kept: seq<Incident>, others: map<URL, Incident>, r: Record, records: seq<Record>,
                   history: seq<Incident>, current: map<URL, Incident>, opens: imap<URL, Option<Open>>)
    requires Filed(kept, others, r, records, history, current) && !Late(records, r.time)
    requires Holds(others, opens[r.target := None]) && r.target !in others
    requires r.target in opens && NewState(opens[r.target], r)
    ensures Holds(current, opens[r.target := NextOpen(opens[r.target], r)])
  {
    if Sick(r) {
      assert current - {r.target} == others;
      HoldsWith(others, current, opens, r.target);
    }
  }

  lemma KeptViews(history: seq<Incident>, x: Incident?, r: Record, cur: Option<Open>)
    requires NewState(cur, r) && (x == null <==> cur == None)
    requires x != null ==>
               ClosedView(x) == Closed(r.target, cur.value.status, cur.value.message, cur.value.startsAt, r.time)
    ensures Views(Kept(history, x)) == NextClosed(Views(history), cur, r)
  {
    if x != null {
      ViewsTrim(history + [x]);
      ViewsConcat(history, [x]);
    }
  }

  /** The map holds exactly these incidents. */
  ghost predicate Holds(current: map<URL, Incident>, opens: imap<URL, Option<Open>>)
    reads current.Values
  {
    forall u :: u in opens && OpenAt(current, u) == opens[u]
  }

  function NextClosed(cs: seq<Closed>, cur: Option<Open>, r: Record): seq<Closed> {
    if Ended(cur, r) == [] then cs else Trim(cs + Ended(cur, r))
  }

  lemma {:induction false} NoneInHistory(history: seq<Incident>, records: seq<Record>, log: seq<Record>, r: Record)
    requires forall i :: 0 <= i < |history| ==> ClosedView(history[i]) in Closings(log)
    requires forall h :: h in log && h.target == r.target ==> h.time <= r.time
    ensures LastIncident(history, records, r.target, r.time) == null
  {
    if history != [] {
      var x := history[|history| - 1];
      ClosedByRecord(log, ClosedView(x));
      NoneInHistory(history[..|history| - 1], records, log, r);
    }
  }

  /** An incident of the history that a late record ends again is filed again: it is in the history twice then, unless it
    * was the oldest of a full one. */
  lemma FiledAgain(history: seq<Incident>, i: nat)
    requires i < |history| && forall j :: 0 <= j < |history| && j != i ==> history[j] != history[i]
    ensures var kept := Kept(history, history[i]);
            (exists a, b :: 0 <= a < b < |kept| && kept[a] == history[i] && kept[b] == history[i])
            <==> i > 0 || |history| < INCIDENT_HISTORY_LEN
  {
    var x, kept := history[i], Kept(history, history[i]);
    var a, b := if |history| < INCIDENT_HISTORY_LEN then i else i - 1, |kept| - 1;
    assert kept == if |history| < INCIDENT_HISTORY_LEN then history + [x] else history[1..] + [x];
    assert kept[b] == x && (a >= 0 ==> a < b && kept[a] == x);
  }

  /** The first record later than `t`. */
  function NextAfter(records: seq<Record>, t: Time): (r: Record)
    requires Late(records, t)
    ensures r in records && r.time > t
  {
    if records[0].time > t then records[0] else NextAfter(records[1..], t)
  }

  /** Every record in front of it is not later than `t`. */
  lemma {:induction false} NextIsFirst(records: seq<Record>, t: Time)
    requires Late(records, t)
    ensures exists i :: 0 <= i < |records| && records[i] == NextAfter(records, t) && records[i].time > t
                        && forall j :: 0 <= j < i ==> records[j].time <= t
  {
    if records[0].time <= t {
      var tail := records[1..];
      NextIsFirst(tail, t);
      var i :| 0 <= i < |tail| && tail[i] == NextAfter(tail, t) && forall j :: 0 <= j < i ==> tail[j].time <= t;
      forall j | 0 <= j < i + 1
        ensures records[j].time <= t
      {
        assert j > 0 ==> records[j] == tail[j - 1];
      }
      assert records[i + 1] == NextAfter(records, t);
    }
  }

  /** In a window in time order no record lies between a late record and the one that ends its incident. */
  lemma NoneBetween(records: seq<Record>, t: Time)
    requires Late(records, t) && SortedByTime(records)
    ensures forall h :: h in records && h.time > t ==> NextAfter(records, t).time <= h.time
  {
    NextIsFirst(records, t);
  }

  /** What the handlers are called with for a record that begins an incident late: the record, and the first record
    * later than it if that one is healthy. */
  lemma SentLate(r: Record, records: seq<Record>, resolves: bool)
    requires Sick(r) && Late(records, r.time)
    ensures exists i :: 0 <= i < |records| && records[i].time > r.time
                        && (forall j :: 0 <= j < i ==> records[j].time <= r.time)
                        && Sent(r, records, resolves) == if records[i].status == Healthy then [r, records[i]] else [r]
  {
    NextIsFirst(records, r.time);
  }

  lemma LateBegun(history: seq<Incident>, r: Record, records: seq<Record>)
    requires Late(records, r.time) && history != []
    requires ClosedView(history[|history| - 1]) == Closed(r.target, r.status, r.message, r.time, NextAfter(records, r.time).time)
    ensures NewestBeganLate(history, r, records)
  {
    NextIsFirst(records, r.time);
  }

  /** The newest incident of the history was begun late by the record: it is that of the record and ends at the first
    * record of the window later than it. In a window in time order no record lies between its two ends. */
  ghost predicate NewestBeganLate(history: seq<Incident>, r: Record, records: seq<Record>)
    reads if history == [] then {} else {history[|history| - 1]}
  {
    history != [] &&
    var x := history[|history| - 1];
    && ClosedView(x) == Closed(r.target, r.status, r.message, r.time, x.endsAt)
    && (exists i :: 0 <= i < |records| && records[i].time == x.endsAt > r.time
                    && forall j :: 0 <= j < i ==> records[j].time <= r.time)
    && (SortedByTime(records) ==> forall h :: h in records ==> !(x.startsAt < h.time < x.endsAt))
  }

  method FirstAfter(records: seq<Record>, t: Time) returns (r: Record)
    requires Late(records, t)
    ensures r == NextAfter(records, t)
    ensures exists i :: 0 <= i < |records| && records[i] == r && r.time > t && forall j :: 0 <= j < i ==> records[j].time <= t
  {
    var i := 0;
    while !(records[i].time > t)
      invariant 0 <= i < |records| && Late(records[i..], t) && NextAfter(records[i..], t) == NextAfter(records, t)
      invariant forall j :: 0 <= j < i ==> records[j].time <= t
      decreases |records| - i
    {
      assert records[i..][1..] == records[i + 1..];
      i := i + 1;
    }
    r := records[i];
  }

  /** Calls every handler with some records. */
  method Notify(fired: seq<seq<Record>>, rs: seq<Record>) returns (fired': seq<seq<Record>>)
    ensures |fired'| == |fired| && forall h :: 0 <= h < |fired| ==> fired'[h] == fired[h] + rs
  {
    fired' := fired;
    for i := 0 to |fired|
      invariant |fired'| == |fired|
      invariant forall h :: 0 <= h < |fired| ==> fired'[h] == if h < i then fired[h] + rs else fired[h]
    {
      fired' := fired'[i := fired'[i] + rs];
    }
  }

  /** The loop over the records, latest first. */
  method IsPrecededBefore(records: seq<Record>, startsAt: Time, t: Time) returns (b: bool)
    ensures b == PrecededBefore(records, startsAt, t)
  {
    var i := |records| - 1;
    assert records[..i + 1] == records;
    while i >= 0
      invariant -1 <= i < |records|
      invariant PrecededBefore(records[..i + 1], startsAt, t) == PrecededBefore(records, startsAt, t)
    {
      var h := records[i];
      assert records[..i + 1][..i] == records[..i];
      if h.time < startsAt {
        return h.time < t;
      }
      i := i - 1;
    }
    return false;
  }

  /** The incidents held, going on or over. */
  ghost function Held(current: map<URL, Incident>, history: seq<Incident>): set<Incident> {
    current.Values + set x | x in history
  }

  /** ---- The incident a record belongs to ---- */

  /** The incident going on, or else, for a record that is not the latest, one of the history. */
  ghost function Found(current: map<URL, Incident>, history: seq<Incident>, records: seq<Record>, target: URL, t: Time): Incident?
    reads history
  {
    if target in current then current[target]
    else if records != [] && records[|records| - 1].time < t then null
    else LastIncident(history, records, target, t)
  }

  lemma FoundFacts(current: map<URL, Incident>, history: seq<Incident>, records: seq<Record>, target: URL, t: Time)
    requires CurrentOk(current) && HistoryOk(history)
    ensures var x := Found(current, history, records, target, t);
            x != null ==>
              && x.target == target && SickStatus(x.status)
              && x in Held(current, history)
              && (x.endsAt == ZERO <==> target in current)
              && (x.endsAt != ZERO ==> t < x.endsAt)
  {
    if target in current {
      assert OngoingOk(current[target], target);
    }
  }

  /** The incident `x` goes on with the record `r`. */
  ghost predicate GoesOn(x: Incident, r: Record)
    reads x
  {
    Continues(x.status, x.message, r) && (x.endsAt == ZERO || x.endsAt > r.time)
  }

  /** The record belongs to an incident and that incident goes on. */
  ghost predicate Carried(x: Incident?, r: Record)
    reads if x != null then {x} else {}
  {
    x != null && GoesOn(x, r)
  }

  /** What each handler is called with for a record that changes the state of its target. */
  ghost function Sent(r: Record, records: seq<Record>, resolves: bool): seq<Record> {
    if Sick(r) then
      if Late(records, r.time) && NextAfter(records, r.time).status == Healthy then [r, NextAfter(records, r.time)] else [r]
    else if resolves then [r]
    else []
  }

  ghost predicate AllSent(before: seq<seq<Record>>, now: seq<seq<Record>>, rs: seq<Record>) {
    |now| == |before| && forall h :: 0 <= h < |now| ==> now[h] == before[h] + rs
  }

  /** ---- The bound on the history ---- */

  /** What one report does to the length of the history: it may resolve an incident, and it may begin a late one. */
  datatype HistoryStep = HistoryStep(resolves: bool, beginsLate: bool)

  /** A resolved incident pushes the oldest entry out of a full history; one that begins late does not. */
  function LengthAfter(n: nat, step: HistoryStep): nat {
    (if step.resolves && n < INCIDENT_HISTORY_LEN then n + 1 else n) + if step.beginsLate then 1 else 0
  }

  /** Where a step leaves the incidents: an incident that begins late is the last of the history, behind the one
    * resolved, and neither it nor a healthy record leaves an incident of the target going on. */
  predicate StepLeaves(step: HistoryStep, r: Record, current: map<URL, Incident>, history: seq<Incident>,
                  current': map<URL, Incident>, history': seq<Incident>) {
    && |history'| == LengthAfter(|history|, step)
    && (!step.resolves ==> history <= history')
    && (step.beginsLate ==> history'[|history'| - 1].target == r.target)
    && (r.status == Healthy || step.beginsLate ==> current' == current - {r.target})
  }

  /** The length of the history after a run of steps. */
  function Length(steps: seq<HistoryStep>): nat {
    if steps == [] then 0 else LengthAfter(Length(steps[..|steps| - 1]), steps[|steps| - 1])
  }

  function LateBeginnings(steps: seq<HistoryStep>): nat {
    if steps == [] then 0
    else LateBeginnings(steps[..|steps| - 1]) + if steps[|steps| - 1].beginsLate then 1 else 0
  }

  /** The step `i` begins a late incident while the history is full, or is filled by the same step. */
  predicate Overflows(steps: seq<HistoryStep>, i: nat)
    requires i < |steps|
  {
    var n := Length(steps[..i]);
    steps[i].beginsLate && (n >= INCIDENT_HISTORY_LEN || (n == INCIDENT_HISTORY_LEN - 1 && steps[i].resolves))
  }

  /** The history never shrinks, and it exceeds its bound by no more than the incidents that began late. */
  lemma {:induction false} LengthBounded(steps: seq<HistoryStep>)
    ensures Length(steps) <= INCIDENT_HISTORY_LEN + LateBeginnings(steps)
    ensures forall i :: 0 <= i <= |steps| ==> Length(steps[..i]) <= Length(steps)
  {
    if steps != [] {
      var init := steps[..|steps| - 1];
      LengthBounded(init);
      forall i | 0 <= i <= |steps|
        ensures Length(steps[..i]) <= Length(steps)
      {
        assert i < |steps| ==> steps[..i] == init[..i];
        assert i == |steps| ==> steps[..i] == steps;
      }
    } else {
      assert forall i :: 0 <= i <= |steps| ==> steps[..i] == [];
    }
  }

  /** The bound is broken by exactly these steps: those that begin a late incident when the history is full. */
  lemma {:induction false} BoundBrokenIff(steps: seq<HistoryStep>)
    ensures Length(steps) > INCIDENT_HISTORY_LEN <==> exists i: nat :: i < |steps| && Overflows(steps, i)
  {
    if steps != [] {
      var init, last := steps[..|steps| - 1], |steps| - 1;
      BoundBrokenIff(init);
      forall i: nat | i < last
        ensures Overflows(init, i) <==> Overflows(steps, i)
      {
        assert init[..i] == steps[..i];
      }
      if Length(init) > INCIDENT_HISTORY_LEN {
        var i: nat :| i < last && Overflows(init, i);
        assert Overflows(steps, i);
      } else if Length(steps) > INCIDENT_HISTORY_LEN {
        assert Overflows(steps, last);
      }
    }
  }
}
