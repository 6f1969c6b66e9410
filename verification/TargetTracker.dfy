/** internal/scheme/targettracker.go, with the probe rounds of internal/scheme/source.go: which targets a source
  * still reports. */
module TargetTrackers {
  import opened Records
  import opened ProbeHistories
  import opened Stores
  import opened Incidents

  /** ---- Rounds, by values ---- */

  /** What happens to one source: it reports itself, prepares a round, passes a report on, or settles a round. */
  datatype Event =
    | OwnRecord(source: URL)
    | Prepare(source: URL)
    | Passed(source: URL, target: URL)
    | Settle(source: URL)

  /** The targets of which the source is a store source, and the two lists of its tracker. */
  datatype SourceState = SourceState(reported: set<URL>, actives: set<URL>, inactives: set<URL>)

  function Step(st: SourceState, e: Event): SourceState {
    match e
    case OwnRecord(s) => if Internal(s) then st else st.(reported := st.reported + {s})
    case Prepare(s) => st.(actives := {}, inactives := st.actives)
    case Passed(s, t) =>
      SourceState(if Internal(t) then st.reported else st.reported + {t}, st.actives + {t}, st.inactives - {t})
    case Settle(s) => st.(reported := st.reported - st.inactives)
  }

  function Steps(st: SourceState, events: seq<Event>): SourceState {
    if events == [] then st else Step(Steps(st, events[..|events| - 1]), events[|events| - 1])
  }

  const START := SourceState({}, {}, {})

  /** The events of one source. */
  function Only(events: seq<Event>, source: URL): seq<Event> {
    if events == [] then []
    else
      var e, rest := events[|events| - 1], Only(events[..|events| - 1], source);
      if e.source == source then rest + [e] else rest
  }

  /** The state of a source after events of any sources, in any order. */
  function After(events: seq<Event>, source: URL): SourceState {
    Steps(START, Only(events, source))
  }

  lemma AfterSnoc(events: seq<Event>, e: Event, source: URL)
    ensures After(events + [e], source) == if e.source == source then Step(After(events, source), e) else After(events, source)
  {
    assert (events + [e])[..|events|] == events;
    assert (Only(events, source) + [e])[..|Only(events, source)|] == Only(events, source);
  }

  /** A probe round: the list of targets does not load, or its targets report. */
  datatype Round = Failed | Loaded(targets: seq<URL>)

  function PassedAll(source: URL, targets: seq<URL>): seq<Event> {
    if targets == [] then []
    else PassedAll(source, targets[..|targets| - 1]) + [Passed(source, targets[|targets| - 1])]
  }

  function EventsOf(source: URL, round: Round): seq<Event> {
    if round.Failed? then [OwnRecord(source)]
    else [OwnRecord(source), Prepare(source)] + PassedAll(source, round.targets) + [Settle(source)]
  }

  function EventsOfAll(source: URL, rounds: seq<Round>): seq<Event> {
    if rounds == [] then []
    else EventsOfAll(source, rounds[..|rounds| - 1]) + EventsOf(source, rounds[|rounds| - 1])
  }

  /** The targets of the latest round that loaded. */
  function Latest(rounds: seq<Round>): set<URL> {
    if rounds == [] then {}
    else
      var round := rounds[|rounds| - 1];
      if round.Failed? then Latest(rounds[..|rounds| - 1]) else set t | t in round.targets
  }

  lemma {:induction false} StepsConcat(st: SourceState, a: seq<Event>, b: seq<Event>)
    ensures Steps(st, a + b) == Steps(Steps(st, a), b)
  {
    if b == [] {
      assert a + b == a;
    } else {
      assert (a + b)[..|a + b| - 1] == a + b[..|b| - 1];
      StepsConcat(st, a, b[..|b| - 1]);
    }
  }

  lemma {:induction false} PassedSteps(st: SourceState, source: URL, targets: seq<URL>)
    ensures var all := set t | t in targets;
            Steps(st, PassedAll(source, targets)) ==
            SourceState(st.reported + (set t | t in targets && !Internal(t)), st.actives + all, st.inactives - all)
  {
    if targets != [] {
      var init, last := targets[..|targets| - 1], targets[|targets| - 1];
      PassedSteps(st, source, init);
      var rest := PassedAll(source, init);
      assert (rest + [Passed(source, last)])[..|rest|] == rest;
      assert targets == init + [last];
    }
  }

  /** Between rounds the source is a store source of exactly its active targets, but for itself. */
  ghost predicate Settled(st: SourceState, source: URL) {
    forall t :: t != source && !Internal(t) ==> (t in st.reported <==> t in st.actives)
  }

  lemma BeginSteps(st: SourceState, source: URL)
    ensures Steps(st, [OwnRecord(source), Prepare(source)]) == Step(Step(st, OwnRecord(source)), Prepare(source))
  {
    var begin := [OwnRecord(source), Prepare(source)];
    assert begin[..1] == [OwnRecord(source)];
    assert Steps(st, begin[..1]) == Step(Steps(st, begin[..1][..0]), OwnRecord(source));
  }

  lemma RoundSettles(st: SourceState, source: URL, round: Round)
    requires Settled(st, source)
    ensures var st' := Steps(st, EventsOf(source, round));
            && Settled(st', source)
            && st'.actives == if round.Failed? then st.actives else set t | t in round.targets
  {
    if round.Failed? {
      FailedSteps(st, source);
    } else {
      RoundSteps(st, source, round.targets);
    }
  }

  lemma {:induction false} RoundsSettle(source: URL, rounds: seq<Round>)
    ensures var st := Steps(START, EventsOfAll(source, rounds));
            Settled(st, source) && st.actives == Latest(rounds)
  {
    if rounds != [] {
      var init, last := rounds[..|rounds| - 1], rounds[|rounds| - 1];
      RoundsSettle(source, init);
      StepsConcat(START, EventsOfAll(source, init), EventsOf(source, last));
      RoundSettles(Steps(START, EventsOfAll(source, init)), source, last);
    }
  }

  /** However the rounds of several sources interleave: after rounds of `source`, another target has it as a
    * store source exactly when the latest round reported the target. */
  lemma SourcesFollowRounds(events: seq<Event>, source: URL, rounds: seq<Round>, target: URL)
    requires Only(events, source) == EventsOfAll(source, rounds)
    requires target != source && !Internal(target)
    ensures target in After(events, source).reported <==> target in Latest(rounds)
  {
    RoundsSettle(source, rounds);
  }

  lemma {:induction false} OnlyMembers(events: seq<Event>, source: URL, e: Event)
    ensures e in Only(events, source) <==> e in events && e.source == source
  {
    if events != [] {
      OnlyMembers(events[..|events| - 1], source, e);
      assert events == events[..|events| - 1] + [events[|events| - 1]];
    }
  }

  lemma NoOwnRecord(events: seq<Event>, source: URL, rounds: seq<Round>)
    requires Only(events, source) == EventsOfAll(source, rounds) && OwnRecord(source) !in events
    ensures rounds == []
  {
    if rounds != [] {
      var last := EventsOf(source, rounds[|rounds| - 1]);
      assert last[0] == OwnRecord(source);
      assert OwnRecord(source) in Only(events, source);
      OnlyMembers(events, source, OwnRecord(source));
    }
  }

  /** A target that is not itself a source has a store source exactly when some source's latest round reported it. */
  lemma ActiveFollowsRounds(events: seq<Event>, rounds: imap<URL, seq<Round>>, target: URL)
    requires forall s :: s in rounds && Only(events, s) == EventsOfAll(s, rounds[s])
    requires OwnRecord(target) !in events && !Internal(target)
    ensures (exists s :: target in After(events, s).reported) <==> (exists s :: s in rounds && target in Latest(rounds[s]))
  {
    forall s
      ensures s in rounds && (target in After(events, s).reported <==> target in Latest(rounds[s]))
    {
      assert s in rounds && Only(events, s) == EventsOfAll(s, rounds[s]);
      if s == target {
        NoOwnRecord(events, s, rounds[s]);
      } else {
        SourcesFollowRounds(events, s, rounds[s], target);
      }
    }
  }

  /** The state a round ends in. */
  lemma RoundSteps(st: SourceState, source: URL, targets: seq<URL>)
    ensures var st' := Steps(st, EventsOf(source, Loaded(targets)));
            && st'.actives == (set t | t in targets)
            && st'.reported == st.reported + (if Internal(source) then {} else {source})
                               + (set t | t in targets && !Internal(t)) - (st.actives - set t | t in targets)
  {
    var begin := [OwnRecord(source), Prepare(source)];
    BeginSteps(st, source);
    StepsConcat(st, begin, PassedAll(source, targets));
    PassedSteps(Steps(st, begin), source, targets);
    var passed := begin + PassedAll(source, targets);
    assert EventsOf(source, Loaded(targets))[..|passed|] == passed;
  }

  lemma FailedSteps(st: SourceState, source: URL)
    ensures Steps(st, EventsOf(source, Failed)) == Step(st, OwnRecord(source))
  {
    assert EventsOf(source, Failed)[..0] == [];
  }

  lemma {:induction false} NothingInternal(source: URL, rounds: seq<Round>)
    ensures forall t :: t in Steps(START, EventsOfAll(source, rounds)).reported ==> !Internal(t)
  {
    if rounds != [] {
      var init, last := rounds[..|rounds| - 1], rounds[|rounds| - 1];
      NothingInternal(source, init);
      var st := Steps(START, EventsOfAll(source, init));
      StepsConcat(START, EventsOfAll(source, init), EventsOf(source, last));
      if last.Failed? {
        FailedSteps(st, source);
      } else {
        RoundSteps(st, source, last.targets);
      }
    }
  }

  /** After rounds of a source, whatever happened to others: it is its own store source exactly when its list did not
    * load in the latest round, or that round passed on a record about it, or no round before had done so. So it is
    * dropped by a round that passes on no such record although the one before did, even though it has just reported
    * itself. */
  lemma OwnSourceIff(events: seq<Event>, source: URL, before: seq<Round>, last: Round)
    requires Only(events, source) == EventsOfAll(source, before + [last])
    ensures source in After(events, source).reported <==>
            !Internal(source) && (last.Failed? || source in last.targets || source !in Latest(before))
  {
    var rounds := before + [last];
    assert rounds[..|before|] == before;
    NothingInternal(source, rounds);
    RoundsSettle(source, before);
    StepsConcat(START, EventsOfAll(source, before), EventsOf(source, last));
    var st := Steps(START, EventsOfAll(source, before));
    if last.Failed? {
      FailedSteps(st, source);
    } else {
      RoundSteps(st, source, last.targets);
    }
  }

  /** ---- The tracker and the reporter ---- */

  class TargetTracker {
    var actives: seq<URL>
    var inactives: seq<URL>

    ghost predicate Valid()
      reads this
    {
      NoRepeats(actives) && NoRepeats(inactives)
    }

    ghost predicate Holds(st: SourceState)
      reads this
    {
      (forall t :: t in actives <==> t in st.actives) && (forall t :: t in inactives <==> t in st.inactives)
    }

    constructor ()
      ensures Valid() && actives == [] && inactives == []
    {
      actives, inactives := [], [];
    }

    method AddActive(target: URL)
      requires Valid()
      modifies `actives
      ensures Valid() && forall t :: t in actives <==> t in old(actives) || t == target
    {
      for i := 0 to |actives|
        invariant target !in actives[..i]
      {
        if actives[i] == target {
          return;
        }
      }
      actives := actives + [target];
    }

    method RemoveInactive(target: URL)
      requires Valid()
      modifies `inactives
      ensures Valid() && forall t :: t in inactives <==> t in old(inactives) && t != target
    {
      for i := 0 to |inactives|
        invariant target !in inactives[..i] && inactives == old(inactives)
      {
        if inactives[i] == target {
          ghost var s := inactives;
          inactives := inactives[..i] + inactives[i + 1..];
          assert s == s[..i] + [target] + s[i + 1..];
          return;
        }
      }
    }

    /** Marks a target as active. */
    method Activate(target: URL, ghost source: URL, ghost st: SourceState)
      requires Valid() && Holds(st)
      modifies this
      ensures Valid() && Holds(Step(st, Passed(source, target)))
    {
      AddActive(target);
      RemoveInactive(target);
    }

    /** Begins a round: the targets active so far count as inactive until they report again. */
    method PrepareReporter(source: URL, store: Store, ghost st: SourceState) returns (r: FixedSourceReporter)
      requires Valid() && Holds(st)
      modifies this
      ensures Valid() && Holds(Step(st, Prepare(source)))
      ensures fresh(r) && r.source == source && r.store == store && r.tracker == this
    {
      inactives := actives;
      actives := [];
      r := new FixedSourceReporter(source, store, this);
    }

    method Inactives() returns (targets: seq<URL>)
      ensures targets == inactives
    {
      targets := inactives;
    }
  }

  /** Store and tracker say of a source what its events say. */
  ghost predicate Mirrors(store: Store, tracker: TargetTracker, source: URL, events: seq<Event>)
    reads store.probes, tracker
  {
    && tracker.Valid() && tracker.Holds(After(events, source))
    && forall t :: (t, source) in store.probes.reports <==> t in After(events, source).reported
  }

  /** What a report about a target adds to the pairs of targets and sources. */
  ghost function PairOf(target: URL, source: URL): iset<(URL, URL)> {
    if Internal(target) then iset{} else iset{(target, source)}
  }

  /** The incidents and histories that the store holds now were there before or are new. */
  twostate predicate OnlyNewObjects(store: Store)
    reads store, store.probes
  {
    && (forall y :: y in Held(store.currentIncidents, store.incidentHistory) ==>
          y in old(Held(store.currentIncidents, store.incidentHistory)) || fresh(y))
    && (forall h :: h in store.probes.m.Values ==> h in old(store.probes.m.Values) || fresh(h))
  }

  /** Passes reports on to the store and the tracker, in the name of a fixed source. */
  class FixedSourceReporter {
    const source: URL
    const store: Store
    const tracker: TargetTracker

    constructor (source: URL, store: Store, tracker: TargetTracker)
      ensures this.source == source && this.store == store && this.tracker == tracker
    {
      this.source, this.store, this.tracker := source, store, tracker;
    }

    /** The store's half of a report leaves the tracker alone. */
    method ReportToStore(r: Record, ghost st: SourceState)
      requires store.Valid() && r.time != ZERO && tracker.Valid() && tracker.Holds(st)
      modifies store`currentIncidents, store`incidentHistory, store`fired, store`incidentCount
      modifies store.Touched(r, RecordsOf(store.probes.m, r.target)), store.probes, store.probes.Own(r.target)
      ensures store.Valid() && tracker.Valid() && tracker.Holds(st)
      ensures store.probes.reports == old(store.probes.reports) + PairOf(r.target, source)
      ensures OnlyNewObjects(store)
    {
      store.Report(source, r);
    }

    /** The tracker's half of a report leaves the store alone. */
    method Track(t: URL, ghost st: SourceState)
      requires store.Valid() && tracker.Valid() && tracker.Holds(st)
      modifies tracker
      ensures store.Valid() && tracker.Valid() && tracker.Holds(Step(st, Passed(source, t)))
    {
      tracker.Activate(t, source, st);
    }

    method Report(r: Record, ghost events: seq<Event>)
      requires store.Valid() && r.time != ZERO && Mirrors(store, tracker, source, events)
      modifies store`currentIncidents, store`incidentHistory, store`fired, store`incidentCount
      modifies store.Touched(r, RecordsOf(store.probes.m, r.target)), store.probes, store.probes.Own(r.target), tracker
      ensures store.Valid() && Mirrors(store, tracker, source, events + [Passed(source, r.target)])
      ensures store.probes.reports == old(store.probes.reports) + PairOf(r.target, source)
      ensures OnlyNewObjects(store)
    {
      AfterSnoc(events, Passed(source, r.target), source);
      ReportToStore(r, After(events, source));
      Track(r.target, After(events, source));
    }

    method DeactivateTarget(targets: seq<URL>)
      requires store.Valid()
      modifies store.probes`reports, store.probes.m.Values
      ensures store.Valid() && store.probes.reports == old(store.probes.reports) - iset u | u in targets :: (u, source)
    {
      store.DeactivateTarget(source, targets);
    }
  }

  class SourceScheme {
    const target: URL
    const tracker: TargetTracker

    constructor (target: URL)
      ensures this.target == target && fresh(tracker) && tracker.Valid() && tracker.Holds(START)
    {
      this.target := target;
      tracker := new TargetTracker();
    }

    /** Reports the source itself. */
    method ReportSelf(store: Store, r: Record, ghost events: seq<Event>)
      requires store.Valid() && r.time != ZERO && r.target == target && Mirrors(store, tracker, target, events)
      modifies store`currentIncidents, store`incidentHistory, store`fired, store`incidentCount
      modifies store.Touched(r, RecordsOf(store.probes.m, r.target)), store.probes, store.probes.Own(r.target)
      ensures store.Valid() && Mirrors(store, tracker, target, events + [OwnRecord(target)])
      ensures store.probes.reports == old(store.probes.reports) + PairOf(target, target)
      ensures OnlyNewObjects(store)
    {
      AfterSnoc(events, OwnRecord(target), target);
      store.Report(target, r);
    }

    /** Prepares a round. */
    method Prepare(store: Store, ghost events: seq<Event>) returns (reporter: FixedSourceReporter)
      requires Mirrors(store, tracker, target, events)
      modifies tracker
      ensures Mirrors(store, tracker, target, events + [Event.Prepare(target)])
      ensures reporter.source == target && reporter.store == store && reporter.tracker == tracker
    {
      AfterSnoc(events, Event.Prepare(target), target);
      reporter := tracker.PrepareReporter(target, store, After(events, target));
    }

    /** Up to the probes of the targets: reports the source itself and prepares the round. */
    method BeginProbe(store: Store, r: Record, ghost events: seq<Event>) returns (reporter: FixedSourceReporter)
      requires store.Valid() && r.time != ZERO && r.target == target && Mirrors(store, tracker, target, events)
      modifies store`currentIncidents, store`incidentHistory, store`fired, store`incidentCount
      modifies store.Touched(r, RecordsOf(store.probes.m, r.target)), store.probes, store.probes.Own(r.target), tracker
      ensures store.Valid() && Mirrors(store, tracker, target, events + [OwnRecord(target)] + [Event.Prepare(target)])
      ensures store.probes.reports == old(store.probes.reports) + PairOf(target, target)
      ensures OnlyNewObjects(store)
      ensures reporter.source == target && reporter.store == store && reporter.tracker == tracker
    {
      ReportSelf(store, r, events);
      reporter := Prepare(store, events + [OwnRecord(target)]);
    }

    /** Once all probes of the targets are done: drops the targets that did not report. */
    method EndProbe(reporter: FixedSourceReporter, ghost events: seq<Event>)
      requires reporter.source == target && reporter.tracker == tracker
      requires reporter.store.Valid() && Mirrors(reporter.store, tracker, target, events)
      modifies reporter.store.probes`reports, reporter.store.probes.m.Values
      ensures reporter.store.Valid() && Mirrors(reporter.store, tracker, target, events + [Settle(target)])
      ensures reporter.store.probes.reports ==
              old(reporter.store.probes.reports) - iset u | u in tracker.inactives :: (u, target)
    {
      AfterSnoc(events, Settle(target), target);
      var targets := tracker.Inactives();
      reporter.DeactivateTarget(targets);
    }
  }
}
