/** Whole runs of internal/scheme/source.go: several sources probe their targets into one store. */
module ProbeRuns {
  import opened Records
  import opened ProbeHistories
  import opened Incidents
  import opened Stores
  import opened TargetTrackers

  /** What happens next: source `i` cannot load its list, begins a round, passes a report of a target on, or ends
    * its round. */
  datatype Action = Fail(i: nat, r: Record) | Begin(i: nat, r: Record) | Pass(i: nat, r: Record) | End(i: nat)

  function EventsOfAction(a: Action, targets: seq<URL>): seq<Event>
    requires a.i < |targets|
  {
    match a
    case Fail(i, _) => [OwnRecord(targets[i])]
    case Begin(i, _) => [OwnRecord(targets[i]), Prepare(targets[i])]
    case Pass(i, r) => [Passed(targets[i], r.target)]
    case End(i) => [Settle(targets[i])]
  }

  predicate InRange(actions: seq<Action>, targets: seq<URL>) {
    forall k :: 0 <= k < |actions| ==> actions[k].i < |targets|
  }

  function EventsOfActions(actions: seq<Action>, targets: seq<URL>): seq<Event>
    requires InRange(actions, targets)
  {
    if actions == [] then []
    else EventsOfActions(actions[..|actions| - 1], targets) + EventsOfAction(actions[|actions| - 1], targets)
  }

  /** Source `i` began a round in the first `k` actions. */
  predicate Begun(actions: seq<Action>, k: nat, i: nat) {
    exists j :: 0 <= j < k && j < |actions| && actions[j].Begin? && actions[j].i == i
  }

  /** What the sources can do: they report about themselves when a list is loaded, and a round passes reports on
    * and ends only once it has begun. */
  predicate Proper(actions: seq<Action>, targets: seq<URL>) {
    && InRange(actions, targets)
    && (forall k :: 0 <= k < |actions| && !actions[k].End? ==> actions[k].r.time != ZERO)
    && (forall k :: 0 <= k < |actions| && (actions[k].Fail? || actions[k].Begin?) ==>
          actions[k].r.target == targets[actions[k].i])
    && (forall k :: 0 <= k < |actions| && (actions[k].Pass? || actions[k].End?) ==> Begun(actions, k, actions[k].i))
  }

  /** ---- The sources and their store ---- */

  ghost predicate Apart(schemes: seq<SourceScheme>) {
    forall i, j :: 0 <= i < j < |schemes| ==>
      schemes[i].target != schemes[j].target && schemes[i].tracker != schemes[j].tracker
  }

  ghost function Trackers(schemes: seq<SourceScheme>): set<TargetTracker> {
    set i | 0 <= i < |schemes| :: schemes[i].tracker
  }

  /** Store and trackers say of every source what its events say, and there are no other sources. */
  ghost predicate InStep(store: Store, schemes: seq<SourceScheme>, events: seq<Event>)
    reads store.probes, Trackers(schemes)
  {
    && (forall i :: 0 <= i < |schemes| ==>
          schemes[i].tracker in Trackers(schemes) && Mirrors(store, schemes[i].tracker, schemes[i].target, events))
    && OnlySources(store.probes.reports, schemes)
  }

  /** `es` are the events. It serves as a trigger: what is said of every such list is unfolded only where one is named. */
  predicate IsRun(es: seq<Event>, events: seq<Event>) {
    es == events
  }

  /** The store and its sources are in step after the events. */
  ghost predicate World(store: Store, schemes: seq<SourceScheme>, events: seq<Event>)
    reads store.probes, Trackers(schemes)
  {
    forall es {:trigger IsRun(es, events)} :: IsRun(es, events) ==> InStep(store, schemes, es)
  }

  lemma WorldInStep(store: Store, schemes: seq<SourceScheme>, events: seq<Event>)
    requires World(store, schemes, events)
    ensures InStep(store, schemes, events)
  {
    assert IsRun(events, events);
  }

  ghost predicate OnlySources(reports: iset<(URL, URL)>, schemes: seq<SourceScheme>) {
    forall t, s :: (t, s) in reports ==> exists i :: 0 <= i < |schemes| && schemes[i].target == s
  }

  /** The pairs of all other sources are as they were. */
  ghost predicate SameForOthers(reports: iset<(URL, URL)>, reports': iset<(URL, URL)>, source: URL) {
    forall t, s :: s != source ==> ((t, s) in reports <==> (t, s) in reports')
  }

  /** An event of one source leaves what is said of another one as it was. */
  lemma OtherMirrors(store: Store, tracker: TargetTracker, source: URL, events: seq<Event>, more: seq<Event>)
    requires tracker.Valid() && tracker.Holds(After(events, source))
    requires forall t :: (t, source) in store.probes.reports <==> t in After(events, source).reported
    requires forall e :: e in more ==> e.source != source
    ensures Mirrors(store, tracker, source, events + more)
  {
    AfterOthers(events, more, source);
  }

  lemma {:induction false} AfterOthers(events: seq<Event>, more: seq<Event>, source: URL)
    requires forall e :: e in more ==> e.source != source
    ensures After(events + more, source) == After(events, source)
  {
    if more == [] {
      assert events + more == events;
    } else {
      var init, last := more[..|more| - 1], more[|more| - 1];
      AfterOthers(events, init, source);
      AfterSnoc(events + init, last, source);
      assert events + init + [last] == events + more;
    }
  }

  ghost function OtherTrackers(schemes: seq<SourceScheme>, i: nat): set<TargetTracker> {
    set j | 0 <= j < |schemes| && j != i :: schemes[j].tracker
  }

  /** What the trackers of all sources but one hold, and what `reports` says of them. */
  ghost predicate Others(schemes: seq<SourceScheme>, i: nat, trackers: set<TargetTracker>, reports: iset<(URL, URL)>,
                         events: seq<Event>)
    reads trackers
  {
    && OnlySources(reports, schemes)
    && forall j :: 0 <= j < |schemes| && j != i ==>
         && schemes[j].tracker in trackers
         && schemes[j].tracker.Valid() && schemes[j].tracker.Holds(After(events, schemes[j].target))
         && forall t :: (t, schemes[j].target) in reports <==> t in After(events, schemes[j].target).reported
  }

  lemma WorldBut(store: Store, schemes: seq<SourceScheme>, i: nat, events: seq<Event>)
    requires World(store, schemes, events) && i < |schemes| && Apart(schemes)
    ensures Others(schemes, i, OtherTrackers(schemes, i), store.probes.reports, events)
    ensures schemes[i].tracker !in OtherTrackers(schemes, i)
    ensures Mirrors(store, schemes[i].tracker, schemes[i].target, events)
  {
    WorldInStep(store, schemes, events);
  }

  /** Once one source is in step with some more events of its own, the world is. */
  lemma WorldAgain(store: Store, schemes: seq<SourceScheme>, i: nat, trackers: set<TargetTracker>,
                   reports: iset<(URL, URL)>, events: seq<Event>, more: seq<Event>)
    requires i < |schemes| && Apart(schemes) && Others(schemes, i, trackers, reports, events)
    requires SameForOthers(reports, store.probes.reports, schemes[i].target)
    requires Mirrors(store, schemes[i].tracker, schemes[i].target, events + more)
    requires forall e :: e in more ==> e.source == schemes[i].target
    ensures World(store, schemes, events + more)
  {
    forall j | 0 <= j < |schemes|
      ensures schemes[j].tracker in Trackers(schemes) && Mirrors(store, schemes[j].tracker, schemes[j].target, events + more)
    {
      if j != i {
        OtherMirrors(store, schemes[j].tracker, schemes[j].target, events, more);
      }
    }
  }

  /** The sources with their reporters; a reporter is there once the source has begun a round. */
  ghost predicate Reporting(store: Store, schemes: seq<SourceScheme>, reporters: seq<FixedSourceReporter?>) {
    && |reporters| == |schemes|
    && forall i :: 0 <= i < |schemes| && reporters[i] != null ==>
         reporters[i].source == schemes[i].target && reporters[i].store == store && reporters[i].tracker == schemes[i].tracker
  }

  method FailRound(store: Store, schemes: seq<SourceScheme>, i: nat, r: Record, ghost events: seq<Event>)
    requires store.Valid() && r.time != ZERO && i < |schemes| && r.target == schemes[i].target
    requires Apart(schemes) && World(store, schemes, events)
    modifies store`currentIncidents, store`incidentHistory, store`fired, store`incidentCount
    modifies store.Touched(r, RecordsOf(store.probes.m, r.target)), store.probes, store.probes.Own(r.target)
    ensures store.Valid() && World(store, schemes, events + [OwnRecord(schemes[i].target)])
    ensures OnlyNewObjects(store)
  {
    ghost var reports, trackers := store.probes.reports, OtherTrackers(schemes, i);
    WorldBut(store, schemes, i, events);
    schemes[i].ReportSelf(store, r, events);
    WorldAgain(store, schemes, i, trackers, reports, events, [OwnRecord(schemes[i].target)]);
  }

  /** The beginning of one source's round leaves the trackers of the other sources alone. */
  method BeginApart(scheme: SourceScheme, store: Store, r: Record, ghost schemes: seq<SourceScheme>, ghost i: nat,
                    ghost trackers: set<TargetTracker>, ghost reports: iset<(URL, URL)>, ghost events: seq<Event>)
    returns (reporter: FixedSourceReporter)
    requires store.Valid() && r.time != ZERO && r.target == scheme.target && scheme.tracker !in trackers
    requires Mirrors(store, scheme.tracker, scheme.target, events) && Others(schemes, i, trackers, reports, events)
    modifies store`currentIncidents, store`incidentHistory, store`fired, store`incidentCount
    modifies store.Touched(r, RecordsOf(store.probes.m, r.target)), store.probes, store.probes.Own(r.target), scheme.tracker
    ensures store.Valid() && Others(schemes, i, trackers, reports, events) && OnlyNewObjects(store)
    ensures Mirrors(store, scheme.tracker, scheme.target, events + [OwnRecord(scheme.target)] + [Prepare(scheme.target)])
    ensures store.probes.reports == old(store.probes.reports) + PairOf(scheme.target, scheme.target)
    ensures reporter.source == scheme.target && reporter.store == store && reporter.tracker == scheme.tracker
  {
    reporter := scheme.BeginProbe(store, r, events);
  }

  method BeginRound(store: Store, schemes: seq<SourceScheme>, i: nat, r: Record, ghost events: seq<Event>)
    returns (reporter: FixedSourceReporter)
    requires store.Valid() && r.time != ZERO && i < |schemes| && r.target == schemes[i].target
    requires Apart(schemes) && World(store, schemes, events)
    modifies store`currentIncidents, store`incidentHistory, store`fired, store`incidentCount
    modifies store.Touched(r, RecordsOf(store.probes.m, r.target)), store.probes, store.probes.Own(r.target)
    modifies schemes[i].tracker
    ensures store.Valid() && World(store, schemes, events + [OwnRecord(schemes[i].target), Prepare(schemes[i].target)])
    ensures OnlyNewObjects(store)
    ensures reporter.source == schemes[i].target && reporter.store == store && reporter.tracker == schemes[i].tracker
  {
    ghost var reports, trackers := store.probes.reports, OtherTrackers(schemes, i);
    WorldBut(store, schemes, i, events);
    reporter := BeginApart(schemes[i], store, r, schemes, i, trackers, reports, events);
    ghost var more := [OwnRecord(schemes[i].target), Prepare(schemes[i].target)];
    assert events + [OwnRecord(schemes[i].target)] + [Prepare(schemes[i].target)] == events + more;
    WorldAgain(store, schemes, i, trackers, reports, events, more);
  }

  /** A report of one source's target leaves the trackers of the other sources alone. */
  method PassApart(reporter: FixedSourceReporter, r: Record, ghost schemes: seq<SourceScheme>, ghost i: nat,
                   ghost trackers: set<TargetTracker>, ghost reports: iset<(URL, URL)>, ghost events: seq<Event>)
    requires reporter.store.Valid() && r.time != ZERO && reporter.tracker !in trackers
    requires Mirrors(reporter.store, reporter.tracker, reporter.source, events)
    requires Others(schemes, i, trackers, reports, events)
    modifies reporter.store`currentIncidents, reporter.store`incidentHistory, reporter.store`fired, reporter.store`incidentCount
    modifies reporter.store.Touched(r, RecordsOf(reporter.store.probes.m, r.target)), reporter.store.probes
    modifies reporter.store.probes.Own(r.target), reporter.tracker
    ensures reporter.store.Valid() && Others(schemes, i, trackers, reports, events) && OnlyNewObjects(reporter.store)
    ensures Mirrors(reporter.store, reporter.tracker, reporter.source, events + [Passed(reporter.source, r.target)])
    ensures reporter.store.probes.reports == old(reporter.store.probes.reports) + PairOf(r.target, reporter.source)
  {
    reporter.Report(r, events);
  }

  method PassOn(store: Store, schemes: seq<SourceScheme>, i: nat, reporter: FixedSourceReporter, r: Record, ghost events: seq<Event>)
    requires store.Valid() && r.time != ZERO && i < |schemes|
    requires reporter.source == schemes[i].target && reporter.store == store && reporter.tracker == schemes[i].tracker
    requires Apart(schemes) && World(store, schemes, events)
    modifies store`currentIncidents, store`incidentHistory, store`fired, store`incidentCount
    modifies store.Touched(r, RecordsOf(store.probes.m, r.target)), store.probes, store.probes.Own(r.target)
    modifies schemes[i].tracker
    ensures store.Valid() && World(store, schemes, events + [Passed(schemes[i].target, r.target)])
    ensures OnlyNewObjects(store)
  {
    ghost var reports, trackers := store.probes.reports, OtherTrackers(schemes, i);
    WorldBut(store, schemes, i, events);
    PassApart(reporter, r, schemes, i, trackers, reports, events);
    WorldAgain(store, schemes, i, trackers, reports, events, [Passed(schemes[i].target, r.target)]);
  }

  method EndRound(store: Store, schemes: seq<SourceScheme>, i: nat, reporter: FixedSourceReporter, ghost events: seq<Event>)
    requires store.Valid() && i < |schemes|
    requires reporter.source == schemes[i].target && reporter.store == store && reporter.tracker == schemes[i].tracker
    requires Apart(schemes) && World(store, schemes, events)
    modifies store.probes`reports, store.probes.m.Values
    ensures store.Valid() && World(store, schemes, events + [Settle(schemes[i].target)])
    ensures OnlyNewObjects(store)
  {
    ghost var reports, trackers := store.probes.reports, OtherTrackers(schemes, i);
    WorldBut(store, schemes, i, events);
    schemes[i].EndProbe(reporter, events);
    WorldAgain(store, schemes, i, trackers, reports, events, [Settle(schemes[i].target)]);
  }

  /** One action. */
  method Act(store: Store, schemes: seq<SourceScheme>, reporters: seq<FixedSourceReporter?>, a: Action,
             ghost targets: seq<URL>, ghost events: seq<Event>)
    returns (reporters': seq<FixedSourceReporter?>)
    requires store.Valid() && Apart(schemes) && World(store, schemes, events) && Reporting(store, schemes, reporters)
    requires a.i < |schemes| == |targets| && schemes[a.i].target == targets[a.i]
    requires !a.End? ==> a.r.time != ZERO
    requires a.Fail? || a.Begin? ==> a.r.target == targets[a.i]
    requires a.Pass? || a.End? ==> reporters[a.i] != null
    modifies store, store.probes, store.probes.m.Values, Held(store.currentIncidents, store.incidentHistory), Trackers(schemes)
    ensures store.Valid() && World(store, schemes, events + EventsOfAction(a, targets)) && OnlyNewObjects(store)
    ensures Reporting(store, schemes, reporters')
    ensures forall i :: 0 <= i < |schemes| && (reporters[i] != null || (a.Begin? && a.i == i)) ==> reporters'[i] != null
  {
    reporters' := reporters;
    assert schemes[a.i].tracker in Trackers(schemes);
    if !a.End? {
      store.ReportFootprint(a.r);
    }
    match a {
      case Fail(i, r) => FailRound(store, schemes, i, r, events);
      case Begin(i, r) =>
        var reporter := BeginRound(store, schemes, i, r, events);
        reporters' := reporters[i := reporter];
      case Pass(i, r) => PassOn(store, schemes, i, reporters[i], r, events);
      case End(i) => EndRound(store, schemes, i, reporters[i], events);
    }
  }

  /** A store whose invariant holds, and its sources, in step after the events. */
  ghost predicate Running(store: Store, schemes: seq<SourceScheme>, repr: Repr, events: seq<Event>)
    reads store, store.probes, store.probes.m.Values, store.currentIncidents.Values, store.incidentHistory, Trackers(schemes)
  {
    forall es {:trigger IsRun(es, events)} :: IsRun(es, events) ==>
      Owns(store, repr) && store.Valid() && Apart(schemes) && World(store, schemes, es)
  }

  lemma IsRunning(store: Store, schemes: seq<SourceScheme>, repr: Repr, events: seq<Event>)
    requires Running(store, schemes, repr, events)
    ensures Owns(store, repr) && store.Valid() && Apart(schemes) && World(store, schemes, events)
  {
    assert IsRun(events, events);
  }

  /** One action of a run: it changes the parts of the store and of its sources only. */
  method Next(store: Store, schemes: seq<SourceScheme>, reporters: seq<FixedSourceReporter?>, a: Action,
              ghost targets: seq<URL>, ghost repr: Repr, ghost events: seq<Event>)
    returns (reporters': seq<FixedSourceReporter?>, ghost repr': Repr)
    requires Running(store, schemes, repr, events) && Reporting(store, schemes, reporters)
    requires a.i < |schemes| == |targets| && schemes[a.i].target == targets[a.i]
    requires !a.End? ==> a.r.time != ZERO
    requires a.Fail? || a.Begin? ==> a.r.target == targets[a.i]
    requires a.Pass? || a.End? ==> reporters[a.i] != null
    modifies store, store.probes, repr.incidents, repr.histories, Trackers(schemes)
    ensures Running(store, schemes, repr', events + EventsOfAction(a, targets)) && Reporting(store, schemes, reporters')
    ensures fresh(repr'.incidents - repr.incidents) && fresh(repr'.histories - repr.histories)
    ensures forall i :: 0 <= i < |schemes| && (reporters[i] != null || (a.Begin? && a.i == i)) ==> reporters'[i] != null
  {
    IsRunning(store, schemes, repr, events);
    reporters' := Act(store, schemes, reporters, a, targets, events);
    repr' := Repr(repr.incidents + Held(store.currentIncidents, store.incidentHistory),
                  repr.histories + store.probes.m.Values);
  }

  method NewSchemes(targets: seq<URL>) returns (schemes: seq<SourceScheme>)
    requires NoRepeats(targets)
    ensures |schemes| == |targets| && Apart(schemes) && forall i :: 0 <= i < |targets| ==>
              && schemes[i].target == targets[i] && fresh(schemes[i].tracker)
              && schemes[i].tracker.Valid() && schemes[i].tracker.Holds(START)
  {
    schemes := [];
    for k := 0 to |targets|
      invariant |schemes| == k && Apart(schemes) && forall i :: 0 <= i < k ==>
                  && schemes[i].target == targets[i] && fresh(schemes[i].tracker)
                  && schemes[i].tracker.Valid() && schemes[i].tracker.Holds(START)
    {
      var s := new SourceScheme(targets[k]);
      schemes := schemes + [s];
    }
  }

  lemma FreshWorld(store: Store, schemes: seq<SourceScheme>)
    requires store.probes.reports == iset{}
    requires forall i :: 0 <= i < |schemes| ==> schemes[i].tracker.Valid() && schemes[i].tracker.Holds(START)
    ensures World(store, schemes, [])
  {
    forall i | 0 <= i < |schemes|
      ensures schemes[i].tracker in Trackers(schemes) && Mirrors(store, schemes[i].tracker, schemes[i].target, [])
    {
      assert After([], schemes[i].target) == START;
    }
  }

  lemma ActionsSnoc(actions: seq<Action>, k: nat, targets: seq<URL>)
    requires k < |actions| && InRange(actions, targets)
    ensures InRange(actions[..k], targets) && InRange(actions[..k + 1], targets)
    ensures EventsOfActions(actions[..k + 1], targets) == EventsOfActions(actions[..k], targets) + EventsOfAction(actions[k], targets)
  {
    assert actions[..k + 1][..k] == actions[..k];
  }

  /** The sources that began a round have a reporter. */
  ghost predicate Ready(actions: seq<Action>, k: nat, reporters: seq<FixedSourceReporter?>) {
    forall i :: 0 <= i < |reporters| && Begun(actions, k, i) ==> reporters[i] != null
  }

  lemma ReadyNext(actions: seq<Action>, k: nat, reporters: seq<FixedSourceReporter?>, reporters': seq<FixedSourceReporter?>)
    requires k < |actions| && Ready(actions, k, reporters) && |reporters'| == |reporters|
    requires forall i :: 0 <= i < |reporters| && (reporters[i] != null || (actions[k].Begin? && actions[k].i == i)) ==>
               reporters'[i] != null
    ensures Ready(actions, k + 1, reporters')
  {
    forall i | 0 <= i < |reporters'| && Begun(actions, k + 1, i)
      ensures reporters'[i] != null
    {
      var j :| 0 <= j < k + 1 && actions[j].Begin? && actions[j].i == i;
      assert j < k ==> Begun(actions, k, i);
    }
  }

  /** A new store with its sources. */
  method NewWorld(handlers: nat, trim: Message -> Message, targets: seq<URL>)
    returns (store: Store, schemes: seq<SourceScheme>, reporters: seq<FixedSourceReporter?>)
    requires NoRepeats(targets)
    ensures fresh(store) && fresh(store.probes) && fresh(Trackers(schemes))
    ensures |schemes| == |targets| && forall i :: 0 <= i < |targets| ==> schemes[i].target == targets[i]
    ensures Running(store, schemes, Repr({}, {}), []) && Reporting(store, schemes, reporters)
  {
    store := new Store(handlers, trim);
    schemes := NewSchemes(targets);
    reporters := seq(|targets|, _ => null);
    FreshWorld(store, schemes);
  }

  /** A whole run of several sources on a new store: a target that is no source is active at the end exactly when
    * some source's latest round reported it, however the rounds interleave. */
  method RunRounds(handlers: nat, trim: Message -> Message, targets: seq<URL>, actions: seq<Action>,
                   ghost rounds: imap<URL, seq<Round>>)
    returns (store: Store)
    requires NoRepeats(targets) && Proper(actions, targets)
    requires forall s :: s in rounds && Only(EventsOfActions(actions, targets), s) == EventsOfAll(s, rounds[s])
    ensures fresh(store) && store.Valid()
    ensures forall t, i :: 0 <= i < |targets| ==>
              ((t, targets[i]) in store.probes.reports <==> t in After(EventsOfActions(actions, targets), targets[i]).reported)
    ensures forall t :: t !in targets && !Internal(t) ==>
              (store.probes.IsActive(t) <==> exists s :: s in rounds && t in Latest(rounds[s]))
  {
    var schemes, reporters;
    store, schemes, reporters := NewWorld(handlers, trim, targets);
    ghost var repr := Repr({}, {});
    for k := 0 to |actions|
      invariant fresh(store) && fresh(store.probes) && fresh(Trackers(schemes))
      invariant fresh(repr.incidents) && fresh(repr.histories)
      invariant InRange(actions[..k], targets)
      invariant Running(store, schemes, repr, EventsOfActions(actions[..k], targets))
      invariant Reporting(store, schemes, reporters) && Ready(actions, k, reporters)
    {
      ActionsSnoc(actions, k, targets);
      ghost var before := reporters;
      reporters, repr := Next(store, schemes, reporters, actions[k], targets, repr, EventsOfActions(actions[..k], targets));
      ReadyNext(actions, k, before, reporters);
    }
    assert actions[..|actions|] == actions;
    IsRunning(store, schemes, repr, EventsOfActions(actions, targets));
    PairsOfRounds(store, schemes, targets, EventsOfActions(actions, targets));
    ActivityOfRounds(store, schemes, targets, actions, rounds);
  }

  lemma PairsOfRounds(store: Store, schemes: seq<SourceScheme>, targets: seq<URL>, events: seq<Event>)
    requires |schemes| == |targets| && forall i :: 0 <= i < |targets| ==> schemes[i].target == targets[i]
    requires World(store, schemes, events)
    ensures forall t, i :: 0 <= i < |targets| ==>
              ((t, targets[i]) in store.probes.reports <==> t in After(events, targets[i]).reported)
    ensures forall t, s :: (t, s) in store.probes.reports ==> s in targets
  {
    WorldInStep(store, schemes, events);
    forall t, i | 0 <= i < |targets|
      ensures (t, targets[i]) in store.probes.reports <==> t in After(events, targets[i]).reported
    {
      assert Mirrors(store, schemes[i].tracker, schemes[i].target, events);
    }
  }

  lemma ActivityOfRounds(store: Store, schemes: seq<SourceScheme>, targets: seq<URL>, actions: seq<Action>,
                         rounds: imap<URL, seq<Round>>)
    requires Proper(actions, targets) && store.Valid()
    requires |schemes| == |targets| && forall i :: 0 <= i < |targets| ==> schemes[i].target == targets[i]
    requires World(store, schemes, EventsOfActions(actions, targets))
    requires forall s :: s in rounds && Only(EventsOfActions(actions, targets), s) == EventsOfAll(s, rounds[s])
    ensures forall t :: t !in targets && !Internal(t) ==>
              (store.probes.IsActive(t) <==> exists s :: s in rounds && t in Latest(rounds[s]))
  {
    var events := EventsOfActions(actions, targets);
    PairsOfRounds(store, schemes, targets, events);
    EventSources(actions, targets);
    forall t, s
      ensures (t, s) in store.probes.reports <==> t in After(events, s).reported
    {
      if s !in targets {
        AfterOthers([], events, s);
        assert [] + events == events;
      }
    }
    forall t | t !in targets && !Internal(t)
      ensures store.probes.IsActive(t) <==> exists s :: s in rounds && t in Latest(rounds[s])
    {
      ActiveFollowsRounds(events, rounds, t);
    }
  }

  lemma {:induction false} EventSources(actions: seq<Action>, targets: seq<URL>)
    requires InRange(actions, targets)
    ensures forall e :: e in EventsOfActions(actions, targets) ==> e.source in targets
  {
    if actions != [] {
      EventSources(actions[..|actions| - 1], targets);
    }
  }
}
