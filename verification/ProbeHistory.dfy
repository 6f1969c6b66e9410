/** internal/store/probehistory.go: the bounded, time-ordered window of records of a target. */
module ProbeHistories {
  import opened Common
  import opened Records

  const PROBE_HISTORY_LEN: nat := 60

  ghost predicate SortedByTime(s: seq<Record>) {
    forall i, j :: 0 <= i < j < |s| ==> s[i].time <= s[j].time
  }

  /** Inserts behind every record that is not later. */
  function Insert(s: seq<Record>, r: Record): (t: seq<Record>)
    ensures |t| == |s| + 1
  {
    if s == [] || s[|s| - 1].time <= r.time then s + [r]
    else Insert(s[..|s| - 1], r) + [s[|s| - 1]]
  }

  /** The stable sort by time. */
  function StableSort(log: seq<Record>): (t: seq<Record>)
    ensures |t| == |log|
  {
    if log == [] then [] else Insert(StableSort(log[..|log| - 1]), log[|log| - 1])
  }

  /** The records of one instant, in order. */
  function At(s: seq<Record>, t: Time): seq<Record> {
    if s == [] then []
    else
      var rest := At(s[..|s| - 1], t);
      if s[|s| - 1].time == t then rest + [s[|s| - 1]] else rest
  }

  /** ---- The sort is the stable sort ---- */

  lemma {:induction false} InsertMembers(s: seq<Record>, r: Record)
    ensures forall x :: x in Insert(s, r) <==> x in s || x == r
    ensures multiset(Insert(s, r)) == multiset(s) + multiset{r}
  {
    if s != [] && s[|s| - 1].time > r.time {
      InsertMembers(s[..|s| - 1], r);
      assert s == s[..|s| - 1] + [s[|s| - 1]];
    }
  }

  lemma {:induction false} InsertSorted(s: seq<Record>, r: Record)
    requires SortedByTime(s)
    ensures SortedByTime(Insert(s, r))
  {
    if s != [] && s[|s| - 1].time > r.time {
      var init, last := s[..|s| - 1], s[|s| - 1];
      InsertSorted(init, r);
      InsertMembers(init, r);
      forall x | x in Insert(init, r)
        ensures x.time <= last.time
      {
      }
    }
  }

  lemma AtAppend(s: seq<Record>, r: Record, t: Time)
    ensures At(s + [r], t) == if r.time == t then At(s, t) + [r] else At(s, t)
  {
    assert (s + [r])[..|s|] == s;
  }

  lemma {:induction false} InsertStable(s: seq<Record>, r: Record, t: Time)
    requires SortedByTime(s)
    ensures At(Insert(s, r), t) == if r.time == t then At(s, t) + [r] else At(s, t)
  {
    AtAppend(s, r, t);
    if s != [] && s[|s| - 1].time > r.time {
      var init, last := s[..|s| - 1], s[|s| - 1];
      InsertStable(init, r, t);
      AtAppend(Insert(init, r), last, t);
    }
  }

  lemma {:induction false} StableSortPermutes(log: seq<Record>)
    ensures multiset(StableSort(log)) == multiset(log)
  {
    if log != [] {
      var init, last := log[..|log| - 1], log[|log| - 1];
      StableSortPermutes(init);
      InsertMembers(StableSort(init), last);
      assert log == init + [last];
    }
  }

  /** StableSort is sorted, a permutation, and keeps the order of records of the same instant. */
  lemma {:induction false} StableSortSorts(log: seq<Record>, t: Time)
    ensures SortedByTime(StableSort(log))
    ensures multiset(StableSort(log)) == multiset(log)
    ensures At(StableSort(log), t) == At(log, t)
  {
    StableSortPermutes(log);
    if log != [] {
      var init, last := log[..|log| - 1], log[|log| - 1];
      StableSortSorts(init, t);
      InsertSorted(StableSort(init), last);
      InsertStable(StableSort(init), last, t);
    }
  }

  lemma {:induction false} AtMembers(s: seq<Record>, t: Time, x: Record)
    ensures x in At(s, t) <==> x in s && x.time == t
  {
    if s != [] {
      AtMembers(s[..|s| - 1], t, x);
      assert s == s[..|s| - 1] + [s[|s| - 1]];
    }
  }

  /** Two lists agree instant by instant. */
  ghost predicate SameInstants(a: seq<Record>, b: seq<Record>) {
    forall t :: At(a, t) == At(b, t)
  }

  lemma AppendInjective(x: seq<Record>, y: seq<Record>, r: Record)
    requires x + [r] == y + [r]
    ensures x == y
  {
    assert x == (x + [r])[..|x + [r]| - 1] && y == (y + [r])[..|y + [r]| - 1];
  }

  lemma LastAgrees(a: seq<Record>, b: seq<Record>)
    requires SortedByTime(a) && SortedByTime(b) && SameInstants(a, b) && a != []
    ensures b != [] && a[|a| - 1] == b[|b| - 1]
    ensures SameInstants(a[..|a| - 1], b[..|b| - 1])
  {
    var la := a[|a| - 1];
    AtMembers(a, la.time, la);
    AtMembers(b, la.time, la);
    assert At(a, la.time) == At(b, la.time);
    var lb := b[|b| - 1];
    AtMembers(a, lb.time, lb);
    AtMembers(b, lb.time, lb);
    assert At(a, lb.time) == At(b, lb.time);
    assert la.time == lb.time;
    var ia, ib := a[..|a| - 1], b[..|b| - 1];
    assert At(a, la.time) == At(ia, la.time) + [la] && At(b, la.time) == At(ib, la.time) + [lb];
    assert At(a, la.time)[|At(a, la.time)| - 1] == la;
    forall t
      ensures At(ia, t) == At(ib, t)
    {
      assert At(a, t) == At(b, t);
      if t == la.time {
        AppendInjective(At(ia, t), At(ib, t), la);
      }
    }
  }

  /** A sorted list is determined by its instants. */
  lemma {:induction false} SortedUnique(a: seq<Record>, b: seq<Record>)
    requires SortedByTime(a) && SortedByTime(b) && SameInstants(a, b)
    ensures a == b
  {
    if a != [] {
      LastAgrees(a, b);
      SortedUnique(a[..|a| - 1], b[..|b| - 1]);
      assert a == a[..|a| - 1] + [a[|a| - 1]] && b == b[..|b| - 1] + [b[|b| - 1]];
    } else if b != [] {
      LastAgrees(b, a);
    }
  }

  /** The order of arrival matters only within an instant. */
  lemma ArrivalOrderIrrelevant(a: seq<Record>, b: seq<Record>)
    requires SameInstants(a, b)
    ensures StableSort(a) == StableSort(b)
  {
    forall t
      ensures At(StableSort(a), t) == At(StableSort(b), t)
    {
      StableSortSorts(a, t);
      StableSortSorts(b, t);
      assert At(a, t) == At(b, t);
    }
    StableSortSorts(a, 0);
    StableSortSorts(b, 0);
    SortedUnique(StableSort(a), StableSort(b));
  }

  ghost predicate DistinctTimes(s: seq<Record>) {
    forall i, j :: 0 <= i < j < |s| ==> s[i].time != s[j].time
  }

  lemma {:induction false} AtDistinct(s: seq<Record>, t: Time)
    requires DistinctTimes(s)
    ensures |At(s, t)| <= 1
  {
    if s != [] {
      var init, last := s[..|s| - 1], s[|s| - 1];
      AtDistinct(init, t);
      if last.time == t && At(init, t) != [] {
        AtMembers(init, t, At(init, t)[0]);
      }
    }
  }

  /** With distinct times the order of arrival does not matter at all. */
  lemma DistinctOrderIrrelevant(a: seq<Record>, b: seq<Record>)
    requires DistinctTimes(a) && DistinctTimes(b) && forall x :: x in a <==> x in b
    ensures StableSort(a) == StableSort(b)
  {
    forall t
      ensures At(a, t) == At(b, t)
    {
      AtDistinct(a, t);
      AtDistinct(b, t);
      forall x
        ensures x in At(a, t) <==> x in At(b, t)
      {
        AtMembers(a, t, x);
        AtMembers(b, t, x);
      }
      SameSmall(At(a, t), At(b, t));
    }
    ArrivalOrderIrrelevant(a, b);
  }

  lemma SameSmall(a: seq<Record>, b: seq<Record>)
    requires |a| <= 1 && |b| <= 1 && forall x :: x in a <==> x in b
    ensures a == b
  {
    if a != [] {
      assert a[0] in b;
    }
    if b != [] {
      assert b[0] in a;
    }
  }

  /** ---- The window ---- */

  /** Inserting into a sorted list with a tail goes into the tail, or leaves it behind. */
  lemma {:induction false} InsertSplit(p: seq<Record>, w: seq<Record>, r: Record)
    requires SortedByTime(w)
    ensures Insert(p + w, r) == if w != [] && w[0].time <= r.time then p + Insert(w, r) else Insert(p, r) + w
  {
    if w == [] {
      assert p + w == p;
    } else {
      var init, last := w[..|w| - 1], w[|w| - 1];
      assert (p + w)[..|p + w| - 1] == p + init;
      if last.time > r.time {
        InsertSplit(p, init, r);
        assert w == init + [last];
      } else {
        assert p + w + [r] == p + (w + [r]);
      }
    }
  }

  lemma LastNConcat(p: seq<Record>, v: seq<Record>, n: nat)
    requires n <= |v|
    ensures LastN(p + v, n) == LastN(v, n)
  {
  }

  lemma WindowCase(p: seq<Record>, w: seq<Record>, r: Record)
    requires SortedByTime(w)
    ensures LastN(Insert(w, r), |w|) == LastN(Insert(p + w, r), |w|)
  {
    InsertSplit(p, w, r);
    if w != [] && w[0].time <= r.time {
      LastNConcat(p, Insert(w, r), |w|);
    } else {
      InsertSplit([], w, r);
      assert [] + w == w;
      LastNConcat(Insert(p, r), w, |w|);
      LastNConcat(Insert([], r), w, |w|);
    }
  }

  /** Keeping only the window and inserting into it gives the window of the whole. */
  lemma WindowInsert(s: seq<Record>, r: Record, n: nat)
    requires SortedByTime(s)
    ensures LastN(Insert(LastN(s, n), r), n) == LastN(Insert(s, r), n)
  {
    if n < |s| {
      var p, w := s[..|s| - n], s[|s| - n..];
      assert s == p + w;
      WindowCase(p, w, r);
    }
  }

  /** Where a record ends up: behind everything not later, before everything later. */
  lemma {:induction false} InsertAt(s: seq<Record>, r: Record, i: nat)
    requires i <= |s| && (i == 0 || s[i - 1].time <= r.time)
    requires forall k :: i <= k < |s| ==> s[k].time > r.time
    ensures Insert(s, r) == s[..i] + [r] + s[i..]
  {
    if i < |s| {
      var init, last := s[..|s| - 1], s[|s| - 1];
      InsertAt(init, r, i);
      assert s[..i] + [r] + s[i..] == init[..i] + [r] + init[i..] + [last];
    } else {
      assert s[..i] == s && s[i..] == [];
    }
  }

  lemma WindowOfLog(log: seq<Record>, r: Record)
    ensures LastN(StableSort(log + [r]), PROBE_HISTORY_LEN)
         == LastN(Insert(LastN(StableSort(log), PROBE_HISTORY_LEN), r), PROBE_HISTORY_LEN)
  {
    StableSortSorts(log, 0);
    WindowInsert(StableSort(log), r, PROBE_HISTORY_LEN);
    assert (log + [r])[..|log|] == log;
  }

  /** Swaps the last record towards the front while the one before it is later. */
  method BubbleIntoPlace(records: seq<Record>) returns (rs: seq<Record>)
    requires records != []
    ensures rs == Insert(records[..|records| - 1], records[|records| - 1])
  {
    ghost var s, r := records[..|records| - 1], records[|records| - 1];
    rs := records;
    var i := |rs| - 1;
    while i > 0 && rs[i - 1].time > rs[i].time
      invariant 0 <= i <= |s|
      invariant rs == s[..i] + [r] + s[i..]
      invariant forall k :: i <= k < |s| ==> s[k].time > r.time
    {
      rs := rs[i := rs[i - 1]][i - 1 := rs[i]];
      i := i - 1;
    }
    InsertAt(s, r, i);
  }

  /** ---- The history of a target ---- */

  ghost predicate NoRepeats(s: seq<URL>) {
    forall i, j :: 0 <= i < j < |s| ==> s[i] != s[j]
  }

  class ProbeHistory {
    const target: URL
    var records: seq<Record>
    var sources: seq<URL>
    /** Everything ever appended. */
    ghost var log: seq<Record>

    ghost predicate Valid()
      reads this
    {
      records == LastN(StableSort(log), PROBE_HISTORY_LEN) && NoRepeats(sources)
    }

    constructor (target: URL)
      ensures Valid() && this.target == target && records == [] && log == [] && sources == []
    {
      this.target, records, sources, log := target, [], [], [];
    }

    /** Appends a record and bubbles it into place; the window keeps the last PROBE_HISTORY_LEN records. */
    method Append(r: Record)
      requires Valid()
      modifies `records, `log
      ensures Valid() && log == old(log) + [r]
    {
      records := BubbleIntoPlace(records + [r]);
      if |records| > PROBE_HISTORY_LEN {
        records := records[1..];
      }
      WindowOfLog(log, r);
      log := log + [r];
    }

    method AddSource(source: URL)
      requires Valid()
      modifies `sources
      ensures Valid() && forall x :: x in sources <==> x in old(sources) || x == source
    {
      for i := 0 to |sources|
        invariant source !in sources[..i]
      {
        if sources[i] == source {
          return;
        }
      }
      sources := sources + [source];
    }

    method AppendFrom(source: URL, r: Record)
      requires Valid()
      modifies this
      ensures Valid() && log == old(log) + [r]
      ensures forall x :: x in sources <==> x in old(sources) || x == source
    {
      Append(r);
      AddSource(source);
    }

    method RemoveSource(source: URL)
      requires Valid()
      modifies `sources
      ensures Valid() && forall x :: x in sources <==> x in old(sources) && x != source
    {
      for i := 0 to |sources|
        invariant source !in sources[..i] && sources == old(sources)
      {
        if sources[i] == source {
          ghost var s := sources;
          sources := sources[..i] + sources[i + 1..];
          assert s == s[..i] + [source] + s[i + 1..];
          return;
        }
      }
    }

    method SetInactive()
      requires Valid()
      modifies `sources
      ensures Valid() && sources == []
    {
      sources := [];
    }

    predicate IsActive()
      reads this
    {
      |sources| != 0
    }
  }

  /** The records of a target, aborted ones too. */
  function All(log: seq<Record>, u: URL): seq<Record> {
    if log == [] then []
    else
      var r, rest := log[|log| - 1], All(log[..|log| - 1], u);
      if r.target == u then rest + [r] else rest
  }

  lemma {:induction false} AllMembers(log: seq<Record>, u: URL, h: Record)
    ensures h in All(log, u) <==> h in log && h.target == u
  {
    if log != [] {
      AllMembers(log[..|log| - 1], u, h);
      assert log == log[..|log| - 1] + [log[|log| - 1]];
    }
  }

  /** The history of a target was appended exactly the target's records, and its sources are those that report it. */
  ghost predicate ProbeOk(h: ProbeHistory, u: URL, log: seq<Record>, reports: iset<(URL, URL)>)
    reads h
  {
    h.target == u && h.Valid() && h.log == All(log, u) && forall s :: s in h.sources <==> (u, s) in reports
  }

  /** Nothing was recorded for a target without a history. */
  ghost predicate Blank(u: URL, log: seq<Record>, reports: iset<(URL, URL)>) {
    All(log, u) == [] && forall s :: (u, s) !in reports
  }

  ghost predicate ProbesOk(probes: map<URL, ProbeHistory>, log: seq<Record>, reports: iset<(URL, URL)>)
    reads probes.Values
  {
    && (forall u :: u in probes ==> probes[u] in probes.Values && ProbeOk(probes[u], u, log, reports))
    && (forall u :: u !in probes ==> Blank(u, log, reports))
  }

  function RecordsOf(probes: map<URL, ProbeHistory>, target: URL): seq<Record>
    reads probes.Values
  {
    if target in probes then probes[target].records else []
  }

  lemma AllSnoc(log: seq<Record>, r: Record, u: URL)
    ensures All(log + [r], u) == if r.target == u then All(log, u) + [r] else All(log, u)
  {
    assert (log + [r])[..|log|] == log;
  }

  /** The histories of all targets but one are in step. */
  ghost predicate OthersOk(probes: map<URL, ProbeHistory>, log: seq<Record>, reports: iset<(URL, URL)>, target: URL)
    reads probes.Values
  {
    && (forall u :: u in probes && u != target ==> probes[u] in probes.Values && ProbeOk(probes[u], u, log, reports))
    && (forall u :: u !in probes ==> Blank(u, log, reports))
  }

  /** Once the history of `r.target` was given `r` from `source`, all are in step again. */
  lemma Appended(probes: map<URL, ProbeHistory>, log: seq<Record>, reports: iset<(URL, URL)>, source: URL, r: Record)
    requires r.target in probes && OthersOk(probes, log, reports, r.target)
    requires var h := probes[r.target];
             && h.target == r.target && h.Valid() && h.log == All(log, r.target) + [r]
             && forall s :: s in h.sources <==> (r.target, s) in reports || s == source
    ensures ProbesOk(probes, log + [r], reports + iset{(r.target, source)})
  {
    forall u
      ensures if u in probes then probes[u] in probes.Values && ProbeOk(probes[u], u, log + [r], reports + iset{(r.target, source)})
              else Blank(u, log + [r], reports + iset{(r.target, source)})
    {
      AllSnoc(log, r, u);
    }
  }

  /** Once the sources of `target` changed, all are in step again. */
  lemma Resourced(probes: map<URL, ProbeHistory>, log: seq<Record>, reports: iset<(URL, URL)>, reports': iset<(URL, URL)>, target: URL)
    requires target in probes && OthersOk(probes, log, reports, target)
    requires ProbeOk(probes[target], target, log, reports')
    requires forall u, s :: u != target ==> ((u, s) in reports <==> (u, s) in reports')
    ensures ProbesOk(probes, log, reports')
  {
  }

  /** The histories of all targets. */
  class ProbeHistoryMap {
    var m: map<URL, ProbeHistory>
    /** The records appended so far. */
    ghost var log: seq<Record>
    /** The targets with the sources that report them. */
    ghost var reports: iset<(URL, URL)>

    ghost predicate Valid()
      reads this, m.Values
    {
      ProbesOk(m, log, reports)
    }

    constructor ()
      ensures Valid() && m == map[] && log == [] && reports == iset{}
    {
      m, log, reports := map[], [], iset{};
    }

    /** The history of a target, if there is one. */
    ghost function Own(target: URL): set<ProbeHistory>
      reads `m
    {
      if target in m then {m[target]} else {}
    }

    /** The history of a target, created if there is none. */
    method HistoryFor(target: URL, ghost log: seq<Record>, ghost reports: iset<(URL, URL)>) returns (h: ProbeHistory)
      requires ProbesOk(m, log, reports)
      modifies `m
      ensures target in m && m[target] == h && ProbeOk(h, target, log, reports)
      ensures OthersOk(m, log, reports, target) && Apart(m, target)
      ensures if target in old(m) then m == old(m) else fresh(h) && m == old(m)[target := h]
    {
      if target in m {
        h := m[target];
      } else {
        h := new ProbeHistory(target);
        m := m[target := h];
      }
      OthersApart(m, log, reports, target);
    }

    /** Appends a record to the history of its own target. */
    method AppendOwn(h: ProbeHistory, source: URL, r: Record, ghost log: seq<Record>, ghost reports: iset<(URL, URL)>)
      requires Apart(m, r.target) && h == m[r.target]
      requires ProbeOk(h, r.target, log, reports) && OthersOk(m, log, reports, r.target)
      modifies h
      ensures ProbesOk(m, log + [r], reports + iset{(r.target, source)})
    {
      h.AppendFrom(source, r);
      forall u | u in m && u != r.target
        ensures m[u] in m.Values && ProbeOk(m[u], u, log, reports)
      {
        assert old(ProbeOk(m[u], u, log, reports));
      }
      Appended(m, log, reports, source, r);
    }

    /** Appends a record and notes its source; the histories of other targets stay as they are. */
    method Append(source: URL, r: Record)
      requires Valid()
      modifies this, Own(r.target)
      ensures Valid() && log == old(log) + [r] && reports == old(reports) + iset{(r.target, source)}
      ensures r.target in m
      ensures if r.target in old(m) then m == old(m) else fresh(m[r.target]) && m == old(m)[r.target := m[r.target]]
    {
      log, reports := log + [r], reports + iset{(r.target, source)};
      var h := HistoryFor(r.target, old(log), old(reports));
      AppendOwn(h, source, r, old(log), old(reports));
    }

    method AddSource(source: URL, target: URL)
      requires Valid()
      modifies `m, `reports, Own(target)
      ensures Valid() && reports == old(reports) + iset{(target, source)}
      ensures target in m
      ensures if target in old(m) then m == old(m) else fresh(m[target]) && m == old(m)[target := m[target]]
    {
      reports := reports + iset{(target, source)};
      var h := HistoryFor(target, log, old(reports));
      h.AddSource(source);
      Resourced(m, log, old(reports), reports, target);
    }

    method RemoveSource(source: URL, target: URL)
      requires Valid()
      modifies `reports, Own(target)
      ensures Valid() && reports == old(reports) - iset{(target, source)}
    {
      if target in m {
        OthersApart(m, log, reports, target);
        m[target].RemoveSource(source);
        Resourced(m, log, reports, reports - iset{(target, source)}, target);
      }
      reports := reports - iset{(target, source)};
    }

    /** A target is active while some source reports it. */
    predicate IsActive(target: URL)
      requires Valid()
      reads this, m.Values
      ensures IsActive(target) <==> exists s :: (target, s) in reports
    {
      assert target in m && m[target].sources != [] ==> (target, m[target].sources[0]) in reports;
      target in m && m[target].IsActive()
    }

    /** The last record of the window of a target is not older than any that was appended. */
    lemma LatestRecord(h: Record)
      requires Valid() && h in log
      ensures var records := RecordsOf(m, h.target);
              records != [] && h.time <= records[|records| - 1].time
    {
      AllMembers(log, h.target, h);
      LatestKept(All(log, h.target), h);
    }

    /** The window of a target is in time order: it is the last of the target's records, sorted. */
    lemma WindowSorted(u: URL)
      requires Valid()
      ensures SortedByTime(RecordsOf(m, u)) && RecordsOf(m, u) == LastN(StableSort(All(log, u)), PROBE_HISTORY_LEN)
    {
      StableSortSorts(All(log, u), 0);
      assert u !in m ==> Blank(u, log, reports);
    }

    /** The window of a target holds records of the log about that target. */
    lemma RecordMembers(u: URL, h: Record)
      requires Valid() && h in RecordsOf(m, u)
      ensures h in log && h.target == u
    {
      StableSortPermutes(All(log, u));
      assert h in multiset(StableSort(All(log, u)));
      AllMembers(log, u, h);
    }
  }

  /** The window keeps the latest of the records. */
  lemma LatestKept(log: seq<Record>, h: Record)
    requires h in log
    ensures var records := LastN(StableSort(log), PROBE_HISTORY_LEN);
            records != [] && h.time <= records[|records| - 1].time
  {
    StableSortSorts(log, h.time);
    assert h in multiset(StableSort(log));
  }

  /** No other target has the history of this one. */
  ghost predicate Apart(probes: map<URL, ProbeHistory>, target: URL) {
    target in probes && forall u :: u in probes && u != target ==> probes[u] != probes[target]
  }

  lemma OthersApart(probes: map<URL, ProbeHistory>, log: seq<Record>, reports: iset<(URL, URL)>, target: URL)
    requires target in probes && ProbeOk(probes[target], target, log, reports) && OthersOk(probes, log, reports, target)
    ensures Apart(probes, target)
  {
    forall u | u in probes && u != target
      ensures probes[u] != probes[target]
    {
      assert ProbeOk(probes[u], u, log, reports) && ProbeOk(probes[target], target, log, reports);
    }
  }
}
