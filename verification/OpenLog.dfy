/** internal/store/scanner.go and pattern.go together: opening the log files of a period. */
module OpenLogs {
  import opened Common
  import opened Calendar
  import opened LogFile
  import opened FileScanners
  import opened PathMatching
  import opened PathPatterns
  import opened PathPeriods
  import opened ScannerSets
  import SearchLog

  /** A file that is there, and what opening it gives. */
  datatype NamedFile = NamedFile(name: string, opening: Opening)

  /** The time at which clocks show `c`; at time 0 they show the instant `epoch`. */
  function TimeOf(c: Civil, epoch: Time): Time
    requires c.Rough()
  {
    c.Instant() - epoch
  }

  /** The files whose names match the period, in their order. */
  function Matched(fragments: seq<Fragment>, files: seq<NamedFile>, since: Civil, until: Civil): seq<NamedFile>
    requires since.Rough() && until.Rough()
  {
    if files == [] then []
    else
      var rest, last := Matched(fragments, files[..|files| - 1], since, until), files[|files| - 1];
      if Matches(fragments, last.name, since, until) then rest + [last] else rest
  }

  lemma {:induction false} MatchedMembers(fragments: seq<Fragment>, files: seq<NamedFile>, since: Civil, until: Civil, n: NamedFile)
    requires since.Rough() && until.Rough()
    ensures n in Matched(fragments, files, since, until) <==> n in files && Matches(fragments, n.name, since, until)
  {
    if files != [] {
      MatchedMembers(fragments, files[..|files| - 1], since, until, n);
      assert files == files[..|files| - 1] + [files[|files| - 1]];
    }
  }

  /** The file of a time is listed exactly when the period holds a time with its name, or begins in the days that its
    * month lacks. */
  lemma ListedIffNamed(fragments: seq<Fragment>, files: seq<NamedFile>, since: Civil, until: Civil, n: NamedFile, t: Civil)
    requires FromYear(Fields(fragments)) && t.Valid() && Printable(fragments, t)
    requires since.Valid() && until.Valid() && since.Instant() <= until.Instant()
    requires n in files && n.name == PathPatterns.Built(fragments, t)
    ensures n in Matched(fragments, files, since, until) <==>
            Named(fragments, t, since, until) || Spills(Fields(fragments), t, since)
  {
    MatchedMembers(fragments, files, since, until, n);
    MatchedInVainIff(fragments, t, since, until);
    if Named(fragments, t, since, until) {
      NamedMatches(fragments, t, since, until);
    }
  }

  method ListBetween(fragments: seq<Fragment>, files: seq<NamedFile>, since: Civil, until: Civil) returns (rs: seq<NamedFile>)
    requires since.Rough() && until.Rough()
    ensures rs == Matched(fragments, files, since, until)
    ensures forall n :: n in rs <==> n in files && Matches(fragments, n.name, since, until)
  {
    rs := [];
    for i := 0 to |files|
      invariant rs == Matched(fragments, files[..i], since, until)
    {
      assert files[..i + 1][..i] == files[..i];
      var b := PathPatterns.Match(fragments, files[i].name, since, until);
      if b {
        rs := rs + [files[i]];
      }
    }
    assert files[..|files|] == files;
    forall n
      ensures n in rs <==> n in files && Matches(fragments, n.name, since, until)
    {
      MatchedMembers(fragments, files, since, until, n);
    }
  }

  /** ---- What there is to find ---- */

  /** Every record of the file is of a time that the file is named for. */
  ghost predicate NamedFor(fragments: seq<Fragment>, name: string, f: string, rec: RecordParser, epoch: Time)
    requires Terminated(f)
  {
    forall p :: p in RecordTimes(f, rec) ==> NamedAt(fragments, name, RecordTimes(f, rec)[p], epoch)
  }

  ghost predicate NamedAt(fragments: seq<Fragment>, name: string, t: Time, epoch: Time) {
    exists c: Civil :: c.Valid() && c.year <= 9999 && Printable(fragments, c) && TimeOf(c, epoch) == t && name == PathPatterns.Built(fragments, c)
  }

  /** The log as its writer leaves it: each file holds what it is named for, and can be read. */
  ghost predicate Kept(fragments: seq<Fragment>, files: seq<NamedFile>, timeOf: SearchLog.TimeParser, rec: RecordParser,
                       since: Time, epoch: Time) {
    forall i :: 0 <= i < |files| && files[i].opening.Opened? ==> KeptFile(fragments, files[i], timeOf, rec, since, epoch)
  }

  ghost predicate KeptFile(fragments: seq<Fragment>, n: NamedFile, timeOf: SearchLog.TimeParser, rec: RecordParser,
                           since: Time, epoch: Time)
    requires n.opening.Opened?
  {
    var f := n.opening.file.data;
    Readable(f, timeOf, rec, since) && NamedFor(fragments, n.name, f, rec, epoch)
  }

  /** All records of the period in a file. */
  ghost function WantedOf(n: NamedFile, rec: RecordParser, since: Time, until: Time): Stream {
    match n.opening
    case Opened(file) => if Terminated(file.data) then Wanted(file.data, rec, since, until, 0, |file.data|) else []
    case _ => []
  }

  ghost function AllWanted(files: seq<NamedFile>, rec: RecordParser, since: Time, until: Time): (ss: seq<Stream>)
    ensures |ss| == |files|
    ensures forall i :: 0 <= i < |files| ==> ss[i] == WantedOf(files[i], rec, since, until)
  {
    if files == [] then []
    else AllWanted(files[..|files| - 1], rec, since, until) + [WantedOf(files[|files| - 1], rec, since, until)]
  }

  /** ---- Nothing is missed ---- */

  /** A file whose name does not match has no record of the period. */
  lemma NothingInUnmatched(fragments: seq<Fragment>, n: NamedFile, timeOf: SearchLog.TimeParser, rec: RecordParser,
                           since: Civil, until: Civil, epoch: Time)
    requires GapFree(Fields(fragments)) && since.Valid() && until.Valid() && !Matches(fragments, n.name, since, until)
    requires n.opening.Opened? ==> KeptFile(fragments, n, timeOf, rec, TimeOf(since, epoch), epoch)
    ensures WantedOf(n, rec, TimeOf(since, epoch), TimeOf(until, epoch)) == []
  {
    if n.opening.Opened? {
      var f := n.opening.file.data;
      forall p | p in RecordTimes(f, rec)
        ensures !InPeriod(RecordTimes(f, rec)[p], TimeOf(since, epoch), TimeOf(until, epoch))
      {
        NotInPeriod(fragments, n.name, RecordTimes(f, rec)[p], since, until, epoch);
      }
      NothingWanted(f, rec, TimeOf(since, epoch), TimeOf(until, epoch), 0, |f|);
    }
  }

  lemma NotInPeriod(fragments: seq<Fragment>, name: string, t: Time, since: Civil, until: Civil, epoch: Time)
    requires GapFree(Fields(fragments)) && since.Valid() && until.Valid() && !Matches(fragments, name, since, until)
    requires NamedAt(fragments, name, t, epoch)
    ensures !InPeriod(t, TimeOf(since, epoch), TimeOf(until, epoch))
  {
    var c: Civil :| c.Valid() && c.year <= 9999 && Printable(fragments, c) && TimeOf(c, epoch) == t && name == PathPatterns.Built(fragments, c);
    if InPeriod(t, TimeOf(since, epoch), TimeOf(until, epoch)) {
      MatchesBuilt(fragments, since, c, until);
    }
  }

  /** The streams that are kept. */
  function Chosen(ss: seq<Stream>, keep: seq<bool>): seq<Stream>
    requires |keep| == |ss|
  {
    if ss == [] then []
    else
      var n := |ss| - 1;
      if keep[n] then Chosen(ss[..n], keep[..n]) + [ss[n]] else Chosen(ss[..n], keep[..n])
  }

  /** Where only empty streams are left out, what interleaves the others interleaves all. */
  lemma {:induction false} InterleavesChosen(out: Stream, ss: seq<Stream>, keep: seq<bool>, tail: seq<Stream>)
    requires |keep| == |ss| && Interleaves(out, Chosen(ss, keep) + tail)
    requires forall i :: 0 <= i < |ss| && !keep[i] ==> ss[i] == []
    ensures Interleaves(out, ss + tail)
    decreases |ss|
  {
    if ss == [] {
      assert Chosen(ss, keep) + tail == ss + tail;
    } else {
      var n := |ss| - 1;
      var chosen := Chosen(ss[..n], keep[..n]);
      if keep[n] {
        assert chosen + [ss[n]] + tail == chosen + ([ss[n]] + tail);
      } else {
        InterleavesWithEmpty(out, chosen + tail, |chosen|);
        assert (chosen + tail)[..|chosen|] + [[]] + (chosen + tail)[|chosen|..] == chosen + ([ss[n]] + tail);
      }
      InterleavesChosen(out, ss[..n], keep[..n], [ss[n]] + tail);
      assert ss[..n] + ([ss[n]] + tail) == ss + tail;
    }
  }

  function Matching(fragments: seq<Fragment>, files: seq<NamedFile>, since: Civil, until: Civil): (keep: seq<bool>)
    requires since.Rough() && until.Rough()
    ensures |keep| == |files| && forall i :: 0 <= i < |files| ==> keep[i] == Matches(fragments, files[i].name, since, until)
  {
    if files == [] then []
    else
      Matching(fragments, files[..|files| - 1], since, until) + [Matches(fragments, files[|files| - 1].name, since, until)]
  }

  lemma {:induction false} WantedChosen(fragments: seq<Fragment>, files: seq<NamedFile>, rec: RecordParser,
                                        since: Civil, until: Civil, s: Time, u: Time)
    requires since.Rough() && until.Rough()
    ensures AllWanted(Matched(fragments, files, since, until), rec, s, u)
         == Chosen(AllWanted(files, rec, s, u), Matching(fragments, files, since, until))
  {
    if files != [] {
      var init, last := files[..|files| - 1], files[|files| - 1];
      WantedChosen(fragments, init, rec, since, until, s, u);
      AllWantedSnoc(Matched(fragments, init, since, until), last, rec, s, u);
      var ss, keep := AllWanted(files, rec, s, u), Matching(fragments, files, since, until);
      assert ss[..|init|] == AllWanted(init, rec, s, u) && keep[..|init|] == Matching(fragments, init, since, until);
    }
  }

  /** What interleaves the records of the matching files interleaves those of all files. */
  lemma UnmatchedAddNothing(fragments: seq<Fragment>, files: seq<NamedFile>, timeOf: SearchLog.TimeParser, rec: RecordParser,
                            since: Civil, until: Civil, epoch: Time, out: Stream, ss: seq<Stream>)
    requires GapFree(Fields(fragments)) && since.Valid() && until.Valid()
    requires Kept(fragments, files, timeOf, rec, TimeOf(since, epoch), epoch)
    requires Interleaves(out, AllWanted(Matched(fragments, files, since, until), rec, TimeOf(since, epoch), TimeOf(until, epoch)))
    requires ss == AllWanted(files, rec, TimeOf(since, epoch), TimeOf(until, epoch))
    ensures Interleaves(out, ss)
  {
    var keep := Matching(fragments, files, since, until);
    forall i | 0 <= i < |ss| && !keep[i]
      ensures ss[i] == []
    {
      NothingInUnmatched(fragments, files[i], timeOf, rec, since, until, epoch);
    }
    WantedChosen(fragments, files, rec, since, until, TimeOf(since, epoch), TimeOf(until, epoch));
    assert Chosen(ss, keep) + [] == Chosen(ss, keep) && ss + [] == ss;
    InterleavesChosen(out, ss, keep, []);
  }

  lemma AllWantedSnoc(files: seq<NamedFile>, n: NamedFile, rec: RecordParser, since: Time, until: Time)
    ensures AllWanted(files + [n], rec, since, until) == AllWanted(files, rec, since, until) + [WantedOf(n, rec, since, until)]
  {
    assert (files + [n])[..|files|] == files;
  }

  /** A matching file is one of the files. */
  lemma {:induction false} MatchedAmong(fragments: seq<Fragment>, files: seq<NamedFile>, since: Civil, until: Civil, n: NamedFile)
    requires since.Rough() && until.Rough()
    ensures n in Matched(fragments, files, since, until) <==> n in files && Matches(fragments, n.name, since, until)
  {
    if files != [] {
      MatchedAmong(fragments, files[..|files| - 1], since, until, n);
      assert files == files[..|files| - 1] + [files[|files| - 1]];
    }
  }

  /** Every matching file gives out all its records of the period. */
  lemma MatchedDeliver(fragments: seq<Fragment>, files: seq<NamedFile>, rs: seq<NamedFile>, openings: seq<Opening>,
                       timeOf: SearchLog.TimeParser, rec: RecordParser, since: Time, until: Time, epoch: Time, streams: seq<Stream>)
    requires Kept(fragments, files, timeOf, rec, since, epoch) && forall n :: n in rs ==> n in files
    requires |openings| == |rs| == |streams| && forall i :: 0 <= i < |rs| ==> openings[i] == rs[i].opening
    requires AllDeliver(openings, timeOf, rec, since, until, streams)
    ensures streams == AllWanted(rs, rec, since, until)
  {
    forall i | 0 <= i < |rs|
      ensures streams[i] == WantedOf(rs[i], rec, since, until)
    {
      assert OpeningDelivers(openings[i], timeOf, rec, since, until, streams[i]);
      assert rs[i] in files;
      var k :| 0 <= k < |files| && files[k] == rs[i];
      if rs[i].opening.Opened? {
        assert KeptFile(fragments, files[k], timeOf, rec, since, epoch);
        AllDelivered(rs[i].opening.file.data, timeOf, rec, since, until, streams[i]);
      }
    }
  }

  /** ---- Opening and reading ---- */

  method Openings(rs: seq<NamedFile>) returns (openings: seq<Opening>)
    ensures |openings| == |rs| && forall i :: 0 <= i < |rs| ==> openings[i] == rs[i].opening
  {
    openings := [];
    for i := 0 to |rs|
      invariant |openings| == i && forall k :: 0 <= k < i ==> openings[k] == rs[k].opening
    {
      openings := openings + [rs[i].opening];
    }
  }

  ghost function Handles(files: seq<NamedFile>): set<ReadSeeker> {
    set i | 0 <= i < |files| && files[i].opening.Opened? :: files[i].opening.file
  }

  predicate AllTerminated(files: seq<NamedFile>) {
    forall i :: 0 <= i < |files| && files[i].opening.Opened? ==> Terminated(files[i].opening.file.data)
  }

  /** A matching file cannot be opened. */
  ghost predicate FailsMatching(fragments: seq<Fragment>, files: seq<NamedFile>, since: Civil, until: Civil)
    requires since.Rough() && until.Rough()
  {
    exists i :: 0 <= i < |files| && files[i].opening.Failed? && Matches(fragments, files[i].name, since, until)
  }

  lemma MatchedOpenings(fragments: seq<Fragment>, files: seq<NamedFile>, since: Civil, until: Civil,
                        rs: seq<NamedFile>, openings: seq<Opening>)
    requires since.Rough() && until.Rough() && rs == Matched(fragments, files, since, until)
    requires |openings| == |rs| && forall i :: 0 <= i < |rs| ==> openings[i] == rs[i].opening
    ensures forall n :: n in rs ==> n in files
    ensures AllOpen(openings) <==> !FailsMatching(fragments, files, since, until)
    ensures ScannerSets.Handles(openings) <= Handles(files)
    ensures AllTerminated(files) ==> forall i :: 0 <= i < |openings| && openings[i].Opened? ==> Terminated(openings[i].file.data)
  {
    forall n
      ensures n in rs <==> n in files && Matches(fragments, n.name, since, until)
    {
      MatchedAmong(fragments, files, since, until, n);
    }
    forall i | 0 <= i < |openings|
      ensures exists k :: 0 <= k < |files| && files[k].opening == openings[i]
    {
      assert rs[i] in rs && rs[i] in files;
    }
    if !AllOpen(openings) {
      var k :| 0 <= k < |openings| && openings[k].Failed?;
      assert rs[k] in rs;
    }
    if FailsMatching(fragments, files, since, until) {
      var i :| 0 <= i < |files| && files[i].opening.Failed? && Matches(fragments, files[i].name, since, until);
      assert files[i] in rs;
    }
  }

  ghost predicate AllSorted(ss: seq<Stream>) {
    forall i :: 0 <= i < |ss| ==> SortedStream(ss[i])
  }

  /** Opens the log for a period and reads it to the end. When the pattern leaves no gap and the log is kept as it should
    * be, every record of the period in every file there is comes out, once, in the order of its file; and in time order
    * when the records of each file are. */
  method OpenLog(fragments: seq<Fragment>, files: seq<NamedFile>, timeOf: SearchLog.TimeParser, rec: RecordParser,
                 since: Civil, until: Civil, epoch: Time)
    returns (out: Option<Stream>)
    requires fragments != [] && since.Valid() && until.Valid()
    requires AllTerminated(files)
    modifies Handles(files)
    ensures out == None <==> FailsMatching(fragments, files, since, until)
    ensures out.Some? && GapFree(Fields(fragments)) && Kept(fragments, files, timeOf, rec, TimeOf(since, epoch), epoch) ==>
              var all := AllWanted(files, rec, TimeOf(since, epoch), TimeOf(until, epoch));
              Interleaves(out.value, all) && (AllSorted(all) ==> SortedStream(out.value))
  {
    var rs := ListBetween(fragments, files, since, until);
    var openings := Openings(rs);
    MatchedOpenings(fragments, files, since, until, rs, openings);
    ghost var streams;
    out, streams := ReadLogs(openings, timeOf, rec, TimeOf(since, epoch), TimeOf(until, epoch));
    if out.Some? && GapFree(Fields(fragments)) && Kept(fragments, files, timeOf, rec, TimeOf(since, epoch), epoch) {
      Complete(fragments, files, rs, openings, timeOf, rec, since, until, epoch, out.value, streams);
    }
  }

  lemma Complete(fragments: seq<Fragment>, files: seq<NamedFile>, rs: seq<NamedFile>, openings: seq<Opening>,
                 timeOf: SearchLog.TimeParser, rec: RecordParser, since: Civil, until: Civil, epoch: Time,
                 out: Stream, streams: seq<Stream>)
    requires GapFree(Fields(fragments)) && since.Valid() && until.Valid()
    requires Kept(fragments, files, timeOf, rec, TimeOf(since, epoch), epoch)
    requires rs == Matched(fragments, files, since, until) && forall n :: n in rs ==> n in files
    requires |openings| == |rs| == |streams| && forall i :: 0 <= i < |rs| ==> openings[i] == rs[i].opening
    requires AllDeliver(openings, timeOf, rec, TimeOf(since, epoch), TimeOf(until, epoch), streams)
    requires Interleaves(out, streams)
    ensures var all := AllWanted(files, rec, TimeOf(since, epoch), TimeOf(until, epoch));
            Interleaves(out, all) && (AllSorted(all) ==> AllSorted(streams))
  {
    MatchedDeliver(fragments, files, rs, openings, timeOf, rec, TimeOf(since, epoch), TimeOf(until, epoch), epoch, streams);
    UnmatchedAddNothing(fragments, files, timeOf, rec, since, until, epoch, out,
                        AllWanted(files, rec, TimeOf(since, epoch), TimeOf(until, epoch)));
    if AllSorted(AllWanted(files, rec, TimeOf(since, epoch), TimeOf(until, epoch))) {
      SomeSorted(files, rs, rec, TimeOf(since, epoch), TimeOf(until, epoch));
    }
  }

  lemma SomeSorted(files: seq<NamedFile>, rs: seq<NamedFile>, rec: RecordParser, since: Time, until: Time)
    requires AllSorted(AllWanted(files, rec, since, until)) && forall n :: n in rs ==> n in files
    ensures AllSorted(AllWanted(rs, rec, since, until))
  {
    var all, some := AllWanted(files, rec, since, until), AllWanted(rs, rec, since, until);
    forall i | 0 <= i < |some|
      ensures SortedStream(some[i])
    {
      assert rs[i] in files;
      var k :| 0 <= k < |files| && files[k] == rs[i];
      assert SortedStream(all[k]);
    }
  }

  /** With a gap there is a file that is named for a time in a period and is not opened for it. */
  lemma GapNotOpened(fragments: seq<Fragment>, opening: Opening) returns (since: Civil, t: Civil, until: Civil)
    requires !GapFree(Fields(fragments))
    ensures Within(since, t, until) && t.Instant() < until.Instant() && Printable(fragments, t)
    ensures Matched(fragments, [NamedFile(PathPatterns.Built(fragments, t), opening)], since, until) == []
  {
    since, t, until := GapMisses(fragments);
    var files := [NamedFile(PathPatterns.Built(fragments, t), opening)];
    assert files[..0] == [];
  }

  /** An interleaving has the members of its streams. */
  lemma {:induction false} InterleavesMembers(out: Stream, ss: seq<Stream>, r: Record)
    requires Interleaves(out, ss)
    ensures r in out <==> exists i :: 0 <= i < |ss| && r in ss[i]
    decreases |out|
  {
    if out != [] {
      var i :| 0 <= i < |ss| && Takes(out, ss, i) && Interleaves(out[1..], ss[i := ss[i][1..]]);
      var rest := ss[i := ss[i][1..]];
      InterleavesMembers(out[1..], rest, r);
      assert ss[i] == [out[0]] + rest[i] && out == [out[0]] + out[1..];
      if r in out {
        if r == out[0] {
          assert r in ss[i];
        } else {
          var j :| 0 <= j < |rest| && r in rest[j];
          assert r in ss[j];
        }
      }
      if j :| 0 <= j < |ss| && r in ss[j] {
        if !(j == i && r == out[0]) {
          assert r in rest[j];
        }
      }
    }
  }
}
