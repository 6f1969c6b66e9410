/** Log files from which a wanted record is lost. */
module LosingLogs {
  import opened Common
  import opened LogFile
  import opened FileScanners
  import SearchLog

  lemma OneLine(f: string)
    requires f != "" && f[|f| - 1] == '\n' && forall k :: 0 <= k < |f| - 1 ==> f[k] != '\n'
    ensures forall p: nat :: p < |f| ==> LineEnd(f, p) == |f| - 1
    ensures forall p :: IsLineStart(f, p) ==> p == 0 || p == |f|
    ensures FullLine(f, 0) == f && LineAt(f, 0) == f[..|f| - 1]
  {
  }

  /** A record on a line that does not fit the reader's buffer, alone in its file, is not returned. */
  lemma OverlongLost(f: string, r: Record, since: Time, until: Time, s: seq<Record>)
    requires |f| > READER_SIZE && f[|f| - 1] == '\n' && forall k :: 0 <= k < |f| - 1 ==> f[k] != '\n'
    requires InPeriod(r.time, since, until)
    ensures var rec: RecordParser := imap[f := r];
            var timeOf: SearchLog.TimeParser := imap[f[..|f| - 1] := SearchLog.Decoding(true, Some(Some(r.time)))];
            && WellWritten(f, timeOf, rec) && SearchLog.NoTimeless(f, timeOf)
            && Wanted(f, rec, since, until, 0, |f|) == [r]
            && (Delivers(f, timeOf, rec, since, until, s) ==> s == [])
  {
    OneLine(f);
    var rec: RecordParser := imap[f := r];
    var timeOf: SearchLog.TimeParser := imap[f[..|f| - 1] := SearchLog.Decoding(true, Some(Some(r.time)))];
    WellWrittenInStep(f, timeOf, rec);
    assert forall p: nat :: p < |f| && LineAt(f, p) == f[..|f| - 1] ==> |LineAt(f, p)| == |f| - 1 && p == 0;
    WantedStep(f, rec, since, until, 0, |f|);
    if Delivers(f, timeOf, rec, since, until, s) {
      var run, p: nat :| p <= |f| && UpToOverlong(f, timeOf, rec, since, until, run, p, s);
      assert IsEnd(f, |f|);
      NothingSkippedIff(f, timeOf, rec, since, until, run, p);
      assert p == 0 || p == |f|;
      assert Overlong(f, 0);
    }
  }

  /** Blank lines but for three: an old record, a wanted one, and one that decodes without a time. */
  function LosingByte(i: int): char {
    if i == 12000 || i == 12004 || i == 18002 then '{'
    else if i == 12001 then 'o'
    else if i == 12005 then 'n'
    else if i == 12002 || i == 12006 || i == 18003 then '}'
    else '\n'
  }

  function LosingLog(): string {
    seq(24000, i => LosingByte(i))
  }

  const OLD := Record(-2 * HOUR, "o", "")
  const NEW := Record(0, "n", "")

  ghost function LosingRecords(): RecordParser {
    imap["{o}\n" := OLD, "{n}\n" := NEW]
  }

  ghost function LosingTimes(): SearchLog.TimeParser {
    imap["{o}" := SearchLog.Decoding(true, Some(Some(OLD.time))), "{n}" := SearchLog.Decoding(true, Some(Some(NEW.time))),
         "{}" := SearchLog.Decoding(true, None)]
  }

  /** What the log has at the positions that matter. */
  lemma LosingLines(f: string)
    requires f == LosingLog()
    ensures |f| == 24000 && Terminated(f)
    ensures LineEnd(f, 12000) == 12003 && LineAt(f, 12000) == "{o}" && FullLine(f, 12000) == "{o}\n"
    ensures LineEnd(f, 12004) == 12007 && LineAt(f, 12004) == "{n}" && FullLine(f, 12004) == "{n}\n"
    ensures LineEnd(f, 18002) == 18004 && LineAt(f, 18002) == "{}" && FullLine(f, 18002) == "{}\n"
    ensures IsLineStart(f, 12000) && IsLineStart(f, 12004) && IsLineStart(f, 18005)
  {
    SearchLog.LineAtIs(f, 12000, "{o}");
    SearchLog.LineAtIs(f, 12004, "{n}");
    SearchLog.LineAtIs(f, 18002, "{}");
    assert f[12000..12004] == "{o}\n";
    assert f[12004..12008] == "{n}\n";
    assert f[18002..18005] == "{}\n";
  }

  lemma LosingReadings(f: string)
    requires f == LosingLog()
    ensures SearchLog.Stamps(f, LosingTimes()) == imap[12000 := OLD.time, 12004 := NEW.time]
    ensures SearchLog.TimelessAt(f, LosingTimes(), 18002)
  {
    LosingLines(f);
  }

  lemma LosingRecordTimes(f: string)
    requires f == LosingLog() && Terminated(f)
    ensures RecordTimes(f, LosingRecords()) == imap[12000 := OLD.time, 12004 := NEW.time]
  {
    LosingLines(f);
    var rec := LosingRecords();
    forall p: nat | p < |f| && LineEnd(f, p) < |f| && FullLine(f, p) in rec
      ensures p == 12000 || p == 12004
    {
      assert FullLine(f, p)[0] == f[p];
      assert |"{}\n"| == 3 && |"{o}\n"| == 4 && |"{n}\n"| == 4;
    }
  }

  lemma LosingTurns(f: string)
    requires f == LosingLog()
    ensures var target := -CLEARANCE;
            && SearchLog.Turn(f, LosingTimes(), target, SearchLog.Start(24000))
            == SearchLog.State(12004, 24000, 18002, 256, Some(OLD.time))
            && SearchLog.Turn(f, LosingTimes(), target, SearchLog.State(12004, 24000, 18002, 256, Some(OLD.time)))
            == SearchLog.State(18005, 24000, 21002, 256, Some(OLD.time))
  {
    LosingLines(f);
  }

  lemma LosingRun(f: string) returns (run: seq<SearchLog.State>)
    requires f == LosingLog()
    ensures SearchLog.IsWholeRun(f, LosingTimes(), -CLEARANCE, ACCURACY, run) && run[|run| - 1].left == 18005
  {
    LosingTurns(f);
    assert |f| == 24000;
    run := [SearchLog.Start(24000), SearchLog.State(12004, 24000, 18002, 256, Some(OLD.time)),
            SearchLog.State(18005, 24000, 21002, 256, Some(OLD.time))];
    assert SearchLog.Follows(f, LosingTimes(), -CLEARANCE, ACCURACY, run, 1);
    assert SearchLog.Follows(f, LosingTimes(), -CLEARANCE, ACCURACY, run, 2);
  }

  lemma LosingWanted(f: string, long: nat)
    requires f == LosingLog() && Terminated(f) && long <= |f|
    ensures |f| == 24000
    ensures Wanted(f, LosingRecords(), 0, 1, 0, |f|) == [NEW] && Wanted(f, LosingRecords(), 0, 1, 18005, long) == []
  {
    LosingLines(f);
    LosingRecordTimes(f);
    var rec := LosingRecords();
    NothingWanted(f, rec, 0, 1, 0, 12004);
    NothingWanted(f, rec, 0, 1, 12008, |f|);
    NothingWanted(f, rec, 0, 1, 18005, long);
    WantedSplits(f, rec, 0, 1, 0, 12004, |f|);
    WantedStep(f, rec, 0, 1, 12004, |f|);
  }

  lemma TwoLines(f: string, st: imap<int, Time>)
    requires st == imap[12000 := OLD.time, 12004 := NEW.time] && IsLineStart(f, 12000) && IsLineStart(f, 12004)
    ensures SearchLog.SuffixFree(f, st) && Agree(st, st) && DelayBounded(st, st) && SearchLog.Sorted(st)
  {
  }

  lemma LosingWellWritten(f: string)
    requires f == LosingLog()
    ensures WellWritten(f, LosingTimes(), LosingRecords()) && SearchLog.Sorted(SearchLog.Stamps(f, LosingTimes()))
  {
    LosingLines(f);
    LosingReadings(f);
    LosingRecordTimes(f);
    TwoLines(f, SearchLog.Stamps(f, LosingTimes()));
    WellWrittenInStep(f, LosingTimes(), LosingRecords());
  }

  lemma {:induction false} ShortLinesFit(f: string, p: nat)
    requires Terminated(f) && p <= |f|
    requires forall q: nat :: q < |f| ==> LineEnd(f, q) < q + READER_SIZE
    ensures FirstOverlong(f, p) == |f|
    decreases |f| - p
  {
    if p < |f| {
      TerminatedLineEnd(f, p);
      assert LineEnd(f, p) < p + READER_SIZE;
      ShortLinesFit(f, LineEnd(f, p) + 1);
    }
  }

  lemma LosingFits(f: string)
    requires f == LosingLog() && Terminated(f)
    ensures FirstOverlong(f, 0) == |f|
  {
    forall q: nat | q < |f|
      ensures LineEnd(f, q) < q + READER_SIZE
    {
      assert q + 3 < |f| ==> f[q] == '\n' || f[q + 1] == '\n' || f[q + 2] == '\n' || f[q + 3] == '\n';
    }
    ShortLinesFit(f, 0);
  }

  lemma LosingDelivers(f: string, s: seq<Record>)
    requires f == LosingLog() && WellWritten(f, LosingTimes(), LosingRecords())
    requires Delivers(f, LosingTimes(), LosingRecords(), 0, 1, s)
    ensures s == []
  {
    var run, p: nat :| p <= |f| && UpToOverlong(f, LosingTimes(), LosingRecords(), 0, 1, run, p, s);
    assert IsEnd(f, |f|);
    var other := LosingRun(f);
    SearchLog.OneRun(f, LosingTimes(), -CLEARANCE, ACCURACY, run, other);
    LosingWanted(f, FirstOverlong(f, p));
  }

  /** A log in time order, written as it should be, whose lines all fit: of its one wanted record a scanner returns
    * nothing, because the search takes the timeless line behind it for an old one. */
  lemma TimelessLost(f: string, s: seq<Record>)
    requires f == LosingLog()
    ensures WellWritten(f, LosingTimes(), LosingRecords()) && SearchLog.Sorted(SearchLog.Stamps(f, LosingTimes()))
    ensures FirstOverlong(f, 0) == |f| && Wanted(f, LosingRecords(), 0, 1, 0, |f|) == [NEW]
    ensures Delivers(f, LosingTimes(), LosingRecords(), 0, 1, s) ==> s == []
  {
    LosingWellWritten(f);
    LosingFits(f);
    LosingWanted(f, 18005);
    if Delivers(f, LosingTimes(), LosingRecords(), 0, 1, s) {
      LosingDelivers(f, s);
    }
  }
}
