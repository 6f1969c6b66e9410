/** internal/store/scanner.go: reading the records of one log file that fall in a period. */
module FileScanners {
  import opened Common
  import opened LogFile
  import SearchLog

  /** Later than every time a record can carry, as years have four digits. */
  const FAR_FUTURE: Time := 0xFFF_FFFF_FFFF_FFFF * SECOND

  type RecordTime = t: Time | t < FAR_FUTURE witness 0

  datatype Record = Record(time: RecordTime, target: string, body: string)

  /** `Record.UnmarshalJSON` on a line with its newline, as a partial function. */
  type RecordParser = imap<string, Record>

  const READER_SIZE := 4096
  const ACCURACY: nat := 10 * 1024
  const CLEARANCE: Time := 70 * MINUTE
  const MAX_DELAY: Time := 60 * MINUTE

  /** The line at `p` with its newline. */
  ghost function FullLine(f: string, p: nat): string
    requires p < |f| && LineEnd(f, p) < |f|
  {
    f[p..LineEnd(f, p) + 1]
  }

  ghost predicate Overlong(f: string, p: nat)
    requires p < |f| && LineEnd(f, p) < |f|
  {
    |FullLine(f, p)| > READER_SIZE
  }

  predicate InPeriod(t: Time, since: Time, until: Time) {
    since <= t < until
  }

  /** The record on the line at `p`, if it is in the period. */
  ghost function LineWanted(f: string, rec: RecordParser, since: Time, until: Time, p: nat): seq<Record>
    requires p < |f| && LineEnd(f, p) < |f|
  {
    var line := FullLine(f, p);
    if line in rec && InPeriod(rec[line].time, since, until) then [rec[line]] else []
  }

  /** The records in the period on the lines starting in `[p, q)`: what a reader of the log wants. */
  ghost function Wanted(f: string, rec: RecordParser, since: Time, until: Time, p: nat, q: nat): seq<Record>
    requires q <= |f| && Terminated(f)
    decreases q - p
  {
    if p >= q then []
    else
      TerminatedLineEnd(f, p);
      LineWanted(f, rec, since, until, p) + Wanted(f, rec, since, until, LineEnd(f, p) + 1, q)
  }

  /** What a scanner at `p` is going to return, up to the line that stops it. */
  ghost function Remaining(f: string, rec: RecordParser, since: Time, until: Time, p: nat): seq<Record>
    requires p <= |f| && Terminated(f)
    decreases |f| - p
  {
    if p == |f| then []
    else
      TerminatedLineEnd(f, p);
      var line := FullLine(f, p);
      var next := LineEnd(f, p) + 1;
      if Overlong(f, p) then []
      else if line !in rec then Remaining(f, rec, since, until, next)
      else if InPeriod(rec[line].time, since, until) then [rec[line]] + Remaining(f, rec, since, until, next)
      else if until + CLEARANCE < rec[line].time then []
      else Remaining(f, rec, since, until, next)
  }

  /** The first line at or after `p` that does not fit the reader's buffer, or the end of the file. */
  ghost function FirstOverlong(f: string, p: nat): (q: nat)
    requires p <= |f| && Terminated(f)
    ensures p <= q <= |f|
    decreases |f| - p
  {
    if p == |f| then p
    else
      TerminatedLineEnd(f, p);
      if Overlong(f, p) then p else FirstOverlong(f, LineEnd(f, p) + 1)
  }

  /** The times of the records of a file, by the position of their lines. */
  ghost function RecordTimes(f: string, rec: RecordParser): imap<int, Time>
    requires Terminated(f)
  {
    imap p: int | 0 <= p < |f| && IsLineStart(f, p) && LineEnd(f, p) < |f| && FullLine(f, p) in rec
      :: rec[FullLine(f, p)].time
  }

  /** No reading is more than an hour older than an earlier-written record. */
  ghost predicate DelayBounded(records: imap<int, Time>, readings: imap<int, Time>) {
    forall p, q :: p in records && q in readings && p < q ==> records[p] - MAX_DELAY <= readings[q]
  }

  /** The two parsers read the same time off a line. */
  ghost predicate Agree(records: imap<int, Time>, readings: imap<int, Time>) {
    forall p :: p in records && p in readings ==> records[p] == readings[p]
  }

  /** No time is read off the middle of a line, and delays are bounded. There may be lines that decode without a time. */
  ghost predicate InStep(f: string, timeOf: SearchLog.TimeParser, rec: RecordParser)
    requires Terminated(f)
  {
    && SearchLog.SuffixFree(f, SearchLog.Stamps(f, timeOf))
    && Agree(RecordTimes(f, rec), SearchLog.Stamps(f, timeOf))
    && DelayBounded(RecordTimes(f, rec), SearchLog.Stamps(f, timeOf))
    && DelayBounded(RecordTimes(f, rec), RecordTimes(f, rec))
  }

  /** The file ends at `end`. It serves as a trigger: what is said of every end is unfolded only where one is named. */
  predicate IsEnd(f: string, end: nat) {
    end == |f|
  }

  /** The log as its writer leaves it. */
  ghost predicate WellWritten(f: string, timeOf: SearchLog.TimeParser, rec: RecordParser) {
    Terminated(f) && forall end {:trigger IsEnd(f, end)} :: IsEnd(f, end) ==> InStep(f, timeOf, rec)
  }

  lemma WellWrittenInStep(f: string, timeOf: SearchLog.TimeParser, rec: RecordParser)
    ensures WellWritten(f, timeOf, rec) <==> Terminated(f) && InStep(f, timeOf, rec)
  {
    assert IsEnd(f, |f|);
  }

  /** The next line starts no later than any later line does. */
  lemma NextLine(f: string, p: nat, q: nat)
    requires Terminated(f) && p < q <= |f|
    ensures LineEnd(f, p) < |f| && IsLineStart(f, LineEnd(f, p) + 1)
    ensures IsLineStart(f, q) ==> LineEnd(f, p) + 1 <= q
  {
    TerminatedLineEnd(f, p);
    if q <= LineEnd(f, p) {
      NoLineStartInside(f, p, q);
    }
  }

  lemma WantedStep(f: string, rec: RecordParser, since: Time, until: Time, p: nat, q: nat)
    requires Terminated(f) && p < q <= |f|
    ensures LineEnd(f, p) < |f|
    ensures Wanted(f, rec, since, until, p, q)
         == LineWanted(f, rec, since, until, p) + Wanted(f, rec, since, until, LineEnd(f, p) + 1, q)
  {
    TerminatedLineEnd(f, p);
  }

  /** If two lists begin alike and the rest of one is split, so is the whole. */
  lemma Joined<T>(whole: seq<T>, front: seq<T>, first: seq<T>, a: seq<T>, b: seq<T>, rest: seq<T>)
    requires whole == first + rest && front == first + a && rest == a + b
    ensures whole == front + b
  {
  }

  /** A split behind the first line is a split of the whole. */
  lemma SplitBehindLine(f: string, rec: RecordParser, since: Time, until: Time, p: nat, next: nat, m: nat, q: nat)
    requires Terminated(f) && p < m <= q <= |f| && next == LineEnd(f, p) + 1 <= m
    requires Wanted(f, rec, since, until, next, q)
          == Wanted(f, rec, since, until, next, m) + Wanted(f, rec, since, until, m, q)
    ensures Wanted(f, rec, since, until, p, q)
         == Wanted(f, rec, since, until, p, m) + Wanted(f, rec, since, until, m, q)
  {
    WantedStep(f, rec, since, until, p, q);
    WantedStep(f, rec, since, until, p, m);
    Joined(Wanted(f, rec, since, until, p, q), Wanted(f, rec, since, until, p, m), LineWanted(f, rec, since, until, p),
           Wanted(f, rec, since, until, next, m), Wanted(f, rec, since, until, m, q), Wanted(f, rec, since, until, next, q));
  }

  lemma {:induction false} WantedSplits(f: string, rec: RecordParser, since: Time, until: Time, p: nat, m: nat, q: nat)
    requires Terminated(f) && p <= m <= q <= |f| && IsLineStart(f, m)
    ensures Wanted(f, rec, since, until, p, q)
         == Wanted(f, rec, since, until, p, m) + Wanted(f, rec, since, until, m, q)
    decreases m - p
  {
    if p < m {
      NextLine(f, p, m);
      var next := LineEnd(f, p) + 1;
      WantedSplits(f, rec, since, until, next, m, q);
      SplitBehindLine(f, rec, since, until, p, next, m, q);
    }
  }

  /** The line at `k` is a record of the period. */
  ghost predicate HoldsAt(f: string, rec: RecordParser, since: Time, until: Time, k: nat, x: Record) {
    && k < |f| && IsLineStart(f, k) && LineEnd(f, k) < |f|
    && FullLine(f, k) in rec && rec[FullLine(f, k)] == x && since <= x.time < until
  }

  /** Of one line its record is wanted, once, if it has one and that is in the period. */
  lemma WantedOfLine(f: string, rec: RecordParser, since: Time, until: Time, p: nat)
    requires Terminated(f) && p < |f| && IsLineStart(f, p)
    ensures var next := LineEnd(f, p) + 1;
            && next <= |f|
            && (forall x :: HoldsAt(f, rec, since, until, p, x) ==> Wanted(f, rec, since, until, p, next) == [x])
            && ((forall x :: !HoldsAt(f, rec, since, until, p, x)) ==> Wanted(f, rec, since, until, p, next) == [])
  {
    TerminatedLineEnd(f, p);
    var next := LineEnd(f, p) + 1;
    WantedStep(f, rec, since, until, p, next);
    assert Wanted(f, rec, since, until, next, next) == [];
    var line := FullLine(f, p);
    if line in rec && since <= rec[line].time < until {
      assert HoldsAt(f, rec, since, until, p, rec[line]);
    }
  }

  /** What is wanted are just the records of the period on the lines. */
  lemma {:induction false} WantedMembers(f: string, rec: RecordParser, since: Time, until: Time, p: nat, q: nat, x: Record)
    requires Terminated(f) && p <= |f| && q <= |f| && IsLineStart(f, p) && IsLineStart(f, q)
    ensures x in Wanted(f, rec, since, until, p, q) <==> exists k: nat :: p <= k < q && HoldsAt(f, rec, since, until, k, x)
    decreases q - p
  {
    if p < q {
      NextLine(f, p, q);
      var next := LineEnd(f, p) + 1;
      WantedMembers(f, rec, since, until, next, q, x);
      WantedStep(f, rec, since, until, p, q);
      assert x in LineWanted(f, rec, since, until, p) <==> HoldsAt(f, rec, since, until, p, x);
      forall k: nat | p < k < q && HoldsAt(f, rec, since, until, k, x)
        ensures next <= k
      {
        NextLine(f, p, k);
      }
    }
  }

  /** The first overlong line is one, unless it is the end of the file, and no line in front of it is. */
  lemma {:induction false} FirstOverlongIs(f: string, p: nat)
    requires Terminated(f) && p <= |f| && IsLineStart(f, p)
    ensures var q := FirstOverlong(f, p);
            && (q < |f| ==> LineEnd(f, q) < |f| && LineEnd(f, q) + 1 - q > READER_SIZE)
            && forall k: nat :: p <= k < q && IsLineStart(f, k) ==> LineEnd(f, k) + 1 - k <= READER_SIZE
    decreases |f| - p
  {
    if p < |f| {
      TerminatedLineEnd(f, p);
      if !Overlong(f, p) {
        var next, q := LineEnd(f, p) + 1, FirstOverlong(f, p);
        FirstOverlongIs(f, next);
        forall k: nat | p < k < q && IsLineStart(f, k)
          ensures next <= k
        {
          NextLine(f, p, k);
        }
      }
    }
  }

  lemma NothingOnLine(f: string, rec: RecordParser, since: Time, until: Time, p: nat)
    requires Terminated(f) && p < |f| && IsLineStart(f, p) && LineEnd(f, p) < |f|
    requires p in RecordTimes(f, rec) ==> !InPeriod(RecordTimes(f, rec)[p], since, until)
    ensures LineWanted(f, rec, since, until, p) == []
  {
    assert FullLine(f, p) in rec ==> p in RecordTimes(f, rec);
  }

  /** No line from `p` to `q` has a record in the period. */
  ghost predicate Idle(f: string, rec: RecordParser, since: Time, until: Time, p: nat, q: nat) {
    forall k: nat {:trigger LineWanted(f, rec, since, until, k)} ::
      p <= k < q && k < |f| && IsLineStart(f, k) && LineEnd(f, k) < |f| ==> LineWanted(f, rec, since, until, k) == []
  }

  lemma {:induction false} IdleAddsNothing(f: string, rec: RecordParser, since: Time, until: Time, p: nat, q: nat)
    requires Terminated(f) && p <= |f| && q <= |f| && IsLineStart(f, p) && Idle(f, rec, since, until, p, q)
    ensures Wanted(f, rec, since, until, p, q) == []
    decreases q - p
  {
    if p < q {
      NextLine(f, p, q);
      assert LineWanted(f, rec, since, until, p) == [];
      IdleAddsNothing(f, rec, since, until, LineEnd(f, p) + 1, q);
      WantedStep(f, rec, since, until, p, q);
    }
  }

  /** Lines without a record in the period add nothing. */
  lemma NothingWanted(f: string, rec: RecordParser, since: Time, until: Time, p: nat, q: nat)
    requires Terminated(f) && p <= |f| && q <= |f| && IsLineStart(f, p)
    requires forall k :: k in RecordTimes(f, rec) && p <= k < q ==> !InPeriod(RecordTimes(f, rec)[k], since, until)
    ensures Wanted(f, rec, since, until, p, q) == []
  {
    forall k: nat | p <= k < q && IsLineStart(f, k) && LineEnd(f, k) < |f|
      ensures LineWanted(f, rec, since, until, k) == []
    {
      NothingOnLine(f, rec, since, until, k);
    }
    IdleAddsNothing(f, rec, since, until, p, q);
  }

  /** Behind a record too far in the future, nothing is wanted. */
  lemma NothingAfterStop(f: string, rec: RecordParser, since: Time, until: Time, p: nat, q: nat)
    requires Terminated(f) && p < |f| && q <= |f| && DelayBounded(RecordTimes(f, rec), RecordTimes(f, rec))
    requires p in RecordTimes(f, rec) && until + CLEARANCE < RecordTimes(f, rec)[p]
    ensures LineEnd(f, p) < |f| && Wanted(f, rec, since, until, LineEnd(f, p) + 1, q) == []
  {
    var records := RecordTimes(f, rec);
    forall k | k in records && p < k
      ensures !InPeriod(records[k], since, until)
    {
      assert records[p] - MAX_DELAY <= records[k];
    }
    NothingWanted(f, rec, since, until, LineEnd(f, p) + 1, q);
  }

  ghost predicate Stops(f: string, rec: RecordParser, since: Time, until: Time, p: nat)
    requires p < |f| && LineEnd(f, p) < |f|
  {
    var line := FullLine(f, p);
    line in rec && !InPeriod(rec[line].time, since, until) && until + CLEARANCE < rec[line].time
  }

  /** A line that does not stop the scan adds the same to what is returned as to what is wanted. */
  lemma SameLine(f: string, rec: RecordParser, since: Time, until: Time, p: nat, q: nat)
    requires Terminated(f) && p < q <= |f| && LineEnd(f, p) < |f|
    requires !Overlong(f, p) && !Stops(f, rec, since, until, p)
    requires var next := LineEnd(f, p) + 1;
             Remaining(f, rec, since, until, next) == Wanted(f, rec, since, until, next, q)
    ensures Remaining(f, rec, since, until, p) == Wanted(f, rec, since, until, p, q)
  {
  }

  /** The early stop loses nothing: up to the first overlong line, the scanner returns all that is wanted. */
  lemma {:induction false} EarlyStopLosesNothing(f: string, rec: RecordParser, since: Time, until: Time, p: nat)
    requires Terminated(f) && p <= |f| && IsLineStart(f, p)
    requires DelayBounded(RecordTimes(f, rec), RecordTimes(f, rec))
    ensures Remaining(f, rec, since, until, p) == Wanted(f, rec, since, until, p, FirstOverlong(f, p))
    decreases |f| - p
  {
    if p < |f| {
      TerminatedLineEnd(f, p);
      if !Overlong(f, p) {
        var next := LineEnd(f, p) + 1;
        var long := FirstOverlong(f, next);
        if Stops(f, rec, since, until, p) {
          assert RecordTimes(f, rec)[p] == rec[FullLine(f, p)].time;
          NothingAfterStop(f, rec, since, until, p, long);
        } else {
          EarlyStopLosesNothing(f, rec, since, until, next);
          SameLine(f, rec, since, until, p, long);
        }
      }
    }
  }

  /** Everything before a line 70 minutes too old is too old. */
  lemma TooOldBefore(f: string, timeOf: SearchLog.TimeParser, rec: RecordParser, since: Time, q: int, p: int)
    requires WellWritten(f, timeOf, rec)
    requires SearchLog.OlderLine(f, SearchLog.Stamps(f, timeOf), since - CLEARANCE, q, p)
    ensures forall k :: k in RecordTimes(f, rec) && k < p ==> RecordTimes(f, rec)[k] < since
  {
    WellWrittenInStep(f, timeOf, rec);
    var st, records := SearchLog.Stamps(f, timeOf), RecordTimes(f, rec);
    assert q in st && st[q] < since - CLEARANCE;
    forall k | k in records && k < p
      ensures records[k] < since
    {
      if q < k {
        NoLineStartInside(f, q, k);
      } else if k < q {
        assert records[k] - MAX_DELAY <= st[q];
      }
    }
  }

  /** The seek loses nothing: behind a line 70 minutes too old, no earlier record is in the period. */
  lemma SeekLosesNothing(f: string, timeOf: SearchLog.TimeParser, rec: RecordParser, since: Time, until: Time, p: nat)
    requires WellWritten(f, timeOf, rec) && p <= |f|
    requires p == 0 || SearchLog.BehindOlder(f, SearchLog.Stamps(f, timeOf), since - CLEARANCE, p)
    ensures Wanted(f, rec, since, until, 0, p) == []
  {
    if p != 0 {
      var q :| SearchLog.OlderLine(f, SearchLog.Stamps(f, timeOf), since - CLEARANCE, q, p);
      TooOldBefore(f, timeOf, rec, since, q, p);
      NothingWanted(f, rec, since, until, 0, p);
    }
  }

  /** ---- What the search skips ---- */

  /** A turn at `s` moves the left end of the bracket to `left`, behind a timeless line taken for older, although a
    * wanted record lies at or in front of that line. */
  ghost predicate SkipsRecords(f: string, timeOf: SearchLog.TimeParser, rec: RecordParser, since: Time, until: Time,
                               s: SearchLog.State, left: int)
    requires Terminated(f)
  {
    SearchLog.TimelessAt(f, timeOf, s.mid) && 0 <= s.left <= left <= |f| && Wanted(f, rec, since, until, s.left, left) != []
  }

  /** The turn that leads to state `i` of the run skips a wanted record. */
  ghost predicate SkipsAt(f: string, timeOf: SearchLog.TimeParser, rec: RecordParser, since: Time, until: Time,
                          run: seq<SearchLog.State>, i: int)
    requires Terminated(f) && 0 < i < |run|
  {
    SkipsRecords(f, timeOf, rec, since, until, run[i - 1], run[i].left)
  }

  ghost predicate NeverSkips(f: string, timeOf: SearchLog.TimeParser, rec: RecordParser, since: Time, until: Time,
                             run: seq<SearchLog.State>)
    requires Terminated(f)
  {
    forall i :: 0 < i < |run| ==> !SkipsAt(f, timeOf, rec, since, until, run, i)
  }

  /** Where one turn of the search moves the left end of its bracket. */
  lemma TurnMoves(f: string, timeOf: SearchLog.TimeParser, target: Time, s: SearchLog.State, older: int, left: int)
    requires Terminated(f) && s.left < s.right && SearchLog.Closing(f, timeOf, target, s, older)
    requires left == SearchLog.Turn(f, timeOf, target, s).left
    ensures 0 <= s.left <= left <= |f| && IsLineStart(f, s.left) && IsLineStart(f, left)
    ensures left == s.left || SearchLog.TimelessAt(f, timeOf, s.mid)
            || SearchLog.BehindOlder(f, SearchLog.Stamps(f, timeOf), target, left)
  {
    SearchLog.LeftMoves(f, timeOf, target, s, older);
    var _ := SearchLog.TurnKeeps(f, timeOf, target, s, older);
  }

  lemma LastTurn(f: string, timeOf: SearchLog.TimeParser, target: Time, run: seq<SearchLog.State>, s: SearchLog.State, left: int)
    requires Terminated(f) && SearchLog.IsRun(f, timeOf, target, ACCURACY, run) && |run| > 1
    requires s == run[|run| - 2] && left == run[|run| - 1].left
    ensures 0 <= s.left <= left <= |f| && IsLineStart(f, s.left) && IsLineStart(f, left)
    ensures left == s.left || SearchLog.TimelessAt(f, timeOf, s.mid)
            || SearchLog.BehindOlder(f, SearchLog.Stamps(f, timeOf), target, left)
  {
    var init := run[..|run| - 1];
    assert init[|init| - 1] == s;
    SearchLog.RunBegins(f, timeOf, target, ACCURACY, run);
    var older := SearchLog.RunKeeps(f, timeOf, target, ACCURACY, init);
    TurnMoves(f, timeOf, target, s, older, left);
  }

  lemma EmptySplits(f: string, rec: RecordParser, since: Time, until: Time, p: nat, q: nat)
    requires Terminated(f) && p <= q <= |f| && IsLineStart(f, p)
    ensures Wanted(f, rec, since, until, 0, q) == [] <==>
            Wanted(f, rec, since, until, 0, p) == [] && Wanted(f, rec, since, until, p, q) == []
  {
    WantedSplits(f, rec, since, until, 0, p, q);
  }

  /** A turn of the search passes over a wanted record only if it skips it. */
  lemma TurnPasses(f: string, timeOf: SearchLog.TimeParser, rec: RecordParser, since: Time, until: Time,
                   s: SearchLog.State, left: int)
    requires WellWritten(f, timeOf, rec) && 0 <= s.left <= left <= |f| && IsLineStart(f, s.left)
    requires left == s.left || SearchLog.TimelessAt(f, timeOf, s.mid)
             || SearchLog.BehindOlder(f, SearchLog.Stamps(f, timeOf), since - CLEARANCE, left)
    ensures Wanted(f, rec, since, until, 0, left) == [] <==>
            Wanted(f, rec, since, until, 0, s.left) == [] && !SkipsRecords(f, timeOf, rec, since, until, s, left)
  {
    EmptySplits(f, rec, since, until, s.left, left);
    if left != s.left && !SearchLog.TimelessAt(f, timeOf, s.mid) {
      SeekLosesNothing(f, timeOf, rec, since, until, left);
    }
  }

  lemma NeverSkipsSnoc(f: string, timeOf: SearchLog.TimeParser, rec: RecordParser, since: Time, until: Time,
                       run: seq<SearchLog.State>)
    requires Terminated(f) && |run| > 1
    ensures NeverSkips(f, timeOf, rec, since, until, run) <==>
            NeverSkips(f, timeOf, rec, since, until, run[..|run| - 1])
            && !SkipsAt(f, timeOf, rec, since, until, run, |run| - 1)
  {
    var init := run[..|run| - 1];
    assert forall i :: 0 < i < |init| ==>
      SkipsAt(f, timeOf, rec, since, until, init, i) == SkipsAt(f, timeOf, rec, since, until, run, i);
  }

  /** The last turn of a run. */
  lemma LastTurnPasses(f: string, timeOf: SearchLog.TimeParser, rec: RecordParser, since: Time, until: Time,
                       run: seq<SearchLog.State>, p: int, q: int)
    requires WellWritten(f, timeOf, rec) && SearchLog.IsRun(f, timeOf, since - CLEARANCE, ACCURACY, run)
    requires |run| > 1 && p == run[|run| - 1].left && q == run[|run| - 2].left
    ensures 0 <= q <= p <= |f| && IsLineStart(f, p)
    ensures Wanted(f, rec, since, until, 0, p) == [] <==>
            Wanted(f, rec, since, until, 0, q) == [] && !SkipsAt(f, timeOf, rec, since, until, run, |run| - 1)
  {
    LastTurn(f, timeOf, since - CLEARANCE, run, run[|run| - 2], p);
    TurnPasses(f, timeOf, rec, since, until, run[|run| - 2], p);
  }

  /** A run of the search has no wanted record in front of where it ends exactly when none of its turns skips one. */
  lemma {:induction false} NothingSkippedIff(f: string, timeOf: SearchLog.TimeParser, rec: RecordParser, since: Time, until: Time,
                                             run: seq<SearchLog.State>, p: int)
    requires WellWritten(f, timeOf, rec) && SearchLog.IsRun(f, timeOf, since - CLEARANCE, ACCURACY, run)
    requires p == run[|run| - 1].left
    ensures 0 <= p <= |f| && IsLineStart(f, p)
    ensures Wanted(f, rec, since, until, 0, p) == [] <==> NeverSkips(f, timeOf, rec, since, until, run)
  {
    if |run| > 1 {
      SearchLog.RunBegins(f, timeOf, since - CLEARANCE, ACCURACY, run);
      NothingSkippedIff(f, timeOf, rec, since, until, run[..|run| - 1], run[|run| - 2].left);
      LastTurnPasses(f, timeOf, rec, since, until, run, p, run[|run| - 2].left);
      NeverSkipsSnoc(f, timeOf, rec, since, until, run);
    }
  }

  /** No record from `since` on stands at or in front of a timeless line. */
  ghost predicate ClearOfTimeless(f: string, timeOf: SearchLog.TimeParser, rec: RecordParser, since: Time)
    requires Terminated(f)
  {
    forall k, q :: k in RecordTimes(f, rec) && SearchLog.TimelessAt(f, timeOf, q) && k <= q ==> RecordTimes(f, rec)[k] < since
  }

  /** On such a file the search skips nothing: this can be told from the file. */
  lemma ClearNeverSkips(f: string, timeOf: SearchLog.TimeParser, rec: RecordParser, since: Time, until: Time,
                        run: seq<SearchLog.State>, p: int)
    requires WellWritten(f, timeOf, rec) && ClearOfTimeless(f, timeOf, rec, since)
    requires SearchLog.IsWholeRun(f, timeOf, since - CLEARANCE, ACCURACY, run) && p == run[|run| - 1].left
    ensures NeverSkips(f, timeOf, rec, since, until, run)
  {
    NothingSkippedIff(f, timeOf, rec, since, until, run, p);
    SearchLog.RunFinds(f, timeOf, since - CLEARANCE, ACCURACY, run);
    if p != 0 {
      var q :| SearchLog.TakenForOlder(f, timeOf, since - CLEARANCE, q, p);
      if SearchLog.TimelessAt(f, timeOf, q) {
        NothingToTimeless(f, timeOf, rec, since, until, q, p);
      } else {
        SeekLosesNothing(f, timeOf, rec, since, until, p);
      }
    }
  }

  lemma NothingToTimeless(f: string, timeOf: SearchLog.TimeParser, rec: RecordParser, since: Time, until: Time, q: int, p: nat)
    requires Terminated(f) && ClearOfTimeless(f, timeOf, rec, since) && p <= |f|
    requires SearchLog.TimelessAt(f, timeOf, q) && LineEnd(f, q) + 1 == p
    ensures Wanted(f, rec, since, until, 0, p) == []
  {
    var records := RecordTimes(f, rec);
    forall k | k in records && k < p
      ensures records[k] < since
    {
      assert k <= q;
    }
    NothingWanted(f, rec, since, until, 0, p);
  }

  /** ---- What the scanner returns ---- */

  /** The wanted records from `p` up to `long`, and when they are all. */
  lemma WantedUpTo(f: string, rec: RecordParser, since: Time, until: Time, p: nat, long: nat)
    requires Terminated(f) && p <= long <= |f| && IsLineStart(f, p) && IsLineStart(f, long)
    ensures Wanted(f, rec, since, until, 0, long)
         == Wanted(f, rec, since, until, 0, p) + Wanted(f, rec, since, until, p, long)
    ensures Wanted(f, rec, since, until, p, long) == Wanted(f, rec, since, until, 0, |f|)
            <==> Wanted(f, rec, since, until, 0, p) == [] && Wanted(f, rec, since, until, long, |f|) == []
  {
    WantedSplits(f, rec, since, until, 0, p, long);
    WantedSplits(f, rec, since, until, 0, long, |f|);
    var a, b, c := Wanted(f, rec, since, until, 0, p), Wanted(f, rec, since, until, p, long), Wanted(f, rec, since, until, long, |f|);
    assert |a + b + c| == |a| + |b| + |c|;
  }

  /** A scanner that starts where a run of the search ends returns the wanted records from there up to the first
    * line that does not fit the reader's buffer. They are all the file has exactly when the run skips none and none
    * is on or behind that line. */
  lemma ScannerComplete(f: string, timeOf: SearchLog.TimeParser, rec: RecordParser, since: Time, until: Time,
                        run: seq<SearchLog.State>, p: nat)
    requires WellWritten(f, timeOf, rec) && SearchLog.IsRun(f, timeOf, since - CLEARANCE, ACCURACY, run)
    requires p == run[|run| - 1].left
    ensures p <= |f| && Remaining(f, rec, since, until, p) == Wanted(f, rec, since, until, p, FirstOverlong(f, p))
    ensures NeverSkips(f, timeOf, rec, since, until, run) ==>
              Remaining(f, rec, since, until, p) == Wanted(f, rec, since, until, 0, FirstOverlong(f, p))
    ensures Remaining(f, rec, since, until, p) == Wanted(f, rec, since, until, 0, |f|) <==>
            NeverSkips(f, timeOf, rec, since, until, run) && Wanted(f, rec, since, until, FirstOverlong(f, p), |f|) == []
  {
    NothingSkippedIff(f, timeOf, rec, since, until, run, p);
    WellWrittenInStep(f, timeOf, rec);
    EarlyStopLosesNothing(f, rec, since, until, p);
    OverlongStartsLine(f, p);
    WantedUpTo(f, rec, since, until, p, FirstOverlong(f, p));
  }

  /** A scanner that starts at `p`, where the run of the search ends, returns `rest`. Of a well-written file that are
    * the wanted records from `p` up to the first line that does not fit the buffer, and all there are exactly when the
    * run skips none and none is on or behind that line. */
  ghost predicate UpToOverlong(f: string, timeOf: SearchLog.TimeParser, rec: RecordParser, since: Time, until: Time,
                               run: seq<SearchLog.State>, p: nat, rest: seq<Record>)
    requires Terminated(f) && p <= |f|
  {
    forall end {:trigger IsEnd(f, end)} :: IsEnd(f, end) ==>
      && SearchLog.IsWholeRun(f, timeOf, since - CLEARANCE, ACCURACY, run) && p == run[|run| - 1].left
      && (WellWritten(f, timeOf, rec) ==>
            && rest == Wanted(f, rec, since, until, p, FirstOverlong(f, p))
            && (rest == Wanted(f, rec, since, until, 0, end) <==>
                NeverSkips(f, timeOf, rec, since, until, run) && Wanted(f, rec, since, until, FirstOverlong(f, p), end) == []))
  }

  lemma ScannerUpToOverlong(f: string, timeOf: SearchLog.TimeParser, rec: RecordParser, since: Time, until: Time,
                            run: seq<SearchLog.State>, p: nat)
    requires Terminated(f) && p <= |f| && SearchLog.IsWholeRun(f, timeOf, since - CLEARANCE, ACCURACY, run)
    requires p == run[|run| - 1].left
    ensures UpToOverlong(f, timeOf, rec, since, until, run, p, Remaining(f, rec, since, until, p))
  {
    if WellWritten(f, timeOf, rec) {
      ScannerComplete(f, timeOf, rec, since, until, run, p);
    }
  }

  /** `s` is what a scanner on the file returns. */
  ghost predicate Delivers(f: string, timeOf: SearchLog.TimeParser, rec: RecordParser, since: Time, until: Time, s: seq<Record>)
    requires Terminated(f)
  {
    exists run, p: nat :: p <= |f| && UpToOverlong(f, timeOf, rec, since, until, run, p, s)
  }

  /** A file from which everything wanted is returned: well-written, with lines that fit the buffer, and without a
    * record from `since` on at or in front of a timeless line. */
  ghost predicate Readable(f: string, timeOf: SearchLog.TimeParser, rec: RecordParser, since: Time) {
    WellWritten(f, timeOf, rec) && ClearOfTimeless(f, timeOf, rec, since) && FirstOverlong(f, 0) == |f|
  }

  lemma AllDelivered(f: string, timeOf: SearchLog.TimeParser, rec: RecordParser, since: Time, until: Time, s: seq<Record>)
    requires Readable(f, timeOf, rec, since) && Delivers(f, timeOf, rec, since, until, s)
    ensures s == Wanted(f, rec, since, until, 0, |f|)
  {
    var run, p: nat :| p <= |f| && UpToOverlong(f, timeOf, rec, since, until, run, p, s);
    assert IsEnd(f, |f|);
    ClearNeverSkips(f, timeOf, rec, since, until, run, p);
    NothingSkippedIff(f, timeOf, rec, since, until, run, p);
    NoOverlongFrom(f, 0, p);
  }

  lemma {:induction false} OverlongStartsLine(f: string, p: nat)
    requires Terminated(f) && p <= |f| && IsLineStart(f, p)
    ensures IsLineStart(f, FirstOverlong(f, p))
    decreases |f| - p
  {
    if p < |f| {
      TerminatedLineEnd(f, p);
      if !Overlong(f, p) {
        OverlongStartsLine(f, LineEnd(f, p) + 1);
      }
    }
  }

  /** Where no overlong line follows, none follows any later line start. */
  lemma {:induction false} NoOverlongFrom(f: string, q: nat, p: nat)
    requires Terminated(f) && q <= p <= |f| && IsLineStart(f, p) && FirstOverlong(f, q) == |f|
    ensures FirstOverlong(f, p) == |f|
    decreases p - q
  {
    if q < p {
      TerminatedLineEnd(f, q);
      if p <= LineEnd(f, q) {
        NoLineStartInside(f, q, p);
      }
      NoOverlongFrom(f, LineEnd(f, q) + 1, p);
    }
  }

  /** `rest` is what a scanner at `p` is going to return when it reads to the end of the file. */
  ghost predicate IsRest(f: string, rec: RecordParser, since: Time, until: Time, p: nat, rest: seq<Record>)
    requires p <= |f| && Terminated(f)
  {
    forall end {:trigger IsEnd(f, end)} :: IsEnd(f, end) ==> rest == Remaining(f, rec, since, until, p)
  }

  /** What one read up to a newline yields: a line, a full buffer without a newline, or the end. */
  datatype Slice = Slice(line: string) | BufferFull | EndOfFile

  class FileScanner {
    const data: string
    const parser: RecordParser
    const since: Time
    const until: Time
    /** The logical position of the buffered reader. */
    var pos: nat
    var rec: Option<Record>
    /** What is still to be returned. */
    ghost var rest: seq<Record>

    ghost predicate Valid()
      reads this
    {
      && Terminated(data) && pos <= |data| && IsLineStart(data, pos)
      && IsRest(data, parser, since, until, pos, rest)
    }

    constructor (file: ReadSeeker, timeOf: SearchLog.TimeParser, parser: RecordParser, since: Time, until: Time)
      requires Terminated(file.data)
      modifies file`pos
      ensures data == file.data && this.parser == parser && this.since == since && this.until == until
      ensures Valid() && exists run :: UpToOverlong(data, timeOf, parser, since, until, run, pos, rest)
    {
      this.data, this.parser, this.since, this.until := file.data, parser, since, until;
      rec := None;
      pos := 0;
      new;
      ghost var run := SearchLog.Search(file, timeOf, since - CLEARANCE, ACCURACY);
      pos := file.pos;
      rest := Remaining(data, parser, since, until, pos);
      ScannerUpToOverlong(data, timeOf, parser, since, until, run, pos);
    }

    /** `bufio.Reader.ReadSlice('\n')` with a buffer of READER_SIZE bytes. */
    method ReadSlice() returns (s: Slice)
      requires Valid()
      modifies `pos
      ensures s.EndOfFile? <==> old(pos) == |data|
      ensures s.BufferFull? <==> old(pos) < |data| && LineEnd(data, old(pos)) < |data| && Overlong(data, old(pos))
      ensures s.Slice? ==> s.line == FullLine(data, old(pos)) && pos == LineEnd(data, old(pos)) + 1
    {
      if pos == |data| {
        return EndOfFile;
      }
      TerminatedLineEnd(data, pos);
      var b := data[pos..Min(pos + READER_SIZE, |data|)];
      var idx := IndexNewline(b);
      if idx < 0 {
        ChunkWithoutNewline(data, pos, b);
        return BufferFull;
      }
      ChunkLine(data, pos, b, idx);
      pos := pos + idx + 1;
      return Slice(b[..idx + 1]);
    }

    /** Advances to the next record of the period. A line that does not fit the reader's buffer ends the
      * scan: the error of the first read is still set after the rest of the line has been read. */
    method Scan() returns (ok: bool)
      requires Valid()
      modifies this
      ensures ok <==> old(rest) != []
      ensures ok ==> Valid() && rec == Some(old(rest)[0]) && rest == old(rest)[1..]
    {
      while true
        invariant Valid() && rest == old(rest)
        decreases |data| - pos
      {
        assert IsEnd(data, |data|);
        var s := ReadSlice();
        if !s.Slice? {
          return false;
        }
        if s.line !in parser {
          continue;
        }
        rec := Some(parser[s.line]);
        var t := rec.value.time;
        if !(t < since) && until > t {
          rest := rest[1..];
          return true;
        }
        if until + CLEARANCE < t {
          return false;
        }
      }
    }
  }

  /** Reads the records of a period from a file, until the scanner has no more. */
  method ReadFile(file: ReadSeeker, timeOf: SearchLog.TimeParser, parser: RecordParser, since: Time, until: Time)
    returns (out: seq<Record>)
    requires Terminated(file.data)
    modifies file`pos
    ensures Delivers(file.data, timeOf, parser, since, until, out)
  {
    var s := new FileScanner(file, timeOf, parser, since, until);
    ghost var all := s.rest;
    out := [];
    var ok := s.Scan();
    while ok
      invariant fresh(s) && (ok ==> s.Valid() && s.rec.Some? && out + [s.rec.value] + s.rest == all)
      invariant !ok ==> out == all
      decreases ok, |s.rest|
    {
      out := out + [s.rec.value];
      ok := s.Scan();
    }
  }
}
