/** internal/store/search.go: the binary search over the bytes of a log file. */
module SearchLog {
  import opened Common
  import opened LogFile

  /** What decoding a line does to the one record that every line is decoded into: whether it succeeds, and what
    * it puts into the time field, if anything: a time, or a text that is none. */
  datatype Decoding = Decoding(ok: bool, time: Option<Option<Time>>)

  /** JSON decoding, then time parsing. A line that is not in here does not decode and leaves the time alone. */
  type TimeParser = imap<string, Decoding>

  /** The time field after a line was decoded, `last` being what it held before. */
  function TimeField(timeOf: TimeParser, line: string, last: Option<Time>): Option<Time> {
    if line in timeOf && timeOf[line].time.Some? then timeOf[line].time.value else last
  }

  predicate Decodes(timeOf: TimeParser, line: string) {
    line in timeOf && timeOf[line].ok
  }

  /** The line has a time of its own. */
  predicate Stamped(timeOf: TimeParser, line: string) {
    Decodes(timeOf, line) && timeOf[line].time.Some? && timeOf[line].time.value.Some?
  }

  /** The line decodes and says nothing of a time: the time of a line decoded before is still there. */
  predicate Timeless(timeOf: TimeParser, line: string) {
    Decodes(timeOf, line) && timeOf[line].time == None
  }

  /** The times readable in a file, by the position where the reading starts: the bytes up to the
    * newline must open with '{' and decode to a time. */
  ghost function Stamps(f: string, timeOf: TimeParser): imap<int, Time> {
    imap p: int | 0 <= p < |f| && f[p] == '{' && Stamped(timeOf, LineAt(f, p)) :: timeOf[LineAt(f, p)].time.value.value
  }

  ghost predicate TimelessAt(f: string, timeOf: TimeParser, p: int) {
    0 <= p < |f| && f[p] == '{' && Timeless(timeOf, LineAt(f, p))
  }

  /** No reading decodes without a time. */
  ghost predicate NoTimeless(f: string, timeOf: TimeParser) {
    forall p :: !TimelessAt(f, timeOf, p)
  }

  /** Only whole lines are readable: no proper suffix of a line parses as a record. */
  ghost predicate SuffixFree(f: string, st: imap<int, Time>) {
    forall p :: p in st ==> IsLineStart(f, p)
  }

  /** The times never decrease. */
  ghost predicate Sorted(st: imap<int, Time>) {
    forall p, q :: p in st && q in st && p < q ==> st[p] <= st[q]
  }

  /** The last line is not blank; blank lines elsewhere are fine. */
  predicate LastLineNotBlank(f: string) {
    f == "" || (|f| >= 2 && f[|f| - 2] != '\n')
  }

  /** A log in order: whole lines only, sorted, no blank last line; and a lone brace is no record. */
  ghost predicate InOrder(f: string, timeOf: TimeParser) {
    && SuffixFree(f, Stamps(f, timeOf))
    && Sorted(Stamps(f, timeOf))
    && LastLineNotBlank(f)
    && !Decodes(timeOf, "{")
  }

  /** What makes the search exact. */
  ghost predicate Searchable(f: string, timeOf: TimeParser) {
    InOrder(f, timeOf) && NoTimeless(f, timeOf)
  }

  /** No time is readable in `[lo, hi)`. */
  ghost predicate NoStampIn(st: imap<int, Time>, lo: int, hi: int) {
    forall q :: q in st ==> !(lo <= q < hi)
  }

  /** No time before `target` is readable at or after `p`. */
  ghost predicate NoOlderFrom(st: imap<int, Time>, target: Time, p: int) {
    forall q :: q in st && p <= q ==> target <= st[q]
  }

  /** Every time readable before `p` is before `target`. */
  ghost predicate OnlyOlderBefore(st: imap<int, Time>, target: Time, p: int) {
    forall q :: q in st && q < p ==> st[q] < target
  }

  /** The reading at `q` is before `target` and its line ends right before `p`. */
  ghost predicate OlderLine(f: string, st: imap<int, Time>, target: Time, q: int, p: int) {
    0 <= q < |f| && q in st && st[q] < target && LineEnd(f, q) + 1 == p
  }

  /** `p` is right behind a line whose time is before `target`. */
  ghost predicate BehindOlder(f: string, st: imap<int, Time>, target: Time, p: int) {
    exists q :: OlderLine(f, st, target, q, p)
  }

  /** The line at `q`, right before `p`, was taken for one before `target`: it is, or it has no time. */
  ghost predicate TakenForOlder(f: string, timeOf: TimeParser, target: Time, q: int, p: int) {
    || OlderLine(f, Stamps(f, timeOf), target, q, p)
    || (TimelessAt(f, timeOf, q) && LineEnd(f, q) + 1 == p)
  }

  function Half(left: int, right: int): int {
    left + (right - left) / 2
  }

  /** What the loop keeps on every file. */
  ghost predicate Bracket(f: string, left: int, right: int, mid: int) {
    && 0 <= right <= |f|
    && IsLineStart(f, left)
    && (left < right ==>
          && left <= Half(left, right) <= mid <= |f|
          && (IsLineStart(f, mid) || mid == Half(left, right) || mid == |f|))
  }

  /** What the loop keeps besides on a searchable file: nothing older lies at or after `right`, and
    * nothing with a time starts between the midpoint and `mid`. The reads reach the end of the file
    * only when no line after `left` has a time. */
  ghost predicate Narrowed(f: string, st: imap<int, Time>, target: Time, left: int, right: int, mid: int) {
    && NoOlderFrom(st, target, right)
    && (left < right ==>
          && NoStampIn(st, Half(left, right), mid)
          && (mid < |f| || NoStampIn(st, left, |f|)))
  }

  /** What the search needs of the readings of a searchable file: they are whole lines, in order, and
    * none sits in the last two bytes, the last of which ends a line that is not blank. */
  ghost predicate Orderly(f: string, st: imap<int, Time>) {
    && Sorted(st)
    && (forall p :: p in st ==> 0 <= p < |f| - 2 && IsLineStart(f, p))
    && LastLineNotBlank(f)
  }

  lemma InOrderIsOrderly(f: string, timeOf: TimeParser)
    requires InOrder(f, timeOf) && Terminated(f)
    ensures Orderly(f, Stamps(f, timeOf))
  {
    if |f| >= 2 {
      var q := |f| - 2;
      ChunkLine(f, q, f[q..], 1);
      assert f[q..][..1] == [f[q]];
      assert "{" == ['{'];
    }
  }

  /** ---- The loop, turn by turn ---- */

  /** The variables of the loop; `last` is the time that the record holds. */
  datatype State = State(left: int, right: int, mid: int, bufLen: nat, last: Option<Time>)

  function Start(size: nat): State {
    State(0, size, Half(0, size), 256, None)
  }

  /** The record has the time `used`, `next` being behind its line: the bracket narrows. */
  function Narrow(target: Time, s: State, next: int, used: Time): State {
    var left, right := if target > used then next else s.left, if target > used then s.right else Half(s.left, s.right);
    State(left, right, Half(left, right), s.bufLen, Some(used))
  }

  /** The line up to `next` is no record: it is stepped over, as far as the bracket goes. */
  function StepOver(s: State, next: int, last: Option<Time>): State {
    var right := Half(s.left, s.right);
    if next < s.right then s.(mid := next, last := last) else State(s.left, right, Half(s.left, right), s.bufLen, last)
  }

  /** The line at `s.mid` is not blank. */
  function UseLineAt(timeOf: TimeParser, target: Time, s: State, line: string): State
    requires line != ""
  {
    var last := if line[0] == '{' then TimeField(timeOf, line, s.last) else s.last;
    var next := s.mid + |line| + 1;
    if line[0] == '{' && Decodes(timeOf, line) && last.Some? then Narrow(target, s, next, last.value)
    else StepOver(s, next, last)
  }

  /** One turn of the loop. */
  ghost function Turn(f: string, timeOf: TimeParser, target: Time, s: State): State {
    if !(0 <= s.mid < |f|) then s.(right := Half(s.left, s.right))
    else
      var end := LineEnd(f, s.mid);
      if end == |f| || end - s.mid >= s.bufLen then s.(bufLen := s.bufLen * 2)
      else if end == s.mid then s.(mid := s.mid + 1)
      else UseLineAt(timeOf, target, s, LineAt(f, s.mid))
  }

  /** A run of the loop up to its end. */
  ghost predicate IsRun(f: string, timeOf: TimeParser, target: Time, accuracy: nat, run: seq<State>) {
    && run != [] && run[0] == Start(|f|)
    && forall i :: 0 < i < |run| ==> Follows(f, timeOf, target, accuracy, run, i)
  }

  ghost predicate Follows(f: string, timeOf: TimeParser, target: Time, accuracy: nat, run: seq<State>, i: nat)
    requires 0 < i < |run|
  {
    run[i - 1].left + accuracy < run[i - 1].right && run[i] == Turn(f, timeOf, target, run[i - 1])
  }

  lemma RunGoesOn(f: string, timeOf: TimeParser, target: Time, accuracy: nat, run: seq<State>)
    requires IsRun(f, timeOf, target, accuracy, run) && run[|run| - 1].left + accuracy < run[|run| - 1].right
    ensures IsRun(f, timeOf, target, accuracy, run + [Turn(f, timeOf, target, run[|run| - 1])])
  {
    var next := run + [Turn(f, timeOf, target, run[|run| - 1])];
    forall i | 0 < i < |next|
      ensures Follows(f, timeOf, target, accuracy, next, i)
    {
      assert i < |run| ==> Follows(f, timeOf, target, accuracy, run, i);
    }
  }

  ghost predicate IsWholeRun(f: string, timeOf: TimeParser, target: Time, accuracy: nat, run: seq<State>) {
    IsRun(f, timeOf, target, accuracy, run) && run[|run| - 1].left + accuracy >= run[|run| - 1].right
  }

  /** What the loop keeps of the bracket; `exact` tells whether every line taken for a record is one. */
  ghost predicate Kept(f: string, st: imap<int, Time>, exact: bool, target: Time, left: int, right: int, mid: int) {
    Bracket(f, left, right, mid) && (exact && Orderly(f, st) ==> Narrowed(f, st, target, left, right, mid))
  }

  lemma AtEnd(f: string, st: imap<int, Time>, exact: bool, target: Time, left: int, right: int, mid: int)
    requires Kept(f, st, exact, target, left, right, mid) && left < right && mid == |f|
    ensures Kept(f, st, exact, target, left, Half(left, right), mid)
  {
  }

  /** Stepping over a newline: only a last line of one byte lets this reach the end of the file. */
  lemma AtBlank(f: string, st: imap<int, Time>, exact: bool, target: Time, left: int, right: int, mid: int)
    requires Kept(f, st, exact, target, left, right, mid) && left < right
    requires mid < |f| && f[mid] == '\n' && mid !in st
    ensures Kept(f, st, exact, target, left, right, mid + 1)
  {
    if LastLineNotBlank(f) && mid + 1 == |f| {
      assert !IsLineStart(f, mid);
    }
  }

  lemma AtOlder(f: string, st: imap<int, Time>, exact: bool, target: Time, left: int, right: int, mid: int)
    requires Kept(f, st, exact, target, left, right, mid) && left < right
    requires 0 <= mid < |f| && LineEnd(f, mid) < |f| && (exact ==> mid in st && st[mid] < target)
    ensures var next := LineEnd(f, mid) + 1; Kept(f, st, exact, target, next, right, Half(next, right))
  {
  }

  lemma AtNewer(f: string, st: imap<int, Time>, exact: bool, target: Time, left: int, right: int, mid: int)
    requires Kept(f, st, exact, target, left, right, mid) && left < right
    requires exact ==> mid in st && target <= st[mid]
    ensures Kept(f, st, exact, target, left, Half(left, right), Half(left, Half(left, right)))
  {
  }

  /** Stepping over a line without a time of its own, in or past the bracket. */
  lemma AtGarbage(f: string, st: imap<int, Time>, exact: bool, target: Time, left: int, right: int, mid: int)
    requires Kept(f, st, exact, target, left, right, mid) && left < right
    requires 0 <= mid < |f| && LineEnd(f, mid) < |f| && mid !in st
    ensures var next := LineEnd(f, mid) + 1;
            if next < right then Kept(f, st, exact, target, left, right, next)
            else Kept(f, st, exact, target, left, Half(left, right), Half(left, Half(left, right)))
  {
    forall q | mid < q <= LineEnd(f, mid)
      ensures !IsLineStart(f, q)
    {
      NoLineStartInside(f, mid, q);
    }
  }

  /** The loop invariant; `older` is the line behind which `left` was put. */
  ghost predicate Closing(f: string, timeOf: TimeParser, target: Time, s: State, older: int) {
    && s.bufLen > 0
    && Kept(f, Stamps(f, timeOf), NoTimeless(f, timeOf), target, s.left, s.right, s.mid)
    && (s.left == 0 || TakenForOlder(f, timeOf, target, older, s.left))
  }

  lemma InBracket(f: string, timeOf: TimeParser, target: Time, s: State, older: int)
    requires Closing(f, timeOf, target, s, older) && s.left < s.right
    ensures 0 <= s.left <= Half(s.left, s.right) < s.right && Half(s.left, s.right) <= s.mid <= |f|
  {
  }

  /** Every turn keeps the invariant, on every newline-terminated file. */
  lemma TurnKeeps(f: string, timeOf: TimeParser, target: Time, s: State, older: int) returns (older': int)
    requires Terminated(f) && Closing(f, timeOf, target, s, older) && s.left < s.right
    ensures Closing(f, timeOf, target, Turn(f, timeOf, target, s), older')
  {
    older' := older;
    InBracket(f, timeOf, target, s, older);
    var st, exact := Stamps(f, timeOf), NoTimeless(f, timeOf);
    if s.mid == |f| {
      AtEnd(f, st, exact, target, s.left, s.right, s.mid);
    } else {
      TerminatedLineEnd(f, s.mid);
      var end := LineEnd(f, s.mid);
      if end - s.mid < s.bufLen {
        if end == s.mid {
          AtBlank(f, st, exact, target, s.left, s.right, s.mid);
        } else {
          older' := LineKeeps(f, timeOf, target, s, older);
        }
      }
    }
  }

  /** A line that is used has the time it is used with, or none. */
  lemma UsedLine(f: string, timeOf: TimeParser, s: State)
    requires 0 <= s.mid < |f| && s.mid < LineEnd(f, s.mid) < |f|
    ensures var line := LineAt(f, s.mid);
            line != "" && line[0] == f[s.mid]
            && var last := TimeField(timeOf, line, s.last);
            if line[0] == '{' && Decodes(timeOf, line) && last.Some?
            then TimelessAt(f, timeOf, s.mid) || (s.mid in Stamps(f, timeOf) && Stamps(f, timeOf)[s.mid] == last.value)
            else s.mid !in Stamps(f, timeOf)
  {
  }

  lemma UsedSo(f: string, timeOf: TimeParser, target: Time, s: State)
    requires 0 <= s.mid < |f| && s.mid < LineEnd(f, s.mid) < |f| && LineAt(f, s.mid) != ""
    ensures var line, next := LineAt(f, s.mid), LineEnd(f, s.mid) + 1;
            var last := if line[0] == '{' then TimeField(timeOf, line, s.last) else s.last;
            UseLineAt(timeOf, target, s, line) ==
            if line[0] == '{' && Decodes(timeOf, line) && last.Some? then Narrow(target, s, next, last.value)
            else StepOver(s, next, last)
  {
  }

  lemma RecordKeeps(f: string, timeOf: TimeParser, target: Time, s: State, older: int, used: Time) returns (older': int)
    requires Closing(f, timeOf, target, s, older) && s.left < s.right
    requires 0 <= s.mid < |f| && s.mid < LineEnd(f, s.mid) < |f|
    requires TimelessAt(f, timeOf, s.mid) || (s.mid in Stamps(f, timeOf) && Stamps(f, timeOf)[s.mid] == used)
    ensures Closing(f, timeOf, target, Narrow(target, s, LineEnd(f, s.mid) + 1, used), older')
  {
    older' := older;
    var st, exact := Stamps(f, timeOf), NoTimeless(f, timeOf);
    assert exact ==> !TimelessAt(f, timeOf, s.mid);
    if target > used {
      AtOlder(f, st, exact, target, s.left, s.right, s.mid);
      older' := s.mid;
    } else {
      AtNewer(f, st, exact, target, s.left, s.right, s.mid);
    }
  }

  lemma GarbageKeeps(f: string, timeOf: TimeParser, target: Time, s: State, older: int, last: Option<Time>)
    requires Closing(f, timeOf, target, s, older) && s.left < s.right
    requires 0 <= s.mid < |f| && s.mid < LineEnd(f, s.mid) < |f| && s.mid !in Stamps(f, timeOf)
    ensures Closing(f, timeOf, target, StepOver(s, LineEnd(f, s.mid) + 1, last), older)
  {
    AtGarbage(f, Stamps(f, timeOf), NoTimeless(f, timeOf), target, s.left, s.right, s.mid);
  }

  lemma LineKeeps(f: string, timeOf: TimeParser, target: Time, s: State, older: int) returns (older': int)
    requires Closing(f, timeOf, target, s, older) && s.left < s.right
    requires 0 <= s.mid < |f| && s.mid < LineEnd(f, s.mid) < |f| && LineAt(f, s.mid) != ""
    ensures Closing(f, timeOf, target, UseLineAt(timeOf, target, s, LineAt(f, s.mid)), older')
  {
    older' := older;
    UsedLine(f, timeOf, s);
    UsedSo(f, timeOf, target, s);
    var line := LineAt(f, s.mid);
    var last := if line[0] == '{' then TimeField(timeOf, line, s.last) else s.last;
    if line[0] == '{' && Decodes(timeOf, line) && last.Some? {
      older' := RecordKeeps(f, timeOf, target, s, older, last.value);
    } else {
      GarbageKeeps(f, timeOf, target, s, older, last);
    }
  }

  lemma Opening(f: string, timeOf: TimeParser, target: Time)
    ensures Closing(f, timeOf, target, Start(|f|), 0)
  {
  }

  /** ---- What the search promises ---- */

  /** In a file of sorted whole lines there are only older ones before a position right behind an older one. */
  lemma OlderBefore(f: string, st: imap<int, Time>, target: Time, q: int, p: int)
    requires Sorted(st) && SuffixFree(f, st) && OlderLine(f, st, target, q, p)
    ensures OnlyOlderBefore(st, target, p)
  {
    forall r | r in st && r < p
      ensures st[r] < target
    {
      if q < r {
        NoLineStartInside(f, q, r);
      }
    }
  }

  /** No line that is wanted stands at or in front of a timeless one. */
  ghost predicate ClearOfTimeless(f: string, timeOf: TimeParser, target: Time) {
    forall p, q :: p in Stamps(f, timeOf) && TimelessAt(f, timeOf, q) && p <= q ==> Stamps(f, timeOf)[p] < target
  }

  /** What the search promises of the position it ends at. */
  ghost predicate Found(f: string, timeOf: TimeParser, target: Time, accuracy: nat, p: int) {
    var st := Stamps(f, timeOf);
    && IsLineStart(f, p)
    && (p == 0 || exists q :: TakenForOlder(f, timeOf, target, q, p))
    && (Sorted(st) && SuffixFree(f, st) && ClearOfTimeless(f, timeOf, target) ==> OnlyOlderBefore(st, target, p))
    && (Searchable(f, timeOf) ==> NoOlderFrom(st, target, p + accuracy))
  }

  lemma Closed(f: string, timeOf: TimeParser, target: Time, s: State, older: int, accuracy: nat)
    requires Terminated(f) && s.right <= s.left + accuracy && Closing(f, timeOf, target, s, older)
    ensures Found(f, timeOf, target, accuracy, s.left)
  {
    var st := Stamps(f, timeOf);
    if Sorted(st) && SuffixFree(f, st) && ClearOfTimeless(f, timeOf, target) && s.left != 0 {
      ClearBefore(f, timeOf, target, older, s.left);
    }
    if Searchable(f, timeOf) {
      InOrderIsOrderly(f, timeOf);
    }
  }

  lemma ClearBefore(f: string, timeOf: TimeParser, target: Time, q: int, p: int)
    requires Sorted(Stamps(f, timeOf)) && SuffixFree(f, Stamps(f, timeOf)) && ClearOfTimeless(f, timeOf, target)
    requires TakenForOlder(f, timeOf, target, q, p)
    ensures OnlyOlderBefore(Stamps(f, timeOf), target, p)
  {
    var st := Stamps(f, timeOf);
    if OlderLine(f, st, target, q, p) {
      OlderBefore(f, st, target, q, p);
    } else {
      forall r | r in st && r < p
        ensures st[r] < target
      {
        if q < r {
          NoLineStartInside(f, q, r);
        }
      }
    }
  }

  /** Without timeless lines the line in front of the position is older. */
  lemma FoundBehindOlder(f: string, timeOf: TimeParser, target: Time, accuracy: nat, p: int)
    requires Found(f, timeOf, target, accuracy, p) && NoTimeless(f, timeOf) && p != 0
    ensures BehindOlder(f, Stamps(f, timeOf), target, p)
  {
    var q :| TakenForOlder(f, timeOf, target, q, p);
    assert !TimelessAt(f, timeOf, q);
  }

  /** Every line has a time. */
  ghost predicate AllTimed(f: string, timeOf: TimeParser) {
    forall p :: 0 <= p < |f| && IsLineStart(f, p) ==> p in Stamps(f, timeOf)
  }

  /** Without slack the search ends exactly at the first line that is not before `target`, or at the end. */
  lemma ExactWithoutSlack(f: string, timeOf: TimeParser, target: Time, p: int)
    requires Searchable(f, timeOf) && AllTimed(f, timeOf) && Found(f, timeOf, target, 0, p)
    ensures IsLineStart(f, p) && (p < |f| ==> p in Stamps(f, timeOf) && target <= Stamps(f, timeOf)[p])
    ensures forall q :: 0 <= q < p && IsLineStart(f, q) ==> q in Stamps(f, timeOf) && Stamps(f, timeOf)[q] < target
  {
  }

  /** ---- What timeless lines do ---- */

  /** A wanted line lies between `left` and `next`. */
  ghost predicate WantedBetween(st: imap<int, Time>, target: Time, left: int, next: int) {
    exists q :: q in st && left <= q < next && target <= st[q]
  }

  /** At `s` a timeless line is taken for older although a wanted line lies in front of its end. */
  ghost predicate SkipsWanted(f: string, timeOf: TimeParser, target: Time, s: State) {
    && TimelessAt(f, timeOf, s.mid)
    && WantedBetween(Stamps(f, timeOf), target, s.left, Turn(f, timeOf, target, s).left)
  }

  /** `left` moves only behind the line at `mid`, when that is taken for older. */
  lemma LeftMoves(f: string, timeOf: TimeParser, target: Time, s: State, older: int)
    requires Terminated(f) && Closing(f, timeOf, target, s, older) && s.left < s.right
    ensures var left := Turn(f, timeOf, target, s).left;
            left == s.left || (s.left < left && TakenForOlder(f, timeOf, target, s.mid, left))
  {
    InBracket(f, timeOf, target, s, older);
    if s.mid < |f| && s.mid < LineEnd(f, s.mid) {
      TerminatedLineEnd(f, s.mid);
      UsedLine(f, timeOf, s);
    }
  }

  /** A turn keeps older lines only in front of `left` unless it skips a wanted line. */
  lemma TurnSkips(f: string, timeOf: TimeParser, target: Time, s: State, older: int)
    requires Terminated(f) && Closing(f, timeOf, target, s, older) && s.left < s.right
    requires Sorted(Stamps(f, timeOf)) && SuffixFree(f, Stamps(f, timeOf))
    ensures var st := Stamps(f, timeOf);
            OnlyOlderBefore(st, target, Turn(f, timeOf, target, s).left) <==>
            OnlyOlderBefore(st, target, s.left) && !SkipsWanted(f, timeOf, target, s)
  {
    var st, left := Stamps(f, timeOf), Turn(f, timeOf, target, s).left;
    LeftMoves(f, timeOf, target, s, older);
    if left != s.left && !TimelessAt(f, timeOf, s.mid) {
      OlderBefore(f, st, target, s.mid, left);
    }
  }

  lemma {:induction false} RunKeeps(f: string, timeOf: TimeParser, target: Time, accuracy: nat, run: seq<State>) returns (older: int)
    requires Terminated(f) && IsRun(f, timeOf, target, accuracy, run)
    ensures Closing(f, timeOf, target, run[|run| - 1], older)
  {
    if |run| == 1 {
      Opening(f, timeOf, target);
      older := 0;
    } else {
      RunBegins(f, timeOf, target, accuracy, run);
      var before := RunKeeps(f, timeOf, target, accuracy, run[..|run| - 1]);
      assert run[..|run| - 1][|run| - 2] == run[|run| - 2];
      older := TurnKeeps(f, timeOf, target, run[|run| - 2], before);
    }
  }

  /** Wherever a whole run ends, the search promises it. */
  lemma RunFinds(f: string, timeOf: TimeParser, target: Time, accuracy: nat, run: seq<State>)
    requires Terminated(f) && IsWholeRun(f, timeOf, target, accuracy, run)
    ensures 0 <= run[|run| - 1].left <= |f| && Found(f, timeOf, target, accuracy, run[|run| - 1].left)
  {
    var older := RunKeeps(f, timeOf, target, accuracy, run);
    Closed(f, timeOf, target, run[|run| - 1], older, accuracy);
  }

  /** Runs on the same input agree as far as both go. */
  lemma {:induction false} RunsAgree(f: string, timeOf: TimeParser, target: Time, accuracy: nat, run: seq<State>, other: seq<State>, i: nat)
    requires IsRun(f, timeOf, target, accuracy, run) && IsRun(f, timeOf, target, accuracy, other)
    requires i < |run| && i < |other|
    ensures run[i] == other[i]
  {
    if i > 0 {
      RunsAgree(f, timeOf, target, accuracy, run, other, i - 1);
      assert Follows(f, timeOf, target, accuracy, run, i) && Follows(f, timeOf, target, accuracy, other, i);
    }
  }

  lemma GoesOnAt(f: string, timeOf: TimeParser, target: Time, accuracy: nat, run: seq<State>, i: nat)
    requires IsRun(f, timeOf, target, accuracy, run) && i + 1 < |run|
    ensures run[i].left + accuracy < run[i].right
  {
    assert Follows(f, timeOf, target, accuracy, run, i + 1);
  }

  lemma NotLonger(f: string, timeOf: TimeParser, target: Time, accuracy: nat, run: seq<State>, other: seq<State>)
    requires IsWholeRun(f, timeOf, target, accuracy, run) && IsRun(f, timeOf, target, accuracy, other)
    ensures |other| <= |run|
  {
    if |other| > |run| {
      RunsAgree(f, timeOf, target, accuracy, run, other, |run| - 1);
      GoesOnAt(f, timeOf, target, accuracy, other, |run| - 1);
    }
  }

  /** There is one whole run on an input. */
  lemma OneRun(f: string, timeOf: TimeParser, target: Time, accuracy: nat, run: seq<State>, other: seq<State>)
    requires IsWholeRun(f, timeOf, target, accuracy, run) && IsWholeRun(f, timeOf, target, accuracy, other)
    ensures run == other
  {
    NotLonger(f, timeOf, target, accuracy, run, other);
    NotLonger(f, timeOf, target, accuracy, other, run);
    forall i | 0 <= i < |run|
      ensures run[i] == other[i]
    {
      RunsAgree(f, timeOf, target, accuracy, run, other, i);
    }
  }

  /** A run without its last turn is a run that goes on. */
  lemma RunBegins(f: string, timeOf: TimeParser, target: Time, accuracy: nat, run: seq<State>)
    requires IsRun(f, timeOf, target, accuracy, run) && |run| > 1
    ensures IsRun(f, timeOf, target, accuracy, run[..|run| - 1])
    ensures var s := run[|run| - 2]; s.left + accuracy < s.right && run[|run| - 1] == Turn(f, timeOf, target, s)
  {
    var init := run[..|run| - 1];
    assert Follows(f, timeOf, target, accuracy, run, |run| - 1);
    forall i | 0 < i < |init|
      ensures Follows(f, timeOf, target, accuracy, init, i)
    {
      assert Follows(f, timeOf, target, accuracy, run, i);
    }
  }

  /** At no turn of the run a timeless line makes it skip a wanted one. */
  ghost predicate NeverSkips(f: string, timeOf: TimeParser, target: Time, run: seq<State>) {
    forall i :: 0 <= i < |run| - 1 ==> !SkipsWanted(f, timeOf, target, run[i])
  }

  lemma NeverSkipsSnoc(f: string, timeOf: TimeParser, target: Time, run: seq<State>)
    requires |run| > 1
    ensures NeverSkips(f, timeOf, target, run) <==>
            NeverSkips(f, timeOf, target, run[..|run| - 1]) && !SkipsWanted(f, timeOf, target, run[|run| - 2])
  {
    assert forall i :: 0 <= i < |run| - 1 ==> run[..|run| - 1][i] == run[i];
  }

  /** On a log of sorted whole lines a run ends with only older lines in front exactly when it never skips a
    * wanted line. */
  lemma {:induction false} NothingSkippedIff(f: string, timeOf: TimeParser, target: Time, accuracy: nat, run: seq<State>)
    requires Terminated(f) && IsRun(f, timeOf, target, accuracy, run)
    requires Sorted(Stamps(f, timeOf)) && SuffixFree(f, Stamps(f, timeOf))
    ensures OnlyOlderBefore(Stamps(f, timeOf), target, run[|run| - 1].left) <==> NeverSkips(f, timeOf, target, run)
  {
    if |run| > 1 {
      var init, s := run[..|run| - 1], run[|run| - 2];
      assert init[|init| - 1] == s;
      RunBegins(f, timeOf, target, accuracy, run);
      NothingSkippedIff(f, timeOf, target, accuracy, init);
      var older := RunKeeps(f, timeOf, target, accuracy, init);
      TurnSkips(f, timeOf, target, s, older);
      NeverSkipsSnoc(f, timeOf, target, run);
    }
  }

  /** ---- A file on which a wanted line is lost ---- */

  const LOSING := "{o}\n{o}\n{o}\n{o}\n{n}\n{}\n"

  /** Time 1 on the lines of the letter o, time 3 on that of the letter n, and no time on the last line. */
  ghost function LosingTimes(): TimeParser {
    imap["{o}" := Decoding(true, Some(Some(1))), "{n}" := Decoding(true, Some(Some(3))), "{}" := Decoding(true, None)]
  }

  lemma LineAtIs(f: string, p: nat, text: string)
    requires p + |text| < |f| && f[p + |text|] == '\n'
    requires forall k :: 0 <= k < |text| ==> f[p + k] == text[k] && text[k] != '\n'
    ensures LineEnd(f, p) == p + |text| && LineAt(f, p) == text
  {
    var e := p + |text|;
    assert f[p..e] == text;
    assert forall k :: p <= k < e ==> f[k] == text[k - p];
  }

  lemma LosingBytes()
    ensures |LOSING| == 23 && Terminated(LOSING)
    ensures forall p :: 0 <= p < 23 ==> (LOSING[p] == '{' <==> p in {0, 4, 8, 12, 16, 20})
  {
  }

  lemma LosingOldLines()
    ensures |LOSING| == 23
    ensures forall p :: p in {0, 4, 8, 12} ==> LineEnd(LOSING, p) == p + 3 && LineAt(LOSING, p) == "{o}"
  {
    forall p | p in {0, 4, 8, 12}
      ensures LineEnd(LOSING, p) == p + 3 && LineAt(LOSING, p) == "{o}"
    {
      LineAtIs(LOSING, p, "{o}");
    }
  }

  lemma LosingNewLines()
    ensures |LOSING| == 23
    ensures LineEnd(LOSING, 16) == 19 && LineAt(LOSING, 16) == "{n}" && LineEnd(LOSING, 20) == 22 && LineAt(LOSING, 20) == "{}"
    ensures LineEnd(LOSING, 11) == 11 && LineEnd(LOSING, 19) == 19
  {
    LineAtIs(LOSING, 16, "{n}");
    LineAtIs(LOSING, 20, "{}");
    LineAtIs(LOSING, 11, "");
    LineAtIs(LOSING, 19, "");
  }

  lemma LosingStamps()
    ensures Stamps(LOSING, LosingTimes()) == imap[0 := 1, 4 := 1, 8 := 1, 12 := 1, 16 := 3]
    ensures TimelessAt(LOSING, LosingTimes(), 20)
  {
    LosingBytes();
    LosingOldLines();
    LosingNewLines();
  }

  lemma LosingStarts()
    ensures forall p :: p in {0, 4, 8, 12, 16} ==> IsLineStart(LOSING, p)
    ensures LastLineNotBlank(LOSING) && !Decodes(LosingTimes(), "{")
  {
    assert |"{"| == 1 && |"{o}"| == 3 && |"{n}"| == 3 && |"{}"| == 2;
  }

  lemma OrderlyStamps(f: string, st: imap<int, Time>)
    requires st == imap[0 := 1, 4 := 1, 8 := 1, 12 := 1, 16 := 3]
    requires forall p :: p in {0, 4, 8, 12, 16} ==> IsLineStart(f, p)
    ensures SuffixFree(f, st) && Sorted(st)
  {
  }

  /** The log is in order. */
  lemma LosingInOrder()
    ensures InOrder(LOSING, LosingTimes())
  {
    LosingStamps();
    LosingStarts();
    OrderlyStamps(LOSING, Stamps(LOSING, LosingTimes()));
  }

  lemma FirstTurn()
    ensures Turn(LOSING, LosingTimes(), 2, Start(23)) == State(0, 23, 12, 256, None)
  {
    LosingNewLines();
  }

  lemma SecondTurn()
    ensures Turn(LOSING, LosingTimes(), 2, State(0, 23, 12, 256, None)) == State(16, 23, 19, 256, Some(1))
  {
    LosingOldLines();
  }

  lemma ThirdTurn()
    ensures Turn(LOSING, LosingTimes(), 2, State(16, 23, 19, 256, Some(1))) == State(16, 23, 20, 256, Some(1))
  {
    LosingNewLines();
  }

  lemma FourthTurn()
    ensures Turn(LOSING, LosingTimes(), 2, State(16, 23, 20, 256, Some(1))) == State(23, 23, 23, 256, Some(1))
  {
    LosingNewLines();
  }

  /** The whole run of the search for time 2 without slack. */
  const LOSING_RUN := [Start(23), State(0, 23, 12, 256, None), State(16, 23, 19, 256, Some(1)),
                       State(16, 23, 20, 256, Some(1)), State(23, 23, 23, 256, Some(1))]

  lemma LosingRun()
    ensures IsWholeRun(LOSING, LosingTimes(), 2, 0, LOSING_RUN)
  {
    LosingBytes();
    FirstTurn();
    SecondTurn();
    ThirdTurn();
    FourthTurn();
    forall i | 0 < i < |LOSING_RUN|
      ensures Follows(LOSING, LosingTimes(), 2, 0, LOSING_RUN, i)
    {
      assert i in {1, 2, 3, 4};
    }
  }

  /** It ends behind the one wanted line. */
  lemma WantedLineLost(run: seq<State>)
    requires IsWholeRun(LOSING, LosingTimes(), 2, 0, run)
    ensures run[|run| - 1].left == 23
    ensures !OnlyOlderBefore(Stamps(LOSING, LosingTimes()), 2, 23)
  {
    LosingRun();
    OneRun(LOSING, LosingTimes(), 2, 0, run, LOSING_RUN);
    LosingStamps();
    assert 16 in Stamps(LOSING, LosingTimes());
  }

  /** ---- What a line that is not ended does ---- */

  function Turns(b: nat, n: nat): nat {
    if n == 0 then b else 2 * Turns(b, n - 1)
  }

  ghost function TurnedBy(f: string, timeOf: TimeParser, target: Time, s: State, n: nat): State {
    if n == 0 then s else Turn(f, timeOf, target, TurnedBy(f, timeOf, target, s, n - 1))
  }

  lemma {:induction false} TurnsGrow(b: nat, n: nat)
    requires b > 0
    ensures Turns(b, n) > n
  {
    if n > 0 {
      TurnsGrow(b, n - 1);
    }
  }

  lemma {:induction false} OnlyGrows(f: string, timeOf: TimeParser, target: Time, s: State, n: nat)
    requires 0 <= s.mid < |f| && LineEnd(f, s.mid) == |f|
    ensures TurnedBy(f, timeOf, target, s, n) == s.(bufLen := Turns(s.bufLen, n))
  {
    if n > 0 {
      OnlyGrows(f, timeOf, target, s, n - 1);
    }
  }

  /** On a line that is not ended, and on no other, the loop does nothing but enlarge its buffer, for ever. */
  lemma GrowsForEverIff(f: string, timeOf: TimeParser, target: Time, s: State)
    requires 0 <= s.mid < |f| && s.bufLen > 0
    ensures LineEnd(f, s.mid) == |f| <==>
            forall n: nat :: TurnedBy(f, timeOf, target, s, n) == s.(bufLen := Turns(s.bufLen, n))
  {
    if LineEnd(f, s.mid) == |f| {
      forall n: nat
        ensures TurnedBy(f, timeOf, target, s, n) == s.(bufLen := Turns(s.bufLen, n))
      {
        OnlyGrows(f, timeOf, target, s, n);
      }
    } else {
      var n := LineEnd(f, s.mid) - s.mid;
      TurnsGrow(s.bufLen, n);
      var t := s.(bufLen := Turns(s.bufLen, n));
      if TurnedBy(f, timeOf, target, s, n) == t {
        assert Turn(f, timeOf, target, t).bufLen == t.bufLen;
        assert Turns(s.bufLen, n + 1) > Turns(s.bufLen, n);
        assert TurnedBy(f, timeOf, target, s, n + 1) != s.(bufLen := Turns(s.bufLen, n + 1));
      }
    }
  }

  /** What a read of a bounded buffer shows of the line at a position. */
  datatype Chunk = EndOfFile | NoNewline | Line(text: string)

  /** One seek and one read: the line at `mid`, if it fits in the buffer. */
  method ReadLineAt(file: ReadSeeker, mid: nat, bufLen: nat) returns (c: Chunk)
    requires Terminated(file.data) && mid <= |file.data| && bufLen > 0
    modifies file`pos
    ensures c.EndOfFile? <==> mid == |file.data|
    ensures c.NoNewline? <==> mid < |file.data| && LineEnd(file.data, mid) - mid >= bufLen
    ensures c.Line? ==> c.text == LineAt(file.data, mid) && LineEnd(file.data, mid) == mid + |c.text| < |file.data|
  {
    file.Seek(mid);
    var line := file.Read(bufLen);
    if line == "" {
      return EndOfFile;
    }
    var idx := IndexNewline(line);
    assert line == file.data[mid..mid + |line|];
    if idx < 0 {
      ChunkWithoutNewline(file.data, mid, line);
      return NoNewline;
    }
    ChunkLine(file.data, mid, line, idx);
    return Line(line[..idx]);
  }

  /** Narrows the bracket by the non-blank line at `mid`, or steps over it. */
  method UseLine(timeOf: TimeParser, target: Time, line: string, left: int, right: int, mid: int, last: Option<Time>, ghost bufLen: nat)
    returns (left': int, right': int, mid': int, last': Option<Time>)
    requires line != ""
    ensures State(left', right', mid', bufLen, last') == UseLineAt(timeOf, target, State(left, right, mid, bufLen, last), line)
  {
    left', right', last' := left, right, last;
    if line[0] == '{' {
      // Decoding leaves the time field as it was when the line has none.
      if line in timeOf && timeOf[line].time.Some? {
        last' := timeOf[line].time.value;
      }
      if line in timeOf && timeOf[line].ok && last'.Some? {
        if target > last'.value {
          left' := mid + |line| + 1;
        } else {
          right' := left + (right - left) / 2;
        }
        mid' := left' + (right' - left') / 2;
        return;
      }
    }

    // The current position is not a record.
    mid' := mid + |line| + 1;
    if mid' >= right {
      right' := left + (right - left) / 2;
      mid' := left + (right' - left) / 2;
    }
  }

  /** A turn shrinks the bracket, moves on in it, or enlarges a buffer that is smaller than the rest of the file. */
  ghost predicate Advances(f: string, s: State, t: State) {
    || t.right - t.left < s.right - s.left
    || (t.left == s.left && t.right == s.right
        && (s.mid < t.mid || (s.mid == t.mid && s.bufLen < |f| - s.mid && s.bufLen < t.bufLen)))
  }

  lemma TurnAdvances(f: string, timeOf: TimeParser, target: Time, s: State, older: int)
    requires Terminated(f) && Closing(f, timeOf, target, s, older) && s.left < s.right
    ensures Advances(f, s, Turn(f, timeOf, target, s))
  {
    InBracket(f, timeOf, target, s, older);
    if s.mid < |f| {
      TerminatedLineEnd(f, s.mid);
    }
  }

  /** Binary search for the first record at or after `target`, up to `accuracy` bytes. It ends on every file whose
    * last line is ended, with the run of the loop in `run`. On every such file the handle ends at a line start and
    * skips lines only up to one taken for older; on a searchable file nothing wanted is skipped and every older
    * line left in front starts less than `accuracy` bytes further on. */
  method Search(file: ReadSeeker, timeOf: TimeParser, target: Time, accuracy: nat) returns (ghost run: seq<State>)
    requires Terminated(file.data)
    modifies file`pos
    ensures IsWholeRun(file.data, timeOf, target, accuracy, run) && file.pos == run[|run| - 1].left
    ensures Found(file.data, timeOf, target, accuracy, file.pos)
  {
    ghost var f := file.data;
    var size := |file.data|;
    ghost var s, older := Start(size), 0;
    run := [s];
    Opening(f, timeOf, target);
    if size <= accuracy {
      Closed(f, timeOf, target, s, older, accuracy);
      file.Seek(0);
      return;
    }

    var right := size;
    var left := 0;
    var mid := Half(left, right);
    var bufLen: nat := 256;
    var last := None;

    while left + accuracy < right
      invariant IsRun(f, timeOf, target, accuracy, run)
      invariant s == State(left, right, mid, bufLen, last) && run[|run| - 1] == s
      invariant Closing(f, timeOf, target, s, older)
      decreases right - left, size - mid, size - bufLen
    {
      InBracket(f, timeOf, target, s, older);
      var c := ReadLineAt(file, mid, bufLen);
      TurnAdvances(f, timeOf, target, s, older);
      older := TurnKeeps(f, timeOf, target, s, older);
      RunGoesOn(f, timeOf, target, accuracy, run);
      s := Turn(f, timeOf, target, s);
      run := run + [s];
      match c
      case EndOfFile =>
        right := Half(left, right);
      case NoNewline =>
        bufLen := bufLen * 2;
      case Line(line) =>
        if line == "" {
          mid := mid + 1;
        } else {
          left, right, mid, last := UseLine(timeOf, target, line, left, right, mid, last, bufLen);
        }
    }

    Closed(f, timeOf, target, s, older, accuracy);
    file.Seek(left);
  }
}
