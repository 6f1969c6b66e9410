/** internal/store/scanner.go: merging the scanners of several log files by time. */
module ScannerSets {
  import opened Common
  import opened LogFile
  import opened FileScanners
  import SearchLog

  type Stream = seq<Record>

  ghost predicate AllNonEmpty(ss: seq<Stream>) {
    forall i :: 0 <= i < |ss| ==> ss[i] != []
  }

  ghost predicate SortedStream(s: Stream) {
    forall i, j :: 0 <= i < j < |s| ==> s[i].time <= s[j].time
  }

  /** `out` takes, at each step, the head of one of the streams, until all are used up: nothing is
    * lost, duplicated or reordered within a stream. */
  ghost predicate Interleaves(out: Stream, ss: seq<Stream>)
    decreases |out|
  {
    if out == [] then forall i :: 0 <= i < |ss| ==> ss[i] == []
    else exists i :: 0 <= i < |ss| && Takes(out, ss, i) && Interleaves(out[1..], ss[i := ss[i][1..]])
  }

  ghost predicate Takes(out: Stream, ss: seq<Stream>, i: int)
    requires 0 <= i < |ss|
  {
    out != [] && ss[i] != [] && ss[i][0] == out[0]
  }

  /** The head of `ss[e]` is one of the earliest. */
  ghost predicate EarliestHead(ss: seq<Stream>, e: int) {
    0 <= e < |ss| && AllNonEmpty(ss) && forall i :: 0 <= i < |ss| ==> ss[e][0].time <= ss[i][0].time
  }

  /** Takes the head of `ss[e]` off; a stream used up is removed. */
  ghost function Advance(ss: seq<Stream>, e: int): seq<Stream>
    requires 0 <= e < |ss| && ss[e] != []
  {
    if |ss[e]| == 1 then ss[..e] + ss[e + 1..] else ss[e := ss[e][1..]]
  }

  /** `out` is an order in which the streams can be merged, each time taking an earliest head. */
  ghost predicate Merges(out: Stream, ss: seq<Stream>)
    decreases |out|
  {
    if out == [] then ss == []
    else exists e :: EarliestHead(ss, e) && out[0] == ss[e][0] && Merges(out[1..], Advance(ss, e))
  }

  lemma {:induction false} InterleavesWithEmpty(out: Stream, ss: seq<Stream>, e: nat)
    requires e <= |ss| && Interleaves(out, ss)
    ensures Interleaves(out, ss[..e] + [[]] + ss[e..])
    decreases |out|
  {
    var ss' := ss[..e] + [[]] + ss[e..];
    if out != [] {
      var i :| 0 <= i < |ss| && Takes(out, ss, i) && Interleaves(out[1..], ss[i := ss[i][1..]]);
      var rest := ss[i := ss[i][1..]];
      InterleavesWithEmpty(out[1..], rest, e);
      var i' := if i < e then i else i + 1;
      assert ss'[i'] == ss[i];
      assert ss'[i' := ss'[i'][1..]] == rest[..e] + [[]] + rest[e..];
      assert Takes(out, ss', i');
    }
  }

  lemma TakeHead(out: Stream, ss: seq<Stream>, e: int)
    requires out != [] && 0 <= e < |ss| && Takes(out, ss, e)
    requires Interleaves(out[1..], Advance(ss, e))
    ensures Interleaves(out, ss)
  {
    var rest := ss[e := ss[e][1..]];
    if |ss[e]| == 1 {
      var adv := ss[..e] + ss[e + 1..];
      InterleavesWithEmpty(out[1..], adv, e);
      assert adv[..e] + [[]] + adv[e..] == rest;
    }
    assert Interleaves(out[1..], rest);
  }

  /** A merge is an interleaving. */
  lemma {:induction false} MergeInterleaves(out: Stream, ss: seq<Stream>)
    requires Merges(out, ss)
    ensures Interleaves(out, ss)
    decreases |out|
  {
    if out != [] {
      var e :| EarliestHead(ss, e) && out[0] == ss[e][0] && Merges(out[1..], Advance(ss, e));
      MergeInterleaves(out[1..], Advance(ss, e));
      TakeHead(out, ss, e);
    }
  }

  /** Each stream left is one of those before, perhaps without its head. */
  lemma AdvanceAt(ss: seq<Stream>, e: int, i: nat) returns (j: nat)
    requires 0 <= e < |ss| && ss[e] != [] && i < |Advance(ss, e)|
    ensures j < |ss| && (Advance(ss, e)[i] == ss[j] || (ss[j] != [] && Advance(ss, e)[i] == ss[j][1..]))
  {
    j := if |ss[e]| == 1 && e <= i then i + 1 else i;
  }

  ghost predicate BoundedBelow(s: Stream, t: Time) {
    forall k :: 0 <= k < |s| ==> t <= s[k].time
  }

  lemma {:induction false} MergeBounded(out: Stream, ss: seq<Stream>, t: Time)
    requires Merges(out, ss)
    requires forall i :: 0 <= i < |ss| ==> BoundedBelow(ss[i], t)
    ensures BoundedBelow(out, t)
    decreases |out|
  {
    if out != [] {
      var e :| EarliestHead(ss, e) && out[0] == ss[e][0] && Merges(out[1..], Advance(ss, e));
      forall i: nat | i < |Advance(ss, e)|
        ensures BoundedBelow(Advance(ss, e)[i], t)
      {
        var j := AdvanceAt(ss, e, i);
        assert BoundedBelow(ss[j], t);
      }
      MergeBounded(out[1..], Advance(ss, e), t);
      assert BoundedBelow(ss[e], t);
    }
  }

  /** Merging sorted streams gives a sorted stream. */
  lemma {:induction false} MergeSorted(out: Stream, ss: seq<Stream>)
    requires Merges(out, ss) && forall i :: 0 <= i < |ss| ==> SortedStream(ss[i])
    ensures SortedStream(out)
    decreases |out|
  {
    if out != [] {
      var e :| EarliestHead(ss, e) && out[0] == ss[e][0] && Merges(out[1..], Advance(ss, e));
      forall i: nat | i < |Advance(ss, e)|
        ensures SortedStream(Advance(ss, e)[i]) && BoundedBelow(Advance(ss, e)[i], out[0].time)
      {
        var j := AdvanceAt(ss, e, i);
        SortedFromHead(ss[j], out[0].time);
      }
      MergeSorted(out[1..], Advance(ss, e));
      MergeBounded(out[1..], Advance(ss, e), out[0].time);
    }
  }

  lemma SortedFromHead(s: Stream, t: Time)
    requires SortedStream(s) && s != [] && t <= s[0].time
    ensures BoundedBelow(s, t) && BoundedBelow(s[1..], t) && SortedStream(s[1..])
  {
  }

  ghost function NonEmptyOnes(ss: seq<Stream>): seq<Stream> {
    if ss == [] then []
    else
      var rest := NonEmptyOnes(ss[..|ss| - 1]);
      if ss[|ss| - 1] == [] then rest else rest + [ss[|ss| - 1]]
  }

  lemma NonEmptyOnesAppend(ss: seq<Stream>, s: Stream)
    ensures NonEmptyOnes(ss + [s]) == if s == [] then NonEmptyOnes(ss) else NonEmptyOnes(ss) + [s]
  {
    assert (ss + [s])[..|ss|] == ss;
  }

  /** An interleaving of the streams that are not empty is an interleaving of all of them. */
  lemma {:induction false} InterleavesAll(out: Stream, ss: seq<Stream>, tail: seq<Stream>)
    requires Interleaves(out, NonEmptyOnes(ss) + tail)
    ensures Interleaves(out, ss + tail)
    decreases |ss|
  {
    if ss == [] {
      assert NonEmptyOnes(ss) + tail == ss + tail;
    } else {
      var init, last := ss[..|ss| - 1], ss[|ss| - 1];
      var ne := NonEmptyOnes(init);
      if last == [] {
        InterleavesWithEmpty(out, ne + tail, |ne|);
        assert (ne + tail)[..|ne|] + [[]] + (ne + tail)[|ne|..] == ne + ([last] + tail);
      } else {
        assert NonEmptyOnes(ss) + tail == ne + ([last] + tail);
      }
      InterleavesAll(out, init, [last] + tail);
      assert init + ([last] + tail) == ss + tail;
    }
  }

  ghost function Total(ss: seq<Stream>): nat {
    if ss == [] then 0 else |ss[0]| + Total(ss[1..])
  }

  lemma {:induction false} TotalAdvance(ss: seq<Stream>, e: int)
    requires 0 <= e < |ss| && ss[e] != []
    ensures Total(Advance(ss, e)) == Total(ss) - 1
    decreases |ss|
  {
    var adv := Advance(ss, e);
    if e == 0 {
      if |ss[0]| == 1 {
        assert adv == ss[1..];
      } else {
        assert adv[1..] == ss[1..];
      }
    } else {
      TotalAdvance(ss[1..], e - 1);
      assert adv[0] == ss[0];
      assert adv[1..] == Advance(ss[1..], e - 1);
    }
  }

  /** A scanner that stands at a record. */
  ghost predicate Standing(s: FileScanner)
    reads s
  {
    s.Valid() && s.rec.Some?
  }

  /** Scanners that stand at a record and are all different. */
  ghost predicate Sound(scs: seq<FileScanner>)
    reads scs
  {
    && (forall i :: 0 <= i < |scs| ==> Standing(scs[i]))
    && (forall i, j :: 0 <= i < |scs| && 0 <= j < |scs| && i != j ==> scs[i] != scs[j])
  }

  /** `ss` lists, for each scanner, the record it stands at and then those it is still going to return. */
  ghost predicate HasStreams(scs: seq<FileScanner>, ss: seq<Stream>)
    reads scs
  {
    && |ss| == |scs|
    && forall i :: 0 <= i < |scs| ==> scs[i].rec.Some? && ss[i] == [scs[i].rec.value] + scs[i].rest
  }

  /** Scanner `e` stands at one of the earliest records. */
  ghost predicate EarliestScanner(scs: seq<FileScanner>, e: int)
    reads scs
  {
    && 0 <= e < |scs| && (forall i :: 0 <= i < |scs| ==> scs[i].rec.Some?)
    && forall i :: 0 <= i < |scs| ==> scs[e].rec.value.time <= scs[i].rec.value.time
  }

  lemma EarliestScannerHead(scs: seq<FileScanner>, ss: seq<Stream>, e: int)
    requires HasStreams(scs, ss) && EarliestScanner(scs, e)
    ensures EarliestHead(ss, e)
  {
  }

  lemma WithoutScanner(scs: seq<FileScanner>, ss: seq<Stream>, e: int)
    requires |ss| == |scs| && 0 <= e < |scs|
    requires forall i, j :: 0 <= i < |scs| && 0 <= j < |scs| && i != j ==> scs[i] != scs[j]
    requires forall i :: 0 <= i < |scs| && i != e ==> Standing(scs[i]) && ss[i] == [scs[i].rec.value] + scs[i].rest
    ensures Sound(scs[..e] + scs[e + 1..]) && HasStreams(scs[..e] + scs[e + 1..], ss[..e] + ss[e + 1..])
  {
  }

  lemma WithScanner(scs: seq<FileScanner>, ss: seq<Stream>, e: int)
    requires |ss| == |scs| && 0 <= e < |scs| && |ss[e]| > 1
    requires forall i, j :: 0 <= i < |scs| && 0 <= j < |scs| && i != j ==> scs[i] != scs[j]
    requires forall i :: 0 <= i < |scs| && i != e ==> Standing(scs[i]) && ss[i] == [scs[i].rec.value] + scs[i].rest
    requires Standing(scs[e]) && ss[e][1..] == [scs[e].rec.value] + scs[e].rest
    ensures Sound(scs) && HasStreams(scs, Advance(ss, e))
  {
  }

  /** Scans with scanner `e`; the streams lose the record it stood at, and the scanner is dropped when
    * its stream is used up. */
  method StepScanner(scs: seq<FileScanner>, e: int, ghost ss: seq<Stream>) returns (left: seq<FileScanner>)
    requires Sound(scs) && HasStreams(scs, ss) && 0 <= e < |scs|
    modifies scs[e]
    ensures Sound(left) && HasStreams(left, Advance(ss, e))
    ensures forall s :: s in left ==> s in scs
  {
    var more := scs[e].Scan();
    assert forall i :: 0 <= i < |scs| && i != e ==> scs[i] != scs[e];
    if more {
      left := scs;
      WithScanner(scs, ss, e);
    } else {
      left := scs[..e] + scs[e + 1..];
      WithoutScanner(scs, ss, e);
    }
  }

  class FileScannerSet {
    var scanners: seq<FileScanner>
    var scanned: bool
    var earliest: int
    ghost var streams: seq<Stream>

    ghost predicate Valid()
      reads this, scanners
    {
      Sound(scanners) && HasStreams(scanners, streams) && (scanners != [] ==> EarliestScanner(scanners, earliest))
    }

    /** The streams without the record presented last. */
    ghost function Upcoming(): seq<Stream>
      reads this
    {
      if scanned && 0 <= earliest < |streams| && streams[earliest] != [] then Advance(streams, earliest) else streams
    }

    constructor (scanners: seq<FileScanner>, earliest: int, ghost streams: seq<Stream>, ghost min: Time)
      requires Built(scanners, streams, earliest, min)
      ensures Valid() && Upcoming() == streams && this.scanners == scanners
    {
      this.scanners, this.earliest, this.streams, scanned := scanners, earliest, streams, false;
    }

    method UpdateEarliest()
      requires Sound(scanners) && HasStreams(scanners, streams)
      modifies `earliest
      ensures Valid()
    {
      var min := FAR_FUTURE;
      for i := 0 to |scanners|
        invariant i == 0 ==> min == FAR_FUTURE
        invariant i > 0 ==> 0 <= earliest < i && min == scanners[earliest].rec.value.time
        invariant forall j :: 0 <= j < i ==> min <= scanners[j].rec.value.time
      {
        var t := scanners[i].rec.value.time;
        if t < min {
          earliest := i;
          min := t;
        }
      }
    }

    /** Takes the record presented off and finds the next one. */
    method Step()
      requires Valid() && scanners != []
      modifies this, scanners
      ensures Valid() && streams == Advance(old(streams), old(earliest)) && scanned == old(scanned)
      ensures forall s :: s in scanners ==> s in old(scanners)
    {
      var left := StepScanner(scanners, earliest, streams);
      streams := Advance(streams, earliest);
      scanners := left;
      UpdateEarliest();
    }

    /** Moves on to the earliest of the upcoming records. */
    method Scan() returns (ok: bool)
      requires Valid()
      modifies this, scanners
      ensures ok <==> old(Upcoming()) != []
      ensures Valid() && scanned
      ensures forall s :: s in scanners ==> s in old(scanners)
      ensures ok ==> scanners != [] && EarliestHead(old(Upcoming()), earliest)
      ensures ok ==> scanners[earliest].rec == Some(old(Upcoming())[earliest][0])
      ensures ok ==> Upcoming() == Advance(old(Upcoming()), earliest)
    {
      if !scanned {
        scanned := true;
        if scanners != [] {
          EarliestScannerHead(scanners, streams, earliest);
        }
        return |scanners| > 0;
      }

      if |scanners| == 0 {
        return false;
      }

      EarliestScannerHead(scanners, streams, earliest);
      Step();
      if scanners != [] {
        EarliestScannerHead(scanners, streams, earliest);
      }
      return |scanners| > 0;
    }
  }

  /** What opening a log file gives. */
  datatype Opening = NotExist | Failed | Opened(file: ReadSeeker)

  /** Each file was opened, or does not exist. */
  predicate AllOpen(openings: seq<Opening>) {
    forall i :: 0 <= i < |openings| ==> !openings[i].Failed?
  }

  /** What an opened file is asked for. */
  ghost predicate OpeningDelivers(o: Opening, timeOf: SearchLog.TimeParser, parser: RecordParser, since: Time, until: Time, s: Stream) {
    match o
    case Opened(file) => Terminated(file.data) && Delivers(file.data, timeOf, parser, since, until, s)
    case _ => s == []
  }

  /** `OpeningDelivers`, file by file. */
  ghost predicate AllDeliver(openings: seq<Opening>, timeOf: SearchLog.TimeParser, parser: RecordParser, since: Time, until: Time,
                             streams: seq<Stream>) {
    |streams| <= |openings|
    && forall i {:trigger OpeningDelivers(openings[i], timeOf, parser, since, until, streams[i])} ::
         0 <= i < |streams| ==> OpeningDelivers(openings[i], timeOf, parser, since, until, streams[i])
  }

  ghost function Handles(openings: seq<Opening>): set<ReadSeeker> {
    set i | 0 <= i < |openings| && openings[i].Opened? :: openings[i].file
  }

  /** The state of a set under construction, `min` being the time of its earliest record. */
  ghost predicate Built(scs: seq<FileScanner>, ss: seq<Stream>, earliest: int, min: Time)
    reads scs
  {
    && Sound(scs) && HasStreams(scs, ss)
    && if scs == [] then min == FAR_FUTURE else EarliestScanner(scs, earliest) && min == scs[earliest].rec.value.time
  }

  /** `ts` are the streams. It serves as a trigger: what is said of every such list is unfolded only where one is named. */
  /** `ts` are the streams. It serves as a trigger: what is said of every such list is unfolded only where one is named. */
  predicate IsStreams(ts: seq<Stream>, ss: seq<Stream>) {
    ts == ss
  }

  ghost predicate Building(scs: seq<FileScanner>, ss: seq<Stream>, earliest: int, min: Time)
    reads scs
  {
    forall ts {:trigger IsStreams(ts, ss)} :: IsStreams(ts, ss) ==> Built(scs, ts, earliest, min)
  }

  lemma IsBuilt(scs: seq<FileScanner>, ss: seq<Stream>, earliest: int, min: Time)
    requires Building(scs, ss, earliest, min)
    ensures Built(scs, ss, earliest, min)
  {
    assert IsStreams(ss, ss);
  }

  lemma BuildingNext(scs: seq<FileScanner>, ss: seq<Stream>, earliest: int, min: Time, s: FileScanner)
    requires Building(scs, ss, earliest, min) && Standing(s) && s !in scs
    ensures var t := s.rec.value.time;
            Building(scs + [s], ss + [[s.rec.value] + s.rest], if t < min then |scs| else earliest, if t < min then t else min)
  {
    IsBuilt(scs, ss, earliest, min);
  }

  /** Opens a scanner at the first record of the period, if the file has one. */
  method OpenScanner(file: ReadSeeker, timeOf: SearchLog.TimeParser, parser: RecordParser, since: Time, until: Time)
    returns (s: FileScanner, ok: bool, ghost stream: Stream)
    requires Terminated(file.data)
    modifies file`pos
    ensures fresh(s) && Delivers(file.data, timeOf, parser, since, until, stream)
    ensures ok <==> stream != []
    ensures ok ==> Standing(s) && stream == [s.rec.value] + s.rest
  {
    s := new FileScanner(file, timeOf, parser, since, until);
    stream := s.rest;
    assert exists run :: UpToOverlong(file.data, timeOf, parser, since, until, run, s.pos, stream);
    ok := s.Scan();
  }

  lemma AllDeliverNext(openings: seq<Opening>, timeOf: SearchLog.TimeParser, parser: RecordParser, since: Time, until: Time,
                       streams: seq<Stream>, stream: Stream)
    requires AllDeliver(openings, timeOf, parser, since, until, streams) && |streams| < |openings|
    requires OpeningDelivers(openings[|streams|], timeOf, parser, since, until, stream)
    ensures AllDeliver(openings, timeOf, parser, since, until, streams + [stream])
  {
    var all := streams + [stream];
    forall i | 0 <= i < |all|
      ensures OpeningDelivers(openings[i], timeOf, parser, since, until, all[i])
    {
      if i < |streams| {
        assert all[i] == streams[i];
      }
    }
  }

  /** Adds a file to the set under construction. */
  method Include(o: Opening, timeOf: SearchLog.TimeParser, parser: RecordParser, since: Time, until: Time,
                 scanners: seq<FileScanner>, earliest: int, min: Time, ghost ss: seq<Stream>)
    returns (scanners': seq<FileScanner>, earliest': int, min': Time, ghost stream: Stream)
    requires !o.Failed? && (o.Opened? ==> Terminated(o.file.data))
    requires Building(scanners, ss, earliest, min)
    modifies if o.Opened? then {o.file} else {}
    ensures Building(scanners', if stream == [] then ss else ss + [stream], earliest', min')
    ensures forall i :: 0 <= i < |scanners'| ==> fresh(scanners'[i]) || (i < |scanners| && scanners'[i] == scanners[i])
    ensures OpeningDelivers(o, timeOf, parser, since, until, stream)
  {
    scanners', earliest', min', stream := scanners, earliest, min, [];
    if o.Opened? {
      var s, ok;
      s, ok, stream := OpenScanner(o.file, timeOf, parser, since, until);
      if ok {
        BuildingNext(scanners, ss, earliest, min, s);
        var t := s.rec.value.time;
        if t < min {
          earliest' := |scanners|;
          min' := t;
        }
        scanners' := scanners + [s];
      }
    }
  }

  /** Opens a scanner on each file, unless a file exists but cannot be opened. */
  method OpenAll(openings: seq<Opening>, timeOf: SearchLog.TimeParser, parser: RecordParser, since: Time, until: Time)
    returns (ok: bool, scanners: seq<FileScanner>, earliest: int, ghost min: Time, ghost streams: seq<Stream>)
    requires forall i :: 0 <= i < |openings| && openings[i].Opened? ==> Terminated(openings[i].file.data)
    modifies Handles(openings)
    ensures ok <==> AllOpen(openings)
    ensures forall i :: 0 <= i < |scanners| ==> fresh(scanners[i])
    ensures ok ==> Building(scanners, NonEmptyOnes(streams), earliest, min)
    ensures ok ==> |streams| == |openings| && AllDeliver(openings, timeOf, parser, since, until, streams)
  {
    var min' := FAR_FUTURE;
    scanners, earliest, streams := [], 0, [];
    ghost var ss: seq<Stream> := [];
    for k := 0 to |openings|
      invariant forall i :: 0 <= i < |scanners| ==> fresh(scanners[i])
      invariant Building(scanners, ss, earliest, min') && ss == NonEmptyOnes(streams)
      invariant forall i :: 0 <= i < k ==> !openings[i].Failed?
      invariant |streams| == k && AllDeliver(openings, timeOf, parser, since, until, streams)
    {
      var o := openings[k];
      if o.Failed? {
        return false, [], 0, 0, [];
      }
      assert o.Opened? ==> o.file in Handles(openings);
      ghost var stream;
      scanners, earliest, min', stream := Include(o, timeOf, parser, since, until, scanners, earliest, min', ss);
      AllDeliverNext(openings, timeOf, parser, since, until, streams, stream);
      NonEmptyOnesAppend(streams, stream);
      ss := if stream == [] then ss else ss + [stream];
      streams := streams + [stream];
    }
    return true, scanners, earliest, min', streams;
  }

  /** A scanner set on the files; null when a file exists but cannot be opened. */
  method NewFileScannerSet(openings: seq<Opening>, timeOf: SearchLog.TimeParser, parser: RecordParser, since: Time, until: Time)
    returns (r: FileScannerSet?, ghost streams: seq<Stream>)
    requires forall i :: 0 <= i < |openings| && openings[i].Opened? ==> Terminated(openings[i].file.data)
    modifies Handles(openings)
    ensures r == null <==> !AllOpen(openings)
    ensures r != null ==> fresh(r) && (forall s :: s in r.scanners ==> fresh(s))
    ensures r != null ==> r.Valid() && r.Upcoming() == NonEmptyOnes(streams)
    ensures r != null ==> |streams| == |openings| && AllDeliver(openings, timeOf, parser, since, until, streams)
  {
    var ok, scanners, earliest;
    ghost var min;
    ok, scanners, earliest, min, streams := OpenAll(openings, timeOf, parser, since, until);
    if !ok {
      return null, [];
    }
    IsBuilt(scanners, NonEmptyOnes(streams), earliest, min);
    r := new FileScannerSet(scanners, earliest, NonEmptyOnes(streams), min);
  }

  lemma MergesCons(r: Record, rest: Stream, ss: seq<Stream>, e: int)
    requires EarliestHead(ss, e) && r == ss[e][0] && Merges(rest, Advance(ss, e))
    ensures Merges([r] + rest, ss)
  {
    var out := [r] + rest;
    assert out[1..] == rest;
    assert EarliestHead(ss, e) && out[0] == ss[e][0] && Merges(out[1..], Advance(ss, e));
  }

  /** One step of reading a scanner set. */
  method Next(set_: FileScannerSet, ghost before: seq<Stream>) returns (r: Option<Record>, ghost after: seq<Stream>, ghost e: int)
    requires set_.Valid() && before == set_.Upcoming()
    modifies set_, set_.scanners
    ensures set_.Valid() && forall s :: s in set_.scanners ==> s in old(set_.scanners)
    ensures r == None <==> before == []
    ensures r.Some? ==> EarliestHead(before, e) && r.value == before[e][0] && after == Advance(before, e) == set_.Upcoming()
  {
    var ok := set_.Scan();
    e, after := set_.earliest, set_.Upcoming();
    r := if ok then set_.scanners[set_.earliest].rec else None;
  }

  /** Reads a scanner set to the end. */
  method Drain(set_: FileScannerSet, ghost before: seq<Stream>, ghost scs: set<FileScanner>) returns (out: Stream)
    requires set_.Valid() && before == set_.Upcoming() && forall s :: s in set_.scanners ==> s in scs
    modifies set_, scs
    ensures Merges(out, before)
    decreases Total(before)
  {
    ghost var after, e;
    var r;
    r, after, e := Next(set_, before);
    if r == None {
      return [];
    }
    TotalAdvance(before, e);
    var rest := Drain(set_, after, scs);
    MergesCons(r.value, rest, before, e);
    return [r.value] + rest;
  }

  /** Reading the logs of a period: every file is read in its own order, nothing is lost or repeated,
    * and the whole is in time order when each file is. */
  method ReadLogs(openings: seq<Opening>, timeOf: SearchLog.TimeParser, parser: RecordParser, since: Time, until: Time)
    returns (out: Option<Stream>, ghost streams: seq<Stream>)
    requires forall i :: 0 <= i < |openings| && openings[i].Opened? ==> Terminated(openings[i].file.data)
    modifies Handles(openings)
    ensures out == None <==> !AllOpen(openings)
    ensures out.Some? ==> |streams| == |openings| && AllDeliver(openings, timeOf, parser, since, until, streams)
    ensures out.Some? ==> Interleaves(out.value, streams)
    ensures out.Some? && (forall i :: 0 <= i < |streams| ==> SortedStream(streams[i])) ==> SortedStream(out.value)
  {
    var r;
    r, streams := NewFileScannerSet(openings, timeOf, parser, since, until);
    if r == null {
      return None, streams;
    }
    var o := Drain(r, r.Upcoming(), set s | s in r.scanners);
    MergeInterleaves(o, NonEmptyOnes(streams));
    assert NonEmptyOnes(streams) + [] == NonEmptyOnes(streams) && streams + [] == streams;
    InterleavesAll(o, streams, []);
    if forall i :: 0 <= i < |streams| ==> SortedStream(streams[i]) {
      NonEmptyOnesSorted(streams);
      MergeSorted(o, NonEmptyOnes(streams));
    }
    return Some(o), streams;
  }

  lemma {:induction false} NonEmptyOnesSorted(ss: seq<Stream>)
    requires forall i :: 0 <= i < |ss| ==> SortedStream(ss[i])
    ensures forall i :: 0 <= i < |NonEmptyOnes(ss)| ==> SortedStream(NonEmptyOnes(ss)[i])
  {
    if ss != [] {
      NonEmptyOnesSorted(ss[..|ss| - 1]);
    }
  }
}
