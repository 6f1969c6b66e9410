# Ayd: the log database and the query compiler, verified

Ayd is a status-monitoring tool. This project models the two parts of it that carry its algorithms, and three small
parts beside them, and proves what they promise.

**The log database.** A log is a file of newline-ended JSON records that are roughly in time order: a record may be up
to an hour late. `SearchLog` seeks in it by a binary search over bytes, `FileScanners` returns the records of a period
from where the search ends, and `ScannerSets` merges several files by time. `Stores`, with `Incidents` and
`ProbeHistories`, turns the stream of reported records into current incidents, a history of incidents, a counter,
callbacks, and a window of recent records per target. The reference for it is `IncidentRuns`: the maximal runs of equal
states in a list of records. `PathPatterns`, `PathDirectives` and `PathMatching` print times into log file names and
decide from a name whether the file can hold records of a period, `PathPeriods` says which periods a file's name matches
and `PathNames` which names are of a pattern; `Calendar` and `Decimals` serve them. `OpenLogs` puts
names and scanners together: which files are opened for a period, and that no record of it is missed. `LosingLogs` holds
log files from which a wanted record is lost.

**The query compiler.** `Tokenizers` cuts a query into tokens, `QueryParser` builds a tree with a stack whose nodes it
shares with the tree, `Query` pushes negations to the leaves, `TimeRange` bounds the times a query can match so that
the log need not be read outside of them, `Glob` and `GlobBuilders` match patterns, and `Matchers` holds the leaves.
`QueryMachine` is the parser's stack machine on values; `QueryGrammar` is the language as a grammar with its meaning, and
`QueryParens` is about parentheses that do not pair up. `WrittenWords` and `WrittenTokens` tell how words and whole queries
may be written and what tokens they are, and `WrittenSearch` what they find.

`QuotedSearch` puts lexer, parser, matchers and optimizer together for queries of texts in quotes, and `LogQueries` takes
the range of a query to the period of a scan.

**Beside them.** `TargetTrackers` follows which targets a source still reports, `ProbeRuns` runs several sources on one
store, and `TimeParsers` with `TimeLayouts` and `TimeTexts` reads RFC 3339 times (section 5.6 of RFC 3339 is the case with dashes,
colons and an offset) and variants of them.

A `char` stands for a byte and an `int` for an instant in nanoseconds. JSON decoding is a partial function from lines
to records. For the search it tells of a line whether it decodes and what it does to the time field that all lines are
decoded into: set it, to a time or to a text that is none, or leave it as an earlier line left it. The two are only
assumed to agree. A message carries its masked form,
so that comparing messages up to port numbers is comparing masked forms; trimming line ends off a message is a function
that the store is given. Each locked method is one atomic step.
Callbacks are recorded, in `fired`, instead of being called. Ghost fields named `log`, `rest`, `streams` and `reports`
say what an object stands for.

## Where the code does less than it promises

The code is modelled as it is, and in each of these cases a member says exactly when the promise holds.

- A scanner stops at the first line longer than the reader's buffer, because the error of the first read is still set
  after the rest of the line was read; and it starts where the search ends, which may skip records (next item). It returns
  everything wanted if and only if no turn of the search skips a wanted record and nothing wanted is on or behind the
  first such line: `FileScanners.ScannerComplete`. `LosingLogs.OverlongLost` and `LosingLogs.TimelessLost` are files from
  which the one wanted record is lost, for one reason and for the other.
- The search decodes all lines into one place, so that a line without a time of its own is used with the time of a line
  read before. The store writes such a line for a record that it cannot encode. On a log whose records may be an hour late
  a run of the search skips no wanted record if and only if none of its turns takes such a line for an old one with a
  wanted record at or in front of it: `FileScanners.NothingSkippedIff`, and `SearchLog.NothingSkippedIff` for sorted lines.
  It can be told from the file when no record from the start of the period on stands at or in front of such a line:
  `FileScanners.ClearNeverSkips`. `SearchLog.WantedLineLost` is a log of six lines on which a wanted line is lost.
- The search would grow its buffer for ever on exactly the lines that are not ended by a newline:
  `SearchLog.GrowsForEverIff`. The writer ends every line, and `SearchLog.Search` requires it.
- A disjunction takes its time range from the disjuncts that have one. On time conditions that is sound if and only if
  all disjuncts bound the same sides, or the ranges cross and cancel out: `TimeRange.JoinSoundIff` and
  `TimeRange.TimeDisjunctionIff`; `TimeRange.UnboundedDisjunctLost` is a query that loses records.
- A time without a field name is looked for in every field, but is taken to confine the time of the record. Of the
  records it matches, exactly those are lost whose own time it does not match: `TimeRange.BareTimeLostIff`;
  `TimeRange.BareTimeLost` gives such a record for every such word, and `TimeRange.BareTimeUnconfined` says that with any
  operator there is one.
- The range of a query includes its end, but the log is scanned up to in front of it: of the matches in the range exactly
  those at its end are not shown, and those that a filled-in side cuts off: `LogQueries.ScanLosesIff`. A condition on one
  whole nanosecond shows nothing: `LogQueries.InstantShowsNothing`.
- NOT on a later word of a later disjunct stays set: it negates the words behind it, and reaches into a parenthesis.
  `QueryGrammar.ParsedMeans` says for every expression what its query matches; `QueryGrammar.NotLeaks` says of
  `a OR b NOT c d` on exactly which records it goes wrong.
- At the end of a query `and` repeats the token before it, so that `not a and `, with the blank, finds nothing:
  `WrittenSearch.TrailingAnd`. Anywhere else it is no token: `WrittenTokens.WrittenScanned`.
- A parenthesis too many is no error: what is in front of it is read as if it stood in parentheses,
  `QueryParens.StrayBehind`; one that is left open is closed at the end, `QueryParens.OpenParens`.
- A pattern of empty literals only is taken for a star: `GlobBuilders.NewStringMatcher`.
- A late record that begins an incident is filed without trimming the history. At the end of a run the history is over
  its bound by no more than the number of late reports, `Stores.HistoryBounded`; it is over it at all if and only if some
  step of the run begins a late incident when the history is full, `Incidents.BoundBrokenIff`; and there are runs that
  make it as long as one likes, `Stores.RunBackwards`.
- A late record of another state inside an incident that is over ends it again, and files it in the history a second time,
  unless it was the oldest of a full history: `Incidents.FiledAgain`.
- A file whose name shows the month and not the day is taken to hold 31 days. For gap-free fields with the year a file
  matches a period that holds no time with its name if and only if the period begins in the days that its month lacks:
  `PathPeriods.MatchedInVainIff`; `PathPeriods.ShortMonthMatched` is one. The file is then read for nothing.
- The file of a time is found for every period around the time if and only if the time fields of the pattern leave no
  gap: `PathMatching.NeverLostIff`, and of the pattern's text `PathDirectives.TextNeverLostIff`.
- A time without colons and with one digit of a fraction is as long as one with colons and no fraction, and is turned
  down; so is a date without dashes with an hour and no zone, which is one character too short:
  `TimeLayouts.RoundTrip`. Anything may stand where the colons should be, and behind the ninth digit of a fraction:
  `TimeTexts.OnlyLayouts`. Numbers beyond their field, such as a month 13, are counted on: `TimeLayouts.NumbersRead`.
- A source reports itself when it has loaded its list, and is dropped as its own source all the same by a round that
  passes on no record about it when the round before did: `TargetTrackers.OwnSourceIff` says when exactly. A list
  cannot name its own source, nested lists included; it takes a probe, such as a plugin, that reports a record about
  the URL of the source.

## Model

| member | source | states |
|---|---|---|
| LogFile.ReadSeeker.Read | internal/store/search.go:39-50 | a read yields the bytes at the position, at most as many as the buffer holds, and advances by them |
| SearchLog.Search | internal/store/search.go:18-93 | on every newline-terminated file the search ends, after a run of its loop, at a line start, behind a line that was taken for one too old; when the lines are whole and sorted and no wanted one is at or in front of a timeless one, nothing wanted is skipped; on a log in order older lines are left for less than `accuracy` bytes besides |
| SearchLog.FoundBehindOlder | internal/store/search.go:13-17 | without timeless lines the position is the start of the file or right behind a line that is too old |
| SearchLog.NothingSkippedIff | internal/store/search.go:34-85 | where lines are whole and sorted, a run has only older lines in front of its bracket iff no turn takes a timeless line for older with a wanted line in front of its end |
| SearchLog.RunFinds | internal/store/search.go:38-92 | wherever a whole run of the loop ends, what the search promises holds |
| SearchLog.OneRun | internal/store/search.go:38-86 | there is one whole run of the loop on an input |
| SearchLog.WantedLineLost | internal/store/search.go:34-76 | on one log of six lines every whole run ends behind the only wanted line |
| SearchLog.LosingInOrder | internal/store/search.go:13-17 | that log is in order: whole lines, sorted times, no blank last line |
| SearchLog.TurnKeeps | internal/store/search.go:38-86 | every turn of the loop keeps the bracket, whatever the lines are, and on an orderly file without timeless lines what is known of it |
| SearchLog.ReadLineAt | internal/store/search.go:39-59 | one seek and one read show the whole line at the position, or that the buffer is too small, or the end of the file |
| SearchLog.UseLine | internal/store/search.go:61-85 | a line with a time, its own or one left by a line before, narrows the bracket; any other moves the probe forward |
| SearchLog.ExactWithoutSlack | internal/store/search.go:13-17 | with accuracy 0 the search ends exactly at the first line that is not before the target |
| SearchLog.OlderBefore | internal/store/search.go:69-70 | where lines are whole and sorted everything before the end of an older line is older |
| SearchLog.AtGarbage | internal/store/search.go:80-85 | stepping over a line without a time of its own loses no line that has one, in or past the bracket |
| SearchLog.GrowsForEverIff | internal/store/search.go:38-53 | any number of turns of the loop does nothing but double the buffer iff the line at the probe is not ended |
| FileScanners.FileScanner.constructor | internal/store/scanner.go:22-38 | a new scanner stands where the run of the search ends; of a well-written file it is going to return exactly the wanted records from there up to the first line that does not fit its buffer, which is everything wanted iff the run skips no wanted record and nothing wanted is on or behind that line |
| FileScanners.ReadFile | internal/store/scanner.go:22-70 | a scanner read to its end gives out just that |
| FileScanners.AllDelivered | internal/store/scanner.go:22-70 | when all lines of a well-written file fit and no record from `since` on is at or in front of a timeless line, reading it gives out all wanted records in file order |
| FileScanners.NothingSkippedIff | internal/store/scanner.go:27-31 | no wanted record lies before the position where a run of the search ends iff no turn of the run skips one |
| FileScanners.ClearNeverSkips | internal/store/scanner.go:27-31 | no turn skips a wanted record when none from `since` on is at or in front of a timeless line |
| LosingLogs.OverlongLost | internal/store/scanner.go:46-56 | of a file that is one record on one line longer than the buffer a scanner returns nothing |
| LosingLogs.TimelessLost | internal/store/scanner.go:27-37 | of one well-written log in time order whose lines all fit a scanner does not return the one wanted record |
| FileScanners.FileScanner.ReadSlice | internal/store/scanner.go:46-53 | a read yields the next line, or tells that the line does not fit the buffer or that the file ends |
| FileScanners.FileScanner.Scan | internal/store/scanner.go:44-70 | each scan presents the next of the records still to be returned, and fails when there are none |
| FileScanners.ScannerComplete | internal/store/scanner.go:22-70 | from where a run of the search ends the scanner returns the wanted records up to the first overlong line, which are all of the file iff the run skips none and none is on or behind that line |
| FileScanners.SeekLosesNothing | internal/store/scanner.go:27-31 | no wanted record lies before the position that a search with 70 minutes of clearance ends at |
| FileScanners.TooOldBefore | internal/store/scanner.go:27-28 | every record before a line 70 minutes too old is too old |
| FileScanners.EarlyStopLosesNothing | internal/store/scanner.go:62-68 | stopping at a record 70 minutes too new loses no wanted record |
| FileScanners.NothingAfterStop | internal/store/scanner.go:65-68 | behind a record 70 minutes too new nothing is wanted |
| FileScanners.WantedSplits | internal/store/scanner.go:44-70 | what is wanted of a file is what is wanted of its parts, in file order |
| FileScanners.WantedOfLine | internal/store/scanner.go:58-64 | of one line its record is wanted, once, iff it has one with `since <= time < until` |
| FileScanners.WantedMembers | internal/store/scanner.go:44-70 | what is wanted of a part of a file are just the records of the period on its lines |
| FileScanners.FirstOverlongIs | internal/store/scanner.go:46-56 | the line that ends a scan is the first one of more than 4096 bytes |
| ScannerSets.FileScannerSet.Scan | internal/store/scanner.go:127-150 | each scan presents an earliest head of the upcoming streams and takes it off its stream |
| ScannerSets.FileScannerSet.UpdateEarliest | internal/store/scanner.go:117-125 | the earliest scanner stands at a minimum of all times |
| ScannerSets.FileScannerSet.Step | internal/store/scanner.go:137-144 | the presented record goes, and an exhausted scanner with it |
| ScannerSets.NewFileScannerSet | internal/store/scanner.go:82-105 | files that do not exist or have no record are left out, and each other stream is what its file gives up to its first overlong line |
| ScannerSets.Drain | internal/store/scanner.go:127-150 | reading to the end merges the streams by their earliest heads |
| ScannerSets.MergeInterleaves | internal/store/scanner.go:127-150 | a merge loses, repeats and reorders nothing within a stream |
| ScannerSets.MergeSorted | internal/store/scanner.go:127-150 | a merge of sorted streams is sorted |
| ScannerSets.InterleavesAll | internal/store/scanner.go:94-97 | leaving the empty streams out changes no interleaving |
| ScannerSets.ReadLogs | internal/store/scanner.go:82-150 | reading the logs of a period interleaves what the files give up to their first overlong lines, in time order when each file is |
| OpenLogs.ListBetween | internal/store/pattern.go:337-352 | exactly the files whose names match the period are listed, in their order |
| OpenLogs.ListedIffNamed | internal/store/pattern.go:337-352 | for gap-free fields with the year the file of a time is listed iff the period holds a time with its name or begins in the days that its month lacks |
| OpenLogs.OpenLog | internal/store/scanner.go:201-208 | opening fails iff a matching file cannot be opened; with a gap-free pattern and files that hold what they are named for, every record of the period in every file comes out once, in the order of its file, and in time order when each file is |
| OpenLogs.NothingInUnmatched | internal/store/pattern.go:286-300 | a file of a gap-free pattern whose name does not match the period has no record of it |
| OpenLogs.GapNotOpened | internal/store/pattern.go:286-300 | with a gap there is a file that is named for a time in a period and is not opened for it |
| OpenLogs.InterleavesMembers | internal/store/scanner.go:127-150 | what is read has exactly the records of the streams |
| ProbeHistories.InsertSorted | internal/store/probehistory.go:86-88 | bubbling a record into a sorted list leaves it sorted |
| ProbeHistories.InsertStable | internal/store/probehistory.go:86-88 | records of the same instant stay in order of arrival |
| ProbeHistories.StableSortSorts | internal/store/probehistory.go:80-101 | sorting by insertion permutes, sorts, and keeps the order within an instant |
| ProbeHistories.SortedUnique | internal/store/probehistory.go:80-101 | a sorted list is determined by its instants |
| ProbeHistories.WindowInsert | internal/store/probehistory.go:84-92 | inserting into the last n of a sorted list gives the last n of the whole |
| ProbeHistories.ArrivalOrderIrrelevant | internal/store/store.go:405-420 | the order of arrival matters only within an instant |
| ProbeHistories.DistinctOrderIrrelevant | internal/store/store.go:405-420 | with distinct times it does not matter at all, so files may be restored newest first |
| ProbeHistories.BubbleIntoPlace | internal/store/probehistory.go:84-88 | the swaps insert the last record behind every record that is not later |
| ProbeHistories.ProbeHistory.Append | internal/store/probehistory.go:83-92 | the window is the last 60 of the stable sort of everything appended |
| ProbeHistories.ProbeHistory.AddSource | internal/store/probehistory.go:39-48 | the source is added once |
| ProbeHistories.ProbeHistory.RemoveSource | internal/store/probehistory.go:51-59 | the source is removed and no other |
| ProbeHistories.ProbeHistory.SetInactive | internal/store/probehistory.go:62-64 | no source is left |
| ProbeHistories.ProbeHistoryMap.Append | internal/store/probehistory.go:80-101 | the record goes into its target's window only, and its source is noted |
| ProbeHistories.ProbeHistoryMap.IsActive | internal/store/probehistory.go:68-70 | a target is active iff some source reports it |
| ProbeHistories.ProbeHistoryMap.RecordMembers | internal/store/probehistory.go:80-101 | the window of a target holds only records that were appended for it |
| ProbeHistories.ProbeHistoryMap.WindowSorted | internal/store/probehistory.go:80-101 | the window of a target is in time order and is the last 60 of the sort of its records |
| IncidentRuns.RunsAreMaximal | internal/store/store.go:305-376 | the runs put together are the list, each has one state, and neighbours differ |
| IncidentRuns.ClosingsAreRuns | internal/store/store.go:305-376 | per target, the closed incidents are the unhealthy runs that another run follows, each ended by the first record of that run |
| IncidentRuns.ReferenceStep | internal/store/store.go:305-376 | what one record changes of incidents, counter and callbacks depends on the incident going on alone |
| IncidentRuns.ClosedByRecord | internal/store/store.go:323-324 | an incident ends at a record of its own target |
| Incidents.Incident.constructor | internal/store/incident.go:12-19 | a new incident begins at its record and has not ended |
| Incidents.IsPrecededBefore | internal/store/store.go:288-298 | the loop finds whether the latest record before an incident is before the given time |
| Incidents.PrecededBeforeIff | internal/store/store.go:288-298 | that is, some record is before both times and every record behind it is not before the incident |
| Incidents.LastIncidentIs | internal/store/store.go:280-302 | the incident found is the last entry of the history that the time falls into, and there is none iff no entry is like that |
| Incidents.JoinsHistory | internal/store/store.go:268-321 | a late record inside an incident of its target with the same state joins it and begins none |
| Incidents.LatestJoinsNone | internal/store/store.go:274-278 | the latest record of its target belongs to no incident of the history, whatever is in there |
| Incidents.FirstAfter | internal/store/store.go:343-351 | the loop finds the first record later than the given time: it is later and every record in front of it is not |
| Incidents.NextIsFirst | internal/store/store.go:345-351 | the record that ends a late incident is later, and every record in front of it in the window is not |
| Incidents.NoneBetween | internal/store/store.go:345-351 | in a window in time order no record lies between a late record and the one that ends its incident |
| Incidents.SentLate | internal/store/store.go:354-363 | for a late beginning the handlers get the record and, if that is healthy, the first record of the window later than it |
| Incidents.LateBegun | internal/store/store.go:341-352 | an incident that ends at that record is begun late in the sense that `SetIncidentIfNeed` promises |
| Incidents.FiledAgain | internal/store/store.go:323-330 | an incident of the history that is ended again is in the history twice iff it was not the oldest of a full one |
| Incidents.Notify | internal/store/store.go:333-337 | every handler is called, with the same records |
| Incidents.FoundFacts | internal/store/store.go:268-303 | the incident found is of the record's target, and ended only if it ended later than the record |
| Incidents.NoneInHistory | internal/store/store.go:280-302 | a record that is not older than those of its target belongs to no incident of the history |
| Incidents.LengthBounded | internal/store/store.go:323-352 | over a run of steps the history never shrinks, and it is over its bound by no more than the incidents that began late |
| Incidents.BoundBrokenIff | internal/store/store.go:323-352 | over a run of steps the history outgrows its bound iff some step begins a late incident when the history is full or filled by the same step |
| Stores.Store.constructor | internal/store/store.go:52-70 | a new store is that of the empty log |
| Stores.Store.SearchLastIncident | internal/store/store.go:268-303 | the incident going on, else the latest of the history that the time falls into |
| Stores.Store.Resolve | internal/store/store.go:323-336 | the incident ends at the record and moves to the trimmed history; a healthy record is announced |
| Stores.Store.Begin | internal/store/store.go:339-375 | an unhealthy record begins one incident, going on or late, with its callbacks |
| Stores.Store.BeginOngoing | internal/store/store.go:364-374 | the incident goes on under its target, is counted once and announced |
| Stores.Store.BeginLate | internal/store/store.go:342-363 | the incident goes into the history, ended by the first later record of the window, which is announced too when it is healthy |
| Stores.Store.JoinIncident | internal/store/store.go:313-321 | the incident may begin earlier; it goes on iff status and masked message agree and it did not end before |
| Stores.Store.SetIncidentIfNeed | internal/store/store.go:305-376 | exactly which incident changes and how, and what history, current incidents, counter and callbacks become, for records in any order; an incident begun late is the last of the history, ends at the first later record of the window, and in a window in time order no record lies strictly between its ends |
| Stores.Store.LateStep | internal/store/store.go:342 | only an unhealthy record behind a later one of its target begins an incident late |
| Stores.Store.TouchesOwnTarget | internal/store/store.go:268-376 | a record changes incidents of its own target only, and no current incident is in the history too |
| Stores.Store.InOrderFacts | internal/store/store.go:268-303 | in a run in time order the record belongs to the incident going on and is never late |
| Stores.Store.SetTimely | internal/store/store.go:305-376 | in time order a record does to the views of the incidents what the reference says |
| Stores.Store.ReportIncident | internal/store/store.go:305-376 | a record in time order keeps current incidents, the last 20 closed ones, counter and callbacks those of the runs of the log |
| Stores.Store.Report | internal/store/store.go:381-393 | the record is taken with its message trimmed; the invariant holds in every run; in a run in time order the store refines the runs of its log; the history gets longer by what the step says; records about Ayd itself change nothing |
| Stores.Run | internal/store/store.go:381-393 | a whole run from a new store: the invariant holds whatever is reported in whatever order, in time order the store ends up with what the runs of the log say, and the history is as long as the steps of the run make it, of which only those of late reports begin late incidents |
| Stores.HistoryBounded | internal/store/store.go:323-352 | at the end of a run the history is over its bound by no more than the number of late reports |
| Stores.NoneLateInOrder | internal/store/store.go:342 | in a run in time order no report is late, so that the bound holds |
| Stores.RunBackwards | internal/store/store.go:342-352 | two reports for each of any number of targets leave a history of that length, so that 21 targets break the bound |
| Stores.Store.ActivateTarget | internal/store/store.go:476-489 | the source reports the target from now on, and nothing else changes |
| Stores.Store.DeactivateTarget | internal/store/store.go:492-501 | the source reports none of the targets any more, and nothing else changes |
| TargetTrackers.TargetTracker.Activate | internal/scheme/targettracker.go:62-89 | a reported target is active once and no longer inactive |
| TargetTrackers.TargetTracker.PrepareReporter | internal/scheme/targettracker.go:41-52 | a round begins with the targets active so far as the inactive ones |
| TargetTrackers.FixedSourceReporter.Report | internal/scheme/targettracker.go:19-23 | a report reaches store and tracker in the name of the source, and adds that one pair to what the store knows of all sources |
| TargetTrackers.SourceScheme.BeginProbe | internal/scheme/source.go:463-474 | the source reports itself and the round is prepared, in store and tracker alike, and that one pair is added |
| TargetTrackers.SourceScheme.EndProbe | internal/scheme/source.go:487 | the targets that did not report lose the source, in store and tracker alike, and no other pair goes |
| TargetTrackers.RoundSettles | internal/scheme/source.go:443-488 | after a round the source has exactly the targets that reported in it, but for itself |
| TargetTrackers.SourcesFollowRounds | internal/scheme/source.go:443-488 | however rounds of several sources interleave, another target has the source iff the source's latest round reported it |
| TargetTrackers.ActiveFollowsRounds | internal/store/probehistory.go:66-70 | a target that is no source is active iff some source's latest round reported it |
| TargetTrackers.OwnSourceIff | internal/scheme/source.go:443-488 | after its rounds a source is its own source iff the latest failed, or passed on a record about it, or no round before had done so |
| ProbeRuns.WorldAgain | internal/scheme/source.go:443-488 | a step of one source leaves store and trackers in step with the events of all sources |
| ProbeRuns.Act | internal/scheme/source.go:443-488 | each action of a source takes the store and all trackers to where the events say |
| ProbeRuns.RunRounds | internal/scheme/source.go:443-488 | a whole run of several sources on a new store: at its end another target is active iff some source's latest round reported it, however the rounds interleave |
| ProbeRuns.ActivityOfRounds | internal/store/probehistory.go:66-70 | in a store in step with the events a target that is no source is active iff the latest round of some source reported it |
| Calendar.LaterMonth | internal/store/pattern.go:410-421 | a later month begins when the earlier one is over |
| Calendar.InOrderByField | internal/store/pattern.go:410-421 | a later instant is later in years, months, days and hours |
| Calendar.InstantInjective | lib-ayd/time.go:199 | valid times of one instant are equal |
| Calendar.MonthEnds | lib-ayd/time.go:199 | how many days of the year are over at the end of each month, in any year |
| Calendar.KnownInstants | lib-ayd/time.go:199 | six times with their Unix times, among them the leap days that 1900 and 2100 lack and 2000 has |
| Calendar.CountedOn | internal/store/pattern.go:410-421 | hours, minutes, seconds and nanoseconds beyond their range count on into the field above |
| Calendar.MonthsCountedOn | lib-ayd/time.go:199 | months beyond the year count on into the next one |
| Calendar.DaysCountedOn | internal/store/pattern.go:410-421 | days beyond the month count on into the next one |
| Calendar.InYearsIff | lib-ayd/time.go:201-203 | the instants that are let through are those of the years up to 9999 |
| PathPatterns.FillTimePattern | internal/store/pattern.go:32-196 | a text fills its field if it is in range and agrees with what was found before |
| PathPatterns.Build | internal/store/pattern.go:258-264 | the name is the fragments printed one behind the other |
| PathPatterns.ParseTimePattern | internal/store/pattern.go:266-284 | the loop reads the fragments off the name and demands that nothing is left |
| PathPatterns.ParsedBuilt | internal/store/pattern.go:258-284 | reading a name that was built from a time finds exactly the time's fields |
| PathNames.ParsedIff | internal/store/pattern.go:32-284 | a name is read, and as these fields, iff it is made of one text for each fragment, each the constant itself or a number in range, that all say these fields |
| PathPatterns.Exec | internal/store/pattern.go:370-408 | fields not found are those of the time above the finest one found and those of the base below it |
| PathPatterns.Match | internal/store/pattern.go:286-300 | the name matches when it parses, its latest time is not before the period and its earliest time not behind it |
| PathMatching.MatchesBuilt | internal/store/pattern.go:286-300 | with gap-free fields, the name built for a time in a period matches the period, days beyond the end of a month included |
| PathPeriods.MatchesIffNamed | internal/store/pattern.go:286-300 | for gap-free fields with the year, and with the day, without the month or in a month of 31 days, the file of a time matches a period iff some valid time in the period has its name |
| PathPeriods.MatchedInVainIff | internal/store/pattern.go:370-421 | it matches a period that holds no such time iff the fields have the month and not the day and the period begins in the days that the month lacks |
| PathPeriods.NamedMatches | internal/store/pattern.go:286-300 | a file that is named for some time in the period matches it |
| PathPeriods.ShortMonthMatched | internal/store/pattern.go:367 | the file of February 2022 matches the first two days of March |
| PathPeriods.SameNameIff | internal/store/pattern.go:258-264 | two printable times have the same name iff they agree in the fields of the pattern |
| PathMatching.FileHolds | internal/store/pattern.go:370-421 | the latest and earliest time a file may hold enclose the time it is named for |
| PathMatching.GapLoses | internal/store/pattern.go:378-405 | with a gap below a field, the file of the instant at which that field changes is missed |
| PathMatching.NeverLostIff | internal/store/pattern.go:286-408 | no file is ever missed iff the fields leave no gap, whether the end belongs to the period or not |
| PathDirectives.ParsePathPattern | internal/store/pattern.go:199-248 | the fragments spell the pattern: doubled, unknown and trailing percent signs included |
| PathDirectives.BuiltRendered | internal/store/pattern.go:199-264 | the name built is the pattern's text with its directives replaced |
| PathDirectives.DirectiveRendered | internal/store/pattern.go:225-242 | what each directive puts into a name, and what a percent sign in front of any other character does |
| PathDirectives.KnownName | internal/store/pattern.go:199-264 | the name of one pattern with the time down to the minute, at one time |
| PathDirectives.NameBuilt | internal/store/pattern.go:258-264 | the name that a pattern stands for is the one that is built |
| PathDirectives.FieldsOfItems | internal/store/pattern.go:225-240 | the fields of the fragments are the directives in the text |
| PathDirectives.TextNeverLostIff | internal/store/pattern.go:199-408 | no file of a store with a pattern is ever missed iff the directives in the pattern's text leave no gap |
| Query.Optimize | internal/query/query.go:131-145 | optimizing ends, by a weight in which a negation is exponential in its argument and that never grows |
| Query.Invert | internal/query/query.go:147-153 | inverting gains at most the weight of a negation |
| Query.NotsLighter | internal/query/query.go:147-151 | negating the parts weighs less than negating the whole |
| Query.OptimizeKeepsMatch | internal/query/query.go:131-265 | an optimized query matches the same records |
| Query.InvertNegates | internal/query/query.go:147-265 | an inverted query matches exactly the other records |
| Query.OptimizeNormal | internal/query/query.go:131-265 | negations stand above leaves only, nothing is directly in its own kind, nothing is alone in a conjunction |
| Query.NormalIsOptimal | internal/query/query.go:131-265 | a query in normal form is left as it is |
| Query.OptimizeIdempotent | internal/query/query.go:131-265 | optimizing twice is optimizing once |
| Matchers.LiteralPartition | internal/query/valuematcher.go:170-248 | below, in and above one time literal split all instants, and the inclusive operators complement the others, for instants, numbers and texts that read as a time alike |
| Matchers.LiteralOnOthers | internal/query/valuematcher.go:215-235 | a value that stands for no time is matched at most as a text, without an operator |
| Matchers.MatcherRangeExact | internal/query/valuematcher.go:237-268 | the range of a time matcher holds exactly the instants it matches |
| Matchers.TimeLeafExact | internal/query/query.go:338-386 | a condition on exactly the field time matches exactly the records in its range |
| Matchers.NamedFieldExact | internal/query/query.go:338-353 | a condition on exactly one of the five named fields is about that field alone |
| Matchers.ExtraFieldExact | internal/query/query.go:355-368 | a condition on exactly another field is met iff some value under that key meets it |
| Matchers.UnmatchedOutside | internal/query/query.go:267-288 | a record that a leaf does not match is outside the range of the leaf, if it has one |
| TimeRange.AndTimeRange | internal/query/query.go:155-171 | the loop computes the intersection of the parts' ranges |
| TimeRange.OrTimeRange | internal/query/query.go:219-239 | the loop computes the hull of the bounds there are, and nothing when they cross |
| TimeRange.MeetExact | internal/query/query.go:155-171 | the intersection holds exactly the instants in all ranges |
| TimeRange.JoinBounds | internal/query/query.go:219-233 | each bound of the hull is the bound of some part, and no part goes beyond it |
| TimeRange.JoinExact | internal/query/query.go:219-239 | where all parts have a start only, or all an end only, the hull holds exactly the instants of the parts |
| TimeRange.ComplementExactIff | internal/query/query.go:267-288 | the complement of a range holds exactly the other instants iff the range has exactly one bound or is empty |
| TimeRange.TimeRangeExact | internal/query/query.go:155-288 | a query of time conditions, conjunctions, disjunctions of ranges open to the same side and negations of ranges with one bound matches exactly the records in its range |
| TimeRange.JoinSoundIff | internal/query/query.go:219-239 | the hull covers all ranges iff they bound the same sides or cross |
| TimeRange.TimeRangeSound | internal/query/query.go:155-288 | a record that a prunable query matches is in the query's range |
| TimeRange.TimeDisjunctionIff | internal/query/query.go:219-239 | the range of a disjunction of time conditions covers its matches iff the conditions bound the same sides or their ranges cross |
| TimeRange.PruningLosesNothing | internal/query/query.go:131-288 | skipping the log outside the range of the optimized query loses no match of the query |
| TimeRange.UnboundedDisjunctLost | internal/query/query.go:224-232 | a disjunct without a bound has matches outside the range |
| TimeRange.BareTimeLostIff | internal/query/query.go:298-327 | a record that a time without a field name matches is outside its range iff the time matches another field and not the record's own time |
| TimeRange.BareTimeLost | internal/query/query.go:298-327 | a record from any other time whose message holds the word is matched and lost |
| TimeRange.BareTimeUnconfined | internal/query/query.go:298-327 | with any operator some record that a time without a field name matches is outside its range |
| LogQueries.ScanLosesIff | internal/endpoint/log.go:50-64 | a record that a prunable query matches is not in the scanned period iff it is at the end of the range or cut off by a side that was filled in |
| LogQueries.ShowsAllIff | internal/endpoint/log.go:50-135 | all matches of a prunable query are shown, in their order, iff none of them is cut off |
| LogQueries.CallLosesIff | internal/endpoint/mcp.go:271-281 | of the matches between the two times of a tool call exactly those at the end of the range are not scanned |
| LogQueries.InstantShowsNothing | internal/endpoint/log.go:58-60 | a condition on one whole nanosecond matches records and shows none |
| QueryMachine.RunConcat | internal/query/query.go:62-97 | reading two token lists in a row is reading one behind the other |
| QueryParser.AttachNode | internal/query/query.go:35-60 | pushing a node into a level changes that level's own nodes only, to what the machine says |
| QueryParser.OpenParen | internal/query/query.go:64-67 | a parenthesis opens a level that the tree below shares |
| QueryParser.CloseParen | internal/query/query.go:68-76 | a level is closed; one too many wraps everything, as the machine does, of which `QueryParens.StrayBehind` says what that means |
| QueryParser.StepToken | internal/query/query.go:62-96 | each token takes stack and shared nodes where the machine on values goes |
| QueryParser.ParseQuery | internal/query/query.go:28-103 | for every token list the tree is the optimized query of the machine |
| QueryParens.StrayParen | internal/query/query.go:68-76 | a parenthesis too many behind tokens that pair up is read as if it stood opened at the very beginning |
| QueryParens.StrayBehind | internal/query/query.go:68-76 | behind a written expression it is read as if the expression stood in parentheses |
| QueryParens.StrayMeans | internal/query/query.go:68-76 | the expression in front and the factors behind must all accept the record |
| QueryParens.OpenParens | internal/query/query.go:64-102 | parentheses left open are read as if they were closed at the end |
| QueryGrammar.ParsedMeans | internal/query/query.go:28-103 | for every expression the parser builds a query that matches exactly what the expression means with its leaking NOT mode, optimized or not |
| QueryGrammar.ParsedAsWritten | internal/query/query.go:28-103 | for every well-formed expression it matches exactly the records the grammar accepts |
| QueryGrammar.MeansAsWritten | internal/query/query.go:32-60 | where nothing leaks, what an expression means is what the grammar accepts |
| QueryGrammar.RunFactors | internal/query/query.go:35-60 | a list of factors builds their conjunction, in the level or in its last disjunct |
| QueryGrammar.RunTerms | internal/query/query.go:77-79 | terms behind OR build their disjunction |
| QueryGrammar.NotLeaks | internal/query/query.go:47-56 | `a OR b NOT c d` is read as `a OR b NOT c NOT d`, which goes wrong on exactly the records that match b but neither a nor c |
| Glob.StringMatcher.Match | internal/query/stringmatcher.go:33-103 | each kind of matcher accepts exactly the texts that its pattern splits |
| Glob.MatchGlob | internal/query/stringmatcher.go:33-55 | the loop finds the chunks iff they fit, without going out of range |
| Glob.GreedyStep | internal/query/stringmatcher.go:46-52 | taking the leftmost occurrence of a chunk misses no way to fit the others |
| Glob.GlobSplits | internal/query/stringmatcher.go:33-55 | prefix, chunks and suffix fit iff the pattern splits the text |
| GlobBuilders.GlobBuilder.FeedLiteral | internal/query/stringmatcher.go:114-123 | a literal is appended to what was fed, with a star between two literals in a row, and the chunks' length is their total; the empty literal alone breaks what `Build` needs |
| GlobBuilders.GlobBuilder.FeedStar | internal/query/stringmatcher.go:125-129 | a star is appended to what was fed |
| GlobBuilders.GlobBuilder.Build | internal/query/stringmatcher.go:131-162 | whichever matcher is chosen, it means what was fed |
| GlobBuilders.NewStringMatcher | internal/query/stringmatcher.go:167-189 | the matcher means the pattern iff the pattern is not made of empty literals only, which match everything |
| GlobBuilders.SplitsConcat | internal/query/stringmatcher.go:167-189 | a concatenation of patterns splits the concatenations of texts |
| Tokenizers.CutWord | internal/query/tokenizer.go:139-239 | one pass over the bytes cuts a word into the pieces of the three-pass reading, and ends where the word ends |
| Tokenizers.ReadOp | internal/query/tokenizer.go:189-228 | one or two bytes outside quotes are an operator |
| Tokenizers.LeadingIsWritten | internal/query/tokenizer.go:189-228 | looking one byte ahead sees the operators of the unquoted text |
| Tokenizers.PiecesWellCut | internal/query/tokenizer.go:150-163 | a literal right behind another one begins with a star |
| Tokenizers.AssembleKeyword | internal/query/tokenizer.go:241-314 | the first equality, else a comparison with an orderable text, splits key and value; else all is text, as the definition in three passes says, of which `WrittenWords.WordRead` says what it makes of written words |
| Tokenizers.ScanOf | internal/query/tokenizer.go:87-124 | a successful scan consumes input; a failed one saw only blanks and leaves the token |
| Tokenizers.Tokenizer.ScanKeyword | internal/query/tokenizer.go:139-319 | the token is that of the word, and exactly the word is consumed |
| Tokenizers.Tokenizer.Scan | internal/query/tokenizer.go:87-124 | the scan with its loop and its recursion is the scan of the definition |
| WrittenWords.WordRead | internal/query/tokenizer.go:139-319 | a word of texts in quotes or without, escapes, stars and at most one operator is read to its end, as the keyword with just the key, operator and value that are written |
| WrittenWords.QuotedCondition | internal/query/tokenizer.go:189-314 | key and value in quotes with any of the eight operators in between: which field condition that is, and when it is none |
| WrittenTokens.WrittenScanned | internal/query/tokenizer.go:68-124 | a query written of words, `and`, `or`, `not`, signs and parentheses, in either case and with any blanks, yields one token for each item but `and` |
| WrittenTokens.ScanWritten | internal/query/query.go:62 | scanning such a query to its end yields these tokens |
| WrittenSearch.WrittenFound | internal/query/query.go:28-103 | a written query whose tokens are those of a well-formed expression finds what the grammar accepts |
| WrittenSearch.NegationFinds | internal/query/tokenizer.go:300-307 | `!=` and `<>` find exactly the records that `=` does not, whatever key and value are |
| WrittenSearch.QuotedNegation | internal/query/tokenizer.go:300-307 | the same of a key and a value in quotes |
| WrittenSearch.FieldFinds | internal/query/query.go:338-353 | a condition on exactly a named field finds the records of which that field compares so with the value |
| WrittenSearch.FieldTextFinds | internal/query/valuematcher.go:71-97 | an equality with a text that cannot be ordered finds the records of which the text of the field is that text, or is not |
| WrittenSearch.TrailingAnd | internal/query/tokenizer.go:108-110 | a negated word with `and` behind it at the end finds nothing |
| QuotedTokens.QuotedWord | internal/query/tokenizer.go:165-239 | a quoted text is one word with just that text, whatever is in it |
| QuotedTokens.TokensPrinted | internal/query/tokenizer.go:87-319 | texts in quotes come back as one keyword each |
| QuotedTokens.ScanPrinted | internal/query/query.go:62 | scanning a query of texts in quotes to its end yields one keyword per text, in order |
| QuotedSearch.NewStringValueMatcher | internal/query/valuematcher.go:71-83 | the matcher built for a text accepts just the values whose text the pattern splits, anywhere in it when there is no operator |
| QuotedSearch.TextFound | internal/query/valuematcher.go:42-97 | a text that cannot be ordered is found iff it occurs in the text of a field |
| QuotedSearch.QuotedTextsFound | internal/query/query.go:28-103 | lexer, parser, matchers and optimizer together: a query of texts in quotes finds exactly the records in which each text occurs in some field, texts that can be ordered being left to their own matchers |
| TimeParsers.ParseFraction | lib-ayd/time.go:162-173 | the loop gives nine digits, filled up with zeros, and a tenth of the resolution for each one there is |
| TimeParsers.ParseTime | lib-ayd/time.go:120-176 | the time of day is that of the layout its length or its point tells, with no index out of range |
| TimeParsers.ParseRfc3339 | lib-ayd/time.go:178-206 | any text is read without going out of range, to the time it says or to none |
| TimeLayouts.DateRead | lib-ayd/time.go:48-70 | a date with or without dashes is read back |
| TimeLayouts.ZoneRead | lib-ayd/time.go:76-118 | Z and the three forms of an offset are read back |
| TimeLayouts.NoZoneRead | lib-ayd/time.go:76-118 | the end of a text without a zone is never taken for one |
| TimeLayouts.TimeRead | lib-ayd/time.go:120-176 | a time of day is read back, except without colons and with one digit of a fraction |
| TimeLayouts.FractionTruncates | lib-ayd/time.go:162-173 | the nanoseconds are the fraction, of any length, rounded down |
| TimeLayouts.RoundTrip | lib-ayd/time.go:178-206 | every valid time in every supported layout is read as exactly what the text says, except in the two layouts that are never read |
| TimeLayouts.NumbersRead | lib-ayd/time.go:178-206 | numbers in a supported layout, whether or not there is such a time, are read as what they count on to, and turned down iff that is beyond the year 9999 or the layout is never read |
| TimeTexts.OnlyLayouts | lib-ayd/time.go:178-206 | every text that is read is one of the layouts, up to what stands for colons and behind the ninth digit of a fraction, and is read as what its numbers say |

## Left out

- Files, channels, the console writer, timers and locks: a file is its bytes, and an opening is a parameter that may say that there is no file or that it failed.
- JSON and URL libraries, and the rules that mask port numbers in messages: abstract functions and identities.
- Short reads and other read errors: a read fills the buffer as far as the file goes.
- Probes other than sources and their rounds, network schemes, HTTP endpoints but for the period they scan, templates, other output formats, command lines and cron schedules.
- `SourceScheme.Probe` runs the probes of a round in goroutines: a round is its events in any order, and rounds of different sources may interleave; sources in sources are not modelled.
- `Store.Restore`: reading the files is not modelled; that the order of the files does not matter to the windows is.
- The lists that the store hands out, filtered by activity and sorted.
- Zones with daylight saving time: a zone is a fixed offset.
- The fallback layouts of `time.Parse` behind the RFC 3339 reader, and number and duration matchers, which are opaque leaves.
- `PathPattern.ListAll` and its comparator, globs of path patterns, and path separators other than the slash.
- `urlSet`, paging, status names, sort comparators and other members whose contracts would only repeat their bodies.
- The `paren` flag of a conjunction, which is never read.
- SearchLog.Search: promises precision only where the last line is not blank, because blank lines at the end of a file make the loop halve its bracket on the end of the file.
- SearchLog.NothingSkippedIff: is about the turns of a run, and so is `FileScanners.NothingSkippedIff`; of the file alone the condition is given one way, by `SearchLog.Search` and `FileScanners.ClearNeverSkips`.
- OpenLogs.OpenLog: takes the files that the glob of the pattern finds, with what opening each gives, as a parameter, and one zone for names, records and period; with an empty pattern the code reads the windows in memory, which is not modelled.
- LogQueries.ScanLosesIff: is about prunable queries and records without an extra field named time; what any other query loses besides is the range's own fault.
- SearchLog.UseLine: is the part of the loop of `searchLog` that looks at a whole line, split off to keep proofs small; so are `ReadLineAt` and the members of other modules that begin, join or end something.
- Stores.Store.SetIncidentIfNeed: is given the window of the record's target as a value instead of looking it up.
- Stores.RunBackwards: and the steps of `Stores.Run` are about reports that are late by any amount; that real ones are late by an hour at most is not used.
- QueryGrammar.ParsedAsWritten: asks of a later disjunct that NOT stands only on its first factor, or on a word at its end; what every other expression means instead is `ParsedMeans`.
- QuotedSearch.QuotedTextsFound: leaves the matchers of texts that read as a number, a duration or a time, the printing of values that are no texts, and the matchers of field names to parameters.
- WrittenWords.WordRead: is about words that are ended; a quote that is not closed, or a backslash at the end, is read by `Tokenizers.CutWord`, with no property beside it. Two texts without quotes side by side at the beginning of a word are one text.
- PathPeriods.MatchesIffNamed: is about patterns with the year; without it a file matches periods of other years as well, and only that none is missed is proved.
- PathNames.ParsedIff: a number in a name may have a sign, as in the library function that reads it.
- Tokenizers.AssembleKeyword: hands over patterns and operators, of which `QuotedSearch.MatcherOf` makes matchers; whether a text is orderable is a parameter.
