# Ceres, modelled and proved

Ceres runs data-collection components, stores their records in a database and exports them to
files. This project models the parts of it that carry protocols, arithmetic or text formats, and
proves what they promise for every input and over every run. `dafny verify dfyconfig.toml` checks
all of it.

## What is modelled

* **The live exporter and its runs** (`Calendar`, `Spans`, `Keys`, `Decisions`, `Live`,
  `LiveSafety`, `LiveLoss`, `StartChecks`, `ExportRuns`, `Archive`, `Exporter`). A state machine whose steps are
  stores, prunes, notifications, wakes, failures, crashes at any point of an append, checks at
  start, and export runs. `Exporter` is the same protocol as classes whose methods update
  `pending`, `working`, `last`, `late` and the files in place; each method is proved to take the
  machine's steps, so it inherits what the machine keeps.
* **Line files as bytes** (`Lines`, `Csv`, `Torn`, `Disk`, `DiskRuns`, `CsvFormats`): physical lines, records by line or by quote
  parity, a file's tail, appends cut at any byte or made after a torn end. `Disk` says which bytes store
  a file of the state machine, `DiskRuns` runs the exporter on bytes and proves each such run a run of
  the machine, and `CsvFormats` gives a format all of it holds for.
* **Reconciliation** (`Reconcile`, `Engine`): the recursive plan over two component trees and its
  replay on a tree that earlier actions have already changed.
* **Backoff schedules** (`Reals`, `Schedule`): the closed form of a growing or shrinking interval
  schedule against adding one step at a time, over exact reals. `math.log` quotients are read as
  the least power that crosses.
* **Dated folders** (`Layouts`, `Units`, `Folders`, `Walk`, `Raising`, `Spellings`, `Ordering`,
  `Disorder`, `Search`): rendering, pattern matching, merging of fields, periods, the search that
  prunes by period, when it raises, which folders it finds that no time renders, and in which order
  it yields them.
* **Addresses and what is computed over the tree** (`Addresses`, `Statistics`, `Events`, `Access`).

The clock, the database, the file system's contents and the set of components that refer to a
component are parameters. A moment is a count of microseconds since 0001-01-01, UTC.

## Main results

* No run of the live exporter breaks a file's order or loses a notified record in silence, whatever
  it interleaves and wherever crashes cut an append: `LiveLoss.FilesStaySound`,
  `LiveLoss.NothingIsLost`, `LiveLoss.QuietFilesAreComplete`, and over runs on bytes
  `DiskRuns.DiskStaysSound`, `DiskRuns.DiskLosesNothing`. What a wake writes and when it marks a period
  late is `LiveLoss.WriteExactly` and `LiveLoss.LateExactly`, what a restart checks and leaves unwritten
  `StartChecks.CheckedExactly` and `StartChecks.StartCheckExactly`.
* A torn file is taken up again to the bytes of an uninterrupted write: `Lines.CutAnywhereRecovers`,
  `Csv.CsvSurvivesAnyCut`.
* A run does what is stored and asked for, a plan foretells it, and runs lose nothing archived:
  `ExportRuns.RunDoesExactly`, `ExportRuns.PlanListsExactly`, `ExportRuns.PlanPredictsRun`,
  `Exporter.LiveExporter.Start`, `Archive.NothingLeavesTheArchive`, `Archive.OverwriteKeepsExactly`.
* Periods tile time and ranges align: `Spans.RunSelectsExactly`, `Spans.ExpandIsLeast`,
  `Spans.ShrinkIsGreatest`, `Units.PeriodIsCivil`.
* Reconciliation plans exactly what differs and converges: `Reconcile.PlanIsGrouped`,
  `Reconcile.PlanExactly`, `Reconcile.Converges`, `Engine.Engine.Apply`.
* The closed form of a schedule is the schedule: `Schedule.NextFireMeetsSchedule`,
  `Schedule.TriggerIsExact`, over the steps of `Schedule.StepsFollow`.
* Folders read back as what they were rendered for, and the search loses none, raises, strays from
  rendered names and leaves time order exactly when stated: `Folders.ReadBackIsUnit`,
  `Folders.SameFoldersExactly`, `Walk.WalkIsLossless`, `Raising.SearchRaisesExactly`,
  `Spellings.FoundIsRenderedExactly`, `Disorder.TimeOrderExactly`.
* Selectors, roll-ups, events and grants mean what the tree says: `Addresses.SelectorMeaning`,
  `Statistics.RollUpConserves`, `Events.Nodes.Propagate`, `Access.AccessGrants.Resolve`.

## What is false of the code, and exactly when

* A *partial* `purge` run rewrites a file without the records it does not select, and takes its
  period off the late list: a notified, stored record can then be lost in silence.
  `LiveLoss.OnlyPartialPurgeLoses`: a run loses nothing if and only if it is no partial purge.
* A live append that fails part way while the file's last key is remembered leaves that key behind
  the file: `LiveLoss.RememberedKeyOutlivesFailedAppend` (the state stays sound if and only if nothing
  reached the file). Where the append stopped between records, the retry appends the same records
  again: `LiveLoss.RetryAppendsTwice`. Where it stopped inside one, the retry joins that part to the
  first record it appends, if and only if the quotes of the part balance (`Torn.TornIsGlued`). In a row
  cut inside quotes the open quotes swallow what is appended: nothing of it can be read back if and only
  if none of it holds a newline (`Torn.SwallowedExactly`), and otherwise the first newline closes them
  (`Torn.SwallowedUpTo`). `DiskRuns.RetryAfterTorn` says this of the exporter, `Torn.QuoteSwallows` is
  such a file, and a later check cuts off what was swallowed (`Torn.SwallowedIsCut`).
* The check at start remembers the key it has read before it appends, so the same holds of its
  append: `LiveLoss.FailedCheck`. The next check of that period puts it right, but the check moves on
  with the time and the newest record: `StartChecks.CheckedExactly`, `StartChecks.LaterCheckMovesOn`.
* `overwrite` can drop archived records when the database has lost a record no older than its
  oldest one: `Archive.OverwriteLoses` is such a history. `Archive.OverwriteKeepsExactly` states the
  condition as an if-and-only-if and `Archive.InsertKeepsComplete` when an insert breaks the usual
  sufficient one.
* A file's header is compared with the first *complete record*. A file that is long enough to hold
  the header but holds no complete record passes the check and never gets its header:
  `Lines.HeaderCheckNeedsARecord`, `Lines.HeaderStaysMissing`, and the file `Lines.HeaderlessPasses`.
* The closed form of a limited schedule, asked at the very runtime at which the limit takes hold,
  skips the fire that is due and gives the next (`Schedule.FirstExceptAtLimit`,
  `Schedule.SkippedFire`), and a trigger asked at its start gives the first fire after it, although
  it gives the start while that lies ahead. `Schedule.TriggerIsExact` names both moments in one
  if-and-only-if. The trigger's documentation says "at or after `now`".
* The folder search leaves out everything below a unit that ends past the last representable time,
  so `9999/05` is never found under `{yyyy}/{MM}` though an unpruned listing has it:
  `Walk.LastYearIsLost`, and `Walk.WalkIsLossless` for the exact condition.
* The folder search raises an error it does not catch on a name that settles a day of the year and
  the year 0 (`Raising.RaisesExactly`). Some tree makes it raise under a layout if and only if a level
  of the layout brings year and day of the year together before any level above names a period
  (`Raising.SearchRaisesExactly`): `{yyyy}_{DDD}` and `{DDD}/{yyyy}` can raise, `{yyyy}/{DDD}` never
  does (`Raising.WhichRaise`, and the tree `Raising.YearZeroTrips`).
* The documentation has the search skip names the layout cannot have rendered. It finds `2024/05`
  under `{yyyy}/{M}`, which renders `2024/5` (`Spellings.UnrenderedIsFound`). Of the folders found,
  some time renders exactly those without a zero before a number of variable width
  (`Spellings.FoundIsRenderedExactly`).
* The documentation has folders come in time order. Under `{MM}/{yyyy}` January 2025 comes before
  February 2024 (`Disorder.MonthsBeforeYearsDisorder`), and under `{yyyy}/{M}/{dd}` a tree that holds
  `05` beside `5` is out of order too (`Disorder.TwoSpellingsDisorder`). `Disorder.TimeOrderExactly`:
  every tree comes in time order if and only if the fields settled at each level have no gap from the
  year down and no day of a year still unknown, and no level with a number of variable width has a
  finer field below it. For rendered folders alone the first half is the exact condition
  (`Disorder.RenderedOrderExactly`).

* A layout may hold two numbers of variable width with digits between them, and then what it renders
  can be read in another way: 10 May under `{M}1{d}` reads back as month 51 and day 0,
  `Layouts.MayTenthIsMisread`. Where no run of digits holds two such numbers every name is read one way
  only, `Layouts.FitsOneWay`.

## Model

| member | source | states |
|---|---|---|
| Calendar.MonthDayClosed | ceres/exporter.py:903-905 | counting Gregorian months one by one agrees with the leap-year rule in closed form, for every year |
| Calendar.ShiftAligned | ceres/exporter.py:896-907 | shifting a period start by any representable count gives a period start again |
| Calendar.ShiftsAdd | ceres/exporter.py:896-907 | shifts add up, so one shift undoes another, months of different lengths and year ends included |
| Calendar.PeriodHolds | ceres/exporter.py:882-893 | the period given for a moment is aligned, starts at or before it and ends after it |
| Calendar.PeriodIsUnique | ceres/exporter.py:882-893 | an aligned span that holds a moment is the moment's period: periods never overlap |
| Calendar.InPeriod | ceres/exporter.py:882-907 | a moment lies between a period's bounds if and only if that period is the one given for it |
| Calendar.PeriodMonotone | ceres/exporter.py:882-893 | later moments never belong to earlier periods |
| Calendar.NoStartBetween | ceres/exporter.py:910-924 | between a period start and the next there is no other, so stepping misses none |
| Spans.ExpandIsLeast | ceres/exporter.py:968-988 | `expand` gives the least range of whole periods that contains the request |
| Spans.ShrinkIsGreatest | ceres/exporter.py:984-993 | `shrink` gives the greatest range of whole periods inside the request, and nothing exactly when none fits |
| Spans.CollectFiles | ceres/exporter.py:910-924 | the generator loop ends and yields exactly the files of the recursive definition |
| Spans.SpanFilesTile | ceres/exporter.py:996-1007 | the selected parts run from the span's start to its end without gap or overlap, each inside one aligned whole period |
| Spans.TilesAreOrdered | ceres/exporter.py:996-1007 | files come in time order: an earlier one ends before a later one starts |
| Spans.SelectedExactlyOnce | ceres/exporter.py:996-1007 | a moment lies in the span if and only if some file selects it, and then exactly one does |
| Spans.AlignedModesTakeWholeFiles | ceres/exporter.py:968-1007 | under `expand` and `shrink` every selected part is the whole file |
| Spans.OnlyEndsArePartial | ceres/exporter.py:996-1007 | an exact range splits no file but the first and the last |
| Spans.RunSelectsExactly | ceres/exporter.py:968-1007 | under every range mode, for every period and `all`, the run's files select exactly the moments asked for (those of the request, of the periods it touches, or of the periods it contains), each in one file, which stands for the moment's whole period |
| Keys.SortedIsOnly | ceres/exporter.py:2158-2162 | key order leaves a query one result: any strictly increasing listing of a set of records is it |
| Keys.IncreasingAppend | ceres/exporter.py:2175-2185 | records newer than a file's last key keep the file strictly increasing when appended |
| Decisions.OnlyAskedForIsTouched | ceres/exporter.py:1474-1492 | an existing file is touched only by a purge, or by an overwrite of all its time with records and no history before it; nothing is written without records, only `error` refuses, and the reason for keeping a file is true |
| ExportRuns.RunDoesExactly | ceres/exporter.py:2296-2423 | after a completed run, under every conflict mode, a covered file that was missing is there if and only if stored records are selected for it, and holds those; one that was there is written again by a purge that selects records, or an overwrite of all its time with records and the oldest record no later than its start, removed by any other purge, and otherwise as it was; the last key and the late mark of any file not kept are dropped |
| ExportRuns.PlanListsExactly | ceres/exporter.py:1767-1818 | a plan lists of each file the request covers exactly the line due, in time order: its action told by what is stored and there, the records selected, and the reason it is kept |
| LiveSafety.NotifiedCovers | ceres/exporter.py:1421-1430 | notifying keeps every range in one period, uncovers no key and covers every notified one |
| LiveSafety.NotifiedIsHull | ceres/exporter.py:1421-1430 | a flush leaves a range for a period if and only if one waited or a record of the period is notified, and the range is the least that holds both |
| LiveSafety.RestoredCovers | ceres/exporter.py:1432-1440 | restoring after a failure keeps every key the pending and the working ranges covered |
| LiveSafety.RestoredIsHull | ceres/exporter.py:1432-1440 | a failed wake gives back the least range that holds what waited and what it took, for exactly the periods of either |
| LiveSafety.BoundsHold | ceres/exporter.py:2461-2466 | the bounds of a period's file hold a moment if and only if the moment belongs to that period |
| LiveSafety.WriteIsSafe | ceres/exporter.py:2129-2189 | writing one period of a wake keeps its file strictly increasing and within its period, and the remembered key the file's last |
| LiveSafety.CheckIsSafe | ceres/exporter.py:2026-2033 | the check at start keeps the same for a missing file and for an existing one, torn or not |
| LiveSafety.ExportIsSafe | ceres/exporter.py:2386-2423 | a run's write, keep or removal of a file, with the forgetting after it, keeps the same |
| LiveSafety.CrashIsSafe | ceres/exporter.py:2184-2201 | a crash or cancel at any point of an append, of a wake or of the check, and the restart after it, keep the same |
| LiveSafety.SafeStep | ceres/exporter.py:1966-2210 | every step of the machine keeps the same |
| LiveLoss.FilesStaySound | ceres/exporter.py:1966-2210 | over every run of the machine, from any sound state, each file's complete records are strictly increasing records of its own period and a remembered key is the file's last |
| LiveLoss.NoLossStep | ceres/exporter.py:2112-2210 | every step but a partial purge keeps each notified, stored record covered by a range, in its file, or passed by: of a late period and before the last key of its file |
| LiveLoss.NothingIsLost | ceres/exporter.py:1966-1997 | the same over every run without a partial purge |
| LiveLoss.QuietFilesAreComplete | ceres/exporter.py:2112-2189 | once nothing is pending or working, every notified record is in its period's file, or the period is late and the record sorts at or before the last of its file |
| LiveLoss.ToldRecordsArrive | ceres/exporter.py:1966-2189 | the same told by the run's steps: of any record that a flush notified while it was stored, not pruned and not forgotten by a crash since |
| LiveLoss.NotifiedExactly | ceres/exporter.py:1421-1430 | the records counted as notified after a run are exactly those |
| LiveLoss.WriteExactly | ceres/exporter.py:2158-2189 | after a period of a wake is written a stored record of the range taken is in the file if and only if it was, the file held none, or it sorts after the last the file held |
| LiveLoss.WriteOnly | ceres/exporter.py:2158-2189 | nothing but stored records of the range taken is written |
| LiveLoss.LateExactly | ceres/exporter.py:2175-2180 | the write marks its period late if and only if the file held a record and some stored record of the range sorts at or before its last; no other mark changes |
| LiveLoss.OnlyRunsRewrite | ceres/exporter.py:2112-2201 | every step but a run's leaves each file's complete records in place and at most adds after them |
| LiveLoss.RestartMissesOnlyOldKeys | ceres/exporter.py:2062-2093 | after a crash the check of a period writes a stored record if and only if it is already in the file, the file has none, or it sorts after the file's last |
| LiveLoss.OnlyPartialPurgeLoses | ceres/exporter.py:2203-2210 | a run on a file keeps every notified record accounted for in every sound state if and only if it is no partial purge |
| LiveLoss.PartialPurgeLoses | ceres/exporter.py:2203-2210 | for every partial purge, a run from nothing after which it loses a notified record |
| LiveLoss.RememberedKeyOutlivesFailedAppend | ceres/exporter.py:2167-2189 | an append that fails with the last key remembered leaves a sound state if and only if nothing was appended |
| LiveLoss.RetryAppendsTwice | ceres/exporter.py:2112-2189 | after an append that stopped between records, the ranges given back, joined with anything pending and taken again make the exporter append a record its file already has |
| LiveLoss.FailedCheck | ceres/exporter.py:2062-2093 | a check that fails part way leaves a sound state if and only if nothing reached the file, and the next check of the period makes the state sound whatever reached it |
| StartChecks.CheckedExactly | ceres/exporter.py:2004-2021 | a period is checked if and only if it is aligned and starts by now, no earlier than the period before the present one or than the period of some stored record no other sorts after, and at most a hundred starts follow |
| StartChecks.AllIsChecked | ceres/exporter.py:2000-2003 | an exporter of all time checks its one file |
| StartChecks.OldNewestIsWritten | ceres/exporter.py:2004-2014 | with the newest record hours old its hour is checked and the record written |
| StartChecks.StartCheckExactly | ceres/exporter.py:1999-2093 | after the whole check a stored record is in its file if and only if it was, or its period is checked, it was stored before the check began and it sorts after all the file held |
| StartChecks.CheckAllRuns | ceres/exporter.py:2026-2033 | the whole check is a run of the machine, one step a period |
| StartChecks.BacklogStays | ceres/exporter.py:2004-2014 | a record of an hour long past is in no file after a start in the hour of a newer record |
| StartChecks.LaterCheckMovesOn | ceres/exporter.py:2004-2014 | a period one check goes through is not gone through by a later one once a newer record is stored |
| ExportRuns.SpanFilesOk | ceres/exporter.py:996-1007 | the files of any span cover whole periods of their own, no two the same |
| ExportRuns.PlanPredictsRun | ceres/exporter.py:1762-1818 | plan and run agree from the same records and files: both refuse the same existing files under `error`, otherwise the run does, in order, the plan's actions, writes the plan's count, keeps and removes as many files as the plan has lines for, its totals add up to the periods done, and each entry tells what its file then is |
| ExportRuns.PlanTellsFiles | ceres/exporter.py:1789-1801 | after the run a file planned as written is there with as many records as its entry says, one kept is as it was, one removed or without an entry is not there |
| ExportRuns.RunLeavesAsDecided | ceres/exporter.py:2296-2336 | a completed run leaves each covered file as decided at its start: written from the stored records it selects, kept, or removed |
| ExportRuns.RunLeavesOthers | ceres/exporter.py:2296-2336 | a run touches no file but those it covers and no record |
| ExportRuns.RunStopsAtExisting | ceres/exporter.py:2296-2342 | under `error` a run that meets files which appeared after its check stops at the first of them |
| ExportRuns.ErrorKeepsFiles | ceres/exporter.py:2386-2423 | under `error` no run changes a file that was there |
| ExportRuns.SortedCounts | ceres/exporter.py:1773-1775 | counting the records and listing them agree, so a plan's count is what a run writes |
| Archive.OverwriteKeepsExactly | ceres/exporter.py:1484-1492 | `overwrite` drops no record from any file if and only if it would rewrite no period of a record the database has lost |
| Archive.OverwriteLoses | ceres/exporter.py:1443-1492 | a history of inserts, a run, an oldest-first prune, a late insert and an `overwrite` run, after which the file has lost a record it held |
| Archive.CompleteMeansKept | ceres/exporter.py:1443-1449 | while the database holds every record from its oldest on, the history test keeps every file that holds a lost record |
| Archive.NothingLeavesTheArchive | ceres/exporter.py:2386-2423 | over any inserts, oldest-first prunes and runs other than purges, taken while the database is complete, no record ever leaves a file |
| Archive.PruningKeepsComplete | ceres/exporter.py:1918-1922 | pruning oldest first leaves the database complete |
| Archive.InsertKeepsComplete | ceres/exporter.py:1918-1922 | storing a record leaves it complete if and only if every pruned record is older than the new one |
| Exporter.LiveMemory.Notify | ceres/exporter.py:1421-1430 | the loop's `pending` afterwards is the machine's, key by key |
| Exporter.LiveMemory.Restore | ceres/exporter.py:1432-1440 | the loop joins both sets of ranges as the machine's failure step and clears `working` |
| Exporter.LiveExporter.Flushed | ceres/exporter.py:1950-1964 | a flush is one notification step of the machine |
| Exporter.LiveExporter.LastKey | ceres/exporter.py:2191-2201 | cuts off a torn record and gives the last complete key, or none |
| Exporter.LiveExporter.WritePeriodLive | ceres/exporter.py:2158-2189 | one period of a wake changes files, `last` and `late` as the machine's write step |
| Exporter.LiveExporter.WriteTaken | ceres/exporter.py:2117-2121 | the loop over the taken periods is a run of write steps that empties `working` |
| Exporter.LiveExporter.WriteLive | ceres/exporter.py:2112-2127 | a whole wake is a run of the machine that keeps safety and no-loss, leaves nothing waiting, and bounds `last` by the periods written and the current one |
| Exporter.LiveExporter.FailWake | ceres/exporter.py:1984-1995 | a failed or cancelled wake is the machine's failure step |
| Exporter.LiveExporter.StartsToCheck | ceres/exporter.py:2004-2021 | the loop over periods gives the periods of the definition, the newest hundred of them |
| Exporter.LiveExporter.CheckOne | ceres/exporter.py:2026-2033 | one period of the check at start is the machine's check step |
| Exporter.LiveExporter.CheckStart | ceres/exporter.py:1999-2033 | the whole check takes each of its periods in turn and leaves the state `StartCheckExactly` speaks of |
| Exporter.LiveExporter.Resume | ceres/exporter.py:2062-2093 | resuming an existing file is the machine's check step for it |
| Exporter.LiveExporter.Forget | ceres/exporter.py:2203-2210 | drops the last key and the late mark of one period and nothing else |
| Exporter.LiveExporter.ExportOne | ceres/exporter.py:2386-2423 | decides one file by the policy and leaves the state the machine's export step does, unchanged when it refuses |
| Exporter.LiveExporter.Export | ceres/exporter.py:2296-2344 | the run's loop ends in the state and the run record of the specification, stopping at the first file it refuses |
| Exporter.LiveExporter.CheckConflicts | ceres/exporter.py:1862-1888 | the check's own loop names exactly the files of the run that exist, in order |
| Exporter.LiveExporter.Start | ceres/exporter.py:1681-1700 | a start is refused over the very files the plan is, changing nothing; otherwise state and record are the run's, and every file is what the plan from the same records and files tells |
| Exporter.LiveExporter.MakePlanOf | ceres/exporter.py:1767-1818 | the plan's loop gives the plan that `PlanPredictsRun` is about and changes nothing |
| Exporter.LiveExporter.CountPlanned | ceres/exporter.py:1806-1818 | the count sums the records of the written files only |
| Lines.PhysicalLines | ceres/exporter.py:436-448 | reading in chunks of any positive size gives the file's complete lines, independent of the chunks |
| Lines.TakeLines | ceres/exporter.py:443-448 | taking the complete lines off what is pending leaves the lines of pending plus rest unchanged and no newline behind |
| Lines.SplitRecords | ceres/exporter.py:655-662 | the grouping loop gives the records of the recursive definition, by line or by quote parity |
| Lines.SplitInvertsWrite | ceres/exporter.py:540-570 | a file of any records followed by any proper part of one more splits into exactly those records |
| Lines.ReadTail | ceres/exporter.py:587-605 | the whole tail computation over chunks, records and header equals its definition on the file's bytes, the header error included |
| Lines.TailAfterRecords | ceres/exporter.py:587-605 | for header, records and a torn part, the tail is the last complete key and the exact length of header and complete records |
| Lines.TailInsideHeader | ceres/exporter.py:601-605 | a file cut inside its header has no key and length 0, so truncation empties it and the append writes the header again |
| Lines.CutAnywhereRecovers | ceres/exporter.py:572-605 | a written file cut at any byte, truncated at its tail and appended the remaining records, is byte for byte the uninterrupted file |
| Lines.HeaderCheckNeedsARecord | ceres/exporter.py:550-555 | a file no shorter than the header that passes the header check starts with the header if and only if it holds a complete record |
| Lines.HeaderStaysMissing | ceres/exporter.py:572-605 | truncated at its tail and appended to, such a file starts with the header if and only if it held a complete record |
| Lines.HeaderlessPasses | ceres/exporter.py:550-605 | the header `a` and a newline, and the file `bbb`: the check passes, the length counts the header, and no append ever writes it |
| Disk.TailIsUntorn | ceres/exporter.py:2191-2201 | on bytes that store a file of the machine, the tail is its last key, bytes follow it if and only if the file is torn, and truncating there stores the untorn file |
| Disk.CutIsAppended | ceres/exporter.py:572-585 | an append cut at any byte, in the header too, stores the machine's append of some count of whole records and part of the next |
| Disk.AppendFinishes | ceres/exporter.py:572-585 | an append left to finish stores the machine's append of all its records |
| Disk.WrittenWhole | ceres/exporter.py:560-570 | a file written whole stores its records |
| Disk.KeysAreStored | ceres/exporter.py:540-558 | the keys read back from the bytes are those the machine's file holds |
| DiskRuns.StepSimulates | ceres/exporter.py:1999-2210 | whatever the exporter does to bytes (read a tail, truncate, append all or up to any byte, replace, remove) is a step of the machine over the records they store |
| DiskRuns.RunSimulates | ceres/exporter.py:1999-2210 | every run over bytes is a run of the machine that ends with the files the disk then stores |
| DiskRuns.DiskStaysSound | ceres/exporter.py:1999-2201 | over every run on bytes from a sound disk, the keys read back from each file are strictly increasing, of its period, and end in the remembered key |
| DiskRuns.DiskLosesNothing | ceres/exporter.py:1966-2201 | over every such run without a partial purge, each notified, stored record is covered by a range, read back from its file, or of a late period and sorts at or before the last key read from its file |
| DiskRuns.RetryAfterTorn | ceres/exporter.py:2158-2189 | a wake that remembers a key and meets a torn end glues its first record to it if and only if the quotes of the torn part balance, and is otherwise swallowed whole if and only if it holds no newline |
| CsvFormats.CsvIsSound | ceres/exporter.py:636-652 | CSV rows that begin with time and identifier in decimal digits, whatever cells follow and with a header row or none, are a format all this holds for |
| Torn.TornReads | ceres/exporter.py:540-558 | after an append to a torn end the records before it are read, and the torn part is pending before the lines appended |
| Torn.TornIsGlued | ceres/exporter.py:655-662 | the torn part and the first record appended are one record, and the others whole, if and only if the part's quotes balance |
| Torn.SwallowedExactly | ceres/exporter.py:655-662 | after a row cut inside quotes nothing appended can be read back if and only if none of it holds a newline |
| Torn.SwallowedUpTo | ceres/exporter.py:655-662 | otherwise one record runs from the torn part through everything appended to the first newline inside a row, and the rest reads as if it stood alone |
| Torn.SwallowedIsCut | ceres/exporter.py:587-605 | the tail found after that cuts off the torn part and all that was swallowed |
| Torn.QuoteSwallows | ceres/exporter.py:655-662 | one quote and then the row `a`: nothing can be read back |
| Csv.RowIsRecord | ceres/exporter.py:636-662 | an encoded row, whatever text its cells hold, balances its quotes at its end and at no newline before |
| Csv.ReadBack | ceres/exporter.py:655-662 | reading encoded rows, and part of one more, in chunks and regrouping by quote parity gives exactly the encoded rows, and each gives its cells |
| Csv.RowReadsBack | ceres/exporter.py:636-652 | an encoded row tells all its cells, whatever they hold, to a reader of RFC 4180, section 2; a row of no cells and one of an empty cell differ |
| Csv.CsvSurvivesAnyCut | ceres/exporter.py:587-605 | a CSV file cut at any byte, in a quoted newline or its header row too, is taken up again to the bytes of an uninterrupted write |
| Csv.KeyReadsBack | ceres/exporter.py:649-652 | a row's first two cells, when neither needs quotes, are what splitting its line at commas gives, whatever the others hold |
| Reconcile.PlanCovers | ceres/engine.py:765-815 | wherever the live tree and the configuration differ, the plan acts on that address or one above it |
| Reconcile.PlanIsPlanned | ceres/engine.py:765-815 | every planned creation, recreation and removal has a live parent and the presence its replay relies on, referencers included |
| Reconcile.PlanIsGrouped | ceres/engine.py:754-815 | the plan is, in the order of live and then new children, one group for each difference below unchanged components: a creation, a removal, or a recreation followed by exactly the referencers outside its subtree, in their order |
| Reconcile.PlanExactly | ceres/engine.py:765-815 | a component is created or removed if and only if one side lacks it and all above it is unchanged; it is recreated if and only if it is so met and its own configuration differs, or it refers to such a component and is not below it |
| Reconcile.PlanEmptyIffSame | ceres/engine.py:754-757 | the plan is empty if and only if every component is there with its own configuration and no other is |
| Reconcile.ReplayOverlays | ceres/engine.py:817-927 | each planned action, on whatever the earlier ones left, adds its configured subtree to the live tree, also when it is skipped |
| Reconcile.SharedStays | ceres/engine.py:828-835 | what tree and configuration share stays through the replay, so no planned action falls back to the engine for want of a parent |
| Reconcile.OrderRestored | ceres/component.py:2850-2873 | with the components right, putting every registry in order gives the configured order everywhere |
| Reconcile.OrderedExactly | ceres/component.py:2859-2873 | ordering keeps a registry's names, the configured ones in configured order before the others in theirs |
| Reconcile.Converges | ceres/engine.py:817-927 | for any referencers, replaying the plan and restoring the order turns any live tree into exactly the configured one, and planning again gives nothing |
| Engine.Engine.AffectedBy | ceres/engine.py:793-802 | a changed component comes first, then exactly the referencers outside its subtree, each where the list has it |
| Engine.Engine.PendingActions | ceres/engine.py:765-815 | the recursive planner's loops collect exactly the plan of the definition |
| Engine.Engine.ChildActions | ceres/engine.py:804-815 | the loop over the union of live and configured children collects their plans in order |
| Engine.Engine.ExecuteOne | ceres/engine.py:827-927 | one action replayed on the present tree, its skips and the engine fallback included |
| Engine.Engine.Execute | ceres/engine.py:817-927 | the executor's loop leaves the tree of the replayed actions |
| Engine.Engine.SyncChildOrder | ceres/component.py:2859-2873 | configured children first in their order, the others after in theirs |
| Engine.Engine.SyncComponentOrder | ceres/engine.py:434-448 | every registry of the tree put in the configured order |
| Engine.Engine.Apply | ceres/engine.py:714-727 | applying a configuration leaves exactly the configured components, in order whenever something was done, and does nothing if and only if they were there already |
| Schedule.GeometricSum | ceres/schedule.py:497-506 | the closed form of the geometric series is the sum of the first `n` steps |
| Schedule.StepsFollow | ceres/schedule.py:99-116 | the first step is the interval and each is the one before times the multiplier, held between `min` and `max` |
| Schedule.NextFireMeetsSchedule | ceres/schedule.py:532-593 | nothing is found if and only if shrinking steps without a floor run out, and then no fire reaches the runtime; otherwise the delay is the sum of the first `n` limited steps, at or after the runtime, with no fire strictly between |
| Schedule.FirstExceptAtLimit | ceres/schedule.py:573-593 | the fire found is the first at or after the runtime if and only if the runtime is not the one at which a limit takes hold |
| Schedule.SkippedFire | ceres/schedule.py:573-593 | doubling steps capped at four: asked at the fire due at 3, the closed form gives 7 |
| Schedule.NeverExhausted | ceres/schedule.py:550-558 | no fire of a shrinking schedule without a floor reaches `interval / (1 - m)` |
| Schedule.TriggerIsExact | ceres/schedule.py:460-494 | the trigger gives the first fire time at or after now, within its end, if and only if now is not a due start or the fire at which a limit takes hold |
| Layouts.RenderReads | ceres/paths.py:514-531 | every layout atom's pattern takes what the atom renders and reads its field back, month names, 12-hour hours and days of the year included |
| Layouts.DatesRender | ceres/paths.py:514-524 | the texts of the date's atoms at two times |
| Layouts.ClocksRender | ceres/paths.py:524-531 | the texts of the clock's atoms, midnight and evening included |
| Layouts.FitsOneWay | ceres/paths.py:682-701 | when no run of digits in a folder's name holds two numbers of variable width the name matches its pattern in one way only |
| Layouts.MayTenthIsMisread | ceres/paths.py:562-580 | `{M}1{d}` renders 10 May as a name that matches as month 51 and day 0 |
| Layouts.MatchFits | ceres/paths.py:682-701 | what a backtracking match captures fits the name |
| Layouts.FitsMatch | ceres/paths.py:682-701 | a name that fits its pattern in any way is matched |
| Layouts.MatchInvertsRender | ceres/paths.py:361-401 | matching a rendered folder name captures exactly what each atom rendered |
| Layouts.ClockAgrees | ceres/paths.py:719-726 | a 12-hour hour and its half of the day merge into the hour of the time that rendered them |
| Layouts.OrdinalLeadsBack | ceres/paths.py:728-735 | counting the day of the year from 1 January leads to the month and day it came from, leap years included |
| Layouts.MergeAgrees | ceres/paths.py:704-738 | merging what a time rendered into fields that agree with the time never fails and settles more fields that agree with it |
| Units.UnitEndIs | ceres/paths.py:762-768 | the end the code computes for a unit is where the next unit of its kind starts |
| Units.SpanIsUnit | ceres/paths.py:741-770 | a time lies in the span of another's unit if and only if their fields down to that unit are the same |
| Units.UnitsNest | ceres/paths.py:741-770 | finer units lie inside coarser ones |
| Units.EndsPastTime | ceres/paths.py:763-768 | a unit's end is not representable if and only if the unit holds the last second of 9999 |
| Units.PeriodIsCivil | ceres/exporter.py:882-907 | an export period of a moment is the civil hour, day or month that holds it: it starts where the finer fields start and ends where the next unit does |
| Folders.KeysOfLayout | ceres/paths.py:584-595 | reading every folder of a valid layout settles exactly the fields its construction counts |
| Folders.PeriodIsUnit | ceres/paths.py:741-770 | fields that agree with a time name the calendar unit holding it, unless that unit ends past the last representable time |
| Folders.ReadBackIsUnit | ceres/paths.py:682-770 | reading back what a time rendered gives exactly the unit holding the time, no period for names only, and none for the last unit there is |
| Folders.SameFoldersExactly | ceres/paths.py:361-401 | two times render the same folders if and only if they share the layout's unit |
| Walk.MergeKeeps | ceres/paths.py:704-738 | merging a name never changes a calendar field already known, and settles the same fields for every name of a pattern |
| Walk.PeriodNarrows | ceres/paths.py:741-770 | a folder with a representable unit overlaps every range that a folder below it overlaps |
| Walk.OverlapsExactly | ceres/paths.py:667-668 | for a range that holds a moment the search's test holds if and only if some moment lies in the folder's period and in the range |
| Walk.WalkIsLossless | ceres/paths.py:641-679 | for any tree and range, the search yields a folder if and only if an unpruned listing reaches it, its period and the range share a moment, and no folder on its way names a unit that ends past the last representable time |
| Walk.LosslessBeforeLastYear | ceres/paths.py:641-679 | for folders of any year but 9999 the search yields exactly what the unpruned listing keeps |
| Walk.RenderedFolderFound | ceres/paths.py:612-679 | the folder a time renders is found if and only if it is there, some moment of its unit lies in the range, and no unit on its way ends past the last representable time |
| Walk.LastYearIsLost | ceres/paths.py:655-664 | a folder of May 9999 under `{yyyy}/{MM}` is listed and never found |
| Raising.RaisesExactly | ceres/paths.py:704-738 | for every pattern and whatever is known, a name raises if and only if it matches, disagrees with nothing, and settles a day of the year and the year 0 |
| Raising.SearchRaisesExactly | ceres/paths.py:641-679 | some tree makes a search under a layout raise, over any range, if and only if a level brings year and day of the year together and no level above it names a period |
| Raising.WhichRaise | ceres/paths.py:728-738 | `{yyyy}_{DDD}` and `{DDD}/{yyyy}` can raise, `{yyyy}/{DDD}` never does |
| Raising.YearZeroTrips | ceres/paths.py:728-732 | one folder `0000_284` under `{yyyy}_{DDD}` raises in every search |
| Spellings.OrdinalDateCounts | ceres/paths.py:728-735 | the month and day some days into a year are a real date, whose day of the year is that number |
| Spellings.AtomSpells | ceres/paths.py:514-531 | a text that reads as a time's field is what the time renders if and only if it spells no number of variable width with a zero before |
| Spellings.NameRendersExactly | ceres/paths.py:682-701 | the same of whole names |
| Spellings.FoundIsRenderedExactly | ceres/paths.py:612-679 | some time renders a found folder if and only if every number on its path is spelled as rendering would |
| Spellings.WideNameReads | ceres/paths.py:682-701 | a name with its numbers spelled in two digits matches with those, however many it holds, and reads as the same time |
| Spellings.UnrenderedIsFound | ceres/paths.py:612-679 | under `{yyyy}/{M}` the folder `2024/05` is found, and no time renders it |
| Ordering.OrderlyInTime | ceres/paths.py:674-677 | under an orderly layout folders come in time order, whatever the tree, the range and the spelling of its names |
| Disorder.TimeOrderExactly | ceres/paths.py:612-679 | folders of every tree come in time order if and only if the fields settled at every level sort as their times do and no level whose names can be spelled in two ways has a finer field below it |
| Disorder.RenderedOrderExactly | ceres/paths.py:612-679 | rendered folders come in time order if and only if the fields settled at every level sort as their times do |
| Disorder.MonthsBeforeYearsDisorder | ceres/paths.py:674-677 | under `{MM}/{yyyy}`, `01/2025` is yielded before `02/2024` |
| Disorder.TwoSpellingsDisorder | ceres/paths.py:674-677 | under `{yyyy}/{M}/{dd}` rendered folders come in time order and those of some tree do not |
| Search.SortFoundSorts | ceres/paths.py:674-677 | sorting keeps the found entries and puts them by their calendar fields, day of the year and name |
| Search.OpenEntries | ceres/paths.py:646-677 | one folder's listing gives exactly the entries the search opens, each once and sorted, and raises if and only if some name does |
| Search.Visit | ceres/paths.py:641-679 | the search returns exactly the folders of the definition, each once and in the order of the definition, and raises if and only if a folder it opens holds a name that does |
| Addresses.ContainsMeansPrefix | ceres/address.py:452-460 | the text test means that one list of names is a prefix of the other, the engine above all |
| Addresses.ContainsIsPartialOrder | ceres/address.py:452-460 | containment on the texts is a partial order with the engine on top |
| Addresses.PrefixIsAncestor | ceres/address.py:238-241 | one address text followed by a dot starts another if and only if its names are a proper prefix |
| Addresses.SelectorMeaning | ceres/address.py:193-250 | every selector segment, read against any root, matches exactly the addresses its names mean: the base, its descendants, its immediate children, or all of these |
| Addresses.SplitInvertsBarred | ceres/address.py:154-162 | segments joined by bars are cut into the same segments again |
| Addresses.AsAbsolute | ceres/address.py:164-191 | the loop's joined text is cut into the segments made absolute one by one |
| Addresses.Matches | ceres/address.py:193-250 | a whole selector matches if and only if one of the segments of its text, read against the root, does |
| Addresses.AbsoluteIsIdempotent | ceres/address.py:164-191 | a segment made absolute stays as it is against any other root |
| Addresses.AllIsContains | ceres/address.py:407-413 | matching `:all` of an address is being contained in it |
| Addresses.ParentDropsLast | ceres/address.py:298-304 | the parent's text is the address without its last name, none for a top-level one |
| Addresses.Path | ceres/address.py:315-325 | the loop over parents gives the chain from the top down |
| Addresses.PathIsPrefixes | ceres/address.py:315-325 | that chain holds the texts of every prefix of the names, in order |
| Statistics.AddEntry | ceres/statistics.py:133-139 | the scan, append and sort of level entries adds to the level's one entry and leaves them sorted |
| Statistics.GetAll | ceres/statistics.py:122-139 | the loops report exactly the addresses that are the root or below it and have a row at or below them, each with the roll-up of all rows it contains |
| Statistics.RollUpConserves | ceres/statistics.py:122-139 | an address's count is the sum of the rows it contains, its entry for a level the sum of those of that level, and the entries, sorted and distinct, add up to the count |
| Statistics.PathTexts | ceres/statistics.py:126-126 | the path rolled up is the one the address computes from its text |
| Events.Nodes.Visit | ceres/event.py:1223-1226 | a node not seen handles the event once, a seen one not again |
| Events.PreorderHolds | ceres/component.py:2457-2466 | the walk below a node lists a node if and only if the first is among the second's containers or itself |
| Events.PreorderOnce | ceres/component.py:2457-2466 | the walk lists each node once |
| Events.Nodes.Traverse | ceres/component.py:2457-2466 | the recursive walk over children lists the pre-order of the definition |
| Events.Nodes.Components | ceres/component.py:2425-2466 | a root's components are listed each once, exactly those nodes whose containers end at it |
| Events.Nodes.Dispatch | ceres/event.py:1215-1231 | a root's dispatch makes the root, each component of its tree and each direct referencer handle the event exactly once, cycles and repeats included |
| Events.Nodes.Propagate | ceres/event.py:1204-1231 | from any node the event is put once on the stream of every node up to the root and handled exactly once by what the root reaches, by nothing else |
| Access.BestIsHighest | ceres/access.py:113-126 | a target's merged grant is a raw grant of the highest level, the user's own when one of that level is |
| Access.BestIsFirst | ceres/access.py:113-126 | of several such grants the merged one is the one fetched first |
| Access.AccessGrants.Add | ceres/access.py:104-110 | adding a grant keeps the fields the merge of all grants added so far |
| Access.AccessGrants.AddAll | ceres/access.py:147-173 | the fetched grants, in any order, are merged by target |
| Access.TakeNext | ceres/access.py:242-247 | considering one more target keeps the decision right for all targets considered |
| Access.AccessGrants.Resolve | ceres/access.py:232-271 | the level is the highest of the default that is not `deny` and every matching raw grant; the source attains it, a component's before a tag's before the all-target's before the default |
| Access.MoreGrantsNeverLower | ceres/access.py:209-271 | another grant, wherever it stands in the list, never lowers the level, and the order of grants changes neither level nor source |

## Left out

- The whole-file formats' live path and the `owned` periods (ceres/exporter.py:2142-2156), and line
  writers that cannot resume (ceres/exporter.py:2036-2037): only resumable line writers are live here.
- The check at start leaves a file of another header as it is, with a warning
  (ceres/exporter.py:2073-2078): the machine assumes the headers match, and its steps check any period
  at any time.
- Temporary files, fsync, rename, locks and threads: replacing a file is one step, an append bytes
  that a crash may cut anywhere. A run takes each file in one step, and cancelling a run between
  replacing a file and forgetting it is not modelled.
- LiveSafety.SafeStep: an append that fails part way in process is a step only where the state stays sound, after a wake that remembers no last key, or before anything reached the file in a check; `RememberedKeyOutlivesFailedAppend` and `FailedCheck` say what the others leave.
- LiveLoss.FilesStaySound: holds over the same steps.
- LiveLoss.NothingIsLost: speaks of records notified since the exporter last started, because a crash drops what it remembers; `StartChecks.StartCheckExactly` says what the check at start then leaves out.
- Archive.NothingLeavesTheArchive: assumes the database complete whenever a run takes place; `OverwriteKeepsExactly` has the exact condition.
- ExportRuns.PlanPredictsRun: takes each period to render a path of its own, as the period's start names its file here.
- Exporter.LiveExporter.Flushed: one exporter, given the keys of records it exports; choosing exporters by kind of record and address is left out.
- Exporter.LiveExporter.Resume: a file of another header, which the check leaves alone with a warning, is left out here and is an error of `Lines.ReadTail`.
- Exporter.LiveExporter.Start: the limit on waiting runs is left out.
- Exporter.LiveExporter.CheckStart: asks that the period before the present one can be represented, which the code needs too.
- Calendar.ShiftAligned: years have no upper end, so the overflow of `datetime` past 9999 is not modelled for export periods.
- DiskRuns.DiskStaysSound: an append that fails part way while its key is remembered is no step here either; `RetryAfterTorn` and `RetryAppendsTwice` say what it leaves. A record is its key, and a format any whose records read their keys back.
- Lines.CutAnywhereRecovers: an encoder is any that ends a record where its grouping says; the JSON Lines encoder is one whose lines hold no newline and is not modelled itself.
- Csv.KeyReadsBack: keys are the bytes of the first two cells; parsing them to a timestamp and an identifier is not modelled.
- Csv.RowIsRecord: cells are bytes already; turning values to text, and the newline, comma and quote rules of Python's `csv` beyond section 2 of RFC 4180, are not modelled.
- Reconcile.Converges: no creation fails, and the referencers at the time of planning are given as any finite lists of live components; start and stop of components are left out.
- Schedule.NextFireMeetsSchedule: exact reals, so the rounding of floats and of `timedelta` and what it does to `math.ceil` are not modelled, nor is jitter.
- Folders.ReadBackIsUnit: UTC times, four-digit years, and layouts no name of which holds two numbers of variable width in one run of digits; `{yy}` and other time zones are left out, and so are the characters and names a segment refuses.
- Layouts.MatchInvertsRender: says nothing of names with two numbers of variable width in one run of digits, where some are read in another way (`MayTenthIsMisread`) and others, under `{M}12{d}`, are not; the same goes for `SameFoldersExactly`, `RenderedFolderFound` and `FoundIsRenderedExactly`. `Spellings.WideNameReads` has no such limit.
- Disorder.TimeOrderExactly: leaves out the same layouts for the trees that show disorder; `Ordering.OrderlyInTime` leaves out none.
- Layouts.RenderReads: digits are the ASCII ten; a pattern's `\d` takes any Unicode digit.
- Addresses.SelectorMeaning: a component named `all` cannot be named by a relative selector, as the code reads a lone `all` as `:all`.
- Statistics.GetAll: the closing filter by selector (ceres/statistics.py:141-145) is left out.
- Access.AccessGrants.Resolve: among tags or address targets of the same level and kind any may be the one reported, as a set of tags has no order.
- Events.Nodes.Propagate: a listener's queue and what a handler does, such as emitting another event, are left out; the containment of nodes is taken as acyclic.
- Path templates outside layouts, epoch and weekday atoms, offsets; cron and combined schedules.
- Loading of the database and server configuration, in-place assignment of unchanged components'
  configuration, reference resolution, logging.
- NetCDF and the other writers, HTTP, RTSP, SMTP, the console and scripts.
