/** Export runs over a list of files, and the plan that foretells them. */
module ExportRuns {
  import opened Options
  import opened Calendar
  import opened Spans
  import opened Keys
  import opened Decisions
  import opened Live

  /** The period a file covers names the file, as each period renders a path of its own. */
  function FileStart(file: FileSpan): Moment {
    if file.whole.after.None? then 0 else file.whole.after.value
  }

  function Content(db: set<Key>, file: FileSpan): seq<Key> {
    Sorted(Query(db, file.selected))
  }

  function DecideFile(db: set<Key>, files: Files, conflict: Conflict, file: FileSpan,
                      history: Option<Moment>): Decision {
    Decide(conflict, FileStart(file) in files, Content(db, file) != [], file.whole != file.selected,
           BeforeHistory(file.whole, history))
  }

  // ---------------------------------------------------------------- the plan

  /** One line of a plan: a file, its action, a reason when it is kept, and its number of records. */
  datatype FilePlan = FilePlan(start: Moment, action: Action, reason: Option<KeepReason>, records: nat)

  datatype Plan = Planned(files: seq<FilePlan>, count: nat) | Conflicts(existing: seq<Moment>)

  function Existing(files: Files, spans: seq<FileSpan>): seq<Moment> {
    if spans == [] then []
    else (if FileStart(spans[0]) in files then [FileStart(spans[0])] else []) + Existing(files, spans[1..])
  }

  function PlanEntry(db: set<Key>, files: Files, conflict: Conflict, span: FileSpan,
                     history: Option<Moment>): seq<FilePlan> {
    match DecideFile(db, files, conflict, span, history)
    case Refused => []
    case Decided(action, reason) =>
      if action == Nothing then []
      else [FilePlan(FileStart(span), action, reason, |Query(db, span.selected)|)]
  }

  function PlanFiles(db: set<Key>, files: Files, conflict: Conflict, spans: seq<FileSpan>,
                     history: Option<Moment>): seq<FilePlan> {
    if spans == [] then []
    else PlanEntry(db, files, conflict, spans[0], history) + PlanFiles(db, files, conflict, spans[1..], history)
  }

  function PlannedCount(plan: seq<FilePlan>): nat {
    if plan == [] then 0
    else (if Writes(plan[0].action) then plan[0].records else 0) + PlannedCount(plan[1..])
  }

  function MakePlan(db: set<Key>, files: Files, conflict: Conflict, spans: seq<FileSpan>,
                    history: Option<Moment>): Plan {
    var existing := if conflict == Error then Existing(files, spans) else [];
    if existing != [] then Conflicts(existing)
    else
      var plan := PlanFiles(db, files, conflict, spans, history);
      Planned(plan, PlannedCount(plan))
  }

  // ---------------------------------------------------------------- the run

  datatype RunState = Running | Completed | FailedOn(start: Moment)

  /** A run's record: the records and files it wrote, the files it kept and removed, how many it
      has finished, and what it did to each file it did something to. */
  datatype Run = Run(state: RunState, count: nat, written: seq<Moment>, kept: nat, removed: nat, empty: nat,
                     done: nat, actions: seq<(Moment, Action)>)

  const STARTED := Run(Running, 0, [], 0, 0, 0, 0, [])

  function Account(run: Run, start: Moment, action: Action, count: nat): Run {
    var next := run.(done := run.done + 1,
                     actions := if action == Nothing then run.actions else run.actions + [(start, action)]);
    match action
    case Keep => next.(kept := run.kept + 1)
    case Remove => next.(removed := run.removed + 1)
    case Nothing => next.(empty := run.empty + 1)
    case _ => next.(count := run.count + count, written := run.written + [start])
  }

  predicate SpanOk(period: Period, span: FileSpan) {
    Aligned(period, FileStart(span)) && Within(span.selected, Bounds(period, FileStart(span)))
      && span.whole == Bounds(period, FileStart(span))
  }

  predicate SpansOk(period: Period, spans: seq<FileSpan>) {
    forall i :: 0 <= i < |spans| ==> SpanOk(period, spans[i])
  }

  /** The run's loop over its files, which stops at the first file it refuses. */
  function RunFiles(period: Period, s: State, conflict: Conflict, spans: seq<FileSpan>, history: Option<Moment>,
                    run: Run): (State, Run)
    requires SpansOk(period, spans)
    decreases |spans|
  {
    if spans == [] then (s, run.(state := Completed))
    else
      var span, start := spans[0], FileStart(spans[0]);
      assert SpanOk(period, span);
      assert forall i :: 0 <= i < |spans[1..]| ==> spans[1..][i] == spans[i + 1];
      match DecideFile(s.db, s.files, conflict, span, history)
      case Refused => (s, run.(state := FailedOn(start)))
      case Decided(action, _) =>
        RunFiles(period, ExportFile(period, s, start, conflict, span.selected, history), conflict, spans[1..], history,
                 Account(run, start, action, |Content(s.db, span)|))
  }

  // ---------------------------------------------------------------- the plan predicts the run

  ghost predicate OwnPeriods(spans: seq<FileSpan>) {
    forall i, j :: 0 <= i < j < |spans| ==> FileStart(spans[i]) != FileStart(spans[j])
  }

  /** Two sets of files in which the same ones of some spans exist. */
  ghost predicate SamePresence(a: Files, b: Files, spans: seq<FileSpan>) {
    forall i :: 0 <= i < |spans| ==> (FileStart(spans[i]) in a <==> FileStart(spans[i]) in b)
  }

  lemma {:induction false} PlanReadsPresence(db: set<Key>, a: Files, b: Files, conflict: Conflict,
                                             spans: seq<FileSpan>, history: Option<Moment>)
    requires SamePresence(a, b, spans)
    ensures PlanFiles(db, a, conflict, spans, history) == PlanFiles(db, b, conflict, spans, history)
    ensures Existing(a, spans) == Existing(b, spans)
    decreases |spans|
  {
    if spans != [] {
      assert SamePresence(a, b, spans[1..]) by {
        assert forall i :: 0 <= i < |spans[1..]| ==> spans[1..][i] == spans[i + 1];
      }
      PlanReadsPresence(db, a, b, conflict, spans[1..], history);
    }
  }

  lemma {:induction false} SortedCounts(keys: set<Key>)
    ensures |Sorted(keys)| == |keys|
  {
    if keys != {} {
      SortedCounts(keys - {Least(keys)});
    }
  }

  function Acted(plan: seq<FilePlan>): seq<(Moment, Action)> {
    if plan == [] then [] else [(plan[0].start, plan[0].action)] + Acted(plan[1..])
  }

  function Wrote(plan: seq<FilePlan>): seq<Moment> {
    if plan == [] then []
    else (if Writes(plan[0].action) then [plan[0].start] else []) + Wrote(plan[1..])
  }

  /** How many entries of a plan call for an action. */
  function Calling(plan: seq<FilePlan>, action: Action): nat {
    if plan == [] then 0 else (if plan[0].action == action then 1 else 0) + Calling(plan[1..], action)
  }

  /** Whether a run's totals add up to the files it has finished. */
  ghost predicate Balanced(run: Run) {
    |run.written| + run.kept + run.removed + run.empty == run.done
  }

  lemma ExportTouchesOneFile(period: Period, s: State, span: FileSpan, conflict: Conflict, history: Option<Moment>,
                             other: Moment)
    requires SpanOk(period, span) && other != FileStart(span)
    ensures var after := ExportFile(period, s, FileStart(span), conflict, span.selected, history);
            after.db == s.db && SameHere(s, after, other)
  {
    hide Bounds;
    hide Decide;
    hide Query;
    hide Sorted;
    hide BeforeHistory;
    hide Aligned;
  }

  /** Two states with the same file of a period and the same memory of it. */
  predicate SameHere(a: State, b: State, start: Moment) {
    && (start in a.files <==> start in b.files) && (start in a.files ==> a.files[start] == b.files[start])
    && SameMemory(a, b, start)
  }

  predicate SameMemory(a: State, b: State, start: Moment) {
    && (start in a.late <==> start in b.late)
    && (start in a.last <==> start in b.last) && (start in a.last ==> a.last[start] == b.last[start])
  }

  /** One plan entry, put before the rest of the plan. */
  lemma PlanSplits(entry: seq<FilePlan>, rest: seq<FilePlan>)
    requires |entry| <= 1
    ensures Acted(entry + rest) == Acted(entry) + Acted(rest)
    ensures Wrote(entry + rest) == Wrote(entry) + Wrote(rest)
    ensures PlannedCount(entry + rest) == PlannedCount(entry) + PlannedCount(rest)
    ensures Calling(entry + rest, Keep) == Calling(entry, Keep) + Calling(rest, Keep)
    ensures Calling(entry + rest, Remove) == Calling(entry, Remove) + Calling(rest, Remove)
  {
    if entry == [] {
      assert entry + rest == rest;
    } else {
      assert (entry + rest)[1..] == rest;
      assert Acted(entry[1..]) == [] && Wrote(entry[1..]) == [];
      assert Calling(entry[1..], Keep) == 0 && Calling(entry[1..], Remove) == 0;
    }
  }

  /** What a run did from one of its records to a later one is what `plan` lists. */
  ghost predicate KeepsToPlan(run: Run, end: Run, plan: seq<FilePlan>, files: nat) {
    && end.actions == run.actions + Acted(plan)
    && end.written == run.written + Wrote(plan)
    && end.count == run.count + PlannedCount(plan)
    && end.done == run.done + files
    && end.kept == run.kept + Calling(plan, Keep)
    && end.removed == run.removed + Calling(plan, Remove)
    && (Balanced(run) ==> Balanced(end))
  }

  lemma FollowsOn(run: Run, middle: Run, end: Run, entry: seq<FilePlan>, rest: seq<FilePlan>, files: nat)
    requires |entry| <= 1 && KeepsToPlan(run, middle, entry, 1) && KeepsToPlan(middle, end, rest, files)
    ensures KeepsToPlan(run, end, entry + rest, files + 1)
  {
    PlanSplits(entry, rest);
    hide Acted;
    hide Wrote;
    hide PlannedCount;
    hide Calling;
  }

  lemma {:induction false} RunFollowsPlan(period: Period, s: State, conflict: Conflict, spans: seq<FileSpan>,
                                          history: Option<Moment>, run: Run)
    requires SpansOk(period, spans) && OwnPeriods(spans)
    requires conflict == Error ==> Existing(s.files, spans) == []
    ensures var end := RunFiles(period, s, conflict, spans, history, run).1;
            end.state == Completed &&
              KeepsToPlan(run, end, PlanFiles(s.db, s.files, conflict, spans, history), |spans|)
    decreases |spans|
  {
    hide ExportFile;
    hide Bounds;
    hide DecideFile;
    hide PlanEntry;
    hide Account;
    hide Content;
    if spans == [] {
      assert run.actions + [] == run.actions && run.written + [] == run.written;
    } else {
      var span, rest := spans[0], spans[1..];
      assert SpanOk(period, span);
      var next := ExportFile(period, s, FileStart(span), conflict, span.selected, history);
      StepFollowsPlan(s, conflict, span, history, run);
      var decision := DecideFile(s.db, s.files, conflict, span, history);
      var middle := Account(run, FileStart(span), decision.action, |Content(s.db, span)|);
      RestIsUnchanged(period, s, conflict, spans, history);
      RunFollowsPlan(period, next, conflict, rest, history, middle);
      hide KeepsToPlan;
      FollowsOn(run, middle, RunFiles(period, next, conflict, rest, history, middle).1,
                PlanEntry(s.db, s.files, conflict, span, history),
                PlanFiles(s.db, s.files, conflict, rest, history), |rest|);
    }
  }

  /** Exporting one file changes nothing the plan reads of the files after it. */
  lemma RestIsUnchanged(period: Period, s: State, conflict: Conflict, spans: seq<FileSpan>, history: Option<Moment>)
    requires spans != [] && SpansOk(period, spans) && OwnPeriods(spans)
    ensures var next := ExportFile(period, s, FileStart(spans[0]), conflict, spans[0].selected, history);
            && SpansOk(period, spans[1..]) && OwnPeriods(spans[1..])
            && PlanFiles(next.db, next.files, conflict, spans[1..], history)
                 == PlanFiles(s.db, s.files, conflict, spans[1..], history)
            && Existing(next.files, spans[1..]) == Existing(s.files, spans[1..])
            && (Existing(s.files, spans) == [] ==> Existing(s.files, spans[1..]) == [])
  {
    hide ExportFile;
    hide Bounds;
    hide Within;
    hide Aligned;
    var span, rest := spans[0], spans[1..];
    assert forall i :: 0 <= i < |rest| ==> rest[i] == spans[i + 1];
    assert SpanOk(period, span);
    var next := ExportFile(period, s, FileStart(span), conflict, span.selected, history);
    ExportKeepsRecords(period, s, span, conflict, history);
    forall i | 0 <= i < |rest| ensures FileStart(rest[i]) in next.files <==> FileStart(rest[i]) in s.files {
      ExportTouchesOneFile(period, s, span, conflict, history, FileStart(rest[i]));
    }
    PlanReadsPresence(s.db, next.files, s.files, conflict, rest, history);
  }

  lemma ExportKeepsRecords(period: Period, s: State, span: FileSpan, conflict: Conflict, history: Option<Moment>)
    requires SpanOk(period, span)
    ensures ExportFile(period, s, FileStart(span), conflict, span.selected, history).db == s.db
  {
    hide Bounds;
    hide Decide;
  }

  lemma StepFollowsPlan(s: State, conflict: Conflict, span: FileSpan, history: Option<Moment>, run: Run)
    requires conflict == Error ==> FileStart(span) !in s.files
    ensures var entry := PlanEntry(s.db, s.files, conflict, span, history);
            var decision := DecideFile(s.db, s.files, conflict, span, history);
            && decision.Decided? && |entry| <= 1
            && KeepsToPlan(run, Account(run, FileStart(span), decision.action, |Content(s.db, span)|), entry, 1)
  {
    SortedCounts(Query(s.db, span.selected));
    var decision := DecideFile(s.db, s.files, conflict, span, history);
    hide Query;
    hide BeforeHistory;
    EntryFollows(run, FilePlan(FileStart(span), decision.action, decision.reason, |Query(s.db, span.selected)|));
  }

  lemma EntryFollows(run: Run, entry: FilePlan)
    ensures KeepsToPlan(run, Account(run, entry.start, entry.action, entry.records),
                    if entry.action == Nothing then [] else [entry], 1)
  {
    assert Acted([entry][1..]) == [] && Wrote([entry][1..]) == [] && PlannedCount([entry][1..]) == 0;
    assert Calling([entry][1..], Keep) == 0 && Calling([entry][1..], Remove) == 0;
  }

  /** The files of any span `span_files` yields cover periods of their own. */
  lemma SpanFilesOk(period: Period, span: Span)
    requires period != All ==> span.after.Some? && span.before.Some? && span.after.value < span.before.value
    ensures SpansOk(period, SpanFiles(period, span)) && OwnPeriods(SpanFiles(period, span))
  {
    var spans := SpanFiles(period, span);
    if period != All {
      var after, before := span.after.value, span.before.value;
      SpanFilesTile(period, after, before);
      assert span == Span(Some(after), Some(before));
      forall i | 0 <= i < |spans| ensures SpanOk(period, spans[i]) {
        assert Bounded(period, spans[i]);
      }
      forall i, j | 0 <= i < j < |spans| ensures FileStart(spans[i]) != FileStart(spans[j]) {
        TilesAreOrdered(period, spans, after, before, i, j);
        assert Bounded(period, spans[i]);
        NextIsLater(period, FileStart(spans[i]));
        assert Bounded(period, spans[j]);
      }
    }
  }

  lemma RunSpansOk(period: Period, mode: RangeMode, after: Moment, before: Moment)
    requires after < before
    ensures SpansOk(period, RunSpans(period, mode, after, before))
    ensures OwnPeriods(RunSpans(period, mode, after, before))
  {
    var span := EffectiveSpan(period, mode, after, before);
    if span.Some? {
      if period != All {
        ExpandIsLeast(period, after, before);
        ShrinkIsGreatest(period, after, before);
      }
      hide EffectiveSpan;
      SpanFilesOk(period, span.value);
    }
  }

  /** From the same records and files a plan and a run agree. Under `error` the plan refuses,
      naming the files that exist, exactly when the run's own check does. Otherwise the run
      completes and does to each file, in order, what the plan lists, writes as many records as it
      counts, and every file it covers is counted as what became of it. Each entry of the plan then
      tells what its file is, and a file without an entry is not there. */
  lemma PlanPredictsRun(period: Period, s: State, conflict: Conflict, mode: RangeMode, after: Moment, before: Moment,
                        history: Option<Moment>)
    requires after < before
    ensures var spans := RunSpans(period, mode, after, before);
            && SpansOk(period, spans)
            && match MakePlan(s.db, s.files, conflict, spans, history)
               case Conflicts(existing) =>
                 conflict == Error && existing == Existing(s.files, spans) != []
               case Planned(plan, count) =>
                 var end := RunFiles(period, s, conflict, spans, history, STARTED).1;
                 && (conflict == Error ==> Existing(s.files, spans) == [])
                 && end.state == Completed
                 && end.actions == Acted(plan) && end.written == Wrote(plan) && end.count == count
                 && end.kept == Calling(plan, Keep) && end.removed == Calling(plan, Remove)
                 && end.done == |spans| == |end.written| + end.kept + end.removed + end.empty
                 && TellsFiles(s, RunFiles(period, s, conflict, spans, history, STARTED).0, plan, spans)
  {
    hide RunSpans;
    hide SpansOk;
    hide RunFiles;
    hide TellsFiles;
    hide PlanFiles;
    hide Existing;
    hide PlannedCount;
    RunSpansOk(period, mode, after, before);
    var spans := RunSpans(period, mode, after, before);
    PlanPredicts(period, s, conflict, spans, history);
    if MakePlan(s.db, s.files, conflict, spans, history).Planned? {
      PlanTellsFiles(period, s, conflict, spans, history);
    }
  }

  lemma PlanPredicts(period: Period, s: State, conflict: Conflict, spans: seq<FileSpan>, history: Option<Moment>)
    requires SpansOk(period, spans) && OwnPeriods(spans)
    ensures match MakePlan(s.db, s.files, conflict, spans, history)
            case Conflicts(existing) =>
              conflict == Error && existing == Existing(s.files, spans) != []
            case Planned(plan, count) =>
              var end := RunFiles(period, s, conflict, spans, history, STARTED).1;
              && (conflict == Error ==> Existing(s.files, spans) == [])
              && end.state == Completed
              && end.actions == Acted(plan) && end.written == Wrote(plan) && end.count == count
              && end.kept == Calling(plan, Keep) && end.removed == Calling(plan, Remove)
              && end.done == |spans| == |end.written| + end.kept + end.removed + end.empty
  {
    hide SpansOk;
    hide RunFiles;
    hide PlanFiles;
    hide Existing;
    hide Acted;
    hide Wrote;
    hide PlannedCount;
    if MakePlan(s.db, s.files, conflict, spans, history).Planned? {
      RunFollowsPlan(period, s, conflict, spans, history, STARTED);
      var plan := PlanFiles(s.db, s.files, conflict, spans, history);
      assert [] + Acted(plan) == Acted(plan) && [] + Wrote(plan) == Wrote(plan);
    }
  }

  /** A run touches no file but the ones it covers. */
  lemma {:induction false} RunLeavesOthers(period: Period, s: State, conflict: Conflict, spans: seq<FileSpan>,
                                           history: Option<Moment>, run: Run, other: Moment)
    requires SpansOk(period, spans)
    requires forall i :: 0 <= i < |spans| ==> FileStart(spans[i]) != other
    ensures var after := RunFiles(period, s, conflict, spans, history, run).0;
            after.db == s.db && SameHere(s, after, other)
    decreases |spans|
  {
    hide ExportFile;
    hide Bounds;
    hide Account;
    hide DecideFile;
    if spans != [] && DecideFile(s.db, s.files, conflict, spans[0], history).Decided? {
      var span, rest := spans[0], spans[1..];
      assert SpanOk(period, span);
      assert forall i :: 0 <= i < |rest| ==> rest[i] == spans[i + 1];
      ExportTouchesOneFile(period, s, span, conflict, history, other);
      var decision := DecideFile(s.db, s.files, conflict, span, history);
      RunLeavesOthers(period, ExportFile(period, s, FileStart(span), conflict, span.selected, history), conflict, rest,
                      history, Account(run, FileStart(span), decision.action, |Content(s.db, span)|), other);
    }
  }

  /** A file as a run leaves it, decided from the records and files the run started with. */
  ghost predicate LeftAsDecided(before: State, after: State, conflict: Conflict, span: FileSpan,
                                history: Option<Moment>) {
    var start := FileStart(span);
    var decision := DecideFile(before.db, before.files, conflict, span, history);
    && decision.Decided?
    && (if decision.action == Keep then SameMemory(before, after, start)
        else start !in after.late && start !in after.last)
    && match decision.action
    case Keep => start in before.files && start in after.files && after.files[start] == before.files[start]
    case Remove => start in before.files && start !in after.files
    case Nothing => start !in before.files && start !in after.files
    case _ => start in after.files && after.files[start] == File(Content(before.db, span), false)
  }

  lemma ExportLeavesAsDecided(period: Period, s: State, conflict: Conflict, span: FileSpan, history: Option<Moment>)
    requires SpanOk(period, span) && DecideFile(s.db, s.files, conflict, span, history).Decided?
    ensures LeftAsDecided(s, ExportFile(period, s, FileStart(span), conflict, span.selected, history),
                          conflict, span, history)
  {
  }

  /** A completed run leaves each file it covers as decided at its start: a written file holds the
      stored records it selects and nothing else, a kept one what it held. */
  lemma {:induction false} RunLeavesAsDecided(period: Period, s: State, conflict: Conflict, spans: seq<FileSpan>,
                                              history: Option<Moment>, run: Run, i: nat)
    requires SpansOk(period, spans) && OwnPeriods(spans) && i < |spans|
    requires RunFiles(period, s, conflict, spans, history, run).1.state == Completed
    ensures LeftAsDecided(s, RunFiles(period, s, conflict, spans, history, run).0, conflict, spans[i], history)
    decreases |spans|
  {
    hide ExportFile;
    hide Bounds;
    hide Account;
    hide Content;
    hide LeftAsDecided;
    hide DecideFile;
    var span, rest := spans[0], spans[1..];
    assert SpanOk(period, span) && SpanOk(period, spans[i]);
    assert forall j :: 0 <= j < |rest| ==> rest[j] == spans[j + 1];
    var next := ExportFile(period, s, FileStart(span), conflict, span.selected, history);
    var decision := DecideFile(s.db, s.files, conflict, span, history);
    var accounted := Account(run, FileStart(span), decision.action, |Content(s.db, span)|);
    var end := RunFiles(period, next, conflict, rest, history, accounted).0;
    if i == 0 {
      ExportLeavesAsDecided(period, s, conflict, span, history);
      RunLeavesOthers(period, next, conflict, rest, history, accounted, FileStart(span));
      LeftThrough(s, next, s, end, conflict, span, history);
    } else {
      ExportTouchesOneFile(period, s, span, conflict, history, FileStart(spans[i]));
      RunLeavesAsDecided(period, next, conflict, rest, history, accounted, i - 1);
      LeftThrough(next, end, s, end, conflict, spans[i], history);
    }
  }

  /** How a file is left depends on nothing but the records and that file, before and after. */
  lemma LeftThrough(before: State, after: State, before': State, after': State, conflict: Conflict, span: FileSpan,
                    history: Option<Moment>)
    requires LeftAsDecided(before, after, conflict, span, history)
    requires before'.db == before.db
    requires SameHere(before, before', FileStart(span)) && SameHere(after, after', FileStart(span))
    ensures LeftAsDecided(before', after', conflict, span, history)
  {
    hide Decide;
    hide Content;
  }

  // ---------------------------------------------------------------- what becomes of each file

  /** Whether a time is the oldest stored record's, none for nothing stored. */
  ghost predicate IsOldest(history: Option<Moment>, db: set<Key>) {
    match history
    case None => db == {}
    case Some(time) => (exists key :: key in db && key.time == time) && forall key :: key in db ==> time <= key.time
  }

  /** Whether a file that is there is written again: by any purge that selects records, and by an
      overwrite that selects records and all of the file's time, what is stored reaching back to the
      start of it. */
  ghost predicate WritesAgain(conflict: Conflict, db: set<Key>, span: FileSpan) {
    && Query(db, span.selected) != {}
    && (conflict == Purge ||
        (conflict == Overwrite && span.selected == span.whole && span.whole.after.Some?
         && exists key :: key in db && key.time <= span.whole.after.value))
  }

  /** What becomes of a file that a run covers, told by what is stored and whether it was there. A file
      that is not kept is forgotten: its last key, and that records came too late for it. */
  ghost predicate Becomes(before: State, after: State, conflict: Conflict, span: FileSpan) {
    var start, selected := FileStart(span), Query(before.db, span.selected);
    var kept := start in before.files && conflict != Purge && !WritesAgain(conflict, before.db, span);
    if kept then start in after.files && SameHere(before, after, start)
    else
      && start !in after.late && start !in after.last
      && (start in after.files <==> selected != {})
      && (selected != {} ==> after.files[start] == File(Sorted(selected), false))
  }

  lemma DecidedExactly(before: State, after: State, conflict: Conflict, span: FileSpan, history: Option<Moment>)
    requires LeftAsDecided(before, after, conflict, span, history) && IsOldest(history, before.db)
    ensures Becomes(before, after, conflict, span)
  {
    SelectedSome(before.db, span);
    OldestReaches(before.db, history, span);
    hide IsOldest;
    hide Query;
    hide Sorted;
  }

  lemma SelectedSome(db: set<Key>, span: FileSpan)
    ensures Content(db, span) == Sorted(Query(db, span.selected))
    ensures Content(db, span) == [] <==> Query(db, span.selected) == {}
  {
    var content := Content(db, span);
    if content != [] {
      assert content[0] in content;
    }
    if Query(db, span.selected) != {} {
      assert Least(Query(db, span.selected)) in content;
    }
  }

  lemma OldestReaches(db: set<Key>, history: Option<Moment>, span: FileSpan)
    requires IsOldest(history, db)
    ensures Query(db, span.selected) != {} ==>
              (!BeforeHistory(span.whole, history) <==>
               span.whole.after.Some? && exists key :: key in db && key.time <= span.whole.after.value)
  {
    if Query(db, span.selected) != {} {
      var some :| some in Query(db, span.selected);
      assert some in db;
    }
  }

  /** A run, without a word of how it decides: after it has completed, a missing file it covers is there
      exactly when stored records are selected for it, and holds those, whatever the conflict mode. A file
      that was there is written again, removed or kept by what is stored and the mode alone, and whatever
      is not kept is forgotten. */
  lemma RunDoesExactly(period: Period, s: State, conflict: Conflict, spans: seq<FileSpan>, history: Option<Moment>,
                       run: Run, i: nat)
    requires SpansOk(period, spans) && OwnPeriods(spans) && i < |spans| && IsOldest(history, s.db)
    requires RunFiles(period, s, conflict, spans, history, run).1.state == Completed
    ensures Becomes(s, RunFiles(period, s, conflict, spans, history, run).0, conflict, spans[i])
    ensures conflict == Error ==> FileStart(spans[i]) !in s.files
  {
    hide RunFiles;
    hide SpansOk;
    hide OwnPeriods;
    hide IsOldest;
    hide Becomes;
    hide Query;
    RunLeavesAsDecided(period, s, conflict, spans, history, run, i);
    DecidedExactly(s, RunFiles(period, s, conflict, spans, history, run).0, conflict, spans[i], history);
  }

  // ---------------------------------------------------------------- exactly what a plan lists

  /** The line a plan gives a file, told by what is stored and whether it is there. */
  ghost predicate EntryIs(db: set<Key>, files: Files, conflict: Conflict, span: FileSpan, entry: FilePlan) {
    var there, selected := FileStart(span) in files, Query(db, span.selected);
    && entry.start == FileStart(span)
    && entry.records == |selected|
    && match entry.action
       case Create => !there && selected != {} && entry.reason == None
       case Rewrite => there && WritesAgain(conflict, db, span) && entry.reason == None
       case Remove => there && conflict == Purge && selected == {} && entry.reason == None
       case Nothing => false
       case Keep =>
         && there && (conflict == Skip || conflict == Overwrite) && !WritesAgain(conflict, db, span)
         && entry.reason == Some(if conflict == Skip then Skipped
                                 else if selected == {} then Empty
                                 else if span.selected != span.whole then Partial
                                 else History)
  }

  lemma EntryExactly(db: set<Key>, files: Files, conflict: Conflict, span: FileSpan, history: Option<Moment>,
                     entry: FilePlan)
    requires IsOldest(history, db)
    ensures entry in PlanEntry(db, files, conflict, span, history) <==> EntryIs(db, files, conflict, span, entry)
  {
    SelectedSome(db, span);
    OldestReaches(db, history, span);
    hide IsOldest;
    hide Query;
    hide Sorted;
    hide Content;
    hide BeforeHistory;
  }

  ghost predicate StartOfFile(spans: seq<FileSpan>, k: nat, start: Moment) {
    k < |spans| && start == FileStart(spans[k])
  }

  ghost predicate StartsSome(spans: seq<FileSpan>, start: Moment) {
    exists k: nat :: StartOfFile(spans, k, start)
  }

  ghost predicate InTurn(spans: seq<FileSpan>, start: Moment, later: Moment) {
    exists k: nat, l: nat :: StartOfFile(spans, k, start) && StartOfFile(spans, l, later) && k < l
  }

  /** Every line of a plan is of one of its files, and lines come in the files' order. */
  ghost predicate LinesOf(plan: seq<FilePlan>, spans: seq<FileSpan>) {
    && (forall i :: 0 <= i < |plan| ==> StartsSome(spans, plan[i].start))
    && forall i, j :: 0 <= i < j < |plan| ==> InTurn(spans, plan[i].start, plan[j].start)
  }

  lemma {:induction false} PlanInOrder(db: set<Key>, files: Files, conflict: Conflict, spans: seq<FileSpan>,
                                       history: Option<Moment>)
    ensures LinesOf(PlanFiles(db, files, conflict, spans, history), spans)
    decreases |spans|
  {
    hide DecideFile;
    if spans != [] {
      var rest := spans[1..];
      var first, later := PlanEntry(db, files, conflict, spans[0], history),
                          PlanFiles(db, files, conflict, rest, history);
      PlanInOrder(db, files, conflict, rest, history);
      assert |first| <= 1 && forall entry :: entry in first ==> entry.start == FileStart(spans[0]);
      hide PlanEntry;
      LineBefore(first, later, spans);
    }
  }

  lemma LineBefore(first: seq<FilePlan>, later: seq<FilePlan>, spans: seq<FileSpan>)
    requires spans != [] && LinesOf(later, spans[1..])
    requires |first| <= 1 && forall entry :: entry in first ==> entry.start == FileStart(spans[0])
    ensures LinesOf(first + later, spans)
  {
    var plan, n, rest := first + later, |first|, spans[1..];
    forall k: nat, start | StartOfFile(rest, k, start) ensures StartOfFile(spans, k + 1, start) {
    }
    forall i | 0 <= i < |plan| ensures StartsSome(spans, plan[i].start) {
      if i < n {
        assert plan[i] in first && StartOfFile(spans, 0, plan[i].start);
      } else {
        var line := later[i - n];
        assert StartsSome(rest, line.start);
        var k: nat :| StartOfFile(rest, k, line.start);
        assert StartOfFile(spans, k + 1, plan[i].start);
      }
    }
    forall i, j | 0 <= i < j < |plan| ensures InTurn(spans, plan[i].start, plan[j].start) {
      var last := later[j - n];
      if i < n {
        assert StartsSome(rest, last.start);
        var l: nat :| StartOfFile(rest, l, last.start);
        assert plan[i] in first && StartOfFile(spans, 0, plan[i].start) && StartOfFile(spans, l + 1, plan[j].start);
      } else {
        var line := later[i - n];
        assert InTurn(rest, line.start, last.start);
        var k: nat, l: nat :| StartOfFile(rest, k, line.start) && StartOfFile(rest, l, last.start) && k < l;
        assert StartOfFile(spans, k + 1, plan[i].start) && StartOfFile(spans, l + 1, plan[j].start);
      }
    }
  }

  /** Exactly what a plan lists: of each file the request covers the one line that is due, with the
      records selected for it and the reason it is kept, in time order. */
  lemma PlanListsExactly(period: Period, db: set<Key>, files: Files, conflict: Conflict, mode: RangeMode,
                         after: Moment, before: Moment, history: Option<Moment>)
    requires after < before && IsOldest(history, db)
    ensures var spans := RunSpans(period, mode, after, before);
            var plan := PlanFiles(db, files, conflict, spans, history);
            && (forall entry :: entry in plan <==>
                  exists i :: 0 <= i < |spans| && EntryIs(db, files, conflict, spans[i], entry))
            && forall i, j :: 0 <= i < j < |plan| ==> plan[i].start < plan[j].start
  {
    var spans := RunSpans(period, mode, after, before);
    var plan := PlanFiles(db, files, conflict, spans, history);
    hide PlanEntry;
    hide EntryIs;
    hide PlanFiles;
    hide IsOldest;
    forall entry
      ensures entry in plan <==> exists i :: 0 <= i < |spans| && EntryIs(db, files, conflict, spans[i], entry)
    {
      PlanHolds(db, files, conflict, spans, history, entry);
      forall i | 0 <= i < |spans|
        ensures entry in PlanEntry(db, files, conflict, spans[i], history) <==>
                EntryIs(db, files, conflict, spans[i], entry)
      {
        EntryExactly(db, files, conflict, spans[i], history, entry);
      }
    }
    PlanInOrder(db, files, conflict, spans, history);
    StartsIncrease(period, mode, after, before);
    hide RunSpans;
    hide FileStart;
    forall i, j | 0 <= i < j < |plan| ensures plan[i].start < plan[j].start {
      assert InTurn(spans, plan[i].start, plan[j].start);
      var k: nat, l: nat :| StartOfFile(spans, k, plan[i].start) && StartOfFile(spans, l, plan[j].start) && k < l;
    }
  }

  lemma StartsIncrease(period: Period, mode: RangeMode, after: Moment, before: Moment)
    requires after < before
    ensures var spans := RunSpans(period, mode, after, before);
            forall i, j :: 0 <= i < j < |spans| ==> FileStart(spans[i]) < FileStart(spans[j])
  {
    var span := EffectiveSpan(period, mode, after, before);
    if span.Some? && period != All {
      EffectiveIsClosed(period, mode, after, before);
      var from, until := span.value.after.value, span.value.before.value;
      SpanFilesTile(period, from, until);
      var spans := SpanFiles(period, span.value);
      hide SpanFiles;
      hide EffectiveSpan;
      forall i, j | 0 <= i < j < |spans| ensures FileStart(spans[i]) < FileStart(spans[j]) {
        TilesAreOrdered(period, spans, from, until, i, j);
        assert Bounded(period, spans[i]) && Bounded(period, spans[j]);
        NextIsLater(period, FileStart(spans[i]));
      }
    }
  }

  // ---------------------------------------------------------------- what a plan tells of files

  /** What one entry of a plan tells of its file, before the run and after. */
  ghost predicate TellsFile(before: State, after: State, entry: FilePlan) {
    match entry.action
    case Nothing => false
    case Keep => entry.start in before.files && entry.start in after.files
                 && after.files[entry.start] == before.files[entry.start]
    case Remove => entry.start in before.files && entry.start !in after.files
    case Create => entry.start !in before.files && IsWritten(after, entry)
    case Rewrite => entry.start in before.files && IsWritten(after, entry)
  }

  predicate IsWritten(after: State, entry: FilePlan) {
    && entry.start in after.files && !after.files[entry.start].torn
    && |after.files[entry.start].records| == entry.records > 0
  }

  predicate Unlisted(plan: seq<FilePlan>, start: Moment) {
    forall entry :: entry in plan ==> entry.start != start
  }

  ghost predicate TellsFiles(before: State, after: State, plan: seq<FilePlan>, spans: seq<FileSpan>) {
    && (forall entry :: entry in plan ==> TellsFile(before, after, entry))
    && forall i :: 0 <= i < |spans| && Unlisted(plan, FileStart(spans[i])) ==> FileStart(spans[i]) !in after.files
  }

  /** A plan holds the entry of each of its files and no other. */
  lemma {:induction false} PlanHolds(db: set<Key>, files: Files, conflict: Conflict, spans: seq<FileSpan>,
                                     history: Option<Moment>, entry: FilePlan)
    ensures entry in PlanFiles(db, files, conflict, spans, history) <==>
            exists i :: 0 <= i < |spans| && entry in PlanEntry(db, files, conflict, spans[i], history)
    decreases |spans|
  {
    hide PlanEntry;
    if spans != [] {
      var rest := spans[1..];
      PlanHolds(db, files, conflict, rest, history, entry);
      if i :| 0 <= i < |spans| && entry in PlanEntry(db, files, conflict, spans[i], history) {
        assert i > 0 ==> rest[i - 1] == spans[i];
      }
      if i :| 0 <= i < |rest| && entry in PlanEntry(db, files, conflict, rest[i], history) {
        assert spans[i + 1] == rest[i];
      }
    }
  }

  lemma EntryTellsFile(before: State, after: State, conflict: Conflict, span: FileSpan, history: Option<Moment>)
    requires LeftAsDecided(before, after, conflict, span, history)
    ensures forall entry :: entry in PlanEntry(before.db, before.files, conflict, span, history) ==>
              entry.start == FileStart(span) && TellsFile(before, after, entry)
    ensures PlanEntry(before.db, before.files, conflict, span, history) == [] ==> FileStart(span) !in after.files
  {
    SortedCounts(Query(before.db, span.selected));
    hide Query;
    hide BeforeHistory;
  }

  /** A completed run leaves each file as the plan from its start tells. */
  lemma PlanTellsFiles(period: Period, s: State, conflict: Conflict, spans: seq<FileSpan>, history: Option<Moment>)
    requires SpansOk(period, spans) && OwnPeriods(spans)
    requires RunFiles(period, s, conflict, spans, history, STARTED).1.state == Completed
    ensures TellsFiles(s, RunFiles(period, s, conflict, spans, history, STARTED).0,
                       PlanFiles(s.db, s.files, conflict, spans, history), spans)
  {
    hide RunFiles;
    hide SpansOk;
    hide OwnPeriods;
    hide LeftAsDecided;
    hide PlanFiles;
    hide PlanEntry;
    hide TellsFile;
    var after := RunFiles(period, s, conflict, spans, history, STARTED).0;
    var plan := PlanFiles(s.db, s.files, conflict, spans, history);
    forall entry | entry in plan ensures TellsFile(s, after, entry) {
      PlanHolds(s.db, s.files, conflict, spans, history, entry);
      var i :| 0 <= i < |spans| && entry in PlanEntry(s.db, s.files, conflict, spans[i], history);
      RunLeavesAsDecided(period, s, conflict, spans, history, STARTED, i);
      EntryTellsFile(s, after, conflict, spans[i], history);
    }
    forall i | 0 <= i < |spans| && Unlisted(plan, FileStart(spans[i])) ensures FileStart(spans[i]) !in after.files {
      RunLeavesAsDecided(period, s, conflict, spans, history, STARTED, i);
      EntryTellsFile(s, after, conflict, spans[i], history);
      var entries := PlanEntry(s.db, s.files, conflict, spans[i], history);
      if entries != [] {
        PlanHolds(s.db, s.files, conflict, spans, history, entries[0]);
      }
    }
  }

  // ---------------------------------------------------------------- runs that refuse files

  /** The files a check names are those of its spans that exist. */
  lemma {:induction false} ExistingNames(files: Files, spans: seq<FileSpan>, start: Moment)
    ensures start in Existing(files, spans) <==>
            start in files && exists i :: 0 <= i < |spans| && FileStart(spans[i]) == start
    decreases |spans|
  {
    if spans != [] {
      ExistingNames(files, spans[1..], start);
      if i :| 0 <= i < |spans| && FileStart(spans[i]) == start {
        assert i > 0 ==> spans[1..][i - 1] == spans[i];
      }
      if i :| 0 <= i < |spans[1..]| && FileStart(spans[1..][i]) == start {
        assert spans[i + 1] == spans[1..][i];
      }
    }
  }

  /** Under `error` a run that meets files which appeared after its check stops at the first of them. */
  lemma {:induction false} RunStopsAtExisting(period: Period, s: State, spans: seq<FileSpan>,
                                              history: Option<Moment>, run: Run)
    requires SpansOk(period, spans) && OwnPeriods(spans) && Existing(s.files, spans) != []
    ensures RunFiles(period, s, Error, spans, history, run).1.state == FailedOn(Existing(s.files, spans)[0])
    decreases |spans|
  {
    hide ExportFile;
    hide Bounds;
    hide Content;
    hide BeforeHistory;
    var span := spans[0];
    assert SpanOk(period, span);
    if FileStart(span) !in s.files {
      RestIsUnchanged(period, s, Error, spans, history);
      var decision := DecideFile(s.db, s.files, Error, span, history);
      RunStopsAtExisting(period, ExportFile(period, s, FileStart(span), Error, span.selected, history),
                         spans[1..], history, Account(run, FileStart(span), decision.action, |Content(s.db, span)|));
    }
  }

  /** Under `error` no run touches a file that is there. */
  lemma {:induction false} ErrorKeepsFiles(period: Period, s: State, spans: seq<FileSpan>, history: Option<Moment>,
                                           run: Run, other: Moment)
    requires SpansOk(period, spans) && other in s.files
    ensures var after := RunFiles(period, s, Error, spans, history, run).0;
            other in after.files && after.files[other] == s.files[other]
    decreases |spans|
  {
    hide Bounds;
    hide Content;
    hide BeforeHistory;
    if spans != [] {
      var span := spans[0];
      assert SpanOk(period, span);
      assert forall i :: 0 <= i < |spans[1..]| ==> spans[1..][i] == spans[i + 1];
      var decision := DecideFile(s.db, s.files, Error, span, history);
      if decision.Decided? {
        ExportTouchesOneFile(period, s, span, Error, history, other);
        hide ExportFile;
        ErrorKeepsFiles(period, ExportFile(period, s, FileStart(span), Error, span.selected, history),
                        spans[1..], history,
                        Account(run, FileStart(span), decision.action, |Content(s.db, span)|), other);
      }
    }
  }
}
