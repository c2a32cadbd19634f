/** The live exporter and its runs as they execute, each proved a step or a run of the machine. */
module Exporter {
  import opened Options
  import opened Calendar
  import opened Spans
  import opened Keys
  import opened Decisions
  import opened Live
  import opened LiveSafety
  import opened LiveLoss
  import opened StartChecks
  import opened ExportRuns

  // ---------------------------------------------------------------- step lists

  lemma TakeStep(period: Period, s: State)
    requires s.working == map[]
    ensures Enabled(period, s, Take) && Next(period, s, Take) == s.(pending := map[], working := s.pending)
  {
  }

  lemma WriteStep(period: Period, s: State, start: Moment)
    requires start in s.working
    ensures Enabled(period, s, Write(start)) && Next(period, s, Write(start)) == WritePeriod(s, start)
    ensures WritePeriod(s, start).working == s.working - {start}
  {
  }

  lemma TrimStep(period: Period, s: State, kept: set<Moment>)
    ensures Enabled(period, s, Trim(kept))
    ensures Next(period, s, Trim(kept)) == s.(last := map start | start in s.last && start in kept :: s.last[start])
  {
  }

  ghost predicate InTimeOrder(order: seq<Moment>) {
    forall i, j :: 0 <= i < j < |order| ==> order[i] < order[j]
  }

  /** Period starts in time order, as a wake goes through them. */
  function InOrder(starts: set<Moment>): (order: seq<Moment>)
    ensures forall start :: start in order <==> start in starts
    ensures InTimeOrder(order)
  {
    var keys := Sorted(set start | start in starts :: Key(start, 0));
    assert forall start :: start in starts <==> Key(start, 0) in keys;
    assert forall key :: key in keys ==> key == Key(key.time, 0) && key.time in starts;
    Times(keys)
  }

  /** The times of keys that no identifier tells apart, in the keys' order. */
  function Times(keys: seq<Key>): (times: seq<Moment>)
    requires Increasing(keys) && forall key :: key in keys ==> key.id == 0
    ensures InTimeOrder(times) && forall time :: time in times <==> Key(time, 0) in keys
  {
    var times := seq(|keys|, i requires 0 <= i < |keys| => keys[i].time);
    assert forall i :: 0 <= i < |keys| ==> keys[i] in keys && keys[i] == Key(times[i], 0);
    assert forall i, j :: 0 <= i < j < |times| ==> Less(keys[i], keys[j]) && times[i] < times[j];
    times
  }

  // ---------------------------------------------------------------- the exporter's memory

  /** What one exporter remembers between wakes, all of it lost on a restart. */
  class LiveMemory {
    var pending: Ranges
    var working: Ranges
    var last: map<Moment, Option<Key>>
    var late: set<Moment>

    constructor ()
      ensures pending == working == map[] && last == map[] && late == {}
    {
      pending, working, last, late := map[], map[], map[], {};
    }

    /** Widens the waiting range of every period that some of the new keys fall in. */
    method Notify(period: Period, keys: seq<Key>)
      modifies this`pending
      ensures pending == Notified(period, old(pending), keys)
    {
      for i := 0 to |keys|
        invariant Notified(period, old(pending), keys) == Notified(period, pending, keys[i..])
      {
        var key := keys[i];
        var start := PeriodStart(period, key.time);
        pending := pending[start := if start !in pending then Range(key, key)
                                    else Range(MinKey(pending[start].first, key), MaxKey(pending[start].last, key))];
        assert keys[i..][1..] == keys[i + 1..];
      }
    }

    /** Puts back what was taken and not written, beside what has come in since. */
    method Restore()
      modifies this`pending, this`working
      ensures pending == Restored(old(pending), old(working)) && working == map[]
    {
      var left := working.Keys;
      while left != {}
        invariant left <= working.Keys && working == old(working)
        invariant pending == Restored(old(pending), working - left)
      {
        var start :| start in left;
        var range := working[start];
        pending := pending[start := if start !in pending then range
                                    else Range(MinKey(pending[start].first, range.first),
                                               MaxKey(pending[start].last, range.last))];
        left := left - {start};
      }
      assert working - {} == working;
      working := map[];
    }
  }

  // ---------------------------------------------------------------- the exporter

  /** One live exporter over its database and files. */
  class LiveExporter {
    const period: Period
    const live: LiveMemory
    var db: set<Key>
    var files: Files
    ghost var notified: set<Key>

    ghost function View(): State
      reads this, live
    {
      State(db, files, live.pending, live.working, live.last, live.late, notified)
    }

    /** Starts on any stored records and whatever files are there, knowing nothing of either. */
    constructor (period: Period, db: set<Key>, files: Files)
      ensures fresh(live) && this.period == period
      ensures View() == State(db, files, map[], map[], map[], {}, {})
    {
      this.period, this.db, this.files, this.notified := period, db, files, {};
      live := new LiveMemory();
    }

    method Flushed(keys: seq<Key>)
      modifies this`notified, live
      ensures View() == Next(period, old(View()), Notify(keys))
    {
      live.Notify(period, keys);
      notified := notified + set k | k in keys && k in db;
    }

    /** Reads where a period's file ends, cutting off a torn record. */
    method LastKey(start: Moment) returns (last: Option<Key>)
      modifies this`files
      ensures files == Untorn(old(files), start) && last == LastOf(Records(old(files), start))
    {
      if start !in files {
        return None;
      }
      last := LastOf(files[start].records);
      if files[start].torn {
        files := files[start := File(files[start].records, false)];
      }
      assert files == Untorn(old(files), start) by {
        assert old(files)[start] == File(old(files)[start].records, old(files)[start].torn);
      }
    }

    /** One period of a wake, its range still in `working`. */
    method WritePeriodLive(start: Moment)
      requires start in live.working
      modifies this`files, live`last, live`late
      ensures View() == WritePeriod(old(View()), start).(working := old(live.working))
    {
      hide Increasing;
      hide InRange;
      ghost var s := View();
      var range := live.working[start];
      var stream := Sorted(InRange(db, range));
      if stream == [] {
        return;
      }
      var previous;
      if start in live.last {
        previous := live.last[start];
      } else {
        previous := LastKey(start);
      }
      assert files == Opened(s, start) && previous == Previous(s, start);
      if previous.Some? && AtMost(stream[0], previous.value) {
        live.late := live.late + {start};
        stream := After(stream, previous.value);
        if stream == [] {
          return;
        }
      }
      assert stream == WakeKeys(s, start);
      hide WakeKeys;
      hide Opened;
      hide Previous;
      hide Late;
      files := files[start := File(Records(files, start) + stream, false)];
      assert stream[..|stream|] == stream;
      var newest := stream[|stream| - 1];
      live.last := live.last[start := if previous.None? then Some(newest) else Some(MaxKey(previous.value, newest))];
    }

    /** Writes the taken periods in time order, each a step of the machine. */
    method WriteTaken(written: seq<Moment>, ghost s: State, ghost taken: seq<Step>) returns (ghost steps: seq<Step>)
      requires forall start :: start in live.working <==> start in written
      requires forall i, j :: 0 <= i < j < |written| ==> written[i] < written[j]
      requires Runs(period, s, taken) && View() == StateAfter(period, s, taken)
      requires forall step :: step in taken ==> !step.Export?
      modifies this`files, live`working, live`last, live`late
      ensures Runs(period, s, steps) && View() == StateAfter(period, s, steps)
      ensures forall step :: step in steps ==> !step.Export?
      ensures live.working == map[]
    {
      hide Enabled;
      hide Next;
      hide WritePeriod;
      hide Runs;
      hide StateAfter;
      steps := taken;
      for i := 0 to |written|
        invariant forall start :: start in live.working <==> start in written[i..]
        invariant Runs(period, s, steps) && View() == StateAfter(period, s, steps)
        invariant forall step :: step in steps ==> !step.Export?
      {
        var start := written[i];
        WriteStep(period, View(), start);
        RunsThrough(period, s, steps, Write(start));
        steps := steps + [Write(start)];
        ghost var t := View();
        WritePeriodLive(start);
        live.working := live.working - {start};
        assert View() == WritePeriod(t, start);
      }
      assert live.working == map[];
    }

    /** A wake: takes what is pending and writes it period by period, in time order. It is a run of
        the machine, so it keeps everything such runs keep. */
    method WriteLive(now: Moment) returns (ghost steps: seq<Step>)
      requires Safe(period, View()) && NoLoss(period, View()) && live.working == map[]
      modifies this`files, live
      ensures Runs(period, old(View()), steps) && View() == StateAfter(period, old(View()), steps)
      ensures Safe(period, View()) && NoLoss(period, View())
      ensures live.pending == map[] && live.working == map[]
      ensures live.last.Keys <= old(live.pending).Keys + {PeriodStart(period, now)}
    {
      hide Safe;
      hide NoLoss;
      hide Enabled;
      hide Next;
      hide Runs;
      hide StateAfter;
      ghost var s := View();
      NoSteps(period, s);
      TakeStep(period, s);
      RunsThrough(period, s, [], Take);
      assert [] + [Take] == [Take];
      live.working, live.pending := live.pending, map[];
      var written := InOrder(live.working.Keys);
      steps := WriteTaken(written, s, [Take]);
      var kept := (set start | start in written) + {PeriodStart(period, now)};
      TrimStep(period, View(), kept);
      RunsThrough(period, s, steps, Trim(kept));
      steps := steps + [Trim(kept)];
      live.last := map start | start in live.last && start in kept :: live.last[start];
      FilesStaySound(period, s, steps);
      NothingIsLost(period, s, steps);
    }

    /** What a failed wake does: its ranges wait again. */
    method FailWake()
      modifies live`pending, live`working
      ensures View() == Next(period, old(View()), Fail)
    {
      live.Restore();
    }

    /** The periods the check at start goes through, the newest hundred of them. */
    method StartsToCheck(now: Moment) returns (starts: seq<Moment>)
      requires HasPrevious(period, now)
      ensures starts == Checked(period, db, now)
    {
      if period == All {
        return [PeriodStart(period, now)];
      }
      var first := FirstChecked(period, db, now);
      starts := StartsUpTo(first, now);
      if |starts| > START_CHECKS {
        starts := starts[|starts| - START_CHECKS..];
      }
    }

    method StartsUpTo(first: Moment, now: Moment) returns (starts: seq<Moment>)
      requires period != All && Aligned(period, first)
      ensures starts == StartsFrom(period, first, now)
    {
      hide StartsFrom;
      hide Aligned;
      hide NextPeriod;
      var start := first;
      starts := [];
      while start <= now
        invariant Aligned(period, start)
        invariant StartsFrom(period, first, now) == starts + StartsFrom(period, start, now)
        decreases now as int - start as int
      {
        NextStart(period, start, now);
        starts := starts + [start];
        start := NextPeriod(period, start);
      }
      NextStart(period, start, now);
    }

    /** The whole check at start: each of its periods in turn, a run of the machine. */
    method CheckStart(now: Moment) returns (starts: seq<Moment>)
      requires HasPrevious(period, now)
      modifies this`files, live`last
      ensures starts == Checked(period, db, now) && AllAligned(period, starts)
      ensures View() == CheckAll(period, old(View()), starts, now)
    {
      hide CheckPeriod;
      hide Checked;
      hide Aligned;
      starts := StartsToCheck(now);
      CheckedOnce(period, db, now);
      var i := 0;
      assert starts[0..] == starts;
      while i < |starts|
        invariant i <= |starts| && AllAligned(period, starts[i..])
        invariant CheckAll(period, old(View()), starts, now) == CheckAll(period, View(), starts[i..], now)
      {
        assert starts[i] in starts && starts[i..][0] == starts[i] && starts[i..][1..] == starts[i + 1..];
        assert forall start :: start in starts[i + 1..] ==> start in starts;
        CheckOne(starts[i], now);
        i := i + 1;
      }
      assert starts[i..] == [];
    }

    /** The check at start, for one period of a resumable exporter. */
    method CheckOne(start: Moment, through: Moment)
      requires Aligned(period, start)
      modifies this`files, live`last
      ensures View() == Next(period, old(View()), Check(start, through))
    {
      if start in files {
        Resume(start, through);
      } else {
        hide Bounds;
        var content := Sorted(Query(db, Until(Bounds(period, start), through)));
        if content != [] {
          files := files[start := File(content, false)];
        }
      }
    }

    method Resume(start: Moment, through: Moment)
      requires Aligned(period, start) && start in files
      modifies this`files, live`last
      ensures View() == CheckPeriod(period, old(View()), start, through)
    {
      hide ResumeKeys;
      hide Aligned;
      ghost var s := View();
      var last := LastKey(start);
      live.last := live.last[start := last];
      var stream := NewerRecords(start, through, last);
      ResumeKeysRead(period, s, View(), start, through);
      if stream != [] {
        assert stream[..|stream|] == stream;
        Append(start, stream);
      }
    }

    method Append(start: Moment, stream: seq<Key>)
      requires stream != []
      modifies this`files, live`last
      ensures files == old(files)[start := File(Records(old(files), start) + stream, false)]
      ensures live.last == old(live.last)[start := Some(stream[|stream| - 1])]
    {
      files := files[start := File(Records(files, start) + stream, false)];
      live.last := live.last[start := Some(stream[|stream| - 1])];
    }

    method NewerRecords(start: Moment, through: Moment, last: Option<Key>) returns (stream: seq<Key>)
      requires Aligned(period, start) && last == LastOf(Records(files, start))
      ensures stream == ResumeKeys(period, View(), start, through)
    {
      hide Aligned;
      var bounds := Bounds(period, start);
      var after := if last.None? then bounds.after else Some(last.value.time);
      stream := Sorted(Query(db, Until(Span(after, bounds.before), through)));
      if last.Some? {
        stream := After(stream, last.value);
      }
    }

    /** Forgets what is known of a file a run has written or found gone. */
    method Forget(start: Moment)
      modifies live`last, live`late
      ensures live.last == old(live.last) - {start} && live.late == old(live.late) - {start}
    {
      live.last := live.last - {start};
      live.late := live.late - {start};
    }

    /** One file of a run. */
    method ExportOne(span: FileSpan, conflict: Conflict, history: Option<Moment>)
      returns (decision: Decision, count: nat)
      requires SpanOk(period, span)
      modifies this`files, live`last, live`late
      ensures decision == DecideFile(old(db), old(files), conflict, span, history)
      ensures View() == ExportFile(period, old(View()), FileStart(span), conflict, span.selected, history)
      ensures decision.Refused? ==> View() == old(View())
      ensures count == |Content(db, span)|
    {
      var start := FileStart(span);
      var stream := Sorted(Query(db, span.selected));
      count := |stream|;
      decision := Decide(conflict, start in files, stream != [], span.whole != span.selected,
                         BeforeHistory(span.whole, history));
      if decision.Refused? {
        return;
      }
      match decision.action {
        case Keep =>
        case Nothing => Forget(start);
        case Remove =>
          files := files - {start};
          Forget(start);
        case _ =>
          files := files[start := File(stream, false)];
          Forget(start);
      }
    }

    /** An export run over its files, which stops at the first file it refuses. */
    method Export(spans: seq<FileSpan>, conflict: Conflict, history: Option<Moment>) returns (run: Run)
      requires SpansOk(period, spans)
      modifies this`files, live`last, live`late
      ensures (View(), run) == RunFiles(period, old(View()), conflict, spans, history, STARTED)
    {
      hide ExportFile;
      hide DecideFile;
      hide Content;
      hide RunFiles;
      run := STARTED;
      RunFilesEnds(period, View(), conflict, history, run);
      assert spans[0..] == spans;
      var i := 0;
      while i < |spans|
        invariant 0 <= i <= |spans|
        invariant SpansOk(period, spans[i..])
        invariant RunFiles(period, old(View()), conflict, spans, history, STARTED)
                    == RunFiles(period, View(), conflict, spans[i..], history, run)
      {
        var span := spans[i];
        assert SpanOk(period, span);
        RunFilesUnfolds(period, View(), conflict, spans[i..], history, run);
        assert spans[i..][1..] == spans[i + 1..];
        var decision, count := ExportOne(span, conflict, history);
        if decision.Refused? {
          run := run.(state := FailedOn(FileStart(span)));
          return;
        }
        run := Account(run, FileStart(span), decision.action, count);
        i := i + 1;
      }
      assert spans[i..] == [];
      RunFilesEnds(period, View(), conflict, history, run);
      run := run.(state := Completed);
    }

    /** The check before a run under `error`: a loop of its own over the run's files. */
    method CheckConflicts(spans: seq<FileSpan>) returns (existing: seq<Moment>)
      ensures existing == Existing(files, spans)
      ensures forall start :: start in existing <==>
                start in files && exists i :: 0 <= i < |spans| && FileStart(spans[i]) == start
    {
      existing := [];
      for i := 0 to |spans|
        invariant Existing(files, spans) == existing + Existing(files, spans[i..])
      {
        assert spans[i..][0] == spans[i] && spans[i..][1..] == spans[i + 1..];
        if FileStart(spans[i]) in files {
          existing := existing + [FileStart(spans[i])];
        }
      }
      assert spans[|spans|..] == [];
      forall start ensures start in existing <==>
                     start in files && exists i :: 0 <= i < |spans| && FileStart(spans[i]) == start {
        ExistingNames(files, spans, start);
      }
    }

    /** Starting a run: it is refused, before it changes anything, over the very files the plan from
        the same records and files would have been refused over, and otherwise does what the plan says. */
    method Start(conflict: Conflict, mode: RangeMode, after: Moment, before: Moment, history: Option<Moment>)
      returns (refused: seq<Moment>, run: Run)
      requires after < before
      modifies this`files, live`last, live`late
      ensures var spans := RunSpans(period, mode, after, before);
              match MakePlan(old(db), old(files), conflict, spans, history)
              case Conflicts(existing) => refused == existing != [] && View() == old(View())
              case Planned(plan, count) =>
                && refused == [] && run.state == Completed
                && run.actions == Acted(plan) && run.written == Wrote(plan) && run.count == count
                && run.kept == Calling(plan, Keep) && run.removed == Calling(plan, Remove)
                && run.done == |spans| == |run.written| + run.kept + run.removed + run.empty
                && SpansOk(period, spans)
                && (View(), run) == RunFiles(period, old(View()), conflict, spans, history, STARTED)
                && TellsFiles(old(View()), View(), plan, spans)
    {
      hide RunFiles;
      hide MakePlan;
      hide TellsFiles;
      var spans := [];
      var span := EffectiveSpan(period, mode, after, before);
      if span.Some? {
        spans := CollectFiles(period, span.value);
      }
      RunSpansOk(period, mode, after, before);
      PlanPredictsRun(period, View(), conflict, mode, after, before, history);
      refused, run := [], STARTED;
      if conflict == Error {
        refused := CheckConflicts(spans);
      }
      RefusalIsPlanned(db, files, conflict, spans, history);
      if refused == [] {
        run := Export(spans, conflict, history);
      }
    }

    /** What the plan says of one file that it does not refuse. */
    method PlanOne(span: FileSpan, conflict: Conflict, history: Option<Moment>) returns (entry: seq<FilePlan>)
      requires conflict == Error ==> FileStart(span) !in files
      ensures entry == PlanEntry(db, files, conflict, span, history)
    {
      var start := FileStart(span);
      var records := |Query(db, span.selected)|;
      SortedCounts(Query(db, span.selected));
      var decision := Decide(conflict, start in files, records > 0, span.whole != span.selected,
                             BeforeHistory(span.whole, history));
      return if decision.action == Nothing then [] else [FilePlan(start, decision.action, decision.reason, records)];
    }

    /** The plan's loop over the same files, which writes nothing. */
    method MakePlanOf(spans: seq<FileSpan>, conflict: Conflict, history: Option<Moment>) returns (plan: Plan)
      ensures plan == MakePlan(db, files, conflict, spans, history)
    {
      hide PlanEntry;
      hide PlanFiles;
      hide Existing;
      hide PlannedCount;
      var planned: seq<FilePlan> := [];
      var existing: seq<Moment> := [];
      assert spans[0..] == spans;
      for i := 0 to |spans|
        invariant PlanFiles(db, files, conflict, spans, history)
                    == planned + PlanFiles(db, files, conflict, spans[i..], history)
        invariant Existing(files, spans) == existing + Existing(files, spans[i..]) || conflict != Error
        invariant conflict != Error ==> existing == []
      {
        var span := spans[i];
        PlanUnfolds(db, files, conflict, spans, history, i);
        ghost var entry := PlanEntry(db, files, conflict, span, history);
        ghost var later := PlanFiles(db, files, conflict, spans[i + 1..], history);
        assert planned + (entry + later) == (planned + entry) + later;
        if FileStart(span) in files && conflict == Error {
          RefusedHasNoEntry(db, files, span, history);
          existing := existing + [FileStart(span)];
        } else {
          var found := PlanOne(span, conflict, history);
          planned := planned + found;
        }
      }
      assert spans[|spans|..] == [];
      PlanEnds(db, files, conflict, history);
      assert planned + [] == planned && existing + [] == existing;
      if existing != [] {
        return Conflicts(existing);
      }
      var count := CountPlanned(planned);
      return Planned(planned, count);
    }

    static method CountPlanned(planned: seq<FilePlan>) returns (count: nat)
      ensures count == PlannedCount(planned)
    {
      count := 0;
      for i := 0 to |planned|
        invariant PlannedCount(planned) == count + PlannedCount(planned[i..])
      {
        assert planned[i..][1..] == planned[i + 1..];
        if Writes(planned[i].action) {
          count := count + planned[i].records;
        }
      }
    }
  }

  lemma ResumeKeysRead(period: Period, s: State, t: State, start: Moment, through: Moment)
    requires Aligned(period, start) && s.db == t.db && Records(s.files, start) == Records(t.files, start)
    ensures ResumeKeys(period, s, start, through) == ResumeKeys(period, t, start, through)
  {
  }

  lemma RefusalIsPlanned(db: set<Key>, files: Files, conflict: Conflict, spans: seq<FileSpan>,
                         history: Option<Moment>)
    ensures MakePlan(db, files, conflict, spans, history).Conflicts? <==>
            conflict == Error && Existing(files, spans) != []
    ensures MakePlan(db, files, conflict, spans, history).Conflicts? ==>
              MakePlan(db, files, conflict, spans, history).existing == Existing(files, spans)
  {
  }

  lemma PlanUnfolds(db: set<Key>, files: Files, conflict: Conflict, spans: seq<FileSpan>, history: Option<Moment>,
                    i: nat)
    requires i < |spans|
    ensures PlanFiles(db, files, conflict, spans[i..], history)
              == PlanEntry(db, files, conflict, spans[i], history)
                 + PlanFiles(db, files, conflict, spans[i + 1..], history)
    ensures Existing(files, spans[i..])
              == (if FileStart(spans[i]) in files then [FileStart(spans[i])] else []) + Existing(files, spans[i + 1..])
  {
    hide PlanEntry;
    assert spans[i..][1..] == spans[i + 1..];
  }

  lemma PlanEnds(db: set<Key>, files: Files, conflict: Conflict, history: Option<Moment>)
    ensures PlanFiles(db, files, conflict, [], history) == [] && Existing(files, []) == []
  {
  }

  lemma RefusedHasNoEntry(db: set<Key>, files: Files, span: FileSpan, history: Option<Moment>)
    requires FileStart(span) in files
    ensures PlanEntry(db, files, Error, span, history) == []
  {
  }

  lemma RunFilesEnds(period: Period, s: State, conflict: Conflict, history: Option<Moment>, run: Run)
    ensures RunFiles(period, s, conflict, [], history, run) == (s, run.(state := Completed))
  {
  }

  lemma RunFilesUnfolds(period: Period, s: State, conflict: Conflict, spans: seq<FileSpan>,
                        history: Option<Moment>, run: Run)
    requires spans != [] && SpansOk(period, spans) && SpanOk(period, spans[0])
    ensures SpansOk(period, spans[1..])
    ensures var decision := DecideFile(s.db, s.files, conflict, spans[0], history);
            RunFiles(period, s, conflict, spans, history, run)
              == if decision.Refused? then (s, run.(state := FailedOn(FileStart(spans[0]))))
                 else RunFiles(period, ExportFile(period, s, FileStart(spans[0]), conflict, spans[0].selected, history),
                               conflict, spans[1..], history,
                               Account(run, FileStart(spans[0]), decision.action, |Content(s.db, spans[0])|))
  {
    assert forall i :: 0 <= i < |spans[1..]| ==> spans[1..][i] == spans[i + 1];
  }
}
