/** Whole runs of the live exporter: its files stay sound and no notified record is silently lost. */
module LiveLoss {
  import opened Options
  import opened Calendar
  import opened Spans
  import opened Keys
  import opened Decisions
  import opened Live
  import opened LiveSafety

  // ---------------------------------------------------------------- one step: no loss

  lemma TakenOrLate(s: State, start: Moment, key: Key)
    requires start in s.working && key in s.db
    requires AtMost(s.working[start].first, key) && AtMost(key, s.working[start].last)
    ensures Found(s, start) != []
    ensures key in WakeKeys(s, start) ||
            (Late(Found(s, start), Previous(s, start)) && AtMost(key, Previous(s, start).value))
  {
    assert key in Found(s, start);
  }

  /** A file that goes on past a key still does once it has grown. */
  lemma GrownPast(records: seq<Key>, more: seq<Key>, key: Key)
    requires records != [] && records <= more && Increasing(more) && AtMost(key, records[|records| - 1])
    ensures AtMost(key, more[|more| - 1])
  {
    assert more[|records| - 1] == records[|records| - 1];
    if |records| < |more| {
      assert Less(more[|records| - 1], more[|more| - 1]);
    }
  }

  lemma OtherFilesOpen(s: State, start: Moment, other: Moment)
    requires other != start
    ensures Records(Opened(s, start), other) == Records(s.files, other)
  {
  }

  /** What writing a period does to the files: it adds what it took to that one. */
  lemma WriteEffect(period: Period, s: State, start: Moment, other: Moment)
    requires Safe(period, s) && start in s.working
    ensures var after := WritePeriod(s, start);
            && Records(after.files, start)
                 == Records(s.files, start) + (if Found(s, start) == [] then [] else WakeKeys(s, start))
            && (other != start ==> Records(after.files, other) == Records(s.files, other))
            && s.files.Keys <= after.files.Keys
            && after.pending == s.pending && after.working == s.working - {start}
            && s.late <= after.late
            && (Late(Found(s, start), Previous(s, start)) ==> start in after.late)
  {
    hide WritePeriod;
    OpenedOk(period, s, start);
    if other != start {
      OtherFilesOpen(s, start, other);
    }
    WriteAppends(s, start, other);
  }

  lemma WriteAppends(s: State, start: Moment, other: Moment)
    requires start in s.working
    requires Records(Opened(s, start), start) == Records(s.files, start)
    requires Opened(s, start).Keys == s.files.Keys
    requires other != start ==> Records(Opened(s, start), other) == Records(s.files, other)
    ensures var after := WritePeriod(s, start);
            && Records(after.files, start)
                 == Records(s.files, start) + (if Found(s, start) == [] then [] else WakeKeys(s, start))
            && (other != start ==> Records(after.files, other) == Records(s.files, other))
            && s.files.Keys <= after.files.Keys
            && after.pending == s.pending && after.working == s.working - {start}
            && s.late <= after.late
            && (Late(Found(s, start), Previous(s, start)) ==> start in after.late)
  {
    hide Opened;
    hide Previous;
    hide Found;
    hide WakeKeys;
    hide NewLast;
    var newer := WakeKeys(s, start);
    assert newer[..|newer|] == newer;
    assert Records(s.files, start) + [] == Records(s.files, start);
  }

  /** A taken record that is not written came too late for its file. */
  lemma MissedIsPassed(period: Period, s: State, start: Moment, key: Key)
    requires Safe(period, s) && start in s.working && key in s.db && Home(period, key) == start
    requires Covers(period, s.working, key) && key !in WakeKeys(s, start)
    ensures PassedBy(period, WritePeriod(s, start), key)
  {
    var after := WritePeriod(s, start);
    WriteEffect(period, s, start, start);
    OpenedOk(period, s, start);
    WriteIsSafe(period, s, start);
    TakenOrLate(s, start, key);
    hide Home;
    hide WritePeriod;
    hide WakeKeys;
    hide Found;
    hide Previous;
    assert start in after.files && FileOk(period, start, after.files[start]);
    GrownPast(Records(s.files, start), Records(after.files, start), key);
  }

  lemma WriteLosesNothing(period: Period, s: State, start: Moment, key: Key)
    requires Safe(period, s) && start in s.working && key in s.db && Arrives(period, s, key)
    ensures Accounted(period, WritePeriod(s, start), key)
  {
    hide PassedBy;
    hide FilesOk;
    hide LastsOk;
    hide RangesOk;
    hide WritePeriod;
    hide Found;
    hide WakeKeys;
    hide Late;
    hide Previous;
    WriteEffect(period, s, start, Home(period, key));
    if Home(period, key) == start && Covers(period, s.working, key) {
      TakenOrLate(s, start, key);
      if key !in WakeKeys(s, start) {
        MissedIsPassed(period, s, start, key);
      }
    }
    hide Home;
    hide Records;
  }

  /** What a wake writes of a range it took: a stored record of it is in the file afterwards exactly
      when it was, the file held none, or it sorts after all the file held. */
  lemma WriteExactly(period: Period, s: State, start: Moment, key: Key)
    requires Safe(period, s) && start in s.working && key in s.db
    requires AtMost(s.working[start].first, key) && AtMost(key, s.working[start].last)
    ensures var held := Records(s.files, start);
            key in Records(WritePeriod(s, start).files, start) <==>
            key in held || held == [] || Less(held[|held| - 1], key)
  {
    WriteEffect(period, s, start, start);
    OpenedOk(period, s, start);
    TakenOrLate(s, start, key);
    WakeKeysFollow(period, s, start);
    hide WritePeriod;
    hide Safe;
    hide Found;
  }

  /** It writes nothing else, in no file. */
  lemma WriteOnly(period: Period, s: State, start: Moment, other: Moment, key: Key)
    requires Safe(period, s) && start in s.working && key !in Records(s.files, other)
    requires key in Records(WritePeriod(s, start).files, other)
    ensures other == start && key in s.db
    ensures AtMost(s.working[start].first, key) && AtMost(key, s.working[start].last)
  {
    WriteEffect(period, s, start, other);
    hide WritePeriod;
    hide Safe;
  }

  /** Whether a stored record of the range a wake took sorts at or before all its file holds. */
  ghost predicate TooLate(s: State, start: Moment)
    requires start in s.working
  {
    var held := Records(s.files, start);
    held != [] && exists key :: key in s.db && AtMost(s.working[start].first, key) && AtMost(key, s.working[start].last)
                                && AtMost(key, held[|held| - 1])
  }

  lemma FoundTooLate(s: State, start: Moment)
    requires start in s.working && Previous(s, start) == LastOf(Records(s.files, start))
    ensures Late(Found(s, start), Previous(s, start)) <==> TooLate(s, start)
  {
    hide Previous;
    var held, found, range := Records(s.files, start), Found(s, start), s.working[start];
    hide Records;
    hide Found;
    assert found == Sorted(InRange(s.db, range)) by { FoundIs(s, start); }
    assert forall key :: key in found <==> key in s.db && AtMost(range.first, key) && AtMost(key, range.last);
    if found != [] {
      assert found[0] in found;
      FirstIsLeast(found, InRange(s.db, range));
    }
  }

  lemma FoundIs(s: State, start: Moment)
    requires start in s.working
    ensures Found(s, start) == Sorted(InRange(s.db, s.working[start]))
  {
  }

  /** And it reports the period exactly when a stored record of the range came too late. */
  lemma LateExactly(period: Period, s: State, start: Moment, other: Moment)
    requires Safe(period, s) && start in s.working
    ensures other in WritePeriod(s, start).late <==> other in s.late || (other == start && TooLate(s, start))
  {
    OpenedOk(period, s, start);
    FoundTooLate(s, start);
    hide Opened;
    hide Previous;
    hide Found;
    hide WakeKeys;
    hide Safe;
    hide TooLate;
  }

  lemma CheckLosesNothing(period: Period, s: State, start: Moment, through: Moment, key: Key)
    requires Safe(period, s) && Aligned(period, start) && Arrives(period, s, key)
    ensures Arrives(period, CheckPeriod(period, s, start, through), key)
  {
    hide FilesOk;
    hide LastsOk;
    hide Home;
    hide Bounds;
    hide ResumeKeys;
  }

  /** Whether a run may drop a record its period's file is alone in holding. */
  predicate Discards(period: Period, step: Step)
    requires step.Export? ==> Aligned(period, step.start)
  {
    step.Export? && step.conflict == Purge && step.selected != Bounds(period, step.start)
  }

  /** What a run does to a file loses no record of its period that it does not drop. */
  lemma AppliedLosesNothing(period: Period, s: State, start: Moment, content: seq<Key>, decision: Decision, key: Key)
    requires s.late <= s.files.Keys && Accounted(period, s, key)
    requires Home(period, key) == start && start in s.files && decision.Decided? ==>
               (Writes(decision.action) ==> key in content) && decision.action != Remove
    requires decision.Decided? && decision.action == Nothing ==> start !in s.files
    ensures Accounted(period, Applied(s, start, content, decision), key)
  {
    hide Home;
  }

  lemma ExportLosesNothing(period: Period, s: State, start: Moment, conflict: Conflict, selected: Span,
                           history: Option<Moment>, key: Key)
    requires Safe(period, s) && Aligned(period, start) && Within(selected, Bounds(period, start))
    requires conflict != Purge || selected == Bounds(period, start)
    requires key in s.db && Accounted(period, s, key)
    ensures Accounted(period, ExportFile(period, s, start, conflict, selected, history), key)
  {
    var content, whole := Sorted(Query(s.db, selected)), Bounds(period, start);
    if Home(period, key) == start {
      BoundsHold(period, start, key.time);
      assert selected == whole ==> key in content;
    }
    hide Home;
    hide Bounds;
    hide Applied;
    hide Accounted;
    hide BeforeHistory;
    hide Sorted;
    hide FilesOk;
    hide LastsOk;
    hide RangesOk;
    var decision := Decide(conflict, start in s.files, content != [], whole != selected, BeforeHistory(whole, history));
    AppliedLosesNothing(period, s, start, content, decision, key);
  }

  lemma FailLosesNothing(period: Period, s: State, key: Key)
    requires Safe(period, s) && Arrives(period, s, key)
    ensures Arrives(period, Failed(s), key)
  {
    hide Home;
    hide RangeOk;
    RestoredCovers(period, s.pending, s.working);
  }

  lemma CutLosesNothing(period: Period, s: State, start: Moment, count: nat, torn: bool, key: Key)
    requires Safe(period, s) && start in s.working && Cuts(WakeKeys(s, start), count, torn)
    requires Arrives(period, s, key)
    ensures Arrives(period, CutWake(s, start, count, torn), key)
  {
    hide FilesOk;
    hide LastsOk;
    hide Home;
    hide WakeKeys;
    OpenedOk(period, s, start);
  }

  lemma RaisedCheckLosesNothing(period: Period, s: State, start: Moment, through: Moment, key: Key)
    requires Safe(period, s) && Aligned(period, start) && start in s.files && Arrives(period, s, key)
    ensures Arrives(period, Failed(CheckCut(period, s, start, through, 0, false)), key)
  {
    hide ResumeKeys;
    hide Home;
    var base := s.files[start].records;
    assert base + ResumeKeys(period, s, start, through)[..0] == base;
    RestoredCovers(period, s.pending, s.working);
  }

  lemma StepArrives(period: Period, s: State, step: Step, key: Key)
    requires Safe(period, s) && Enabled(period, s, step) && !step.Export? && !step.Crash?
    requires key in s.db && Arrives(period, s, key)
    ensures Accounted(period, Next(period, s, step), key)
  {
    hide FilesOk;
    hide LastsOk;
    hide RangeOk;
    hide Home;
    hide WakeKeys;
    hide PassedBy;
    match step
    case Notify(keys) => NotifiedCovers(period, s.pending, keys);
    case Write(start) => WriteLosesNothing(period, s, start, key);
    case Fail => FailLosesNothing(period, s, key);
    case FailAppending(start, count, torn) =>
      CutLosesNothing(period, s, start, count, torn, key);
      CutWakeIsSafe(period, s, start, count, torn);
      FailLosesNothing(period, CutWake(s, start, count, torn), key);
    case Check(start, through) => CheckLosesNothing(period, s, start, through, key);
    case FailChecking(start, through) => RaisedCheckLosesNothing(period, s, start, through, key);
    case _ =>
  }

  /** Only a run takes a period off the late list, and only a restart forgets the list. */
  lemma LateStays(period: Period, s: State, step: Step)
    requires Enabled(period, s, step) && !step.Export? && !step.Crash?
    ensures s.late <= Next(period, s, step).late
  {
    hide WakeKeys;
    hide ResumeKeys;
    hide Bounds;
    hide Notified;
    hide Restored;
    hide Appended;
  }

  lemma StillPassed(period: Period, s: State, after: State, key: Key)
    requires PassedBy(period, s, key) && s.late <= after.late && FilesOk(period, after.files)
    requires var start := Home(period, key);
             start in s.files ==> start in after.files && s.files[start].records <= after.files[start].records
    ensures PassedBy(period, after, key)
  {
    var start := Home(period, key);
    hide Home;
    assert start in s.files && FileOk(period, start, after.files[start]);
    GrownPast(s.files[start].records, after.files[start].records, key);
  }

  lemma StepPasses(period: Period, s: State, step: Step, key: Key)
    requires Safe(period, s) && Enabled(period, s, step) && !step.Export? && !step.Crash? && PassedBy(period, s, key)
    ensures PassedBy(period, Next(period, s, step), key)
  {
    hide Next;
    hide Home;
    hide FilesOk;
    hide LastsOk;
    hide RangesOk;
    hide Enabled;
    LateStays(period, s, step);
    if Home(period, key) in s.files {
      OnlyRunsRewrite(period, s, step, Home(period, key));
    }
    SafeStep(period, s, step);
    hide PassedBy;
    StillPassed(period, s, Next(period, s, step), key);
  }

  lemma StepLosesNothing(period: Period, s: State, step: Step, key: Key)
    requires Safe(period, s) && Enabled(period, s, step) && !Discards(period, step) && !step.Crash?
    requires key in s.db && Accounted(period, s, key)
    ensures Accounted(period, Next(period, s, step), key)
  {
    hide Safe;
    hide Arrives;
    hide PassedBy;
    if step.Export? {
      ExportLosesNothing(period, s, step.start, step.conflict, step.selected, step.history, key);
    } else if Arrives(period, s, key) {
      hide Next;
      StepArrives(period, s, step, key);
    } else {
      hide Next;
      StepPasses(period, s, step, key);
    }
  }

  predicate SameHeard(a: State, b: State) {
    a.db == b.db && a.notified == b.notified
  }

  lemma WriteHears(s: State, start: Moment)
    requires start in s.working
    ensures SameHeard(s, WritePeriod(s, start))
  {
  }

  lemma CheckHears(period: Period, s: State, start: Moment, through: Moment)
    requires Aligned(period, start)
    ensures SameHeard(s, CheckPeriod(period, s, start, through))
  {
  }

  lemma ExportHears(period: Period, s: State, start: Moment, conflict: Conflict, selected: Span,
                    history: Option<Moment>)
    requires Aligned(period, start)
    ensures SameHeard(s, ExportFile(period, s, start, conflict, selected, history))
  {
  }

  /** What a step does to the records and to those heard of. */
  lemma StepHears(period: Period, s: State, step: Step)
    requires Enabled(period, s, step) && s.notified <= s.db
    ensures var after := Next(period, s, step);
            && after.notified <= after.db
            && (forall key :: key in after.notified ==> key in s.notified || (step.Notify? && key in step.keys))
            && (step.Crash? ==> after.notified == {})
  {
    hide WakeKeys;
    hide ResumeKeys;
    hide Bounds;
    hide Found;
    hide Notified;
    hide Restored;
    hide Appended;
    hide WritePeriod;
    hide CheckPeriod;
    hide ExportFile;
    match step
    case Write(start) => WriteHears(s, start);
    case Check(start, through) => CheckHears(period, s, start, through);
    case Export(start, conflict, selected, history) => ExportHears(period, s, start, conflict, selected, history);
    case _ =>
  }

  /** Every step but a partial purge keeps each notified, stored record accounted for. */
  lemma NoLossStep(period: Period, s: State, step: Step)
    requires Safe(period, s) && Enabled(period, s, step) && !Discards(period, step)
    requires NoLoss(period, s)
    ensures NoLoss(period, Next(period, s, step))
  {
    hide Accounted;
    hide Safe;
    hide Enabled;
    hide Next;
    StepHears(period, s, step);
    var after := Next(period, s, step);
    forall key | key in after.notified ensures Accounted(period, after, key) {
      if step.Notify? && key in step.keys {
        NotifyAccounts(period, s, step.keys, key);
      } else if !step.Crash? {
        StepLosesNothing(period, s, step, key);
      }
    }
  }

  lemma NotifyAccounts(period: Period, s: State, keys: seq<Key>, key: Key)
    requires Safe(period, s) && key in keys
    ensures Accounted(period, Next(period, s, Notify(keys)), key)
  {
    hide Home;
    NotifiedCovers(period, s.pending, keys);
  }

  // ---------------------------------------------------------------- whole runs

  lemma FreshIsSound(period: Period, db: set<Key>)
    ensures Safe(period, Fresh(db)) && NoLoss(period, Fresh(db))
  {
  }

  lemma NoSteps(period: Period, s: State)
    ensures Runs(period, s, []) && StateAfter(period, s, []) == s
  {
  }

  lemma {:induction false} RunsThrough(period: Period, s: State, steps: seq<Step>, step: Step)
    requires Runs(period, s, steps) && Enabled(period, StateAfter(period, s, steps), step)
    ensures Runs(period, s, steps + [step])
    ensures StateAfter(period, s, steps + [step]) == Next(period, StateAfter(period, s, steps), step)
    decreases |steps|
  {
    hide Enabled;
    hide Next;
    if steps == [] {
      assert [step][1..] == [];
    } else {
      assert (steps + [step])[1..] == steps[1..] + [step];
      RunsThrough(period, Next(period, s, steps[0]), steps[1..], step);
    }
  }

  /** Over every run, whatever it interleaves and wherever crashes cut an append: each file's
      complete records are those of its period in strictly increasing key order, and a remembered
      key is the last in its file. */
  lemma {:induction false} FilesStaySound(period: Period, s: State, steps: seq<Step>)
    requires Safe(period, s) && Runs(period, s, steps)
    ensures Safe(period, StateAfter(period, s, steps))
    decreases |steps|
  {
    if steps != [] {
      SafeStep(period, s, steps[0]);
      FilesStaySound(period, Next(period, s, steps[0]), steps[1..]);
    }
  }

  ghost predicate NeverDiscards(period: Period, steps: seq<Step>) {
    forall step :: step in steps ==>
      (step.Export? ==> Aligned(period, step.start)) && !Discards(period, step)
  }

  /** Over every run without a partial purge, every notified record still stored is on its way,
      in its file, or in a period reported late. */
  lemma {:induction false} NothingIsLost(period: Period, s: State, steps: seq<Step>)
    requires Safe(period, s) && NoLoss(period, s)
    requires Runs(period, s, steps) && NeverDiscards(period, steps)
    ensures NoLoss(period, StateAfter(period, s, steps))
    decreases |steps|
  {
    if steps != [] {
      assert steps[0] in steps;
      SafeStep(period, s, steps[0]);
      NoLossStep(period, s, steps[0]);
      assert forall step :: step in steps[1..] ==> step in steps;
      NothingIsLost(period, Next(period, s, steps[0]), steps[1..]);
    }
  }

  /** Once a run's wakes are done, every notified record is in its period's file, but for those that
      sort before the file's last, and then the period is reported late. */
  lemma QuietFilesAreComplete(period: Period, db: set<Key>, steps: seq<Step>, key: Key)
    requires Runs(period, Fresh(db), steps) && NeverDiscards(period, steps)
    ensures var s := StateAfter(period, Fresh(db), steps);
            var start := Home(period, key);
            var held := Records(s.files, start);
            (s.pending == map[] && s.working == map[] && key in s.notified) ==>
              key in held || (start in s.late && held != [] && AtMost(key, held[|held| - 1]))
  {
    FreshIsSound(period, db);
    NothingIsLost(period, Fresh(db), steps);
  }

  // ---------------------------------------------------------------- what was notified

  /** What is stored and what was notified of it changes in no other way than these. */
  lemma StepRecords(period: Period, s: State, step: Step, key: Key)
    requires Enabled(period, s, step)
    ensures var after := Next(period, s, step);
            && (key in after.db <==> step == Store(key) || (key in s.db && step != Prune(key)))
            && (key in after.notified <==>
                  || (step.Notify? && key in step.keys && key in s.db)
                  || (key in s.notified && Remembers(step, key)))
  {
    hide WakeKeys;
    hide ResumeKeys;
    hide Bounds;
    hide Found;
    hide Opened;
    hide Decide;
    hide Appended;
    hide Untorn;
  }

  predicate Remembers(step: Step, key: Key) {
    step != Prune(key) && !step.Crash?
  }

  ghost function StateAt(period: Period, s: State, steps: seq<Step>, i: nat): State
    requires Runs(period, s, steps) && i <= |steps|
    decreases i
  {
    if i == 0 then s else StateAt(period, Next(period, s, steps[0]), steps[1..], i - 1)
  }

  /** A step notifies a record while it is stored, and it is neither pruned nor forgotten by a crash after. */
  ghost predicate Tells(period: Period, s: State, steps: seq<Step>, i: nat, key: Key)
    requires Runs(period, s, steps)
  {
    && i < |steps| && steps[i].Notify? && key in steps[i].keys && key in StateAt(period, s, steps, i).db
    && forall j :: i < j < |steps| ==> Remembers(steps[j], key)
  }

  ghost predicate AllRemember(steps: seq<Step>, key: Key) {
    forall step :: step in steps ==> Remembers(step, key)
  }

  lemma TellsLater(period: Period, s: State, steps: seq<Step>, key: Key)
    requires Runs(period, s, steps) && steps != []
    ensures var next, rest := Next(period, s, steps[0]), steps[1..];
            && (Tells(period, s, steps, 0, key) <==>
                  steps[0].Notify? && key in steps[0].keys && key in s.db && AllRemember(rest, key))
            && forall i: nat :: Tells(period, s, steps, i + 1, key) <==> Tells(period, next, rest, i, key)
  {
    hide Next;
    hide Enabled;
    var next, rest := Next(period, s, steps[0]), steps[1..];
    assert forall j :: 0 <= j < |rest| ==> rest[j] == steps[j + 1] && rest[j] in rest;
    assert forall j :: 0 < j < |steps| ==> steps[j] == rest[j - 1];
    assert StateAt(period, s, steps, 0) == s;
    forall i: nat ensures Tells(period, s, steps, i + 1, key) <==> Tells(period, next, rest, i, key) {
      if i < |rest| {
        assert StateAt(period, s, steps, i + 1) == StateAt(period, next, rest, i);
      }
    }
  }

  /** The records counted as notified are those some step of the run told of. */
  lemma {:induction false} NotifiedExactly(period: Period, s: State, steps: seq<Step>, key: Key)
    requires Runs(period, s, steps)
    ensures key in StateAfter(period, s, steps).notified <==>
            (key in s.notified && AllRemember(steps, key)) || exists i: nat :: Tells(period, s, steps, i, key)
    decreases |steps|
  {
    hide Next;
    hide Enabled;
    if steps != [] {
      var next, rest := Next(period, s, steps[0]), steps[1..];
      StepRecords(period, s, steps[0], key);
      NotifiedExactly(period, next, rest, key);
      TellsLater(period, s, steps, key);
      hide Tells;
      hide Remembers;
      assert AllRemember(steps, key) <==> Remembers(steps[0], key) && AllRemember(rest, key);
      if i: nat :| Tells(period, s, steps, i, key) {
        assert i > 0 ==> Tells(period, s, steps, (i - 1) + 1, key);
        assert i > 0 ==> Tells(period, next, rest, i - 1, key);
      }
      if i: nat :| Tells(period, next, rest, i, key) {
        assert Tells(period, s, steps, i + 1, key);
      }
    }
  }

  /** Told by a run's steps alone: a record that one of them notified is in its period's file once
      all wakes are done, or the period is late and the record sorts before the file's last. */
  lemma ToldRecordsArrive(period: Period, db: set<Key>, steps: seq<Step>, i: nat, key: Key)
    requires Runs(period, Fresh(db), steps) && NeverDiscards(period, steps)
    requires Tells(period, Fresh(db), steps, i, key)
    ensures var s := StateAfter(period, Fresh(db), steps);
            var start := Home(period, key);
            var held := Records(s.files, start);
            (s.pending == map[] && s.working == map[]) ==>
              key in held || (start in s.late && held != [] && AtMost(key, held[|held| - 1]))
  {
    NotifiedExactly(period, Fresh(db), steps, key);
    QuietFilesAreComplete(period, db, steps, key);
  }

  /** Only a run rewrites: every other step leaves each file's complete records in place and at
      most adds to their end. */
  lemma OnlyRunsRewrite(period: Period, s: State, step: Step, start: Moment)
    requires Safe(period, s) && Enabled(period, s, step) && !step.Export?
    requires start in s.files
    ensures var after := Next(period, s, step);
            start in after.files && s.files[start].records <= after.files[start].records
  {
    hide FilesOk;
    hide LastsOk;
    hide RangesOk;
    hide WakeKeys;
    hide ResumeKeys;
    hide Bounds;
    hide Found;
    hide WritePeriod;
    hide CheckPeriod;
    hide ExportFile;
    hide CutWake;
    hide CutCheck;
    match step
    case Write(wake) => WriteEffect(period, s, wake, start);
    case FailAppending(wake, count, torn) => CutEffect(period, s, wake, count, torn, start);
    case Crash(DuringWake(wake, count, torn)) => CutEffect(period, s, wake, count, torn, start);
    case Crash(DuringCheck(check, through, count, torn)) =>
      CutCheckKeeps(period, s, check, through, count, torn, start);
    case Check(check, through) => CheckKeeps(period, s, check, through, start);
    case FailChecking(check, through) => CutCheckKeeps(period, s, check, through, 0, false, start);
    case _ =>
  }

  lemma UntornKeeps(files: Files, start: Moment)
    ensures Untorn(files, start).Keys == files.Keys
    ensures forall other :: Records(Untorn(files, start), other) == Records(files, other)
  {
  }

  lemma CheckKeeps(period: Period, s: State, start: Moment, through: Moment, other: Moment)
    requires Aligned(period, start) && other in s.files
    ensures var after := CheckPeriod(period, s, start, through);
            other in after.files && s.files[other].records <= after.files[other].records
  {
    hide ResumeKeys;
    hide Bounds;
    UntornKeeps(s.files, start);
  }

  lemma CutCheckKeeps(period: Period, s: State, start: Moment, through: Moment, count: nat, torn: bool, other: Moment)
    requires Aligned(period, start) && other in s.files
    requires Cuts(ResumeKeys(period, s, start, through), count, torn)
    ensures var after := CutCheck(period, s, start, through, count, torn);
            other in after.files && s.files[other].records <= after.files[other].records
  {
    hide ResumeKeys;
    hide Bounds;
    UntornKeeps(s.files, start);
    assert Records(Untorn(s.files, start), start) == Records(s.files, start);
  }

  lemma CutEffect(period: Period, s: State, start: Moment, count: nat, torn: bool, other: Moment)
    requires Safe(period, s) && start in s.working && Cuts(WakeKeys(s, start), count, torn)
    ensures s.files.Keys <= CutWake(s, start, count, torn).files.Keys
    ensures Records(s.files, other) <= Records(CutWake(s, start, count, torn).files, other)
  {
    OpenedOk(period, s, start);
    hide FilesOk;
    hide LastsOk;
    hide RangesOk;
    hide WakeKeys;
  }

  /** What a restart costs: the check of a period finds every stored record of it, before the
      check's own time, that is not in the file exactly when it sorts at or before the file's
      last. */
  lemma RestartMissesOnlyOldKeys(period: Period, s: State, cut: Cut, start: Moment, through: Moment, key: Key)
    requires Safe(period, s) && Enabled(period, s, Crash(cut)) && Aligned(period, start)
    requires key in s.db && Home(period, key) == start && key.time < through
    ensures var crashed := Next(period, s, Crash(cut));
            var found := Records(crashed.files, start);
            key in Records(CheckPeriod(period, crashed, start, through).files, start) <==>
              (key in found || found == [] || Less(LastOf(found).value, key))
  {
    CrashIsSafe(period, s, cut);
    CheckFinds(period, Next(period, s, Crash(cut)), start, through, key);
  }

  lemma CheckFinds(period: Period, s: State, start: Moment, through: Moment, key: Key)
    requires Safe(period, s) && Aligned(period, start)
    requires key in s.db && Home(period, key) == start && key.time < through
    ensures var found := Records(s.files, start);
            key in Records(CheckPeriod(period, s, start, through).files, start) <==>
              (key in found || found == [] || Less(LastOf(found).value, key))
  {
    BoundsHold(period, start, key.time);
    hide Home;
    hide FilesOk;
    hide LastsOk;
    hide RangesOk;
    if start !in s.files {
      var content := Sorted(Query(s.db, Until(Bounds(period, start), through)));
      assert key in content;
    } else {
      var newer := ResumeKeys(period, s, start, through);
      assert newer[..|newer|] == newer;
      assert key in newer <==>
             LastOf(s.files[start].records).None? || Less(LastOf(s.files[start].records).value, key);
    }
  }

  // ---------------------------------------------------------------- where the promise stops

  /** A run under a range mode selects part of a file exactly when some moment of the file lies
      outside the selection. */
  lemma PartLeavesAMoment(period: Period, start: Moment, selected: Span) returns (moment: Moment)
    requires Aligned(period, start) && selected != Bounds(period, start)
    requires Within(selected, Bounds(period, start)) && selected.after.Some? && selected.before.Some?
    ensures PeriodStart(period, moment) == start && !Holds(selected, moment)
  {
    if period == All {
      moment := selected.before.value;
    } else {
      NextIsLater(period, start);
      moment := if start < selected.after.value then start else Max(start, selected.before.value);
    }
    BoundsHold(period, start, moment);
  }

  /** A run loses nothing in any sound state exactly when it is no partial purge. */
  lemma OnlyPartialPurgeLoses(period: Period, start: Moment, conflict: Conflict, selected: Span,
                              history: Option<Moment>)
    requires Aligned(period, start) && Within(selected, Bounds(period, start))
    requires (selected.after.Some? && selected.before.Some?) || selected == Bounds(period, start)
    ensures (forall s :: Safe(period, s) && NoLoss(period, s)
               ==> NoLoss(period, ExportFile(period, s, start, conflict, selected, history)))
            <==> !(conflict == Purge && selected != Bounds(period, start))
  {
    hide ExportFile;
    hide Safe;
    hide NoLoss;
    hide Bounds;
    hide Within;
    if conflict == Purge && selected != Bounds(period, start) {
      var steps, s := PartialPurgeLoses(period, start, selected, history);
    } else {
      forall s | Safe(period, s) && NoLoss(period, s)
        ensures NoLoss(period, ExportFile(period, s, start, conflict, selected, history))
      {
        RunLosesNothing(period, s, start, conflict, selected, history);
      }
    }
  }

  lemma RunLosesNothing(period: Period, s: State, start: Moment, conflict: Conflict, selected: Span,
                        history: Option<Moment>)
    requires Aligned(period, start) && Within(selected, Bounds(period, start))
    requires Safe(period, s) && NoLoss(period, s) && !(conflict == Purge && selected != Bounds(period, start))
    ensures NoLoss(period, ExportFile(period, s, start, conflict, selected, history))
  {
    hide ExportFile;
    hide Safe;
    hide NoLoss;
    hide Bounds;
    hide Within;
    NoLossStep(period, s, Export(start, conflict, selected, history));
  }

  /** The state after one record of a period is stored, notified and written. */
  function OneWritten(start: Moment, key: Key): State {
    State({key}, map[start := File([key], false)], map[], map[], map[start := Some(key)], {}, {key})
  }

  lemma OneIsWritten(period: Period, key: Key)
    ensures var start := Home(period, key);
            var taken := State({key}, map[], map[], map[start := Range(key, key)], map[], {}, {key});
            WritePeriod(taken, start) == OneWritten(start, key)
  {
    var start := Home(period, key);
    var taken := State({key}, map[], map[], map[start := Range(key, key)], map[], {}, {key});
    assert InRange({key}, Range(key, key)) == {key};
    SortedIsOnly([key], {key});
    assert Found(taken, start) == [key];
    assert taken.working - {start} == map[];
    assert [] + [key][..1] == [key];
  }

  lemma StoreAndNotify(period: Period, key: Key)
    ensures var start := Home(period, key);
            var stored := State({key}, map[], map[], map[], map[], {}, {});
            var told := State({key}, map[], map[start := Range(key, key)], map[], map[], {}, {key});
            && Enabled(period, Fresh({}), Store(key)) && Next(period, Fresh({}), Store(key)) == stored
            && Enabled(period, stored, Notify([key])) && Next(period, stored, Notify([key])) == told
  {
    assert {} + {key} == {key} && (set k | k in [key] && k in {key}) == {key} && [key][1..] == [];
    assert Notified(period, map[], [key]) == map[Home(period, key) := Range(key, key)];
    hide Home;
    hide Notified;
  }

  lemma TakeAndWrite(period: Period, key: Key)
    ensures var start := Home(period, key);
            var told := State({key}, map[], map[start := Range(key, key)], map[], map[], {}, {key});
            var taken := State({key}, map[], map[], map[start := Range(key, key)], map[], {}, {key});
            && Enabled(period, told, Take) && Next(period, told, Take) == taken
            && Enabled(period, taken, Write(start)) && Next(period, taken, Write(start)) == OneWritten(start, key)
  {
    OneIsWritten(period, key);
    hide WritePeriod;
    hide Home;
  }

  /** An exporter gets there from nothing. */
  lemma OneWrittenIsReached(period: Period, key: Key) returns (steps: seq<Step>)
    ensures Runs(period, Fresh({}), steps) && NeverDiscards(period, steps)
    ensures StateAfter(period, Fresh({}), steps) == OneWritten(Home(period, key), key)
  {
    StoreAndNotify(period, key);
    TakeAndWrite(period, key);
    hide Next;
    hide Enabled;
    hide Home;
    hide Runs;
    hide StateAfter;
    var start, s0 := Home(period, key), Fresh({});
    NoSteps(period, s0);
    RunsThrough(period, s0, [], Store(key));
    steps := [] + [Store(key)];
    RunsThrough(period, s0, steps, Notify([key]));
    steps := steps + [Notify([key])];
    RunsThrough(period, s0, steps, Take);
    steps := steps + [Take];
    RunsThrough(period, s0, steps, Write(start));
    steps := steps + [Write(start)];
  }

  /** What shows it, reached from nothing: a complete file whose one record the purge does not select. */
  lemma PartialPurgeLoses(period: Period, start: Moment, selected: Span, history: Option<Moment>)
    returns (steps: seq<Step>, s: State)
    requires Aligned(period, start) && Within(selected, Bounds(period, start))
    requires selected != Bounds(period, start) && selected.after.Some? && selected.before.Some?
    ensures Runs(period, Fresh({}), steps) && NeverDiscards(period, steps)
    ensures s == StateAfter(period, Fresh({}), steps) && Safe(period, s) && NoLoss(period, s)
    ensures !NoLoss(period, ExportFile(period, s, start, Purge, selected, history))
  {
    var moment := PartLeavesAMoment(period, start, selected);
    var key := Key(moment, 0);
    assert Home(period, key) == start;
    steps := OneWrittenIsReached(period, key);
    s := OneWritten(start, key);
    FreshIsSound(period, {});
    FilesStaySound(period, Fresh({}), steps);
    NothingIsLost(period, Fresh({}), steps);
    OneIsLost(period, start, key, selected, history);
  }

  lemma OneIsLost(period: Period, start: Moment, key: Key, selected: Span, history: Option<Moment>)
    requires Aligned(period, start) && Home(period, key) == start && !Holds(selected, key.time)
    ensures !NoLoss(period, ExportFile(period, OneWritten(start, key), start, Purge, selected, history))
  {
    hide Home;
    hide Bounds;
    hide BeforeHistory;
    var s := OneWritten(start, key);
    var after := ExportFile(period, s, start, Purge, selected, history);
    assert Query(s.db, selected) == {};
    assert after.files == s.files - {start};
    assert !Accounted(period, after, key);
  }

  /** A wake that fails after appending some of its records leaves a remembered key behind its
      file, which stays sound exactly when nothing was appended. */
  lemma RememberedKeyOutlivesFailedAppend(period: Period, s: State, start: Moment, count: nat, torn: bool)
    requires Safe(period, s) && start in s.working && start in s.last
    requires Cuts(WakeKeys(s, start), count, torn)
    ensures Safe(period, Failed(CutWake(s, start, count, torn))) <==> count == 0 && !torn
  {
    hide FileOk;
    OpenedOk(period, s, start);
    var after := CutWake(s, start, count, torn);
    var newer := WakeKeys(s, start);
    WakeKeysFollow(period, s, start);
    assert LastOk(s.files, start, s.last[start]);
    if count == 0 && !torn {
      assert after.files[start] == s.files[start];
      assert after.files == s.files;
      RestoredCovers(period, s.pending, s.working);
    } else if count > 0 {
      var records := s.files[start].records + newer[..count];
      assert after.files[start].records == records;
      assert records[|records| - 1] == newer[count - 1] && newer[count - 1] in newer;
      assert !LastOk(after.files, start, s.last[start]);
    } else {
      assert !LastOk(after.files, start, s.last[start]);
    }
  }

  /** Retried as the loop does, its ranges given back, joined with whatever is pending and taken
      again, such a wake writes records it had appended a second time, when the append stopped
      between records. Where it stopped inside one, `Disk.RetryAfterTorn` says what becomes of them. */
  lemma RetryAppendsTwice(period: Period, s: State, start: Moment, count: nat)
    requires Safe(period, s) && start in s.working && start in s.last
    requires 0 < count <= |WakeKeys(s, start)|
    ensures var failed := Failed(CutWake(s, start, count, false));
            && Enabled(period, failed, Take)
            && var taken := Next(period, failed, Take);
               start in taken.working && !FilesOk(period, WritePeriod(taken, start).files)
  {
    var failed := Failed(CutWake(s, start, count, false));
    var taken := Next(period, failed, Take);
    var newer, again := WakeKeys(s, start), WakeKeys(taken, start);
    assert LastOk(s.files, start, s.last[start]);
    WakeKeysFollow(period, s, start);
    OpenedOk(period, s, start);
    RestoredWidens(period, s, start);
    hide Home;
    StillTaken(s, taken, start, newer[0]);
    RetryRecords(s, taken, start, count);
    hide WakeKeys;
    hide Restored;
    hide WritePeriod;
    hide Found;
    TwiceBreaks(s.files[start].records, newer[..count], again, newer[0]);
  }

  lemma RestoredWidens(period: Period, s: State, start: Moment)
    requires Safe(period, s) && start in s.working
    ensures var ranges := Restored(s.pending, s.working);
            && start in ranges && AtMost(ranges[start].first, s.working[start].first)
            && AtMost(s.working[start].last, ranges[start].last)
  {
  }

  lemma RetryRecords(s: State, taken: State, start: Moment, count: nat)
    requires start in s.working && start in s.last && start in s.files && count <= |WakeKeys(s, start)|
    requires taken.files == CutWake(s, start, count, false).files && taken.last == s.last
    requires start in taken.working && Found(taken, start) != [] && WakeKeys(taken, start) != []
    ensures start in WritePeriod(taken, start).files
    ensures WritePeriod(taken, start).files[start].records
              == s.files[start].records + WakeKeys(s, start)[..count] + WakeKeys(taken, start)
  {
    hide Found;
    hide WakeKeys;
    hide Previous;
    hide NewLast;
    var again := WakeKeys(taken, start);
    assert again[..|again|] == again;
  }

  lemma TwiceBreaks(base: seq<Key>, newer: seq<Key>, again: seq<Key>, key: Key)
    requires newer != [] && newer[0] == key && key in again
    ensures !Increasing(base + newer + again)
  {
    var records := base + newer + again;
    var i :| 0 <= i < |again| && again[i] == key;
    assert records[|base|] == key && records[|base| + |newer| + i] == key;
  }

  /** A wider range and the same remembered key take a record again. */
  lemma StillTaken(s: State, taken: State, start: Moment, key: Key)
    requires start in s.working && start in s.last && start in taken.working && start in taken.last
    requires s.db == taken.db && s.last[start] == taken.last[start]
    requires AtMost(taken.working[start].first, s.working[start].first)
    requires AtMost(s.working[start].last, taken.working[start].last)
    requires key in WakeKeys(s, start) && (s.last[start].Some? ==> Less(s.last[start].value, key))
    ensures key in WakeKeys(taken, start) && Found(taken, start) != []
  {
    assert key in Found(s, start);
    assert key in Found(taken, start);
  }

  // ---------------------------------------------------------------- a failed check

  /** A check that fails after appending some of its records leaves a remembered key behind its
      file, sound exactly when nothing reached the file, and the next check of the period makes the
      exporter sound again whatever reached it. */
  lemma FailedCheck(period: Period, s: State, start: Moment, through: Moment, count: nat, torn: bool, later: Moment)
    requires Safe(period, s) && Aligned(period, start) && start in s.files
    requires Cuts(ResumeKeys(period, s, start, through), count, torn)
    ensures var failed := CheckCut(period, s, start, through, count, torn);
            && (Safe(period, failed) <==> count == 0 && !torn)
            && Safe(period, CheckPeriod(period, failed, start, later))
  {
    hide FileOk;
    hide CheckPeriod;
    hide ResumeKeys;
    ResumeKeysFollow(period, s, start, through);
    UntornOk(period, s.files, start);
    var newer := ResumeKeys(period, s, start, through);
    var failed := CheckCut(period, s, start, through, count, torn);
    AppendedOk(period, Untorn(s.files, start), start, newer, count, torn);
    var cut := failed.(last := s.last - {start});
    DropLast(s.files, s.last, start, failed.files[start]);
    assert failed.files == s.files[start := failed.files[start]];
    assert Safe(period, cut);
    CheckIsSafe(period, cut, start, later);
    CheckForgets(period, cut, failed, start, later);
    FailedCheckSound(period, s, start, through, count, torn);
  }

  lemma FailedCheckSound(period: Period, s: State, start: Moment, through: Moment, count: nat, torn: bool)
    requires Safe(period, s) && Aligned(period, start) && start in s.files
    requires Cuts(ResumeKeys(period, s, start, through), count, torn)
    requires FilesOk(period, CheckCut(period, s, start, through, count, torn).files)
    ensures Safe(period, CheckCut(period, s, start, through, count, torn)) <==> count == 0 && !torn
  {
    hide FileOk;
    hide ResumeKeys;
    ResumeKeysFollow(period, s, start, through);
    var failed := CheckCut(period, s, start, through, count, torn);
    var newer, base := ResumeKeys(period, s, start, through), s.files[start].records;
    assert failed.files[start] == File(base + newer[..count], torn);
    if count == 0 && !torn {
      assert base + newer[..count] == base;
      PutLast(s.files, s.last, start, File(base, false), LastOf(base));
      assert failed.files == s.files[start := File(base, false)];
    } else if count > 0 {
      var records := base + newer[..count];
      assert records[|records| - 1] == newer[count - 1] && newer[count - 1] in newer;
      assert !LastOk(failed.files, start, failed.last[start]);
    } else {
      assert !LastOk(failed.files, start, failed.last[start]);
    }
  }

  /** A check reads the file again, so it depends on no remembered key of its period. */
  lemma CheckForgets(period: Period, a: State, b: State, start: Moment, through: Moment)
    requires Aligned(period, start) && start in a.files && start in b.last && a == b.(last := a.last)
    requires a.last == b.last - {start}
    ensures CheckPeriod(period, a, start, through) == CheckPeriod(period, b, start, through)
  {
    ResumeReadsFile(period, a, b, start, through);
    hide ResumeKeys;
    var newer := ResumeKeys(period, a, start, through);
    var last := LastOf(a.files[start].records);
    assert a.last[start := last] == b.last[start := last];
    if newer != [] {
      assert a.last[start := Some(newer[|newer| - 1])] == b.last[start := Some(newer[|newer| - 1])];
    }
  }

  lemma ResumeReadsFile(period: Period, a: State, b: State, start: Moment, through: Moment)
    requires Aligned(period, start) && a.files == b.files && a.db == b.db
    ensures ResumeKeys(period, a, start, through) == ResumeKeys(period, b, start, through)
  {
  }
}
