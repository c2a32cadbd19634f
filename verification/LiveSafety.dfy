/** What every step of the live exporter keeps, over every run of the machine. */
module LiveSafety {
  import opened Options
  import opened Calendar
  import opened Spans
  import opened Keys
  import opened Decisions
  import opened Live

  // ---------------------------------------------------------------- the invariants

  ghost predicate Belong(period: Period, start: Moment, keys: seq<Key>) {
    forall k :: k in keys ==> Home(period, k) == start
  }

  /** A file holds records of its own period only, in strictly increasing key order. */
  ghost predicate FileOk(period: Period, start: Moment, file: File) {
    Increasing(file.records) && Belong(period, start, file.records)
  }

  ghost predicate RangeOk(period: Period, start: Moment, range: Range) {
    && AtMost(range.first, range.last)
    && Home(period, range.first) == Home(period, range.last) == start
  }

  ghost predicate RangesOk(period: Period, ranges: Ranges) {
    forall start :: start in ranges ==> RangeOk(period, start, ranges[start])
  }

  ghost predicate FilesOk(period: Period, files: Files) {
    forall start :: start in files ==> FileOk(period, start, files[start])
  }

  /** A remembered key is the last one in its file, which ends in no torn record. */
  ghost predicate LastOk(files: Files, start: Moment, key: Option<Key>) {
    start in files && !files[start].torn && key == LastOf(files[start].records)
  }

  ghost predicate LastsOk(files: Files, last: map<Moment, Option<Key>>) {
    forall start :: start in last ==> LastOk(files, start, last[start])
  }

  ghost predicate Safe(period: Period, s: State) {
    && FilesOk(period, s.files)
    && LastsOk(s.files, s.last)
    && RangesOk(period, s.pending)
    && RangesOk(period, s.working)
    && s.late <= s.files.Keys
  }

  ghost predicate Covers(period: Period, ranges: Ranges, key: Key) {
    var start := Home(period, key);
    start in ranges && AtMost(ranges[start].first, key) && AtMost(key, ranges[start].last)
  }

  /** A record is on its way to its file or in it. */
  ghost predicate Arrives(period: Period, s: State, key: Key) {
    || Covers(period, s.pending, key)
    || Covers(period, s.working, key)
    || key in Records(s.files, Home(period, key))
  }

  /** A record came too late: its period is reported, and its file goes on past it. */
  predicate PassedBy(period: Period, s: State, key: Key) {
    var start := Home(period, key);
    var records := Records(s.files, start);
    start in s.late && records != [] && AtMost(key, records[|records| - 1])
  }

  /** No record drops out of sight but one that came too late, and then its period is reported. */
  ghost predicate Accounted(period: Period, s: State, key: Key) {
    Arrives(period, s, key) || PassedBy(period, s, key)
  }

  /** No notified record the database still holds is silently lost. */
  ghost predicate NoLoss(period: Period, s: State) {
    s.notified <= s.db && forall key :: key in s.notified ==> Accounted(period, s, key)
  }

  // ---------------------------------------------------------------- ranges

  lemma AddRangeOk(period: Period, ranges: Ranges, start: Moment, range: Range)
    requires RangesOk(period, ranges) && RangeOk(period, start, range)
    ensures RangesOk(period, AddRange(ranges, start, range))
    ensures forall k :: Covers(period, ranges, k) ==> Covers(period, AddRange(ranges, start, range), k)
  {
  }

  lemma {:induction false} NotifiedCovers(period: Period, ranges: Ranges, keys: seq<Key>)
    requires RangesOk(period, ranges)
    ensures RangesOk(period, Notified(period, ranges, keys))
    ensures forall k :: Covers(period, ranges, k) || k in keys ==> Covers(period, Notified(period, ranges, keys), k)
    decreases |keys|
  {
    if keys != [] {
      var first := Range(keys[0], keys[0]);
      var added := AddRange(ranges, Home(period, keys[0]), first);
      AddRangeOk(period, ranges, Home(period, keys[0]), first);
      assert Covers(period, added, keys[0]);
      NotifiedCovers(period, added, keys[1..]);
      forall k | k in keys ensures k == keys[0] || k in keys[1..] {
        var i :| 0 <= i < |keys| && keys[i] == k;
        assert i == 0 || keys[1..][i - 1] == k;
      }
    }
  }

  lemma RestoredCovers(period: Period, pending: Ranges, working: Ranges)
    requires RangesOk(period, pending) && RangesOk(period, working)
    ensures RangesOk(period, Restored(pending, working))
    ensures forall k :: Covers(period, pending, k) || Covers(period, working, k)
              ==> Covers(period, Restored(pending, working), k)
  {
    hide Home;
    var all := Restored(pending, working);
    forall start | start in all ensures RangeOk(period, start, all[start]) {
      assert start in pending ==> RangeOk(period, start, pending[start]);
      assert start in working ==> RangeOk(period, start, working[start]);
    }
  }

  /** A range is the least that holds some keys: its ends are two of them. */
  ghost predicate Hull(range: Range, keys: set<Key>) {
    && range.first in keys && range.last in keys
    && forall k :: k in keys ==> AtMost(range.first, k) && AtMost(k, range.last)
  }

  ghost function Ends(ranges: Ranges, start: Moment): set<Key> {
    if start in ranges then {ranges[start].first, ranges[start].last} else {}
  }

  /** The ends of a period's range, and the keys of the period among some that are notified. */
  ghost function Heard(period: Period, ranges: Ranges, keys: seq<Key>, start: Moment): set<Key> {
    HomeKeys(period, keys, start) + Ends(ranges, start)
  }

  lemma AtMostFollows(a: Key, b: Key, c: Key)
    requires AtMost(a, b) && AtMost(b, c)
    ensures AtMost(a, c)
  {
  }

  lemma JoinIsHull(a: Range, b: Range)
    requires AtMost(a.first, a.last) && AtMost(b.first, b.last)
    ensures Hull(Join(a, b), {a.first, a.last, b.first, b.last})
  {
  }

  lemma HullOfHull(range: Range, inner: Range, some: set<Key>, more: set<Key>)
    requires Hull(inner, more) && Hull(range, some + {inner.first, inner.last})
    ensures Hull(range, some + more)
  {
    hide AtMost;
    forall k | k in some + more ensures AtMost(range.first, k) && AtMost(k, range.last) {
      if k in more {
        AtMostFollows(range.first, inner.first, k);
        AtMostFollows(k, inner.last, range.last);
      }
    }
  }

  /** A flush takes a period up exactly when it notifies a record of it or the period waited before,
      and the period's range is the least that holds both: nothing before or after is taken up. */
  lemma {:induction false} NotifiedIsHull(period: Period, ranges: Ranges, keys: seq<Key>, start: Moment)
    requires RangesOk(period, ranges)
    ensures var after := Notified(period, ranges, keys);
            && (start in after <==> Heard(period, ranges, keys, start) != {})
            && (start in after ==> Hull(after[start], Heard(period, ranges, keys, start)))
    decreases |keys|
  {
    hide Home;
    hide Hull;
    if keys == [] {
      assert Heard(period, ranges, keys, start) == Ends(ranges, start);
      if start in ranges {
        assert RangeOk(period, start, ranges[start]);
        EndsAreHull(ranges[start]);
        assert ranges[start].first in Ends(ranges, start);
      }
    } else {
      var key, rest, one := keys[0], keys[1..], Range(keys[0], keys[0]);
      var added := AddRange(ranges, Home(period, key), one);
      AddRangeOk(period, ranges, Home(period, key), one);
      NotifiedIsHull(period, added, rest, start);
      HeardNext(period, ranges, keys, start);
      if start == Home(period, key) {
        assert start in ranges ==> AtMost(ranges[start].first, ranges[start].last);
        NextIsHull(period, ranges, key, start);
        hide RangesOk;
        hide AddRange;
        hide Heard;
        hide AtMost;
        HullOfHull(Notified(period, added, rest)[start], added[start], HomeKeys(period, rest, start),
                   {key} + Ends(ranges, start));
      }
    }
  }

  ghost function HomeKeys(period: Period, keys: seq<Key>, start: Moment): set<Key> {
    set k | k in keys && Home(period, k) == start
  }

  /** What is heard of with one more key taken up. */
  lemma HeardNext(period: Period, ranges: Ranges, keys: seq<Key>, start: Moment)
    requires keys != []
    ensures var key, rest := keys[0], keys[1..];
            var added := AddRange(ranges, Home(period, key), Range(key, key));
            var heard, later := Heard(period, ranges, keys, start), Heard(period, added, rest, start);
            if start == Home(period, key) then
              && later == HomeKeys(period, rest, start) + {added[start].first, added[start].last} != {}
              && heard == HomeKeys(period, rest, start) + ({key} + Ends(ranges, start)) != {}
            else heard == later
  {
    hide Home;
    hide Join;
    var key, rest := keys[0], keys[1..];
    var added := AddRange(ranges, Home(period, key), Range(key, key));
    assert HomeKeys(period, keys, start)
        == HomeKeys(period, rest, start) + if start == Home(period, key) then {key} else {};
    if start == Home(period, key) {
      assert added[start].first in Heard(period, added, rest, start);
      assert key in Heard(period, ranges, keys, start);
    }
  }

  lemma EndsAreHull(range: Range)
    requires AtMost(range.first, range.last)
    ensures Hull(range, {range.first, range.last})
  {
  }

  lemma NextIsHull(period: Period, ranges: Ranges, key: Key, start: Moment)
    requires start in ranges ==> AtMost(ranges[start].first, ranges[start].last)
    ensures Hull(AddRange(ranges, start, Range(key, key))[start], {key} + Ends(ranges, start))
  {
    if start in ranges {
      JoinIsHull(ranges[start], Range(key, key));
      assert {key} + Ends(ranges, start) == {ranges[start].first, ranges[start].last, key, key};
    }
  }

  /** What a failed wake gives back: each range the least that holds what waited and what it took. */
  lemma RestoredIsHull(period: Period, pending: Ranges, working: Ranges, start: Moment)
    requires RangesOk(period, pending) && RangesOk(period, working)
    ensures var all, ends := Restored(pending, working), Ends(pending, start) + Ends(working, start);
            && (start in all <==> start in pending || start in working)
            && (start in all ==> Hull(all[start], ends))
  {
    assert start in pending ==> RangeOk(period, start, pending[start]);
    assert start in working ==> RangeOk(period, start, working[start]);
    hide RangesOk;
    hide Hull;
    hide Join;
    hide MinKey;
    hide MaxKey;
    hide AtMost;
    if start in pending {
      EndsAreHull(pending[start]);
    }
    if start in working {
      EndsAreHull(working[start]);
    }
    if start in pending && start in working {
      JoinIsHull(pending[start], working[start]);
      assert Ends(pending, start) + Ends(working, start)
          == {pending[start].first, pending[start].last, working[start].first, working[start].last};
    }
  }

  // ---------------------------------------------------------------- files

  /** A file's range holds exactly the records of its period. */
  lemma BoundsHold(period: Period, start: Moment, moment: Moment)
    requires Aligned(period, start)
    ensures Holds(Bounds(period, start), moment) <==> PeriodStart(period, moment) == start
  {
    if period != All {
      InPeriod(period, start, moment);
    }
  }

  /** Keys between two keys of one period are of that period. */
  lemma BetweenIsHome(period: Period, start: Moment, range: Range, key: Key)
    requires RangeOk(period, start, range) && AtMost(range.first, key) && AtMost(key, range.last)
    ensures Home(period, key) == start
  {
    PeriodMonotone(period, range.first.time, key.time);
    PeriodMonotone(period, key.time, range.last.time);
  }

  lemma PutFile(period: Period, files: Files, start: Moment, file: File)
    requires FilesOk(period, files) && FileOk(period, start, file)
    ensures FilesOk(period, files[start := file])
  {
    hide FileOk;
  }

  lemma PutLast(files: Files, last: map<Moment, Option<Key>>, start: Moment, file: File, key: Option<Key>)
    requires LastsOk(files, last) && !file.torn && key == LastOf(file.records)
    ensures LastsOk(files[start := file], last[start := key])
  {
  }

  lemma DropLast(files: Files, last: map<Moment, Option<Key>>, start: Moment, file: File)
    requires LastsOk(files, last)
    ensures LastsOk(files[start := file], last - {start})
    ensures LastsOk(files - {start}, last - {start})
    ensures LastsOk(files, last - {start})
  {
    assert forall st :: st in last - {start} ==> LastOk(files, st, last[st]);
  }

  /** Records that may follow a file: of its period, increasing, all after its last. */
  ghost predicate Follows(period: Period, files: Files, start: Moment, newer: seq<Key>) {
    && Increasing(newer)
    && Belong(period, start, newer)
    && forall k :: k in newer && Records(files, start) != [] ==> Less(LastOf(Records(files, start)).value, k)
  }

  lemma AppendedOk(period: Period, files: Files, start: Moment, newer: seq<Key>, count: nat, torn: bool)
    requires FilesOk(period, files) && Follows(period, files, start, newer) && count <= |newer|
    ensures FilesOk(period, Appended(files, start, newer, count, torn))
  {
    hide Home;
    var base := Records(files, start);
    assert start in files ==> FileOk(period, start, files[start]);
    assert forall k :: k in newer[..count] ==> k in newer;
    IncreasingAppend(base, newer[..count]);
    PutFile(period, files, start, File(base + newer[..count], torn));
  }

  /** Reading where a file ends leaves its complete records alone. */
  lemma UntornOk(period: Period, files: Files, start: Moment)
    requires FilesOk(period, files)
    ensures FilesOk(period, Untorn(files, start))
    ensures Records(Untorn(files, start), start) == Records(files, start)
    ensures Untorn(files, start).Keys == files.Keys
  {
    if start in files {
      assert FileOk(period, start, files[start]);
      PutFile(period, files, start, File(files[start].records, false));
    }
  }

  lemma OpenedOk(period: Period, s: State, start: Moment)
    requires Safe(period, s)
    ensures FilesOk(period, Opened(s, start))
    ensures Records(Opened(s, start), start) == Records(s.files, start)
    ensures Opened(s, start).Keys == s.files.Keys
    ensures LastsOk(Opened(s, start), s.last)
    ensures Previous(s, start) == LastOf(Records(s.files, start))
  {
    hide FileOk;
    UntornOk(period, s.files, start);
    if start in s.last {
      assert LastOk(s.files, start, s.last[start]);
    } else {
      assert forall st :: st in s.last ==> LastOk(s.files, st, s.last[st]);
    }
  }

  lemma WakeKeysFollow(period: Period, s: State, start: Moment)
    requires Safe(period, s) && start in s.working
    ensures Follows(period, s.files, start, WakeKeys(s, start))
    ensures Follows(period, Opened(s, start), start, WakeKeys(s, start))
  {
    hide Home;
    OpenedOk(period, s, start);
    var found := Found(s, start);
    assert RangeOk(period, start, s.working[start]);
    forall k | k in found ensures Home(period, k) == start {
      BetweenIsHome(period, start, s.working[start], k);
    }
    var previous := Previous(s, start);
    if previous.Some? && !Late(found, previous) {
      forall k | k in found ensures Less(previous.value, k) {
        var i :| 0 <= i < |found| && found[i] == k;
        assert i == 0 || Less(found[0], found[i]);
      }
    }
  }

  lemma ResumeKeysFollow(period: Period, s: State, start: Moment, through: Moment)
    requires Safe(period, s) && Aligned(period, start) && start in s.files
    ensures Follows(period, s.files, start, ResumeKeys(period, s, start, through))
  {
    var records := s.files[start].records;
    var last := LastOf(records);
    assert FileOk(period, start, s.files[start]);
    forall k | k in ResumeKeys(period, s, start, through) ensures Home(period, k) == start {
      if last.Some? {
        assert last.value in records;
        BoundsHold(period, start, last.value.time);
      }
      BoundsHold(period, start, k.time);
    }
  }

  // ---------------------------------------------------------------- one step: safety

  /** The remembered key after an append is the file's last. */
  lemma NewLastIsLast(period: Period, s: State, start: Moment)
    requires Safe(period, s) && start in s.working && WakeKeys(s, start) != []
    ensures var newer := WakeKeys(s, start);
            NewLast(Previous(s, start), newer[|newer| - 1]) == LastOf(Records(s.files, start) + newer)
  {
    hide FileOk;
    hide RangeOk;
    hide Belong;
    hide Increasing;
    hide WakeKeys;
    WakeKeysFollow(period, s, start);
    OpenedOk(period, s, start);
    hide Previous;
    hide Opened;
    var newer := WakeKeys(s, start);
    assert newer[|newer| - 1] in newer;
  }

  lemma WriteIsSafe(period: Period, s: State, start: Moment)
    requires Safe(period, s) && start in s.working
    ensures Safe(period, WritePeriod(s, start))
  {
    hide FileOk;
    hide RangeOk;
    hide LastOk;
    hide NewLast;
    hide Found;
    hide Previous;
    hide Opened;
    hide WakeKeys;
    WakeKeysFollow(period, s, start);
    OpenedOk(period, s, start);
    hide Follows;
    var files, newer := Opened(s, start), WakeKeys(s, start);
    AppendedOk(period, files, start, newer, |newer|, false);
    LateHasFile(s, start);
    if newer != [] {
      var records := Records(s.files, start) + newer;
      assert newer[..|newer|] == newer;
      NewLastIsLast(period, s, start);
      PutLast(files, s.last, start, File(records, false), LastOf(records));
    }
  }

  lemma LateHasFile(s: State, start: Moment)
    requires start in s.working && Previous(s, start) == LastOf(Records(s.files, start))
    ensures Late(Found(s, start), Previous(s, start)) ==> start in s.files
  {
    hide Found;
  }

  lemma CheckIsSafe(period: Period, s: State, start: Moment, through: Moment)
    requires Safe(period, s) && Aligned(period, start)
    ensures Safe(period, CheckPeriod(period, s, start, through))
  {
    hide RangeOk;
    hide Increasing;
    hide Home;
    if start in s.files {
      hide CheckPeriod;
      ResumeIsSafe(period, s, start, through);
    } else {
      var content := Sorted(Query(s.db, Until(Bounds(period, start), through)));
      assert forall st :: st in s.last ==> LastOk(s.files, st, s.last[st]);
      SelectedIsHome(period, s.db, start, Until(Bounds(period, start), through));
      PutFile(period, s.files, start, File(content, false));
    }
  }

  lemma ResumeIsSafe(period: Period, s: State, start: Moment, through: Moment)
    requires Safe(period, s) && Aligned(period, start) && start in s.files
    ensures Safe(period, CheckPeriod(period, s, start, through))
  {
    hide RangeOk;
    hide Increasing;
    hide Home;
    hide FileOk;
    hide Belong;
    hide Bounds;
    hide ResumeKeys;
    ResumeKeysFollow(period, s, start, through);
    UntornOk(period, s.files, start);
    var newer := ResumeKeys(period, s, start, through);
    var files := Untorn(s.files, start);
    AppendedOk(period, files, start, newer, |newer|, false);
    hide Follows;
    var records := s.files[start].records;
    PutLast(s.files, s.last, start, File(records, false), LastOf(records));
    if newer != [] {
      assert newer[..|newer|] == newer;
      PutLast(files, s.last, start, File(records + newer, false), LastOf(records + newer));
    }
  }

  /** A check that raises before anything reaches its file. */
  lemma RaisedCheckIsSafe(period: Period, s: State, start: Moment, through: Moment)
    requires Safe(period, s) && Aligned(period, start) && start in s.files
    ensures Safe(period, Failed(CheckCut(period, s, start, through, 0, false)))
  {
    hide FileOk;
    hide ResumeKeys;
    hide RangeOk;
    var newer, base := ResumeKeys(period, s, start, through), s.files[start].records;
    assert base + newer[..0] == base;
    assert FileOk(period, start, File(base, false)) by { UntornFileOk(period, start, s.files[start]); }
    PutFile(period, s.files, start, File(base, false));
    PutLast(s.files, s.last, start, File(base, false), LastOf(base));
    RestoredCovers(period, s.pending, s.working);
    assert CheckCut(period, s, start, through, 0, false).files == s.files[start := File(base, false)];
  }

  lemma UntornFileOk(period: Period, start: Moment, file: File)
    requires FileOk(period, start, file)
    ensures FileOk(period, start, File(file.records, false))
  {
  }

  lemma SelectedIsHome(period: Period, db: set<Key>, start: Moment, selected: Span)
    requires Aligned(period, start) && Within(selected, Bounds(period, start))
    ensures Belong(period, start, Sorted(Query(db, selected)))
  {
    forall k | k in Sorted(Query(db, selected)) ensures Home(period, k) == start {
      BoundsHold(period, start, k.time);
    }
  }

  lemma ExportIsSafe(period: Period, s: State, start: Moment, conflict: Conflict, selected: Span,
                     history: Option<Moment>)
    requires Safe(period, s) && Aligned(period, start) && Within(selected, Bounds(period, start))
    ensures Safe(period, ExportFile(period, s, start, conflict, selected, history))
  {
    hide FilesOk;
    hide LastsOk;
    hide RangesOk;
    hide FileOk;
    hide Home;
    hide Bounds;
    hide Decide;
    hide BeforeHistory;
    hide Query;
    var file := File(Sorted(Query(s.db, selected)), false);
    ContentOk(period, s.db, start, selected);
    PutFile(period, s.files, start, file);
    DropFile(period, s.files, start);
    DropLast(s.files, s.last, start, file);
  }

  lemma ContentOk(period: Period, db: set<Key>, start: Moment, selected: Span)
    requires Aligned(period, start) && Within(selected, Bounds(period, start))
    ensures FileOk(period, start, File(Sorted(Query(db, selected)), false))
  {
    SelectedIsHome(period, db, start, selected);
  }

  lemma DropFile(period: Period, files: Files, start: Moment)
    requires FilesOk(period, files)
    ensures FilesOk(period, files - {start})
  {
    hide FileOk;
    assert forall st :: st in files - {start} ==> FileOk(period, st, files[st]);
  }

  lemma CutWakeIsSafe(period: Period, s: State, start: Moment, count: nat, torn: bool)
    requires Safe(period, s) && start in s.working && Cuts(WakeKeys(s, start), count, torn)
    ensures FilesOk(period, CutWake(s, start, count, torn).files)
    ensures s.files.Keys <= CutWake(s, start, count, torn).files.Keys
    ensures start !in s.last ==> LastsOk(CutWake(s, start, count, torn).files, s.last)
  {
    hide FileOk;
    WakeKeysFollow(period, s, start);
    OpenedOk(period, s, start);
    AppendedOk(period, Opened(s, start), start, WakeKeys(s, start), count, torn);
    assert forall st :: st in s.last ==> LastOk(s.files, st, s.last[st]);
  }

  lemma CrashIsSafe(period: Period, s: State, cut: Cut)
    requires Safe(period, s) && Enabled(period, s, Crash(cut))
    ensures Safe(period, Next(period, s, Crash(cut)))
  {
    hide FilesOk;
    hide WakeKeys;
    hide ResumeKeys;
    hide Increasing;
    hide RangeOk;
    match cut
    case Idle =>
    case DuringWake(start, count, torn) => CutWakeIsSafe(period, s, start, count, torn);
    case DuringCheck(start, through, count, torn) =>
      ResumeKeysFollow(period, s, start, through);
      UntornOk(period, s.files, start);
      AppendedOk(period, Untorn(s.files, start), start, ResumeKeys(period, s, start, through), count, torn);
  }

  /** Every step keeps the files and what the exporter remembers of them sound. */
  lemma SafeStep(period: Period, s: State, step: Step)
    requires Safe(period, s) && Enabled(period, s, step)
    ensures Safe(period, Next(period, s, step))
  {
    hide FileOk;
    hide RangeOk;
    hide WakeKeys;
    hide ResumeKeys;
    match step
    case Notify(keys) => NotifiedCovers(period, s.pending, keys);
    case Write(start) => WriteIsSafe(period, s, start);
    case Fail => RestoredCovers(period, s.pending, s.working);
    case FailAppending(start, count, torn) =>
      RestoredCovers(period, s.pending, s.working);
      CutWakeIsSafe(period, s, start, count, torn);
    case Crash(cut) => CrashIsSafe(period, s, cut);
    case Check(start, through) => CheckIsSafe(period, s, start, through);
    case FailChecking(start, through) => RaisedCheckIsSafe(period, s, start, through);
    case Export(start, conflict, selected, history) =>
      ExportIsSafe(period, s, start, conflict, selected, history);
    case _ =>
  }
}
