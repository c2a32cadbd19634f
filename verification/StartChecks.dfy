/** The whole check at start: which periods it looks at, and so which stored records it leaves in no
    file. */
module StartChecks {
  import opened Calendar
  import opened Spans
  import opened Keys
  import opened Live
  import opened LiveSafety
  import opened LiveLoss

  const START_CHECKS := 100

  // ---------------------------------------------------------------- the periods

  /** Whether the period before the one holding a moment can be represented, as the check demands. */
  predicate HasPrevious(period: Period, now: Moment) {
    period == All || Shiftable(period, PeriodStart(period, now), -1)
  }

  lemma StartIsAligned(period: Period, moment: Moment)
    ensures Aligned(period, PeriodStart(period, moment))
  {
    if period != All {
      PeriodHolds(period, moment);
    }
  }

  /** Where the check begins: the period before the present one, or the newest record's if older. */
  function FirstChecked(period: Period, db: set<Key>, now: Moment): (first: Moment)
    requires HasPrevious(period, now)
    ensures Aligned(period, first)
  {
    StartIsAligned(period, now);
    var current := PeriodStart(period, now);
    if period == All then current
    else
      ShiftAligned(period, current, -1);
      var previous, newest := PeriodShift(period, current, -1), LastOf(Sorted(db));
      if newest.None? then previous
      else
        StartIsAligned(period, newest.value.time);
        Min(previous, PeriodStart(period, newest.value.time))
  }

  /** The starts from an aligned one on, up to a moment. */
  function StartsFrom(period: Period, start: Moment, now: Moment): seq<Moment>
    requires period != All && Aligned(period, start)
    decreases now as int - start as int
  {
    if start <= now then
      NextIsLater(period, start);
      [start] + StartsFrom(period, NextPeriod(period, start), now)
    else []
  }

  lemma NextStart(period: Period, start: Moment, now: Moment)
    requires period != All && Aligned(period, start)
    ensures Aligned(period, NextPeriod(period, start)) && start < NextPeriod(period, start)
    ensures start <= now ==>
            StartsFrom(period, start, now) == [start] + StartsFrom(period, NextPeriod(period, start), now)
    ensures now < start ==> StartsFrom(period, start, now) == []
  {
    NextIsLater(period, start);
    hide NextPeriod;
    hide Aligned;
  }

  function Newest(starts: seq<Moment>): seq<Moment> {
    if |starts| > START_CHECKS then starts[|starts| - START_CHECKS..] else starts
  }

  /** The periods the check goes through. */
  function Checked(period: Period, db: set<Key>, now: Moment): seq<Moment>
    requires HasPrevious(period, now)
  {
    if period == All then [PeriodStart(period, now)]
    else Newest(StartsFrom(period, FirstChecked(period, db, now), now))
  }

  lemma {:induction false} StartsExactly(period: Period, start: Moment, now: Moment, other: Moment)
    requires period != All && Aligned(period, start)
    ensures other in StartsFrom(period, start, now) <==> Aligned(period, other) && start <= other <= now
    decreases now as int - start as int
  {
    hide Aligned;
    hide NextPeriod;
    if start <= now {
      NextIsLater(period, start);
      StartsExactly(period, NextPeriod(period, start), now, other);
      if Aligned(period, other) {
        NoStartBetween(period, start, other);
      }
    }
  }

  lemma {:induction false} StartsSuffix(period: Period, start: Moment, now: Moment, i: nat)
    requires period != All && Aligned(period, start) && i < |StartsFrom(period, start, now)|
    ensures var starts := StartsFrom(period, start, now);
            Aligned(period, starts[i]) && starts[i..] == StartsFrom(period, starts[i], now)
    decreases i
  {
    hide Aligned;
    hide NextPeriod;
    NextIsLater(period, start);
    if i > 0 {
      var rest := StartsFrom(period, NextPeriod(period, start), now);
      StartsSuffix(period, NextPeriod(period, start), now, i - 1);
      assert StartsFrom(period, start, now)[i..] == rest[i - 1..];
    } else {
      var starts := StartsFrom(period, start, now);
      assert starts[0..] == starts;
    }
  }

  lemma {:induction false} StartsIncrease(period: Period, start: Moment, now: Moment, i: nat, j: nat)
    requires period != All && Aligned(period, start) && i < j < |StartsFrom(period, start, now)|
    ensures StartsFrom(period, start, now)[i] < StartsFrom(period, start, now)[j]
    decreases i
  {
    hide Aligned;
    hide NextPeriod;
    NextIsLater(period, start);
    var next := NextPeriod(period, start);
    var rest := StartsFrom(period, next, now);
    if i > 0 {
      StartsIncrease(period, next, now, i - 1, j - 1);
    } else {
      assert rest[j - 1] in rest;
      StartsExactly(period, next, now, rest[j - 1]);
    }
  }

  lemma AmongNewest(starts: seq<Moment>, i: nat)
    requires i < |starts| && forall j, k :: 0 <= j < k < |starts| ==> starts[j] != starts[k]
    ensures starts[i] in Newest(starts) <==> |starts| - i <= START_CHECKS
  {
    var skipped := if |starts| > START_CHECKS then |starts| - START_CHECKS else 0;
    assert starts[skipped..] == Newest(starts);
    if i >= skipped {
      assert Newest(starts)[i - skipped] == starts[i];
    }
  }

  lemma CheckedFrom(period: Period, db: set<Key>, now: Moment, start: Moment)
    requires period != All && HasPrevious(period, now)
    ensures start in Checked(period, db, now) <==>
            && Aligned(period, start) && FirstChecked(period, db, now) <= start <= now
            && |StartsFrom(period, start, now)| <= START_CHECKS
  {
    hide Aligned;
    hide PeriodStart;
    hide NextPeriod;
    hide FirstChecked;
    hide StartsFrom;
    var first := FirstChecked(period, db, now);
    var starts := StartsFrom(period, first, now);
    StartsExactly(period, first, now, start);
    if start in starts {
      var i :| 0 <= i < |starts| && starts[i] == start;
      StartsSuffix(period, first, now, i);
      forall j, k | 0 <= j < k < |starts| ensures starts[j] != starts[k] {
        StartsIncrease(period, first, now, j, k);
      }
      AmongNewest(starts, i);
    }
  }

  /** Whether a stored record that none sorts after is of a period no later than one starting then. */
  ghost predicate NewestBy(period: Period, db: set<Key>, start: Moment) {
    exists newest :: newest in db && (forall other :: other in db ==> AtMost(other, newest))
                     && PeriodStart(period, newest.time) <= start
  }

  lemma NewestIsLast(db: set<Key>)
    ensures LastOf(Sorted(db)).None? <==> db == {}
    ensures db != {} ==>
              var newest := LastOf(Sorted(db)).value;
              newest in db && forall other :: other in db ==> AtMost(other, newest)
  {
    var keys := Sorted(db);
    if keys != [] {
      var newest := keys[|keys| - 1];
      assert newest in keys;
      forall other | other in db ensures AtMost(other, newest) {
        var i :| 0 <= i < |keys| && keys[i] == other;
        assert i == |keys| - 1 || Less(keys[i], newest);
      }
    } else {
      assert forall key :: key in db <==> key in keys;
    }
  }

  /** Where the check begins, told by the period before now and the newest record. */
  lemma FirstReaches(period: Period, db: set<Key>, now: Moment, start: Moment)
    requires period != All && HasPrevious(period, now)
    ensures Aligned(period, PeriodStart(period, now))
    ensures FirstChecked(period, db, now) <= start <==>
            PeriodShift(period, PeriodStart(period, now), -1) <= start || NewestBy(period, db, start)
  {
    StartIsAligned(period, now);
    NewestIsLast(db);
    hide Sorted;
    hide PeriodStart;
    hide PeriodShift;
    if newest :| newest in db && (forall other :: other in db ==> AtMost(other, newest))
                 && PeriodStart(period, newest.time) <= start {
      var last := LastOf(Sorted(db)).value;
      assert AtMost(newest, last) && AtMost(last, newest);
      assert newest == last;
    }
  }

  /** A period is checked exactly when it starts by now, no earlier than the period before now or than
      the newest record's, and no more than a hundred start from it on. */
  lemma CheckedExactly(period: Period, db: set<Key>, now: Moment, start: Moment)
    requires period != All && HasPrevious(period, now)
    ensures Aligned(period, PeriodStart(period, now))
    ensures start in Checked(period, db, now) <==>
            && Aligned(period, start) && start <= now
            && (PeriodShift(period, PeriodStart(period, now), -1) <= start || NewestBy(period, db, start))
            && |StartsFrom(period, start, now)| <= 100
  {
    CheckedFrom(period, db, now, start);
    FirstReaches(period, db, now, start);
    hide PeriodStart;
    hide PeriodShift;
    hide FirstChecked;
    hide Checked;
    hide Aligned;
    hide NewestBy;
  }

  /** A period of all time is always checked. */
  lemma AllIsChecked(db: set<Key>, now: Moment)
    ensures Checked(All, db, now) == [0]
  {
  }

  lemma CheckedAligned(period: Period, db: set<Key>, now: Moment, start: Moment)
    requires HasPrevious(period, now) && start in Checked(period, db, now)
    ensures Aligned(period, start)
  {
    hide Aligned;
    if period == All {
      StartIsAligned(period, now);
    } else {
      CheckedFrom(period, db, now, start);
    }
  }

  // ---------------------------------------------------------------- the check

  ghost predicate AllAligned(period: Period, starts: seq<Moment>) {
    forall start :: start in starts ==> Aligned(period, start)
  }

  /** The check of each period in turn, every one on the records stored before it began. */
  ghost function CheckAll(period: Period, s: State, starts: seq<Moment>, now: Moment): State
    requires AllAligned(period, starts)
    decreases |starts|
  {
    if starts == [] then s
    else
      assert starts[0] in starts;
      CheckAll(period, CheckPeriod(period, s, starts[0], now), starts[1..], now)
  }

  lemma CheckElsewhere(period: Period, s: State, start: Moment, now: Moment, other: Moment)
    requires Aligned(period, start)
    ensures CheckPeriod(period, s, start, now).db == s.db
    ensures other != start ==> Records(CheckPeriod(period, s, start, now).files, other) == Records(s.files, other)
  {
    hide ResumeKeys;
    hide Bounds;
    UntornKeeps(s.files, start);
  }

  /** A check adds nothing stored after it began. */
  lemma CheckStopsAtNow(period: Period, s: State, start: Moment, now: Moment, key: Key)
    requires Aligned(period, start) && now <= key.time
    ensures key in Records(CheckPeriod(period, s, start, now).files, start) <==> key in Records(s.files, start)
  {
    hide Bounds;
    UntornKeeps(s.files, start);
    if start in s.files {
      var newer := ResumeKeys(period, s, start, now);
      assert newer[..|newer|] == newer;
      assert key !in newer;
    } else {
      assert key !in Sorted(Query(s.db, Until(Bounds(period, start), now)));
    }
  }

  /** What the check of a period does to a record of that period. */
  predicate Reaches(s: State, start: Moment, now: Moment, key: Key) {
    var found := Records(s.files, start);
    key in found || (key.time < now && (found == [] || Less(LastOf(found).value, key)))
  }

  lemma OneCheckReaches(period: Period, s: State, start: Moment, now: Moment, key: Key)
    requires Safe(period, s) && Aligned(period, start) && key in s.db && Home(period, key) == start
    ensures key in Records(CheckPeriod(period, s, start, now).files, start) <==> Reaches(s, start, now, key)
  {
    hide Safe;
    hide CheckPeriod;
    hide Home;
    if key.time < now {
      CheckFinds(period, s, start, now, key);
    } else {
      CheckStopsAtNow(period, s, start, now, key);
    }
  }

  lemma {:induction false} AllChecksReach(period: Period, s: State, starts: seq<Moment>, now: Moment, key: Key)
    requires Safe(period, s) && AllAligned(period, starts) && key in s.db
    requires forall i, j :: 0 <= i < j < |starts| ==> starts[i] != starts[j]
    ensures key in Records(CheckAll(period, s, starts, now).files, Home(period, key)) <==>
            if Home(period, key) in starts then Reaches(s, Home(period, key), now, key)
            else key in Records(s.files, Home(period, key))
    ensures Safe(period, CheckAll(period, s, starts, now)) && CheckAll(period, s, starts, now).db == s.db
    decreases |starts|
  {
    hide Safe;
    hide CheckPeriod;
    hide Home;
    hide Aligned;
    if starts != [] {
      var start, rest, home := starts[0], starts[1..], Home(period, key);
      assert start in starts && (forall other :: other in rest ==> other in starts);
      assert start !in rest;
      var next := CheckPeriod(period, s, start, now);
      CheckIsSafe(period, s, start, now);
      CheckElsewhere(period, s, start, now, home);
      AllChecksReach(period, next, rest, now, key);
      if start == home {
        OneCheckReaches(period, s, start, now, key);
      }
      assert home in starts <==> home == start || home in rest;
    }
  }

  lemma CheckedOnce(period: Period, db: set<Key>, now: Moment)
    requires HasPrevious(period, now)
    ensures var starts := Checked(period, db, now);
            AllAligned(period, starts) && forall i, j :: 0 <= i < j < |starts| ==> starts[i] != starts[j]
  {
    hide Aligned;
    hide PeriodStart;
    hide NextPeriod;
    hide FirstChecked;
    var starts := Checked(period, db, now);
    forall start | start in starts ensures Aligned(period, start) {
      CheckedAligned(period, db, now, start);
    }
    if period != All {
      var first := FirstChecked(period, db, now);
      var all := StartsFrom(period, first, now);
      var skipped := |all| - |starts|;
      forall i, j | 0 <= i < j < |starts| ensures starts[i] != starts[j] {
        StartsIncrease(period, first, now, skipped + i, skipped + j);
      }
    }
  }

  /** What a start leaves unwritten: after the whole check a stored record is in its period's file
      exactly when it was there, or its period is checked, it was stored before the check began, and it
      sorts after all the file held. */
  lemma StartCheckExactly(period: Period, s: State, now: Moment, key: Key)
    requires Safe(period, s) && HasPrevious(period, now) && key in s.db
    ensures var starts, home := Checked(period, s.db, now), Home(period, key);
            && AllAligned(period, starts)
            && var found := Records(s.files, home);
               key in Records(CheckAll(period, s, starts, now).files, home) <==>
               (key in found || (home in starts && key.time < now && (found == [] || Less(LastOf(found).value, key))))
  {
    hide Safe;
    hide Checked;
    hide Home;
    CheckedOnce(period, s.db, now);
    AllChecksReach(period, s, Checked(period, s.db, now), now, key);
  }

  /** The whole check is a run of the machine, one step a period. */
  lemma {:induction false} CheckAllRuns(period: Period, s: State, starts: seq<Moment>, now: Moment)
    returns (steps: seq<Step>)
    requires AllAligned(period, starts)
    ensures Runs(period, s, steps) && StateAfter(period, s, steps) == CheckAll(period, s, starts, now)
    ensures forall step :: step in steps ==> step.Check?
    decreases |starts|
  {
    hide CheckPeriod;
    hide Aligned;
    if starts == [] {
      return [];
    }
    assert starts[0] in starts;
    var step := Check(starts[0], now);
    assert Enabled(period, s, step) && Next(period, s, step) == CheckPeriod(period, s, starts[0], now);
    var rest := CheckAllRuns(period, CheckPeriod(period, s, starts[0], now), starts[1..], now);
    steps := [step] + rest;
    assert steps[1..] == rest;
  }

  // ---------------------------------------------------------------- what a check no longer looks at

  const HOUR := TICKS_PER_HOUR
  const OLD := Key(HOUR + 5, 0)
  const FIFTH := Key(5 * HOUR + 5, 1)
  const EIGHTH := Key(8 * HOUR + 5, 2)

  lemma SortedPair(a: Key, b: Key)
    requires Less(a, b)
    ensures Sorted({a, b}) == [a, b]
  {
    SortedIsOnly([a, b], {a, b});
  }

  lemma SortedOne(a: Key)
    ensures Sorted({a}) == [a]
  {
    SortedIsOnly([a], {a});
  }

  lemma HoursNear()
    ensures HasPrevious(Hour, 5 * HOUR + 10) && PeriodStart(Hour, 5 * HOUR + 10) == 5 * HOUR
    ensures HasPrevious(Hour, 8 * HOUR + 10) && PeriodStart(Hour, 8 * HOUR + 10) == 8 * HOUR
    ensures Home(Hour, OLD) == HOUR && Home(Hour, FIFTH) == 5 * HOUR && Home(Hour, EIGHTH) == 8 * HOUR
    ensures PeriodShift(Hour, 5 * HOUR, -1) == 4 * HOUR && PeriodShift(Hour, 8 * HOUR, -1) == 7 * HOUR
  {
  }

  lemma FirstNear()
    ensures HasPrevious(Hour, 5 * HOUR + 10) && FirstChecked(Hour, {OLD, FIFTH}, 5 * HOUR + 10) == 4 * HOUR
    ensures FirstChecked(Hour, {FIFTH}, 5 * HOUR + 10) == 4 * HOUR
    ensures HasPrevious(Hour, 8 * HOUR + 10) && FirstChecked(Hour, {FIFTH, EIGHTH}, 8 * HOUR + 10) == 7 * HOUR
  {
    HoursNear();
    SortedPair(OLD, FIFTH);
    SortedPair(FIFTH, EIGHTH);
    SortedOne(FIFTH);
    hide HasPrevious;
    hide Sorted;
  }

  /** A record of an hour long past, stored while nothing ran, is in no file after a start in the hour
      of a newer record. */
  lemma BacklogStays()
    ensures HasPrevious(Hour, 5 * HOUR + 10)
    ensures var starts := Checked(Hour, {OLD, FIFTH}, 5 * HOUR + 10);
            && AllAligned(Hour, starts)
            && OLD !in Records(CheckAll(Hour, Fresh({OLD, FIFTH}), starts, 5 * HOUR + 10).files, HOUR)
  {
    HoursNear();
    FirstNear();
    CheckedFrom(Hour, {OLD, FIFTH}, 5 * HOUR + 10, HOUR);
    FreshIsSound(Hour, {OLD, FIFTH});
    hide Checked;
    hide CheckAll;
    StartCheckExactly(Hour, Fresh({OLD, FIFTH}), 5 * HOUR + 10, OLD);
  }

  /** A period one check goes through is past by the time of a later one, once a newer record is
      stored. */
  lemma LaterCheckMovesOn()
    ensures HasPrevious(Hour, 5 * HOUR + 10) && 5 * HOUR in Checked(Hour, {FIFTH}, 5 * HOUR + 10)
    ensures HasPrevious(Hour, 8 * HOUR + 10) && 5 * HOUR !in Checked(Hour, {FIFTH, EIGHTH}, 8 * HOUR + 10)
  {
    HoursNear();
    FirstNear();
    CheckedFrom(Hour, {FIFTH, EIGHTH}, 8 * HOUR + 10, 5 * HOUR);
    CheckedFrom(Hour, {FIFTH}, 5 * HOUR + 10, 5 * HOUR);
    assert Aligned(Hour, 5 * HOUR) && NextPeriod(Hour, 5 * HOUR) == 6 * HOUR;
    assert Aligned(Hour, 6 * HOUR);
    assert StartsFrom(Hour, 6 * HOUR, 5 * HOUR + 10) == [];
    assert StartsFrom(Hour, 5 * HOUR, 5 * HOUR + 10) == [5 * HOUR];
    hide Checked;
  }

  lemma FromSecondHour()
    ensures Aligned(Hour, 2 * HOUR) && |StartsFrom(Hour, 2 * HOUR, 8 * HOUR + 10)| <= START_CHECKS
  {
    hide StartsFrom;
    var now := 8 * HOUR + 10;
    assert Aligned(Hour, 2 * HOUR) && Aligned(Hour, 3 * HOUR) && Aligned(Hour, 4 * HOUR) && Aligned(Hour, 5 * HOUR);
    assert Aligned(Hour, 6 * HOUR) && Aligned(Hour, 7 * HOUR) && Aligned(Hour, 8 * HOUR) && Aligned(Hour, 9 * HOUR);
    NextStart(Hour, 2 * HOUR, now);
    NextStart(Hour, 3 * HOUR, now);
    NextStart(Hour, 4 * HOUR, now);
    NextStart(Hour, 5 * HOUR, now);
    NextStart(Hour, 6 * HOUR, now);
    NextStart(Hour, 7 * HOUR, now);
    NextStart(Hour, 8 * HOUR, now);
    NextStart(Hour, 9 * HOUR, now);
  }

  const SECOND := Key(2 * HOUR + 5, 0)

  /** A newest record hours old is written by the check that meets it. */
  lemma OldNewestIsWritten()
    ensures HasPrevious(Hour, 8 * HOUR + 10)
    ensures var starts := Checked(Hour, {SECOND}, 8 * HOUR + 10);
            && 2 * HOUR in starts && AllAligned(Hour, starts)
            && SECOND in Records(CheckAll(Hour, Fresh({SECOND}), starts, 8 * HOUR + 10).files, 2 * HOUR)
  {
    HoursNear();
    FromSecondHour();
    assert Home(Hour, SECOND) == 2 * HOUR;
    assert NewestBy(Hour, {SECOND}, 2 * HOUR);
    CheckedExactly(Hour, {SECOND}, 8 * HOUR + 10, 2 * HOUR);
    FreshIsSound(Hour, {SECOND});
    hide Checked;
    hide CheckAll;
    hide Home;
    StartCheckExactly(Hour, Fresh({SECOND}), 8 * HOUR + 10, SECOND);
  }
}
