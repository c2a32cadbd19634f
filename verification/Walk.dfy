/** The search for dated folders, which leaves out folders whose period misses the range before it
    looks inside them. */
module Walk {
  import opened Options
  import opened Layouts
  import opened Units
  import opened Folders

  datatype Entry = File | Folder(entries: map<string, Entry>)

  const MICROSECONDS := 1_000_000

  /** Whether a folder's period meets a range, its bounds in microseconds. */
  predicate Overlaps(period: Period, after: int, before: int) {
    match period
    case NoPeriod => true
    case Impossible => false
    case Between(start, end) => start * MICROSECONDS < before && end * MICROSECONDS > after
  }

  /** Whether a moment lies from `from` to before `until`. */
  predicate MomentIn(t: int, from: int, until: int) {
    from <= t < until
  }

  /** Whether a period and a range share a moment. A range that ends where it starts, or before,
      holds none; it counts as met by the periods that have begun before its one bound and end after
      its other. */
  ghost predicate InRange(period: Period, after: int, before: int) {
    match period
    case NoPeriod => true
    case Impossible => false
    case Between(start, end) =>
      if after < before then
        exists t :: MomentIn(t, start * MICROSECONDS, end * MICROSECONDS) && MomentIn(t, after, before)
      else start * MICROSECONDS < before && after < end * MICROSECONDS
  }

  /** The search's test asks for a shared moment. */
  lemma OverlapsExactly(start: nat, end: nat, after: int, before: int)
    requires start < end
    ensures after < before ==>
              (Overlaps(Between(start, end), after, before) <==>
                 exists t :: start * MICROSECONDS <= t < end * MICROSECONDS && MomentIn(t, after, before))
    ensures Overlaps(Between(start, end), after, before) <==> InRange(Between(start, end), after, before)
  {
    if after < before && start * MICROSECONDS < before && after < end * MICROSECONDS {
      var t := if start * MICROSECONDS < after then after else start * MICROSECONDS;
      assert MomentIn(t, start * MICROSECONDS, end * MICROSECONDS) && MomentIn(t, after, before);
    }
  }

  // ---------------------------------------------------------------- the pruned search

  /** The fields an entry's name gives when the search goes down into the entry. */
  function Opened(segment: Segment, name: string, entry: Entry, known: Fields, after: int,
                  before: int): Option<Fields> {
    match ReadName(segment, name, known)
    case Merged(fields) => if Overlaps(PeriodOf(fields), after, before) && entry.Folder? then Some(fields) else None
    case _ => None
  }

  /** Whether the search yields the folder at `path` below `entry`. */
  ghost predicate Yields(layout: Layout, entry: Entry, known: Fields, path: seq<string>, after: int, before: int)
    decreases |layout|
  {
    if layout == [] then path == []
    else
      && entry.Folder? && path != [] && path[0] in entry.entries
      && var fields := Opened(layout[0], path[0], entry.entries[path[0]], known, after, before);
         fields.Some? && Yields(layout[1..], entry.entries[path[0]], fields.value, path[1..], after, before)
  }

  /** Whether the search meets an entry whose name raises the error it does not catch. */
  ghost predicate Trips(layout: Layout, entry: Entry, known: Fields, after: int, before: int)
    decreases |layout|
  {
    && layout != [] && entry.Folder?
    && exists name :: name in entry.entries &&
         (ReadName(layout[0], name, known).Raises? ||
          TripsBelow(layout, entry.entries[name],
                     Opened(layout[0], name, entry.entries[name], known, after, before), after, before))
  }

  ghost predicate TripsBelow(layout: Layout, entry: Entry, fields: Option<Fields>, after: int, before: int)
    requires layout != []
    decreases |layout|, 0
  {
    fields.Some? && Trips(layout[1..], entry, fields.value, after, before)
  }

  // ---------------------------------------------------------------- the unpruned listing

  /** The fields of the folder at `path` when every name on the way matches and agrees with those
      above it. */
  ghost function Reached(layout: Layout, entry: Entry, known: Fields, path: seq<string>): Option<Fields>
    decreases |layout|
  {
    if layout == [] then (if path == [] then Some(known) else None)
    else if entry.File? || path == [] || path[0] !in entry.entries || entry.entries[path[0]].File? then None
    else
      match ReadName(layout[0], path[0], known)
      case Merged(fields) => Reached(layout[1..], entry.entries[path[0]], fields, path[1..])
      case _ => None
  }

  /** The folders a search without pruning lists, each asked for its own period only. */
  ghost predicate Listed(layout: Layout, entry: Entry, path: seq<string>, after: int, before: int) {
    var fields := Reached(layout, entry, map[], path);
    fields.Some? && InRange(PeriodOf(fields.value), after, before)
  }

  // ---------------------------------------------------------------- merging only adds

  /** What is known stays known and the same, but for an hour still in its two halves. */
  predicate Keeps(known: Fields, fields: Fields) {
    forall f :: f in known && f != Hour12 && f != Meridiem ==> f in fields && fields[f] == known[f]
  }

  lemma SetAllKeeps(known: Fields, atoms: seq<Atom>, texts: seq<string>)
    requires |atoms| == |texts|
    ensures var merging := SetAll(known, atoms, texts);
            merging.Merged? ==> Keeps(known, merging.fields) && merging.fields.Keys == known.Keys + FieldSet(atoms)
  {
    hide Read;
    hide FieldOf;
    hide SetAll;
    var merging := SetAll(known, atoms, texts);
    if merging.Merged? {
      SetAllExactly(known, atoms, texts, merging.fields);
    }
  }

  lemma ClockKeeps(fields: Fields)
    ensures var merging := MergeClock(fields);
            merging.Merged? ==> Keeps(fields, merging.fields) && merging.fields.Keys == ClockKeys(fields.Keys)
  {
    assert Hour12 !in CALENDAR && Meridiem !in CALENDAR;
  }

  lemma OrdinalKeeps(fields: Fields)
    ensures var merging := MergeOrdinal(fields);
            merging.Merged? ==> Keeps(fields, merging.fields) && merging.fields.Keys == OrdinalKeys(fields.Keys)
  {
    hide OrdinalDate;
  }

  lemma MergeKeeps(known: Fields, atoms: seq<Atom>, texts: seq<string>)
    requires |atoms| == |texts|
    ensures var merging := Merge(known, atoms, texts);
            merging.Merged? ==> Keeps(known, merging.fields) && merging.fields.Keys == KeysAfter(known.Keys, atoms)
  {
    hide SetAll;
    hide MergeClock;
    hide MergeOrdinal;
    SetAllKeeps(known, atoms, texts);
    var all := SetAll(known, atoms, texts);
    if all.Merged? {
      ClockKeeps(all.fields);
      if MergeClock(all.fields).Merged? {
        OrdinalKeeps(MergeClock(all.fields).fields);
      }
    }
  }

  lemma NameKeeps(segment: Segment, name: string, known: Fields)
    ensures var merging := ReadName(segment, name, known);
            merging.Merged? ==>
              Keeps(known, merging.fields) && merging.fields.Keys == KeysAfter(known.Keys, Atoms(segment))
  {
    hide Match;
    hide Merge;
    hide KeysAfter;
    var texts := Match(segment, name);
    if texts.Some? {
      MatchFits(segment, name);
      FitsCount(segment, name, texts.value);
      MergeKeeps(known, Atoms(segment), texts.value);
    }
  }

  /** The fields known on the way to a folder stay what they are down to it. */
  lemma {:induction false} ReachedKeeps(layout: Layout, entry: Entry, known: Fields, path: seq<string>)
    ensures var reached := Reached(layout, entry, known, path);
            reached.Some? ==> Keeps(known, reached.value) && reached.value.Keys == KeysDown(layout, known.Keys)
    decreases |layout|
  {
    hide ReadName;
    hide KeysAfter;
    if layout != [] && Reached(layout, entry, known, path).Some? {
      NameKeeps(layout[0], path[0], known);
      var fields := ReadName(layout[0], path[0], known).fields;
      ReachedKeeps(layout[1..], entry.entries[path[0]], fields, path[1..]);
    }
  }

  // ---------------------------------------------------------------- periods on the way down

  lemma KeptAgrees(known: Fields, leaf: Fields, c: Civil)
    requires Real(c) && Keeps(known, leaf) && CalendarAgrees(leaf, c)
    ensures CalendarAgrees(known, c)
  {
    hide Value;
    hide Real;
  }

  lemma DepthGrows(known: Fields, leaf: Fields)
    requires Keeps(known, leaf)
    ensures Depth(known.Keys) <= Depth(leaf.Keys)
  {
    assert CALENDAR[0] == Year && CALENDAR[1] == MonthOfYear && CALENDAR[2] == DayOfMonth;
    assert CALENDAR[3] == HourOfDay && CALENDAR[4] == Minute && CALENDAR[5] == Second;
  }

  /** Whether known fields name a unit that ends past the last representable time. */
  predicate EndsTime(keys: set<Field>, c: Civil) {
    Depth(keys) >= 1 && Gapless(keys) && SameUnit(c, LAST, Depth(keys))
  }

  /** Whether no folder on the way to a time's folder names such a unit. */
  predicate Spared(layout: Layout, keys: set<Field>, c: Civil) {
    if layout == [] then true
    else
      var more := KeysAfter(keys, Atoms(layout[0]));
      !EndsTime(more, c) && Spared(layout[1..], more, c)
  }

  /** A folder whose unit is representable overlaps every range a folder below it overlaps. */
  lemma PeriodNarrows(known: Fields, leaf: Fields, c: Civil, after: int, before: int)
    requires Real(c) && Keeps(known, leaf) && CalendarAgrees(leaf, c)
    requires Gapless(leaf.Keys) && Depth(leaf.Keys) >= 1
    ensures Overlaps(PeriodOf(leaf), after, before) && !EndsTime(known.Keys, c) ==>
            Overlaps(PeriodOf(known), after, before)
    ensures EndsTime(known.Keys, c) ==> PeriodOf(known) == Impossible
  {
    hide Real;
    hide SameUnit;
    hide UnitStart;
    hide UnitEnd;
    hide Keeps;
    hide CalendarAgrees;
    PeriodIsUnit(leaf, c);
    if Depth(known.Keys) >= 1 && Gapless(known.Keys) {
      KeptAgrees(known, leaf, c);
      DepthGrows(known, leaf);
      PeriodIsUnit(known, c);
      UnitsNest(c, Depth(known.Keys), Depth(leaf.Keys));
    }
    hide Gapless;
  }

  /** Below a folder the search has opened it yields what is listed, but for folders on whose way
      a period ends past the last representable time. */
  lemma {:induction false} PrunedExactly(layout: Layout, entry: Entry, known: Fields, path: seq<string>, c: Civil,
                                         after: int, before: int)
    requires Real(c) && Reached(layout, entry, known, path).Some?
    requires var leaf := Reached(layout, entry, known, path).value;
             CalendarAgrees(leaf, c) && Gapless(leaf.Keys) && Depth(leaf.Keys) >= 1
    requires Overlaps(PeriodOf(known), after, before)
    ensures Yields(layout, entry, known, path, after, before) <==>
            Overlaps(PeriodOf(Reached(layout, entry, known, path).value), after, before) &&
              Spared(layout, known.Keys, c)
    decreases |layout|
  {
    hide ReadName;
    hide Overlaps;
    hide EndsTime;
    hide KeysAfter;
    hide Keeps;
    hide Real;
    hide PeriodOf;
    hide CalendarAgrees;
    hide Gapless;
    if layout != [] {
      var leaf := Reached(layout, entry, known, path).value;
      var child := entry.entries[path[0]];
      var fields := ReadName(layout[0], path[0], known).fields;
      NameKeeps(layout[0], path[0], known);
      ReachedKeeps(layout[1..], child, fields, path[1..]);
      PeriodNarrows(fields, leaf, c, after, before);
      ImpossibleMisses(after, before);
      if Overlaps(PeriodOf(fields), after, before) {
        PrunedExactly(layout[1..], child, fields, path[1..], c, after, before);
      }
    }
  }

  lemma ImpossibleMisses(after: int, before: int)
    ensures !Overlaps(Impossible, after, before) && Overlaps(NoPeriod, after, before)
  {
  }

  // ---------------------------------------------------------------- folders without a period

  /** Names only: with no year known at the end no folder on the way has a period. */
  lemma {:induction false} NamesOnly(layout: Layout, entry: Entry, known: Fields, path: seq<string>, c: Civil,
                                     after: int, before: int)
    requires Reached(layout, entry, known, path).Some?
    requires Year !in Reached(layout, entry, known, path).value.Keys
    ensures Yields(layout, entry, known, path, after, before) && Spared(layout, known.Keys, c)
    decreases |layout|
  {
    hide ReadName;
    hide KeysAfter;
    hide SameUnit;
    if layout != [] {
      var child := entry.entries[path[0]];
      var fields := ReadName(layout[0], path[0], known).fields;
      NameKeeps(layout[0], path[0], known);
      ReachedKeeps(layout[1..], child, fields, path[1..]);
      assert CALENDAR[0] == Year;
      NamesOnly(layout[1..], child, fields, path[1..], c, after, before);
    }
  }

  lemma {:induction false} YieldedIsListed(layout: Layout, entry: Entry, known: Fields, path: seq<string>,
                                           after: int, before: int)
    requires Yields(layout, entry, known, path, after, before)
    ensures Reached(layout, entry, known, path).Some?
    ensures layout != [] ==> Overlaps(PeriodOf(Reached(layout, entry, known, path).value), after, before)
    decreases |layout|
  {
    hide ReadName;
    hide Overlaps;
    hide PeriodOf;
    if layout != [] {
      var child := entry.entries[path[0]];
      var fields := ReadName(layout[0], path[0], known).fields;
      YieldedIsListed(layout[1..], child, fields, path[1..], after, before);
      assert layout[1..] == [] ==> Reached(layout, entry, known, path) == Some(fields);
    }
  }

  // ---------------------------------------------------------------- what the search finds

  lemma RealStartAgrees(leaf: Fields)
    requires Real(StartOf(leaf))
    ensures CalendarAgrees(leaf, StartOf(leaf))
  {
    assert CALENDAR == [Year, MonthOfYear, DayOfMonth, HourOfDay, Minute, Second];
  }

  lemma ReachedIsSettled(layout: Layout, root: Entry, path: seq<string>)
    requires Valid(layout) && Reached(layout, root, map[], path).Some?
    ensures var leaf := Reached(layout, root, map[], path).value;
            leaf.Keys == Settled(LayoutFields(layout)) && Gapless(leaf.Keys) && Depth(leaf.Keys) == Finest(layout)
  {
    hide Settled;
    hide Gapless;
    var none: Fields := map[];
    assert none.Keys == {};
    ReachedKeeps(layout, root, none, path);
    KeysOfLayout(layout);
  }

  /** Every period fields name has a moment. */
  lemma PeriodHasMoments(fields: Fields)
    requires PeriodOf(fields).Between?
    ensures PeriodOf(fields).start < PeriodOf(fields).end
  {
    var c, depth := StartOf(fields), Depth(fields.Keys);
    RealStartAgrees(fields);
    PeriodIsUnit(fields, c);
    UnitHolds(c, depth);
    hide Real;
    hide EndAfter;
    hide Seconds;
    hide UnitStart;
    hide UnitEnd;
  }

  lemma PeriodInRange(fields: Fields, after: int, before: int)
    ensures Overlaps(PeriodOf(fields), after, before) <==> InRange(PeriodOf(fields), after, before)
  {
    hide PeriodOf;
    match PeriodOf(fields) {
      case Between(start, end) =>
        PeriodHasMoments(fields);
        OverlapsExactly(start, end, after, before);
      case _ =>
    }
  }

  /** The pruned search yields exactly the folders an unpruned listing keeps, for any tree, but for
      folders below or in a unit that ends past the last representable time. */
  lemma WalkIsLossless(layout: Layout, root: Entry, path: seq<string>, after: int, before: int)
    requires Valid(layout) && layout != []
    ensures Yields(layout, root, map[], path, after, before) <==>
            Listed(layout, root, path, after, before)
            && Spared(layout, {}, StartOf(Reached(layout, root, map[], path).value))
  {
    hide Real;
    hide StartOf;
    hide Spared;
    hide EndAfter;
    hide Seconds;
    hide Settled;
    hide Gapless;
    hide CalendarAgrees;
    var none: Fields := map[];
    assert none.Keys == {} && PeriodOf(none) == NoPeriod;
    if Yields(layout, root, none, path, after, before) {
      YieldedIsListed(layout, root, none, path, after, before);
    }
    if Reached(layout, root, none, path).Some? {
      PeriodInRange(Reached(layout, root, none, path).value, after, before);
    }
    hide InRange;
    if Listed(layout, root, path, after, before) {
      var leaf := Reached(layout, root, none, path).value;
      ReachedIsSettled(layout, root, path);
      if Year in leaf.Keys {
        RealStartAgrees(leaf);
        PrunedExactly(layout, root, none, path, StartOf(leaf), after, before);
      } else {
        NamesOnly(layout, root, none, path, StartOf(leaf), after, before);
      }
    }
  }

  lemma {:induction false} EarlierYearsSpared(layout: Layout, keys: set<Field>, c: Civil)
    requires c.year != 9999
    ensures Spared(layout, keys, c)
    decreases |layout|
  {
    hide KeysAfter;
    if layout != [] {
      EarlierYearsSpared(layout[1..], KeysAfter(keys, Atoms(layout[0])), c);
    }
  }

  /** Up to the year 9998 nothing is lost and nothing added. */
  lemma LosslessBeforeLastYear(layout: Layout, root: Entry, path: seq<string>, after: int, before: int)
    requires Valid(layout) && layout != []
    requires var fields := Reached(layout, root, map[], path);
             fields.Some? && Year in fields.value ==> fields.value[Year] != 9999
    ensures Yields(layout, root, map[], path, after, before) <==> Listed(layout, root, path, after, before)
  {
    hide Valid;
    WalkIsLossless(layout, root, path, after, before);
    var fields := Reached(layout, root, map[], path);
    if fields.Some? {
      EarlierYearsSpared(layout, {}, StartOf(fields.value));
    }
    hide Yields;
    hide Listed;
    hide Reached;
    hide Spared;
  }

  // ---------------------------------------------------------------- rendered folders

  /** Whether every name of a path is a folder. */
  predicate Present(entry: Entry, path: seq<string>)
    decreases |path|
  {
    path == [] ||
    (entry.Folder? && path[0] in entry.entries && entry.entries[path[0]].Folder? &&
      Present(entry.entries[path[0]], path[1..]))
  }

  /** A folder for each name, one inside the other. */
  function Nested(names: seq<string>): Entry {
    if names == [] then Folder(map[]) else Folder(map[names[0] := Nested(names[1..])])
  }

  lemma {:induction false} NestedPresent(names: seq<string>)
    ensures Present(Nested(names), names)
  {
    if names != [] {
      NestedPresent(names[1..]);
    }
  }

  lemma {:induction false} PathIsReached(layout: Layout, entry: Entry, known: Fields, path: seq<string>, c: Civil)
    requires Real(c) && Agrees(known, c) && PathReadsTime(layout, path, c)
    ensures ReadNames(layout, path, known).Merged?
    ensures Reached(layout, entry, known, path) ==
            if Present(entry, path) then Some(ReadNames(layout, path, known).fields) else None
    decreases |layout|
  {
    hide ReadName;
    hide Agrees;
    hide Real;
    hide NameReadsTime;
    PathMerges(layout, path, known, c);
    if layout != [] {
      PathReadsSplits(layout, path, c);
      NameMerges(layout[0], path[0], known, c);
      if entry.Folder? && path[0] in entry.entries && entry.entries[path[0]].Folder? {
        PathIsReached(layout[1..], entry.entries[path[0]], ReadName(layout[0], path[0], known).fields, path[1..], c);
      }
    }
  }

  lemma {:induction false} SparedToTheEnd(layout: Layout, keys: set<Field>, c: Civil)
    requires layout != [] && Spared(layout, keys, c)
    ensures !EndsTime(KeysDown(layout, keys), c)
    decreases |layout|
  {
    hide KeysAfter;
    hide EndsTime;
    var more := KeysAfter(keys, Atoms(layout[0]));
    if |layout| > 1 {
      SparedToTheEnd(layout[1..], more, c);
    } else {
      assert KeysDown(layout[1..], more) == more;
    }
  }

  /** A folder whose names read as a time's fields is found exactly when it is there, the unit
      holding the time meets the range, and no folder down to it names a unit that ends past the last
      representable time. */
  lemma PathFound(layout: Layout, root: Entry, path: seq<string>, c: Civil, after: int, before: int)
    requires Real(c) && Valid(layout) && PathReadsTime(layout, path, c) && layout != []
    ensures Yields(layout, root, map[], path, after, before) <==>
            && Present(root, path)
            && (Finest(layout) == 0 ||
                Overlaps(Between(UnitStart(c, Finest(layout)), UnitEnd(c, Finest(layout))), after, before))
            && Spared(layout, {}, c)
  {
    hide Real;
    hide Value;
    hide Spared;
    hide Settled;
    hide Gapless;
    hide UnitStart;
    hide UnitEnd;
    hide SameUnit;
    hide ReadNames;
    hide EndAfter;
    hide Seconds;
    hide PathReadsTime;
    var none: Fields := map[];
    assert none.Keys == {} && PeriodOf(none) == NoPeriod;
    PathIsReached(layout, root, none, path, c);
    if Yields(layout, root, none, path, after, before) {
      YieldedIsListed(layout, root, none, path, after, before);
    }
    if Present(root, path) {
      var leaf := Reached(layout, root, none, path).value;
      ReachedIsSettled(layout, root, path);
      ReadBackAgrees(layout, path, c);
      ReadBackNamesUnit(layout, path, c);
      FoundWhenPresent(layout, root, path, leaf, c, after, before);
    }
  }

  /** The folder a time renders is found exactly when it is there, the unit holding the time meets
      the range, and no folder down to it names a unit that ends past the last representable time. */
  lemma RenderedFolderFound(layout: Layout, root: Entry, c: Civil, after: int, before: int)
    requires Real(c) && Valid(layout) && ReadableNames(layout) && layout != []
    ensures Yields(layout, root, map[], RenderLayout(layout, c), after, before) <==>
            && Present(root, RenderLayout(layout, c))
            && (Finest(layout) == 0 ||
                InRange(Between(UnitStart(c, Finest(layout)), UnitEnd(c, Finest(layout))), after, before))
            && Spared(layout, {}, c)
  {
    hide PathReadsTime;
    hide Yields;
    hide Spared;
    hide Valid;
    hide Real;
    hide UnitStart;
    hide UnitEnd;
    RenderedReadsTime(layout, c);
    if Finest(layout) > 0 {
      UnitHolds(c, Finest(layout));
      OverlapsExactly(UnitStart(c, Finest(layout)), UnitEnd(c, Finest(layout)), after, before);
    }
    hide Overlaps;
    hide InRange;
    PathFound(layout, root, RenderLayout(layout, c), c, after, before);
  }

  lemma FoundWhenPresent(layout: Layout, root: Entry, names: seq<string>, leaf: Fields, c: Civil, after: int,
                         before: int)
    requires Real(c) && Valid(layout) && layout != []
    requires Reached(layout, root, map[], names) == Some(leaf) && Agrees(leaf, c)
    requires leaf.Keys == Settled(LayoutFields(layout)) && Gapless(leaf.Keys) && Depth(leaf.Keys) == Finest(layout)
    requires Finest(layout) > 0 && !SameUnit(c, LAST, Finest(layout)) ==>
               PeriodOf(leaf) == Between(UnitStart(c, Finest(layout)), UnitEnd(c, Finest(layout)))
    requires Finest(layout) > 0 && SameUnit(c, LAST, Finest(layout)) ==> PeriodOf(leaf) == Impossible
    ensures Yields(layout, root, map[], names, after, before) <==>
            && (Finest(layout) == 0 ||
                Overlaps(Between(UnitStart(c, Finest(layout)), UnitEnd(c, Finest(layout))), after, before))
            && Spared(layout, {}, c)
  {
    hide Real;
    hide Value;
    hide Spared;
    hide Settled;
    hide Gapless;
    hide UnitStart;
    hide UnitEnd;
    hide SameUnit;
    hide EndAfter;
    hide Seconds;
    hide KeysDown;
    hide Reached;
    hide Yields;
    hide Valid;
    var none: Fields := map[];
    assert none.Keys == {} && PeriodOf(none) == NoPeriod;
    KeysOfLayout(layout);
    if Finest(layout) == 0 {
      NamesOnly(layout, root, none, names, c, after, before);
    } else {
      PrunedExactly(layout, root, none, names, c, after, before);
      if Spared(layout, {}, c) {
        SparedToTheEnd(layout, {}, c);
      }
    }
  }

  const YEARS_AND_MONTHS: Layout := [[Timed(YYYY)], [Timed(MM)]]

  const LATE_FOLDER: Civil := Civil(9999, 5, 1, 0, 0, 0)

  lemma LateTexts()
    ensures Padded(9999, 4) == "9999" && Padded(5, 2) == "05"
  {
    assert Padded(0, 0) == "";
    hide Padded;
    PaddedStep(9, 1, "");
    PaddedStep(99, 2, "9");
    PaddedStep(999, 3, "99");
    PaddedStep(9999, 4, "999");
    PaddedStep(0, 1, "");
    PaddedStep(5, 2, "0");
  }

  lemma LateNumbers()
    ensures Real(LATE_FOLDER) && Render(YYYY, LATE_FOLDER) == "9999" && Render(MM, LATE_FOLDER) == "05"
  {
    hide Padded;
    LateTexts();
  }

  lemma LateRenders()
    ensures Real(LATE_FOLDER) && RenderLayout(YEARS_AND_MONTHS, LATE_FOLDER) == ["9999", "05"]
  {
    hide Render;
    hide Real;
    LateNumbers();
    assert RenderSegment([Timed(YYYY)], LATE_FOLDER) == "9999" + RenderSegment([], LATE_FOLDER) == "9999";
    assert RenderSegment([Timed(MM)], LATE_FOLDER) == "05" + RenderSegment([], LATE_FOLDER) == "05";
    assert RenderLayout([[Timed(MM)]], LATE_FOLDER) == ["05"] + RenderLayout([], LATE_FOLDER) == ["05"];
    assert YEARS_AND_MONTHS[1..] == [[Timed(MM)]];
    assert RenderLayout(YEARS_AND_MONTHS, LATE_FOLDER) == ["9999"] + RenderLayout([[Timed(MM)]], LATE_FOLDER);
  }

  lemma OneField(atom: Atom)
    ensures FieldSet([atom]) == {FieldOf(atom)}
  {
    assert [atom][0] == atom;
  }

  lemma YearsAndMonths()
    ensures Atoms(YEARS_AND_MONTHS[0]) == [YYYY] && Atoms(YEARS_AND_MONTHS[1]) == [MM]
    ensures LayoutFields(YEARS_AND_MONTHS) == {Year, MonthOfYear}
    ensures Readable(YEARS_AND_MONTHS[0]) && Readable(YEARS_AND_MONTHS[1])
  {
    OneField(YYYY);
    OneField(MM);
    assert YEARS_AND_MONTHS[1..] == [[Timed(MM)]];
  }

  lemma YearsAndMonthsValid()
    ensures Valid(YEARS_AND_MONTHS) && ReadableNames(YEARS_AND_MONTHS) && Finest(YEARS_AND_MONTHS) == 2
  {
    YearsAndMonths();
    assert Settled({Year, MonthOfYear}) == {Year, MonthOfYear};
    assert CALENDAR == [Year, MonthOfYear, DayOfMonth, HourOfDay, Minute, Second];
  }

  lemma LateIsNotSpared()
    ensures !Spared(YEARS_AND_MONTHS, {}, LATE_FOLDER)
  {
    YearsAndMonths();
    OneField(YYYY);
    assert {} + {Year} == {Year};
    assert KeysAfter({}, [YYYY]) == {Year};
    assert CALENDAR == [Year, MonthOfYear, DayOfMonth, HourOfDay, Minute, Second];
    assert EndsTime({Year}, LATE_FOLDER);
  }

  /** A folder of May 9999 is listed and not found: its year's folder is left out. */
  lemma LastYearIsLost(after: int, before: int)
    requires InRange(Between(UnitStart(LATE_FOLDER, 2), UnitEnd(LATE_FOLDER, 2)), after, before)
    ensures var root := Folder(map["9999" := Folder(map["05" := Folder(map[])])]);
            && Listed(YEARS_AND_MONTHS, root, ["9999", "05"], after, before)
            && !Yields(YEARS_AND_MONTHS, root, map[], ["9999", "05"], after, before)
  {
    hide RenderLayout;
    hide ReadNames;
    hide Reached;
    hide Yields;
    hide Spared;
    hide InRange;
    hide UnitStart;
    hide UnitEnd;
    hide Valid;
    hide Finest;
    hide PeriodOf;
    hide ReadableNames;
    hide PathReadsTime;
    var root := Folder(map["9999" := Folder(map["05" := Folder(map[])])]);
    LateRenders();
    YearsAndMonthsValid();
    LateIsNotSpared();
    assert ["9999", "05"][1..] == ["05"] && ["05"][1..] == [];
    assert Present(root.entries["9999"].entries["05"], []);
    assert Present(root.entries["9999"], ["05"]);
    assert Present(root, ["9999", "05"]);
    RenderedFolderFound(YEARS_AND_MONTHS, root, LATE_FOLDER, after, before);
    RenderedReadsTime(YEARS_AND_MONTHS, LATE_FOLDER);
    PathIsReached(YEARS_AND_MONTHS, root, map[], ["9999", "05"], LATE_FOLDER);
    ReadBackIsUnit(YEARS_AND_MONTHS, LATE_FOLDER);
  }
}
