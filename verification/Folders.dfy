/** Whole layouts: the folders times render to, read back as the calendar units they stand for. */
module Folders {
  import opened Layouts
  import opened Units

  /** A layout's folders, outermost first. */
  type Layout = seq<Segment>

  // ---------------------------------------------------------------- the fields a layout names

  function LayoutFields(layout: Layout): set<Field> {
    if layout == [] then {} else FieldSet(Atoms(layout[0])) + LayoutFields(layout[1..])
  }

  predicate Paired(keys: set<Field>) {
    Hour12 in keys <==> Meridiem in keys
  }

  /** A folder names a 12-hour hour and its half of the day together or not at all. */
  predicate ClockBeside(layout: Layout) {
    forall i :: 0 <= i < |layout| ==>
      Paired(FieldSet(Atoms(layout[i])))
  }

  /** The fields a layout's folders settle: a 12-hour hour is an hour, a day of the year a month and day. */
  function Settled(keys: set<Field>): set<Field> {
    keys - {Hour12, Meridiem} + (if Hour12 in keys then {HourOfDay} else {})
    + (if OrdinalDay in keys then {MonthOfYear, DayOfMonth} else {})
  }

  /** What construction demands: each known calendar field has every coarser one beside it. */
  predicate Valid(layout: Layout) {
    ClockBeside(layout) && Gapless(Settled(LayoutFields(layout)))
  }

  /** Whether every folder's name can be read one way only. */
  predicate ReadableNames(layout: Layout) {
    forall i :: 0 <= i < |layout| ==> Readable(layout[i])
  }

  /** The depth of the smallest unit a layout tells apart, 0 when it has no dates. */
  function Finest(layout: Layout): nat {
    Depth(Settled(LayoutFields(layout)))
  }

  // ---------------------------------------------------------------- reading names back

  /** What one folder's name adds to the fields its parents gave. */
  function ReadName(segment: Segment, name: string, known: Fields): Merging {
    match Match(segment, name)
    case None => Disagrees
    case Some(texts) =>
      MatchFits(segment, name);
      FitsCount(segment, name, texts);
      Merge(known, Atoms(segment), texts)
  }

  function ReadNames(layout: Layout, names: seq<string>, known: Fields): Merging
    requires |names| == |layout|
    decreases |layout|
  {
    if layout == [] then Merged(known)
    else
      match ReadName(layout[0], names[0], known)
      case Merged(fields) => ReadNames(layout[1..], names[1..], fields)
      case other => other
  }

  function RenderLayout(layout: Layout, c: Civil): (names: seq<string>)
    requires Real(c)
    ensures |names| == |layout|
  {
    if layout == [] then [] else [RenderSegment(layout[0], c)] + RenderLayout(layout[1..], c)
  }

  function KeysDown(layout: Layout, keys: set<Field>): set<Field> {
    if layout == [] then keys else KeysDown(layout[1..], KeysAfter(keys, Atoms(layout[0])))
  }

  /** Whether a name matches with texts that read as a time's fields, however they spell them. */
  ghost predicate NameReadsTime(segment: Segment, name: string, c: Civil)
    requires Real(c)
  {
    var texts := Match(segment, name);
    texts.Some? && ReadsAs(Atoms(segment), texts.value, c)
  }

  ghost predicate PathReadsTime(layout: Layout, path: seq<string>, c: Civil)
    requires Real(c)
  {
    |path| == |layout| && forall i :: 0 <= i < |layout| ==> NameReadsTime(layout[i], path[i], c)
  }

  lemma PathReadsSplits(layout: Layout, path: seq<string>, c: Civil)
    requires Real(c) && |path| == |layout| > 0
    ensures PathReadsTime(layout, path, c) <==>
            NameReadsTime(layout[0], path[0], c) && PathReadsTime(layout[1..], path[1..], c)
  {
    hide NameReadsTime;
    hide Real;
    assert forall i :: 1 <= i < |layout| ==> layout[i] == layout[1..][i - 1] && path[i] == path[1..][i - 1];
    assert forall i :: 0 <= i < |layout| - 1 ==> layout[1..][i] == layout[i + 1] && path[1..][i] == path[i + 1];
  }

  /** Reading a name that reads as a time's fields gives fields that agree with the time. */
  lemma NameMerges(segment: Segment, name: string, known: Fields, c: Civil)
    requires Real(c) && Agrees(known, c) && NameReadsTime(segment, name, c)
    ensures var reading := ReadName(segment, name, known);
            && reading.Merged? && Agrees(reading.fields, c)
            && reading.fields.Keys == KeysAfter(known.Keys, Atoms(segment))
  {
    MergeAgrees(known, Atoms(segment), Match(segment, name).value, c);
    hide Match;
    hide Merge;
    hide KeysAfter;
  }

  lemma {:induction false} PathMerges(layout: Layout, path: seq<string>, known: Fields, c: Civil)
    requires Real(c) && Agrees(known, c) && PathReadsTime(layout, path, c)
    ensures var reading := ReadNames(layout, path, known);
            && reading.Merged? && Agrees(reading.fields, c)
            && reading.fields.Keys == KeysDown(layout, known.Keys)
    decreases |layout|
  {
    hide Agrees;
    hide ReadName;
    hide KeysAfter;
    hide NameReadsTime;
    hide Real;
    if layout != [] {
      PathReadsSplits(layout, path, c);
      NameMerges(layout[0], path[0], known, c);
      PathMerges(layout[1..], path[1..], ReadName(layout[0], path[0], known).fields, c);
    }
  }

  lemma RenderedNameReads(segment: Segment, c: Civil)
    requires Real(c) && Readable(segment)
    ensures NameReadsTime(segment, RenderSegment(segment, c), c)
  {
    hide Match;
    MatchInvertsRender(segment, c);
    RenderedReadsAs(Atoms(segment), c);
  }

  lemma {:induction false} RenderedReadsTime(layout: Layout, c: Civil)
    requires Real(c) && ReadableNames(layout)
    ensures PathReadsTime(layout, RenderLayout(layout, c), c)
    decreases |layout|
  {
    hide Real;
    hide NameReadsTime;
    hide RenderSegment;
    if layout != [] {
      RenderedNameReads(layout[0], c);
      RenderedReadsTime(layout[1..], c);
      assert RenderLayout(layout, c)[1..] == RenderLayout(layout[1..], c);
      PathReadsSplits(layout, RenderLayout(layout, c), c);
    }
  }

  // ---------------------------------------------------------------- the fields known at the end

  /** Fields that hold no clock half and no day of a known year without its month and day. */
  predicate Closed(keys: set<Field>) {
    && Hour12 !in keys && Meridiem !in keys
    && (OrdinalDay in keys && Year in keys ==> MonthOfYear in keys && DayOfMonth in keys)
  }

  function Close(keys: set<Field>): set<Field> {
    OrdinalKeys(ClockKeys(keys))
  }

  lemma CloseTwice(keys: set<Field>, first: set<Field>, rest: set<Field>)
    requires Closed(keys) && Paired(first) && Paired(rest)
    ensures Closed(Close(keys + first))
    ensures Close(Close(keys + first) + rest) == Close(keys + (first + rest))
  {
    forall f: Field
      ensures f in Close(Close(keys + first) + rest) <==> f in Close(keys + (first + rest))
    {
    }
  }

  lemma {:induction false} ClockTogether(layout: Layout)
    requires ClockBeside(layout)
    ensures Paired(LayoutFields(layout))
  {
    if layout != [] {
      ClockTogether(layout[1..]);
    }
  }

  lemma {:induction false} KeysDownClose(layout: Layout, keys: set<Field>)
    requires ClockBeside(layout) && Closed(keys)
    ensures KeysDown(layout, keys) == Close(keys + LayoutFields(layout))
    decreases |layout|
  {
    hide Close;
    if layout != [] {
      var first := FieldSet(Atoms(layout[0]));
      ClockTogether(layout[1..]);
      CloseTwice(keys, first, LayoutFields(layout[1..]));
      assert KeysAfter(keys, Atoms(layout[0])) == Close(keys + first) by { CloseIs(keys + first); }
      KeysDownClose(layout[1..], Close(keys + first));
    } else {
      assert keys + {} == keys;
      CloseIs(keys);
    }
  }

  lemma CloseIs(keys: set<Field>)
    ensures Close(keys) == OrdinalKeys(ClockKeys(keys))
    ensures Closed(keys) ==> Close(keys) == keys
  {
  }

  /** Reading every folder of a valid layout settles exactly the fields it names. */
  lemma KeysOfLayout(layout: Layout)
    requires Valid(layout)
    ensures KeysDown(layout, {}) == Settled(LayoutFields(layout))
  {
    var keys := LayoutFields(layout);
    ClockTogether(layout);
    KeysDownClose(layout, {});
    assert {} + keys == keys;
    assert CALENDAR[1] == MonthOfYear;
    assert OrdinalDay in keys ==> MonthOfYear in Settled(keys);
    forall f: Field
      ensures f in Close(keys) <==> f in Settled(keys)
    {
    }
  }

  /** Reading back names that read as a time's fields settles the layout's, all agreeing with it. */
  lemma ReadBackAgrees(layout: Layout, path: seq<string>, c: Civil)
    requires Real(c) && Valid(layout) && PathReadsTime(layout, path, c)
    ensures var reading := ReadNames(layout, path, map[]);
            && reading.Merged? && Agrees(reading.fields, c)
            && reading.fields.Keys == Settled(LayoutFields(layout))
  {
    hide ReadNames;
    hide PathReadsTime;
    hide Settled;
    hide Real;
    hide Value;
    hide Gapless;
    var none: Fields := map[];
    assert none.Keys == {};
    PathMerges(layout, path, none, c);
    KeysOfLayout(layout);
  }

  // ---------------------------------------------------------------- periods of folders

  ghost predicate CalendarAgrees(fields: Fields, c: Civil)
    requires Real(c)
  {
    forall f :: f in fields && f in CALENDAR ==> fields[f] == Value(c, f)
  }

  /** The period of fields that agree with a time is the calendar unit holding it, unless that unit
      ends past the last representable time. */
  lemma PeriodIsUnit(fields: Fields, c: Civil)
    requires Real(c) && CalendarAgrees(fields, c) && Gapless(fields.Keys) && Depth(fields.Keys) >= 1
    ensures var depth := Depth(fields.Keys);
            PeriodOf(fields) == if SameUnit(c, LAST, depth) then Impossible
                                else Between(UnitStart(c, depth), UnitEnd(c, depth))
  {
    var depth := Depth(fields.Keys);
    StartIsTruncated(fields, c);
    TruncatedIsReal(c, depth);
    EndsPastTime(c, depth);
    hide Gapless;
    hide SameUnit;
    hide EndAfter;
    hide Truncated;
    hide StartOf;
    hide Seconds;
    hide Real;
  }

  lemma StartIsTruncated(fields: Fields, c: Civil)
    requires Real(c) && CalendarAgrees(fields, c) && Gapless(fields.Keys) && Depth(fields.Keys) >= 1
    ensures StartOf(fields) == Truncated(c, Depth(fields.Keys))
  {
    hide Real;
    assert CALENDAR[0] == Year && CALENDAR[1] == MonthOfYear && CALENDAR[2] == DayOfMonth;
    assert CALENDAR[3] == HourOfDay && CALENDAR[4] == Minute && CALENDAR[5] == Second;
  }

  /** The period of a layout's folder for a time: the calendar unit holding it, none for a layout
      of names only, and none representable for the last unit there is. */
  function UnitOf(layout: Layout, c: Civil): Period
    requires Real(c)
  {
    var depth := Finest(layout);
    if depth == 0 then NoPeriod
    else if SameUnit(c, LAST, depth) then Impossible
    else Between(UnitStart(c, depth), UnitEnd(c, depth))
  }

  lemma ReadBackNamesUnit(layout: Layout, path: seq<string>, c: Civil)
    requires Real(c) && Valid(layout) && PathReadsTime(layout, path, c)
    ensures var reading := ReadNames(layout, path, map[]);
            reading.Merged? && PeriodOf(reading.fields) == UnitOf(layout, c)
  {
    assert |path| == |layout|;
    hide ReadNames;
    hide PathReadsTime;
    hide SameUnit;
    hide UnitStart;
    hide UnitEnd;
    hide Settled;
    hide Real;
    hide Value;
    hide Gapless;
    hide EndAfter;
    hide Seconds;
    ReadBackAgrees(layout, path, c);
    var reading := ReadNames(layout, path, map[]);
    if Finest(layout) > 0 {
      PeriodIsUnit(reading.fields, c);
    }
  }

  /** Reading back what a time rendered names the calendar unit holding that time: no period for a
      layout of names only, and none representable for the last unit there is. */
  lemma ReadBackIsUnit(layout: Layout, c: Civil)
    requires Real(c) && Valid(layout) && ReadableNames(layout)
    ensures var reading := ReadNames(layout, RenderLayout(layout, c), map[]);
            && reading.Merged?
            && PeriodOf(reading.fields) ==
               if Finest(layout) == 0 then NoPeriod
               else if SameUnit(c, LAST, Finest(layout)) then Impossible
               else Between(UnitStart(c, Finest(layout)), UnitEnd(c, Finest(layout)))
  {
    hide ReadNames;
    hide PathReadsTime;
    hide SameUnit;
    hide UnitStart;
    hide UnitEnd;
    hide Real;
    RenderedReadsTime(layout, c);
    ReadBackNamesUnit(layout, RenderLayout(layout, c), c);
  }

  // ---------------------------------------------------------------- which times share a folder

  lemma SameDate(a: Civil, b: Civil, depth: nat)
    requires Real(a) && Real(b) && SameUnit(a, b, depth) && depth >= 3
    ensures a.year == b.year && a.month == b.month && a.day == b.day && DayOfYear(a) == DayOfYear(b)
  {
  }

  /** Every field a layout names is the same for two times in one unit of the layout. */
  lemma SameValues(keys: set<Field>, a: Civil, b: Civil, field: Field)
    requires Real(a) && Real(b) && Gapless(Settled(keys)) && field in keys && Paired(keys)
    requires Depth(Settled(keys)) > 0 ==> SameUnit(a, b, Depth(Settled(keys)))
    ensures Value(a, field) == Value(b, field)
  {
    hide Real;
    hide DayOfYear;
    var depth := Depth(Settled(keys));
    assert CALENDAR[0] == Year && CALENDAR[1] == MonthOfYear && CALENDAR[2] == DayOfMonth;
    assert CALENDAR[3] == HourOfDay && CALENDAR[4] == Minute && CALENDAR[5] == Second;
    if depth >= 3 {
      SameDate(a, b, depth);
    }
  }

  lemma RenderIsValue(atom: Atom, a: Civil, b: Civil)
    requires Real(a) && Real(b) && Value(a, FieldOf(atom)) == Value(b, FieldOf(atom))
    ensures Render(atom, a) == Render(atom, b)
  {
    hide Padded;
    hide Plain;
    hide DayOfYear;
  }

  lemma {:induction false} SegmentsAlike(segment: Segment, a: Civil, b: Civil)
    requires Real(a) && Real(b)
    requires forall f :: f in FieldSet(Atoms(segment)) ==> Value(a, f) == Value(b, f)
    ensures RenderSegment(segment, a) == RenderSegment(segment, b)
  {
    hide Real;
    hide Render;
    hide Value;
    hide FieldOf;
    if segment != [] {
      match segment[0]
      case Fixed(_) =>
        assert Atoms(segment) == [] + Atoms(segment[1..]) == Atoms(segment[1..]);
      case Timed(atom) =>
        assert Atoms(segment) == [atom] + Atoms(segment[1..]);
        assert FieldOf(atom) in FieldSet(Atoms(segment));
        RenderIsValue(atom, a, b);
    }
    if segment != [] {
      SegmentsAlike(segment[1..], a, b);
    }
  }

  lemma {:induction false} LayoutsAlike(layout: Layout, a: Civil, b: Civil)
    requires Real(a) && Real(b)
    requires forall f :: f in LayoutFields(layout) ==> Value(a, f) == Value(b, f)
    ensures RenderLayout(layout, a) == RenderLayout(layout, b)
  {
    hide Real;
    hide Value;
    hide RenderSegment;
    hide FieldSet;
    if layout != [] {
      SegmentsAlike(layout[0], a, b);
      LayoutsAlike(layout[1..], a, b);
    }
  }

  lemma AgreeingTimesShareUnit(fields: Fields, a: Civil, b: Civil)
    requires Real(a) && Real(b) && Agrees(fields, a) && Agrees(fields, b)
    requires Gapless(fields.Keys) && Depth(fields.Keys) >= 1
    ensures SameUnit(a, b, Depth(fields.Keys))
  {
    StartIsTruncated(fields, a);
    StartIsTruncated(fields, b);
    hide Gapless;
    hide StartOf;
    hide Truncated;
  }

  /** Two times render the same folders exactly when they share the layout's unit. */
  lemma SameFoldersExactly(layout: Layout, a: Civil, b: Civil)
    requires Real(a) && Real(b) && Valid(layout) && ReadableNames(layout)
    ensures RenderLayout(layout, a) == RenderLayout(layout, b) <==>
            Finest(layout) == 0 || SameUnit(a, b, Finest(layout))
  {
    hide SameUnit;
    hide Value;
    hide Gapless;
    hide Settled;
    hide Real;
    if Finest(layout) == 0 || SameUnit(a, b, Finest(layout)) {
      ClockTogether(layout);
      forall f | f in LayoutFields(layout)
        ensures Value(a, f) == Value(b, f)
      {
        SameValues(LayoutFields(layout), a, b, f);
      }
      LayoutsAlike(layout, a, b);
    } else if RenderLayout(layout, a) == RenderLayout(layout, b) {
      SharedFoldersShareUnit(layout, a, b);
    }
  }

  lemma SharedFoldersShareUnit(layout: Layout, a: Civil, b: Civil)
    requires Real(a) && Real(b) && Valid(layout) && ReadableNames(layout)
    requires Finest(layout) > 0 && RenderLayout(layout, a) == RenderLayout(layout, b)
    ensures SameUnit(a, b, Finest(layout))
  {
    hide SameUnit;
    hide Value;
    hide Gapless;
    hide Settled;
    hide Real;
    hide ReadNames;
    hide RenderLayout;
    hide PathReadsTime;
    RenderedReadsTime(layout, a);
    RenderedReadsTime(layout, b);
    ReadBackAgrees(layout, RenderLayout(layout, a), a);
    ReadBackAgrees(layout, RenderLayout(layout, b), b);
    AgreeingTimesShareUnit(ReadNames(layout, RenderLayout(layout, a), map[]).fields, a, b);
  }
}
