/** Folders out of time order: for every layout that is not orderly, a tree that shows it. */
module Disorder {
  import opened Layouts
  import opened Units
  import opened Folders
  import opened Walk
  import opened Spellings
  import opened Ordering

  // ---------------------------------------------------------------- keys on the way down

  lemma DepthOfMore(keys: set<Field>, more: set<Field>)
    requires forall f :: f in keys && f in CALENDAR ==> f in more
    ensures Depth(keys) <= Depth(more)
  {
    assert CALENDAR[0] == Year && CALENDAR[1] == MonthOfYear && CALENDAR[2] == DayOfMonth;
    assert CALENDAR[3] == HourOfDay && CALENDAR[4] == Minute && CALENDAR[5] == Second;
  }

  predicate Grows(keys: set<Field>, more: set<Field>) {
    forall f :: f in keys && f != Hour12 && f != Meridiem ==> f in more
  }

  lemma KeysGrow(keys: set<Field>, atoms: seq<Atom>)
    ensures Grows(keys, KeysAfter(keys, atoms))
  {
  }

  lemma GrowsDeeper(keys: set<Field>, more: set<Field>)
    requires Grows(keys, more)
    ensures Depth(keys) <= Depth(more)
  {
    assert CALENDAR == [Year, MonthOfYear, DayOfMonth, HourOfDay, Minute, Second];
    DepthOfMore(keys, more);
  }

  lemma {:induction false} KeysDownGrow(layout: Layout, keys: set<Field>)
    ensures Grows(keys, KeysDown(layout, keys))
    decreases |layout|
  {
    hide KeysAfter;
    if layout != [] {
      KeysGrow(keys, Atoms(layout[0]));
      KeysDownGrow(layout[1..], KeysAfter(keys, Atoms(layout[0])));
    }
  }

  // ---------------------------------------------------------------- names of times in one unit

  lemma CoarserUnit(a: Civil, b: Civil, coarse: nat, fine: nat)
    requires 1 <= coarse <= fine && SameUnit(a, b, fine)
    ensures SameUnit(a, b, coarse)
  {
  }

  /** The fields a name settles, where they sort, are the same for two times in their unit. */
  lemma SettledAlike(keys: set<Field>, a: Civil, b: Civil, field: Field)
    requires Real(a) && Real(b) && Sortable(keys) && Closed(keys) && field in keys
    requires Depth(keys) > 0 ==> SameUnit(a, b, Depth(keys))
    ensures Value(a, field) == Value(b, field)
  {
    hide Real;
    hide DayOfYear;
    var depth := Depth(keys);
    assert CALENDAR[0] == Year && CALENDAR[1] == MonthOfYear && CALENDAR[2] == DayOfMonth;
    assert CALENDAR[3] == HourOfDay && CALENDAR[4] == Minute && CALENDAR[5] == Second;
    if depth >= 3 {
      SameDate(a, b, depth);
    }
  }

  lemma HalvesAlike(a: Civil, b: Civil)
    requires Real(a) && Real(b) && Value(a, HourOfDay) == Value(b, HourOfDay)
    ensures Value(a, Hour12) == Value(b, Hour12) && Value(a, Meridiem) == Value(b, Meridiem)
  {
  }

  /** A name whose settled fields sort is the same for two times in their unit, and so is each
      field it holds. */
  lemma NamesAlike(segment: Segment, keys: set<Field>, a: Civil, b: Civil)
    requires Real(a) && Real(b) && Closed(keys) && Paired(FieldSet(Atoms(segment)))
    requires var more := KeysAfter(keys, Atoms(segment));
             Sortable(more) && Closed(more) && (Depth(more) > 0 ==> SameUnit(a, b, Depth(more)))
    ensures forall f :: f in FieldSet(Atoms(segment)) ==> Value(a, f) == Value(b, f)
    ensures RenderSegment(segment, a) == RenderSegment(segment, b)
  {
    hide Real;
    hide Value;
    hide Sortable;
    hide SameUnit;
    hide FieldSet;
    var fields, more := FieldSet(Atoms(segment)), KeysAfter(keys, Atoms(segment));
    forall f | f in fields ensures Value(a, f) == Value(b, f) {
      if f == Hour12 || f == Meridiem {
        SettledAlike(more, a, b, HourOfDay);
        HalvesAlike(a, b);
      } else {
        SettledAlike(more, a, b, f);
      }
    }
    SegmentsAlike(segment, a, b);
  }

  // ---------------------------------------------------------------- times for a gap

  /** How many calendar fields are known where a layout's fields first do not sort. */
  function GapDepth(layout: Layout, keys: set<Field>): nat
    requires !Neat(layout, keys)
  {
    var more := KeysAfter(keys, Atoms(layout[0]));
    if Sortable(more) then GapDepth(layout[1..], more) else Depth(more)
  }

  /** A time late in its unit of some depth, and one early in the next such unit. */
  function LateInUnit(depth: nat): Civil {
    if depth == 0 then Civil(2001, 12, 30, 23, 59, 59)
    else if depth == 1 then Civil(2001, 10, 30, 23, 59, 59)
    else if depth == 2 then Civil(2001, 10, 10, 23, 59, 59)
    else if depth == 3 then Civil(2001, 10, 10, 10, 59, 59)
    else Civil(2001, 10, 10, 10, 10, 59)
  }

  function EarlyInNext(depth: nat): Civil {
    if depth == 0 then Civil(2002, 10, 10, 10, 10, 10)
    else if depth == 1 then Civil(2001, 11, 10, 10, 10, 10)
    else if depth == 2 then Civil(2001, 10, 11, 10, 10, 10)
    else if depth == 3 then Civil(2001, 10, 10, 11, 10, 10)
    else Civil(2001, 10, 10, 10, 11, 10)
  }

  lemma TimesAroundGap(depth: nat)
    requires depth <= 4
    ensures var a, b := LateInUnit(depth), EarlyInNext(depth);
            && Real(a) && Real(b) && (depth > 0 ==> SameUnit(a, b, depth))
            && (forall i :: 0 <= i < depth ==> Parts(a)[i] == Parts(b)[i])
            && Parts(a)[depth] < Parts(b)[depth]
            && (forall i :: depth < i < 6 ==> Parts(b)[i] < Parts(a)[i])
            && (depth == 0 ==> DayOfYear(b) < DayOfYear(a)) && (depth >= 3 ==> DayOfYear(a) == DayOfYear(b))
  {
  }

  // ---------------------------------------------------------------- sorted the wrong way

  /** A tuple nowhere greater and somewhere less is less. */
  lemma {:induction false} LexPointwise(x: seq<int>, y: seq<int>, at: nat)
    requires |x| == |y| && at < |x| && x[at] < y[at] && forall i :: 0 <= i < |x| ==> x[i] <= y[i]
    ensures LexLess(x, y)
    decreases |x|
  {
    if x[0] == y[0] {
      LexPointwise(x[1..], y[1..], at - 1);
    }
  }

  lemma {:induction false} LexExtends(x: seq<int>, y: seq<int>, a: seq<int>, b: seq<int>)
    requires |x| == |y| && LexLess(x, y)
    ensures LexLess(x + a, y + b)
    decreases |x|
  {
    assert (x + a)[1..] == x[1..] + a && (y + b)[1..] == y[1..] + b;
    if x[0] == y[0] {
      LexExtends(x[1..], y[1..], a, b);
    }
  }

  lemma KeyOfTime(fields: Fields, c: Civil)
    requires Real(c) && Agrees(fields, c)
    ensures forall i :: 0 <= i < 6 ==> OrderKey(fields)[i] == if CALENDAR[i] in fields then Parts(c)[i] else 0
    ensures OrderKey(fields)[6] == if OrdinalDay in fields then DayOfYear(c) else 0
  {
    hide Real;
    hide DayOfYear;
    assert CALENDAR[0] == Year && CALENDAR[1] == MonthOfYear && CALENDAR[2] == DayOfMonth;
    assert CALENDAR[3] == HourOfDay && CALENDAR[4] == Minute && CALENDAR[5] == Second;
  }

  /** What makes fields not sort: a calendar field past a gap, or a day of a year unknown. */
  lemma WhyUnsorted(keys: set<Field>) returns (at: nat)
    requires !Sortable(keys) && Closed(keys)
    ensures Depth(keys) <= 4 && Depth(keys) < at <= 6
    ensures at < 6 ==> CALENDAR[at] in keys
    ensures at == 6 ==> OrdinalDay in keys && Depth(keys) == 0
    ensures CALENDAR[Depth(keys)] !in keys
    ensures OrdinalDay in keys ==> Depth(keys) == 0 || Depth(keys) >= 3
  {
    assert CALENDAR[0] == Year && CALENDAR[1] == MonthOfYear && CALENDAR[2] == DayOfMonth;
    assert CALENDAR[3] == HourOfDay && CALENDAR[4] == Minute && CALENDAR[5] == Second;
    if Gapless(keys) {
      at := 6;
    } else {
      at :| Depth(keys) <= at < 6 && CALENDAR[at] in keys;
    }
  }

  lemma UnsortedLess(a: Fields, b: Fields, depth: nat)
    requires a.Keys == b.Keys && !Sortable(a.Keys) && Closed(a.Keys) && depth == Depth(a.Keys) <= 4
    requires Real(EarlyInNext(depth)) && Agrees(a, EarlyInNext(depth))
    requires Real(LateInUnit(depth)) && Agrees(b, LateInUnit(depth))
    ensures LexLess(OrderKey(a), OrderKey(b))
  {
    hide OrderKey;
    hide Real;
    hide Parts;
    hide Agrees;
    hide Sortable;
    hide DayOfYear;
    hide Closed;
    hide Depth;
    hide SameUnit;
    TimesAroundGap(depth);
    var late, early := LateInUnit(depth), EarlyInNext(depth);
    hide LateInUnit;
    hide EarlyInNext;
    KeyOfTime(a, early);
    KeyOfTime(b, late);
    var at := WhyUnsorted(a.Keys);
    var x, y := OrderKey(a), OrderKey(b);
    forall i | 0 <= i < 7 ensures x[i] <= y[i] {
      assert i < 6 ==> (CALENDAR[i] in a <==> CALENDAR[i] in b);
    }
    assert x[at] < y[at];
    LexPointwise(x, y, at);
  }

  lemma {:induction false} GapIsDeeper(layout: Layout, keys: set<Field>)
    requires !Neat(layout, keys)
    ensures Depth(keys) <= GapDepth(layout, keys)
    decreases |layout|
  {
    hide KeysAfter;
    hide Sortable;
    hide Depth;
    KeysGrow(keys, Atoms(layout[0]));
    GrowsDeeper(keys, KeysAfter(keys, Atoms(layout[0])));
    if Sortable(KeysAfter(keys, Atoms(layout[0]))) {
      GapIsDeeper(layout[1..], KeysAfter(keys, Atoms(layout[0])));
    }
  }

  /** The depth of a gap, and that the leaf fills it. */
  lemma {:induction false} GapBelowLeaf(layout: Layout, keys: set<Field>)
    requires !Neat(layout, keys) && ClockBeside(layout) && Closed(keys) && Gapless(KeysDown(layout, keys))
    requires OrdinalDay in KeysDown(layout, keys) ==> Year in KeysDown(layout, keys)
    ensures GapDepth(layout, keys) <= 4 && GapDepth(layout, keys) < Depth(KeysDown(layout, keys))
    decreases |layout|
  {
    hide KeysAfter;
    hide Gapless;
    hide Closed;
    hide Depth;
    hide ClockBeside;
    var more := KeysAfter(keys, Atoms(layout[0]));
    StillClosed(layout, keys);
    if Gapless(more) && (OrdinalDay in more ==> Year in more) {
      GapBelowLeaf(layout[1..], more);
    } else {
      var at := WhyUnsorted(more);
      KeysDownGrow(layout[1..], more);
      assert CALENDAR == [Year, MonthOfYear, DayOfMonth, HourOfDay, Minute, Second];
      LeafIsDeeper(more, KeysDown(layout[1..], more), at);
    }
  }

  lemma LeafIsDeeper(more: set<Field>, leaf: set<Field>, at: nat)
    requires Grows(more, leaf) && Gapless(leaf) && (OrdinalDay in leaf ==> Year in leaf)
    requires Depth(more) < at <= 6 && (at < 6 ==> CALENDAR[at] in more)
    requires at == 6 ==> OrdinalDay in more && Depth(more) == 0
    ensures Depth(more) < Depth(leaf)
  {
    assert CALENDAR[0] == Year && CALENDAR[1] == MonthOfYear && CALENDAR[2] == DayOfMonth;
    assert CALENDAR[3] == HourOfDay && CALENDAR[4] == Minute && CALENDAR[5] == Second;
    if at < 6 {
      assert CALENDAR[at] in leaf;
    }
  }

  lemma UnsortedParts(layout: Layout, known: Fields, depth: nat)
    requires layout != [] && ReadableNames(layout) && ClockBeside(layout) && Closed(known.Keys)
    requires var more := KeysAfter(known.Keys, Atoms(layout[0])); !Sortable(more) && Depth(more) == depth <= 4
    requires Real(LateInUnit(depth)) && Agrees(known, LateInUnit(depth))
    requires Real(EarlyInNext(depth)) && Agrees(known, EarlyInNext(depth))
    ensures Precedes(layout, known, RenderLayout(layout, EarlyInNext(depth)), RenderLayout(layout, LateInUnit(depth)))
  {
    hide KeysAfter;
    hide Sortable;
    hide Real;
    hide Agrees;
    hide Closed;
    hide ReadName;
    hide RenderSegment;
    hide NameReadsTime;
    hide OrderKey;
    hide LexLess;
    hide LateInUnit;
    hide EarlyInNext;
    hide ClockBeside;
    hide Depth;
    var early, late := EarlyInNext(depth), LateInUnit(depth);
    var p, q := RenderSegment(layout[0], early), RenderSegment(layout[0], late);
    RenderedNameReads(layout[0], early);
    RenderedNameReads(layout[0], late);
    NameMerges(layout[0], p, known, early);
    NameMerges(layout[0], q, known, late);
    StillClosed(layout, known.Keys);
    var a, b := ReadName(layout[0], p, known).fields, ReadName(layout[0], q, known).fields;
    UnsortedLess(a, b, depth);
    LexIrreflexive(OrderKey(a));
    LexExtends(OrderKey(a), OrderKey(b), Codes(p), Codes(q));
  }

  /** The time early in the next unit is yielded before the one late in its own. */
  lemma {:induction false} GapPrecedes(layout: Layout, known: Fields, depth: nat)
    requires ReadableNames(layout) && ClockBeside(layout) && Closed(known.Keys)
    requires !Neat(layout, known.Keys) && depth == GapDepth(layout, known.Keys) <= 4
    requires Real(LateInUnit(depth)) && Agrees(known, LateInUnit(depth))
    requires Real(EarlyInNext(depth)) && Agrees(known, EarlyInNext(depth))
    ensures Precedes(layout, known, RenderLayout(layout, EarlyInNext(depth)), RenderLayout(layout, LateInUnit(depth)))
    decreases |layout|
  {
    hide KeysAfter;
    hide Sortable;
    hide Real;
    hide Agrees;
    hide Closed;
    hide ReadName;
    hide RenderSegment;
    hide NameReadsTime;
    hide Rank;
    hide LateInUnit;
    hide EarlyInNext;
    hide Depth;
    hide Paired;
    hide SameUnit;
    var early, late := EarlyInNext(depth), LateInUnit(depth);
    var more := KeysAfter(known.Keys, Atoms(layout[0]));
    if !Sortable(more) {
      UnsortedParts(layout, known, depth);
    } else {
      GapIsDeeper(layout[1..], more);
      StillClosed(layout, known.Keys);
      LevelAlike(layout, known.Keys, depth);
      RenderedNameReads(layout[0], early);
      NameMerges(layout[0], RenderSegment(layout[0], early), known, early);
      RenderedNameReads(layout[0], late);
      NameMerges(layout[0], RenderSegment(layout[0], late), known, late);
      GapPrecedes(layout[1..], ReadName(layout[0], RenderSegment(layout[0], early), known).fields, depth);
      assert RenderLayout(layout, early)[1..] == RenderLayout(layout[1..], early);
      assert RenderLayout(layout, late)[1..] == RenderLayout(layout[1..], late);
    }
  }

  lemma LevelAlike(layout: Layout, keys: set<Field>, depth: nat)
    requires layout != [] && ClockBeside(layout) && Closed(keys) && depth <= 4
    requires var more := KeysAfter(keys, Atoms(layout[0])); Sortable(more) && Closed(more) && Depth(more) <= depth
    requires Real(LateInUnit(depth)) && Real(EarlyInNext(depth))
    ensures RenderSegment(layout[0], EarlyInNext(depth)) == RenderSegment(layout[0], LateInUnit(depth))
  {
    hide KeysAfter;
    hide Sortable;
    hide Real;
    hide Closed;
    hide RenderSegment;
    hide LateInUnit;
    hide EarlyInNext;
    hide Depth;
    hide SameUnit;
    TimesAroundGap(depth);
    var at := Depth(KeysAfter(keys, Atoms(layout[0])));
    if at > 0 {
      CoarserUnit(LateInUnit(depth), EarlyInNext(depth), at, depth);
    }
    NamesAlike(layout[0], keys, LateInUnit(depth), EarlyInNext(depth));
  }

  // ---------------------------------------------------------------- a tree of two folders

  /** The folders of two paths, one inside the other, shared while their names are the same. */
  function Pair(p: seq<string>, q: seq<string>): Entry
    requires |p| == |q|
  {
    if p == [] then Folder(map[])
    else if p[0] == q[0] then Folder(map[p[0] := Pair(p[1..], q[1..])])
    else Folder(map[p[0] := Nested(p[1..]), q[0] := Nested(q[1..])])
  }

  lemma {:induction false} PairPresent(p: seq<string>, q: seq<string>)
    requires |p| == |q|
    ensures Present(Pair(p, q), p) && Present(Pair(p, q), q)
  {
    if p != [] {
      if p[0] == q[0] {
        PairPresent(p[1..], q[1..]);
      } else {
        NestedPresent(p[1..]);
        NestedPresent(q[1..]);
      }
    }
  }

  const ALL_AFTER := -1
  const ALL_BEFORE := END_OF_TIME * MICROSECONDS

  lemma AllOfTime(c: Civil, depth: nat)
    requires Real(c) && 1 <= depth <= 6
    ensures Overlaps(Between(UnitStart(c, depth), UnitEnd(c, depth)), ALL_AFTER, ALL_BEFORE)
  {
    hide UnitEnd;
    UnitHolds(c, depth);
    TruncatedIsReal(c, depth);
    LastSecond(Truncated(c, depth));
    hide Seconds;
  }

  lemma PairYields(layout: Layout, p: seq<string>, q: seq<string>, c: Civil, d: Civil)
    requires Real(c) && Real(d) && c.year != 9999 && d.year != 9999
    requires Valid(layout) && layout != [] && Finest(layout) > 0
    requires PathReadsTime(layout, p, c) && PathReadsTime(layout, q, d)
    ensures |p| == |q|
    ensures Yields(layout, Pair(p, q), map[], p, ALL_AFTER, ALL_BEFORE)
    ensures Yields(layout, Pair(p, q), map[], q, ALL_AFTER, ALL_BEFORE)
  {
    assert |p| == |q| == |layout|;
    hide Real;
    hide Yields;
    hide Spared;
    hide PathReadsTime;
    hide UnitStart;
    hide UnitEnd;
    hide Valid;
    hide Overlaps;
    hide Pair;
    PairPresent(p, q);
    AllOfTime(c, Finest(layout));
    AllOfTime(d, Finest(layout));
    EarlierYearsSpared(layout, {}, c);
    EarlierYearsSpared(layout, {}, d);
    PathFound(layout, Pair(p, q), p, c, ALL_AFTER, ALL_BEFORE);
    PathFound(layout, Pair(p, q), q, d, ALL_AFTER, ALL_BEFORE);
  }

  lemma StartIsUnit(layout: Layout, path: seq<string>, c: Civil)
    requires Real(c) && Valid(layout) && Finest(layout) > 0 && PathReadsTime(layout, path, c)
    ensures |path| == |layout| && ReadNames(layout, path, map[]).Merged?
    ensures StartTime(layout, path) == Truncated(c, Finest(layout))
  {
    assert |path| == |layout|;
    hide ReadNames;
    hide PathReadsTime;
    hide Settled;
    hide Real;
    hide Value;
    hide Gapless;
    hide Truncated;
    ReadBackAgrees(layout, path, c);
    StartIsTruncated(ReadNames(layout, path, map[]).fields, c);
  }

  lemma EarlierUnit(c: Civil, d: Civil, at: nat, depth: nat)
    requires Real(c) && Real(d) && at < depth <= 6
    requires (forall i :: 0 <= i < at ==> Parts(c)[i] == Parts(d)[i]) && Parts(c)[at] < Parts(d)[at]
    ensures Real(Truncated(c, depth)) && Real(Truncated(d, depth))
    ensures Seconds(Truncated(c, depth)) < Seconds(Truncated(d, depth))
  {
    TruncatedIsReal(c, depth);
    TruncatedIsReal(d, depth);
    var x, y := Truncated(c, depth), Truncated(d, depth);
    TruncatedParts(c, depth);
    TruncatedParts(d, depth);
    hide Real;
    hide Seconds;
    hide Parts;
    hide Truncated;
    assert Parts(x)[..at] == Parts(y)[..at];
    EarlierPart(x, y, at);
  }

  lemma TruncatedParts(c: Civil, depth: nat)
    ensures forall i :: 0 <= i < depth && i < 6 ==> depth == 0 || Parts(Truncated(c, depth))[i] == Parts(c)[i]
  {
  }

  /** Two folders of times in one order, found in the other, are out of time order. */
  lemma OutOfOrder(layout: Layout, p: seq<string>, q: seq<string>, early: Civil, late: Civil, at: nat)
    requires Real(early) && Real(late) && early.year != 9999 && late.year != 9999
    requires Valid(layout) && layout != [] && at < Finest(layout)
    requires PathReadsTime(layout, p, late) && PathReadsTime(layout, q, early) && Precedes(layout, map[], p, q)
    requires (forall i :: 0 <= i < at ==> Parts(early)[i] == Parts(late)[i]) && Parts(early)[at] < Parts(late)[at]
    ensures |p| == |q| && !NoLater(layout, p, q)
    ensures Yields(layout, Pair(p, q), map[], p, ALL_AFTER, ALL_BEFORE)
    ensures Yields(layout, Pair(p, q), map[], q, ALL_AFTER, ALL_BEFORE)
    ensures !AlwaysInTimeOrder(layout)
  {
    hide Real;
    hide Yields;
    hide PathReadsTime;
    hide Valid;
    hide Precedes;
    hide Parts;
    hide Truncated;
    hide Seconds;
    hide ReadNames;
    PairYields(layout, p, q, late, early);
    StartIsUnit(layout, p, late);
    StartIsUnit(layout, q, early);
    EarlierUnit(early, late, at, Finest(layout));
    assert !NoLater(layout, p, q);
  }

  /** Whether the folders that times render are yielded in the order of those times. */
  ghost predicate RenderedInTimeOrder(layout: Layout) {
    forall root, c, d, after, before ::
      Real(c) && Real(d) && Yields(layout, root, map[], RenderLayout(layout, c), after, before) &&
      Yields(layout, root, map[], RenderLayout(layout, d), after, before) &&
      Precedes(layout, map[], RenderLayout(layout, c), RenderLayout(layout, d)) ==>
        NoLater(layout, RenderLayout(layout, c), RenderLayout(layout, d))
  }

  /** A layout whose fields do not sort at some level has folders out of time order, rendered ones
      too. */
  lemma GapDisorders(layout: Layout)
    requires Valid(layout) && ReadableNames(layout) && layout != [] && !Neat(layout, {})
    ensures !AlwaysInTimeOrder(layout) && !RenderedInTimeOrder(layout)
  {
    hide Neat;
    hide Real;
    hide PathReadsTime;
    hide Precedes;
    hide RenderLayout;
    hide Parts;
    hide LateInUnit;
    hide EarlyInNext;
    hide GapDepth;
    hide SameUnit;
    hide AlwaysInTimeOrder;
    var none: Fields := map[];
    assert none.Keys == {};
    var depth := GapDepth(layout, {});
    SettledLeaf(layout);
    GapBelowLeaf(layout, {});
    TimesAroundGap(depth);
    GapPrecedes(layout, none, depth);
    YearsAroundGap(depth);
    RenderedReadsTime(layout, EarlyInNext(depth));
    RenderedReadsTime(layout, LateInUnit(depth));
    OutOfOrder(layout, RenderLayout(layout, EarlyInNext(depth)), RenderLayout(layout, LateInUnit(depth)),
               LateInUnit(depth), EarlyInNext(depth), depth);
  }

  lemma YearsAroundGap(depth: nat)
    ensures LateInUnit(depth).year != 9999 && EarlyInNext(depth).year != 9999
  {
  }

  lemma SettledLeaf(layout: Layout)
    requires Valid(layout)
    ensures Gapless(KeysDown(layout, {})) && Depth(KeysDown(layout, {})) == Finest(layout)
    ensures OrdinalDay in KeysDown(layout, {}) ==> Year in KeysDown(layout, {})
    ensures ClockBeside(layout)
  {
    KeysOfLayout(layout);
    assert CALENDAR[1] == MonthOfYear;
  }

  // ---------------------------------------------------------------- two spellings of one time

  /** How many calendar fields are known where a layout's names can first be spelled in two ways
      with finer fields below. */
  function SpellDepth(layout: Layout, keys: set<Field>, finest: nat): nat
    requires !RespelledLast(layout, keys, finest)
  {
    var more := KeysAfter(keys, Atoms(layout[0]));
    if Respellable(layout[0]) && Depth(more) != finest then Depth(more) else SpellDepth(layout[1..], more, finest)
  }

  /** A rendered path, but for that one name, whose numbers are spelled wide. */
  function WidePath(layout: Layout, keys: set<Field>, finest: nat, c: Civil): (path: seq<string>)
    requires Real(c) && !RespelledLast(layout, keys, finest)
    ensures |path| == |layout|
  {
    var more := KeysAfter(keys, Atoms(layout[0]));
    if Respellable(layout[0]) && Depth(more) != finest then [WideName(layout[0], c)] + RenderLayout(layout[1..], c)
    else [RenderSegment(layout[0], c)] + WidePath(layout[1..], more, finest, c)
  }

  lemma {:induction false} WidePathReads(layout: Layout, keys: set<Field>, finest: nat, c: Civil)
    requires Real(c) && !RespelledLast(layout, keys, finest) && ReadableNames(layout)
    ensures PathReadsTime(layout, WidePath(layout, keys, finest, c), c)
    decreases |layout|
  {
    hide Real;
    hide KeysAfter;
    hide Respellable;
    hide NameReadsTime;
    hide Depth;
    hide RenderSegment;
    hide WideName;
    var path, more := WidePath(layout, keys, finest, c), KeysAfter(keys, Atoms(layout[0]));
    if Respellable(layout[0]) && Depth(more) != finest {
      WideNameReads(layout[0], c);
      RenderedReadsTime(layout[1..], c);
      assert path[1..] == RenderLayout(layout[1..], c);
    } else {
      RenderedNameReads(layout[0], c);
      WidePathReads(layout[1..], more, finest, c);
      assert path[1..] == WidePath(layout[1..], more, finest, c);
    }
    PathReadsSplits(layout, path, c);
  }

  /** A time whose numbers take one digit each, and the next unit of some depth. */
  const SINGLE: Civil := Civil(2001, 5, 5, 5, 0, 0)

  function NextSingle(depth: nat): Civil {
    if depth == 2 then Civil(2001, 5, 6, 5, 0, 0)
    else if depth == 3 then Civil(2001, 5, 5, 6, 0, 0)
    else if depth == 4 then Civil(2001, 5, 5, 5, 1, 0)
    else Civil(2001, 5, 5, 5, 0, 1)
  }

  lemma SingleTimes(depth: nat)
    requires 2 <= depth <= 5
    ensures var a, b := SINGLE, NextSingle(depth);
            && Real(a) && Real(b) && SameUnit(a, b, depth)
            && (forall i :: 0 <= i < depth ==> Parts(a)[i] == Parts(b)[i]) && Parts(a)[depth] < Parts(b)[depth]
            && a.year != 9999 && b.year != 9999
  {
  }

  lemma FiveTexts()
    ensures Padded(5, 1) == "5" && Padded(5, 2) == "05"
  {
    assert Padded(0, 0) == "";
    hide Padded;
    PaddedStep(0, 1, "");
    PaddedStep(5, 2, "0");
    PaddedStep(5, 1, "");
  }

  lemma SingleIsReal()
    ensures Real(SINGLE)
    ensures Value(SINGLE, MonthOfYear) == Value(SINGLE, DayOfMonth) == Value(SINGLE, HourOfDay) ==
            Value(SINGLE, Hour12) == 5
  {
  }

  lemma SpelledTwice(atom: Atom)
    ensures Real(SINGLE)
    ensures if Variable(atom) && atom != MMMM then Wide(atom, SINGLE) == "05" && Render(atom, SINGLE) == "5"
            else Wide(atom, SINGLE) == Render(atom, SINGLE)
  {
    hide Padded;
    hide Real;
    hide Value;
    hide Render;
    SingleIsReal();
    if Variable(atom) && atom != MMMM {
      NumbersAre(atom, SINGLE);
      FiveTexts();
    }
  }

  lemma CodesJoin(a: string, b: string)
    ensures Codes(a + b) == Codes(a) + Codes(b)
  {
  }

  /** The wide spelling of a name sorts before the rendered one. */
  lemma {:induction false} WideFirst(segment: Segment)
    requires Respellable(segment)
    ensures Real(SINGLE) && LexLess(Codes(WideName(segment, SINGLE)), Codes(RenderSegment(segment, SINGLE)))
  {
    hide Wide;
    hide Render;
    hide Real;
    assert Real(SINGLE) by { SpelledTwice(YYYY); }
    match segment[0]
    case Fixed(text) =>
      assert Atoms(segment) == [] + Atoms(segment[1..]) == Atoms(segment[1..]);
      WideFirst(segment[1..]);
      CodesJoin(text, WideName(segment[1..], SINGLE));
      CodesJoin(text, RenderSegment(segment[1..], SINGLE));
      LexAfter(Codes(text), Codes(WideName(segment[1..], SINGLE)), Codes(RenderSegment(segment[1..], SINGLE)));
    case Timed(atom) =>
      var atoms, rest := Atoms(segment), Atoms(segment[1..]);
      assert atoms == [atom] + rest && atoms[1..] == rest;
      assert Wides(atoms, SINGLE)[1..] == Wides(rest, SINGLE);
      var wide, plain := WideName(segment[1..], SINGLE), RenderSegment(segment[1..], SINGLE);
      SpelledTwice(atom);
      CodesJoin(Wide(atom, SINGLE), wide);
      CodesJoin(Render(atom, SINGLE), plain);
      if Variable(atom) && atom != MMMM {
        assert (Codes("05") + Codes(wide))[0] == '0' as int && (Codes("5") + Codes(plain))[0] == '5' as int;
      } else {
        assert Respellable(segment[1..]) by { StillRespellable(atom, rest, segment); }
        WideFirst(segment[1..]);
        LexAfter(Codes(Render(atom, SINGLE)), Codes(wide), Codes(plain));
      }
  }

  lemma StillRespellable(atom: Atom, rest: seq<Atom>, segment: Segment)
    requires Respellable(segment) && Atoms(segment) == [atom] + rest && segment != [] && Atoms(segment[1..]) == rest
    requires !(Variable(atom) && atom != MMMM)
    ensures Respellable(segment[1..])
  {
    var other :| other in Atoms(segment) && Variable(other) && other != MMMM;
    assert other in rest;
  }

  lemma WideAlike(segment: Segment, a: Civil, b: Civil)
    requires Real(a) && Real(b) && forall f :: f in FieldSet(Atoms(segment)) ==> Value(a, f) == Value(b, f)
    ensures WideName(segment, a) == WideName(segment, b)
  {
    hide Real;
    hide Value;
    hide Render;
    var atoms := Atoms(segment);
    forall i | 0 <= i < |atoms| ensures Wides(atoms, a)[i] == Wides(atoms, b)[i] {
      assert atoms[i] in atoms && FieldOf(atoms[i]) in FieldSet(atoms);
      RenderIsValue(atoms[i], a, b);
    }
    assert Wides(atoms, a) == Wides(atoms, b);
  }

  lemma AllAlike(keys: set<Field>, a: Fields, b: Fields, c: Civil, d: Civil)
    requires Real(c) && Real(d) && Agrees(a, c) && Agrees(b, d) && a.Keys == b.Keys == keys
    requires Sortable(keys) && Closed(keys) && (Depth(keys) > 0 ==> SameUnit(c, d, Depth(keys)))
    ensures a == b
  {
    hide Real;
    hide Value;
    hide Sortable;
    hide Closed;
    hide SameUnit;
    forall f | f in keys ensures a[f] == b[f] {
      SettledAlike(keys, c, d, f);
    }
  }

  /** The level whose name is spelled wide is where the later time's folder is sorted first. */
  lemma WideParts(layout: Layout, known: Fields, finest: nat, depth: nat)
    requires layout != [] && ReadableNames(layout) && ClockBeside(layout) && Closed(known.Keys)
    requires var more := KeysAfter(known.Keys, Atoms(layout[0]));
             Respellable(layout[0]) && Depth(more) != finest && Depth(more) == depth && Sortable(more) &&
               2 <= depth <= 5
    requires Real(SINGLE) && Real(NextSingle(depth)) && Agrees(known, SINGLE) && Agrees(known, NextSingle(depth))
    ensures Precedes(layout, known, WidePath(layout, known.Keys, finest, NextSingle(depth)),
                     RenderLayout(layout, SINGLE))
  {
    hide KeysAfter;
    hide Sortable;
    hide Real;
    hide Agrees;
    hide Closed;
    hide ReadName;
    hide RenderSegment;
    hide WideName;
    hide NameReadsTime;
    hide OrderKey;
    hide LexLess;
    hide NextSingle;
    hide ClockBeside;
    hide Depth;
    hide Respellable;
    hide SameUnit;
    hide Codes;
    var late, more := NextSingle(depth), KeysAfter(known.Keys, Atoms(layout[0]));
    var p, q := WideName(layout[0], late), RenderSegment(layout[0], SINGLE);
    SingleTimes(depth);
    StillClosed(layout, known.Keys);
    WideNameReads(layout[0], late);
    RenderedNameReads(layout[0], SINGLE);
    NameMerges(layout[0], p, known, late);
    NameMerges(layout[0], q, known, SINGLE);
    var a, b := ReadName(layout[0], p, known).fields, ReadName(layout[0], q, known).fields;
    AllAlike(more, b, a, SINGLE, late);
    assert Paired(FieldSet(Atoms(layout[0]))) by { FirstPaired(layout); }
    NamesAlike(layout[0], known.Keys, SINGLE, late);
    WideAlike(layout[0], SINGLE, late);
    WideFirst(layout[0]);
    LexIrreflexive(Codes(p));
    LexAfter(OrderKey(a), Codes(p), Codes(q));
  }

  lemma FirstPaired(layout: Layout)
    requires layout != [] && ClockBeside(layout)
    ensures Paired(FieldSet(Atoms(layout[0])))
  {
  }

  lemma {:induction false} SpellIsDeeper(layout: Layout, keys: set<Field>, finest: nat)
    requires !RespelledLast(layout, keys, finest)
    ensures Depth(keys) <= SpellDepth(layout, keys, finest)
    decreases |layout|
  {
    hide KeysAfter;
    hide Respellable;
    hide Depth;
    var more := KeysAfter(keys, Atoms(layout[0]));
    KeysGrow(keys, Atoms(layout[0]));
    GrowsDeeper(keys, more);
    if !(Respellable(layout[0]) && Depth(more) != finest) {
      SpellIsDeeper(layout[1..], more, finest);
    }
  }

  /** A name with such a number settles the year and the month at least. */
  lemma RespellableIsDeep(segment: Segment, keys: set<Field>)
    requires Respellable(segment) && Paired(FieldSet(Atoms(segment))) && Sortable(KeysAfter(keys, Atoms(segment)))
    ensures Depth(KeysAfter(keys, Atoms(segment))) >= 2
  {
    var atom :| atom in Atoms(segment) && Variable(atom) && atom != MMMM;
    var more := KeysAfter(keys, Atoms(segment));
    assert FieldOf(atom) in FieldSet(Atoms(segment));
    assert MonthOfYear in more || DayOfMonth in more || HourOfDay in more;
    assert CALENDAR[1] == MonthOfYear && CALENDAR[2] == DayOfMonth && CALENDAR[3] == HourOfDay;
    hide KeysAfter;
  }

  lemma {:induction false} SpellBelowLeaf(layout: Layout, keys: set<Field>, finest: nat)
    requires !RespelledLast(layout, keys, finest) && Neat(layout, keys) && ClockBeside(layout) && Closed(keys)
    requires finest == Depth(KeysDown(layout, keys))
    ensures 2 <= SpellDepth(layout, keys, finest) < finest
    decreases |layout|
  {
    hide KeysAfter;
    hide Respellable;
    hide Depth;
    hide Sortable;
    hide Closed;
    var more := KeysAfter(keys, Atoms(layout[0]));
    StillClosed(layout, keys);
    KeysDownGrow(layout[1..], more);
    GrowsDeeper(more, KeysDown(layout[1..], more));
    if Respellable(layout[0]) && Depth(more) != finest {
      RespellableIsDeep(layout[0], keys);
    } else {
      SpellBelowLeaf(layout[1..], more, finest);
    }
  }

  lemma {:induction false} WidePrecedes(layout: Layout, known: Fields, finest: nat, depth: nat)
    requires ReadableNames(layout) && ClockBeside(layout) && Closed(known.Keys) && Neat(layout, known.Keys)
    requires !RespelledLast(layout, known.Keys, finest) && depth == SpellDepth(layout, known.Keys, finest) &&
             2 <= depth <= 5
    requires Real(SINGLE) && Real(NextSingle(depth)) && Agrees(known, SINGLE) && Agrees(known, NextSingle(depth))
    ensures Precedes(layout, known, WidePath(layout, known.Keys, finest, NextSingle(depth)),
                     RenderLayout(layout, SINGLE))
    decreases |layout|
  {
    hide KeysAfter;
    hide Sortable;
    hide Real;
    hide Agrees;
    hide Closed;
    hide ReadName;
    hide RenderSegment;
    hide WideName;
    hide NameReadsTime;
    hide Rank;
    hide NextSingle;
    hide Depth;
    hide Respellable;
    var late, more := NextSingle(depth), KeysAfter(known.Keys, Atoms(layout[0]));
    if Respellable(layout[0]) && Depth(more) != finest {
      WideParts(layout, known, finest, depth);
    } else {
      SpellIsDeeper(layout[1..], more, finest);
      StillClosed(layout, known.Keys);
      SpellLevelAlike(layout, known.Keys, depth);
      RenderedNameReads(layout[0], SINGLE);
      NameMerges(layout[0], RenderSegment(layout[0], SINGLE), known, SINGLE);
      RenderedNameReads(layout[0], late);
      NameMerges(layout[0], RenderSegment(layout[0], late), known, late);
      WidePrecedes(layout[1..], ReadName(layout[0], RenderSegment(layout[0], SINGLE), known).fields, finest, depth);
      assert RenderLayout(layout, SINGLE)[1..] == RenderLayout(layout[1..], SINGLE);
      assert WidePath(layout, known.Keys, finest, late)[1..] == WidePath(layout[1..], more, finest, late);
    }
  }

  lemma SpellLevelAlike(layout: Layout, keys: set<Field>, depth: nat)
    requires layout != [] && ClockBeside(layout) && Closed(keys) && 2 <= depth <= 5
    requires var more := KeysAfter(keys, Atoms(layout[0])); Sortable(more) && Closed(more) && Depth(more) <= depth
    requires Real(SINGLE) && Real(NextSingle(depth))
    ensures RenderSegment(layout[0], SINGLE) == RenderSegment(layout[0], NextSingle(depth))
  {
    hide KeysAfter;
    hide Sortable;
    hide Real;
    hide Closed;
    hide RenderSegment;
    hide NextSingle;
    hide Depth;
    hide SameUnit;
    SingleTimes(depth);
    var at := Depth(KeysAfter(keys, Atoms(layout[0])));
    if at > 0 {
      CoarserUnit(SINGLE, NextSingle(depth), at, depth);
    }
    NamesAlike(layout[0], keys, SINGLE, NextSingle(depth));
  }

  /** A layout with finer fields below a name that can be spelled in two ways has folders out of
      time order. */
  lemma SpellingDisorders(layout: Layout)
    requires Valid(layout) && ReadableNames(layout) && layout != [] && Neat(layout, {})
    requires !RespelledLast(layout, {}, Finest(layout))
    ensures !AlwaysInTimeOrder(layout)
  {
    hide Neat;
    hide RespelledLast;
    hide Real;
    hide PathReadsTime;
    hide Precedes;
    hide RenderLayout;
    hide Parts;
    hide NextSingle;
    hide SpellDepth;
    hide SameUnit;
    hide AlwaysInTimeOrder;
    hide WidePath;
    hide Valid;
    var none: Fields := map[];
    assert none.Keys == {};
    var finest := Finest(layout);
    var depth := SpellDepth(layout, {}, finest);
    SettledLeaf(layout);
    SpellBelowLeaf(layout, {}, finest);
    SingleTimes(depth);
    WidePrecedes(layout, none, finest, depth);
    WidePathReads(layout, {}, finest, NextSingle(depth));
    RenderedReadsTime(layout, SINGLE);
    OutOfOrder(layout, WidePath(layout, {}, finest, NextSingle(depth)), RenderLayout(layout, SINGLE),
               SINGLE, NextSingle(depth), depth);
  }

  /** The search yields folders in time order, whatever the tree and the range, exactly when the
      fields settled at every level sort as their times do, and a level whose names can be spelled
      with a zero more has no finer field below it. */
  lemma TimeOrderExactly(layout: Layout)
    requires Valid(layout) && ReadableNames(layout) && layout != []
    ensures AlwaysInTimeOrder(layout) <==> Orderly(layout)
  {
    hide AlwaysInTimeOrder;
    hide Neat;
    hide RespelledLast;
    if Orderly(layout) {
      OrderlyInTime(layout);
    } else if Neat(layout, {}) {
      SpellingDisorders(layout);
    } else {
      GapDisorders(layout);
    }
  }

  // ---------------------------------------------------------------- rendered folders alone

  lemma SixPartsSameUnit(a: Fields, b: Fields, c: Civil, d: Civil)
    requires Real(c) && Real(d) && Agrees(a, c) && Agrees(b, d) && a.Keys == b.Keys && Sortable(a.Keys)
    requires OrderKey(a)[..6] == OrderKey(b)[..6] && Depth(a.Keys) > 0
    ensures SameUnit(c, d, Depth(a.Keys))
  {
    hide OrderKey;
    hide Real;
    hide Parts;
    hide Sortable;
    KeyOfTime(a, c);
    KeyOfTime(b, d);
    var depth := Depth(a.Keys);
    forall i | 0 <= i < depth ensures Parts(c)[i] == Parts(d)[i] {
      assert OrderKey(a)[..6][i] == OrderKey(b)[..6][i];
      SortableIndex(a.Keys, i);
    }
    assert Parts(c)[..depth] == Parts(d)[..depth];
    SamePrefix(c, d, depth);
  }

  lemma RenderedParting(layout: Layout, known: Fields, c: Civil, d: Civil, a: Fields, b: Fields)
    requires Real(c) && Real(d) && Agrees(known, c) && Agrees(known, d) && ReadableNames(layout)
    requires layout != [] && PathsPart(layout, known, RenderLayout(layout, c), RenderLayout(layout, d), a, b)
    requires Precedes(layout, known, RenderLayout(layout, c), RenderLayout(layout, d))
    ensures Seconds(StartOf(a)) < Seconds(StartOf(b))
  {
    hide ReadName;
    hide Real;
    hide Agrees;
    hide Sortable;
    hide KeysAfter;
    hide StartOf;
    hide Seconds;
    hide OrdinalHolds;
    hide Keeps;
    hide Closed;
    hide OrderKey;
    hide LexLess;
    hide Rank;
    hide RenderSegment;
    hide NameReadsTime;
    hide SameUnit;
    hide Depth;
    hide Leads;
    var p, q := RenderSegment(layout[0], c), RenderSegment(layout[0], d);
    RenderedNameReads(layout[0], c);
    RenderedNameReads(layout[0], d);
    NameMerges(layout[0], p, known, c);
    NameMerges(layout[0], q, known, d);
    StillClosed(layout, known.Keys);
    var x, y := ReadName(layout[0], p, known).fields, ReadName(layout[0], q, known).fields;
    var i := RankParts(p, x, q, y);
    if i < 6 {
      PartingEarlier(layout, known, RenderLayout(layout, c), RenderLayout(layout, d), a, b, i);
    } else {
      if Depth(x.Keys) > 0 {
        SixPartsSameUnit(x, y, c, d);
      }
      assert Paired(FieldSet(Atoms(layout[0]))) by { FirstPaired(layout); }
      NamesAlike(layout[0], known.Keys, c, d);
    }
  }

  lemma {:induction false} RenderedDown(layout: Layout, known: Fields, c: Civil, d: Civil, a: Fields, b: Fields)
    requires Real(c) && Real(d) && Agrees(known, c) && Agrees(known, d) && ReadableNames(layout)
    requires ClockBeside(layout) && Closed(known.Keys) && Neat(layout, known.Keys)
    requires Leads(layout, known, RenderLayout(layout, c), a) && Leads(layout, known, RenderLayout(layout, d), b)
    requires Precedes(layout, known, RenderLayout(layout, c), RenderLayout(layout, d))
    requires Year in a && Real(StartOf(a)) && Real(StartOf(b))
    ensures Seconds(StartOf(a)) <= Seconds(StartOf(b))
    decreases |layout|
  {
    hide ReadName;
    hide Real;
    hide Agrees;
    hide Sortable;
    hide KeysAfter;
    hide StartOf;
    hide Seconds;
    hide Closed;
    hide Rank;
    hide LexLess;
    hide RenderSegment;
    hide NameReadsTime;
    hide Leads;
    hide ClockBeside;
    var p, q := RenderLayout(layout, c), RenderLayout(layout, d);
    if p[0] != q[0] {
      RenderedParting(layout, known, c, d, a, b);
    } else {
      LeadsDown(layout, known, p, a);
      LeadsDown(layout, known, q, b);
      RenderedNameReads(layout[0], c);
      NameMerges(layout[0], p[0], known, c);
      RenderedNameReads(layout[0], d);
      NameMerges(layout[0], q[0], known, d);
      assert p[1..] == RenderLayout(layout[1..], c) && q[1..] == RenderLayout(layout[1..], d);
      RenderedDown(layout[1..], ReadName(layout[0], p[0], known).fields, c, d, a, b);
    }
  }

  lemma NeatInTime(layout: Layout)
    requires Valid(layout) && ReadableNames(layout) && layout != [] && Neat(layout, {})
    ensures RenderedInTimeOrder(layout)
  {
    hide Neat;
    hide Yields;
    hide Precedes;
    hide Gapless;
    hide Settled;
    hide Real;
    hide ReadNames;
    hide StartOf;
    hide Seconds;
    hide RenderLayout;
    var none: Fields := map[];
    assert none.Keys == {};
    forall root, c, d, after, before |
      Real(c) && Real(d) && Yields(layout, root, none, RenderLayout(layout, c), after, before) &&
      Yields(layout, root, none, RenderLayout(layout, d), after, before) &&
      Precedes(layout, none, RenderLayout(layout, c), RenderLayout(layout, d))
      ensures NoLater(layout, RenderLayout(layout, c), RenderLayout(layout, d))
    {
      if Finest(layout) > 0 {
        var a := YieldedLeads(layout, root, RenderLayout(layout, c), after, before);
        var b := YieldedLeads(layout, root, RenderLayout(layout, d), after, before);
        RenderedDown(layout, none, c, d, a, b);
      }
    }
  }

  /** The folders times render are yielded in the order of the times exactly when the fields settled
      at every level sort as their times do. */
  lemma RenderedOrderExactly(layout: Layout)
    requires Valid(layout) && ReadableNames(layout) && layout != []
    ensures RenderedInTimeOrder(layout) <==> Neat(layout, {})
  {
    hide RenderedInTimeOrder;
    hide Neat;
    if Neat(layout, {}) {
      NeatInTime(layout);
    } else {
      GapDisorders(layout);
    }
  }

  // ---------------------------------------------------------------- months before years

  const MONTHS_BEFORE_YEARS: Layout := [[Timed(MM)], [Timed(YYYY)]]

  const JANUARY: Civil := Civil(2025, 1, 1, 0, 0, 0)
  const FEBRUARY: Civil := Civil(2024, 2, 1, 0, 0, 0)

  lemma YearNumbers()
    ensures Padded(2025, 4) == "2025" && Padded(2024, 4) == "2024"
  {
    assert Padded(0, 0) == "";
    hide Padded;
    PaddedStep(2, 1, "");
    PaddedStep(20, 2, "2");
    PaddedStep(202, 3, "20");
    PaddedStep(2025, 4, "202");
    PaddedStep(2024, 4, "202");
  }

  lemma MonthNumbers()
    ensures Padded(1, 2) == "01" && Padded(2, 2) == "02"
  {
    assert Padded(0, 0) == "";
    hide Padded;
    PaddedStep(0, 1, "");
    PaddedStep(1, 2, "0");
    PaddedStep(2, 2, "0");
  }

  lemma MonthTexts()
    ensures Real(JANUARY) && Render(MM, JANUARY) == "01" && Render(YYYY, JANUARY) == "2025"
    ensures Real(FEBRUARY) && Render(MM, FEBRUARY) == "02" && Render(YYYY, FEBRUARY) == "2024"
  {
    hide Padded;
    YearNumbers();
    MonthNumbers();
  }

  lemma MonthNames(c: Civil)
    requires Real(c)
    ensures RenderLayout(MONTHS_BEFORE_YEARS, c) == [Render(MM, c), Render(YYYY, c)]
  {
    hide Real;
    hide Render;
    assert RenderSegment([Timed(MM)], c) == Render(MM, c) + RenderSegment([], c) == Render(MM, c);
    assert RenderSegment([Timed(YYYY)], c) == Render(YYYY, c) + RenderSegment([], c) == Render(YYYY, c);
    assert MONTHS_BEFORE_YEARS[1..] == [[Timed(YYYY)]];
    assert RenderLayout([[Timed(YYYY)]], c) == [Render(YYYY, c)] + RenderLayout([], c) == [Render(YYYY, c)];
  }

  lemma MonthsBeforeYears()
    ensures Valid(MONTHS_BEFORE_YEARS) && ReadableNames(MONTHS_BEFORE_YEARS) && Finest(MONTHS_BEFORE_YEARS) == 2
    ensures Atoms([Timed(MM)]) == [MM] && KeysAfter({}, [MM]) == {MonthOfYear}
  {
    OneField(MM);
    OneField(YYYY);
    assert Atoms([Timed(MM)]) == [MM] && Atoms([Timed(YYYY)]) == [YYYY];
    assert MONTHS_BEFORE_YEARS[1..] == [[Timed(YYYY)]];
    assert LayoutFields(MONTHS_BEFORE_YEARS) == {Year, MonthOfYear};
    assert Settled({Year, MonthOfYear}) == {Year, MonthOfYear};
    assert CALENDAR == [Year, MonthOfYear, DayOfMonth, HourOfDay, Minute, Second];
    assert Readable([Timed(YYYY)]) && Readable([Timed(MM)]);
    assert {} + {MonthOfYear} == {MonthOfYear};
  }

  lemma JanuaryFirst()
    ensures Real(JANUARY) && Real(FEBRUARY)
    ensures Precedes(MONTHS_BEFORE_YEARS, map[], RenderLayout(MONTHS_BEFORE_YEARS, JANUARY),
                     RenderLayout(MONTHS_BEFORE_YEARS, FEBRUARY))
  {
    MonthTexts();
    hide Real;
    hide Render;
    hide ReadName;
    hide NameReadsTime;
    hide RenderSegment;
    hide KeysAfter;
    hide OrderKey;
    hide LexLess;
    MonthNames(JANUARY);
    MonthNames(FEBRUARY);
    MonthsBeforeYears();
    var segment: Segment := [Timed(MM)];
    var none: Fields := map[];
    assert none.Keys == {};
    RenderedNameReads(segment, JANUARY);
    RenderedNameReads(segment, FEBRUARY);
    NameMerges(segment, RenderSegment(segment, JANUARY), none, JANUARY);
    NameMerges(segment, RenderSegment(segment, FEBRUARY), none, FEBRUARY);
    var a := ReadName(segment, RenderSegment(segment, JANUARY), none).fields;
    var b := ReadName(segment, RenderSegment(segment, FEBRUARY), none).fields;
    KeyOfTime(a, JANUARY);
    KeyOfTime(b, FEBRUARY);
    assert CALENDAR == [Year, MonthOfYear, DayOfMonth, HourOfDay, Minute, Second];
    LexPointwise(OrderKey(a), OrderKey(b), 1);
    LexExtends(OrderKey(a), OrderKey(b), Codes("01"), Codes("02"));
    assert RenderSegment(segment, JANUARY) == RenderLayout(MONTHS_BEFORE_YEARS, JANUARY)[0];
    assert RenderSegment(segment, FEBRUARY) == RenderLayout(MONTHS_BEFORE_YEARS, FEBRUARY)[0];
  }

  /** Under a layout of months above years January 2025 is yielded before February 2024. */
  lemma MonthsBeforeYearsDisorder()
    ensures var root := Folder(map["01" := Folder(map["2025" := Folder(map[])]),
                                   "02" := Folder(map["2024" := Folder(map[])])]);
            && Yields(MONTHS_BEFORE_YEARS, root, map[], ["01", "2025"], ALL_AFTER, ALL_BEFORE)
            && Yields(MONTHS_BEFORE_YEARS, root, map[], ["02", "2024"], ALL_AFTER, ALL_BEFORE)
            && Precedes(MONTHS_BEFORE_YEARS, map[], ["01", "2025"], ["02", "2024"])
            && !NoLater(MONTHS_BEFORE_YEARS, ["01", "2025"], ["02", "2024"])
  {
    hide Yields;
    hide Precedes;
    hide NoLater;
    hide RenderLayout;
    hide Valid;
    hide Finest;
    hide ReadableNames;
    hide PathReadsTime;
    hide AlwaysInTimeOrder;
    MonthTexts();
    hide Real;
    hide Render;
    MonthNames(JANUARY);
    MonthNames(FEBRUARY);
    MonthsBeforeYears();
    JanuaryFirst();
    RenderedReadsTime(MONTHS_BEFORE_YEARS, JANUARY);
    RenderedReadsTime(MONTHS_BEFORE_YEARS, FEBRUARY);
    OutOfOrder(MONTHS_BEFORE_YEARS, ["01", "2025"], ["02", "2024"], FEBRUARY, JANUARY, 0);
    assert ["01", "2025"][1..] == ["2025"] && ["02", "2024"][1..] == ["2024"] && ["2024"][1..] == [] &&
           ["2025"][1..] == [];
    assert Nested(["2025"]) == Folder(map["2025" := Folder(map[])]) &&
           Nested(["2024"]) == Folder(map["2024" := Folder(map[])]);
  }

  // ---------------------------------------------------------------- months of one digit above days

  const YEARS_MONTHS_DAYS: Layout := [[Timed(YYYY)], [Timed(M)], [Timed(DD)]]

  lemma YearsMonthsDaysLevels()
    ensures Atoms([Timed(YYYY)]) == [YYYY] && Atoms([Timed(M)]) == [M] && Atoms([Timed(DD)]) == [DD]
    ensures KeysAfter({}, [YYYY]) == {Year} && KeysAfter({Year}, [M]) == {Year, MonthOfYear}
    ensures KeysAfter({Year, MonthOfYear}, [DD]) == {Year, MonthOfYear, DayOfMonth}
  {
    OneField(YYYY);
    OneField(M);
    OneField(DD);
    assert {} + {Year} == {Year} && {Year} + {MonthOfYear} == {Year, MonthOfYear};
    assert {Year, MonthOfYear} + {DayOfMonth} == {Year, MonthOfYear, DayOfMonth};
  }

  lemma YearsMonthsDaysFields()
    ensures LayoutFields(YEARS_MONTHS_DAYS) == {Year, MonthOfYear, DayOfMonth}
  {
    YearsMonthsDaysLevels();
    OneField(YYYY);
    OneField(M);
    OneField(DD);
    assert YEARS_MONTHS_DAYS[1..] == [[Timed(M)], [Timed(DD)]] && YEARS_MONTHS_DAYS[1..][1..] == [[Timed(DD)]];
    assert LayoutFields([[Timed(DD)]]) == {DayOfMonth};
    assert LayoutFields([[Timed(M)], [Timed(DD)]]) == {MonthOfYear, DayOfMonth};
  }

  lemma YearsMonthsDaysValid()
    ensures Valid(YEARS_MONTHS_DAYS) && ReadableNames(YEARS_MONTHS_DAYS) && Finest(YEARS_MONTHS_DAYS) == 3
  {
    YearsMonthsDaysFields();
    YearsMonthsDaysLevels();
    OneField(YYYY);
    OneField(M);
    OneField(DD);
    hide LayoutFields;
    hide KeysAfter;
    assert Settled({Year, MonthOfYear, DayOfMonth}) == {Year, MonthOfYear, DayOfMonth};
    assert CALENDAR == [Year, MonthOfYear, DayOfMonth, HourOfDay, Minute, Second];
    assert Readable([Timed(YYYY)]) && Readable([Timed(M)]) && Readable([Timed(DD)]);
  }

  lemma YearsMonthsDaysNeat()
    ensures Neat(YEARS_MONTHS_DAYS, {}) && !RespelledLast(YEARS_MONTHS_DAYS, {}, 3)
  {
    YearsMonthsDaysLevels();
    hide KeysAfter;
    assert YEARS_MONTHS_DAYS[1..] == [[Timed(M)], [Timed(DD)]] && YEARS_MONTHS_DAYS[1..][1..] == [[Timed(DD)]];
    assert CALENDAR == [Year, MonthOfYear, DayOfMonth, HourOfDay, Minute, Second];
    assert Sortable({Year}) && Sortable({Year, MonthOfYear}) && Sortable({Year, MonthOfYear, DayOfMonth});
    assert Neat([[Timed(DD)]], {Year, MonthOfYear});
    assert Neat([[Timed(M)], [Timed(DD)]], {Year});
    assert M in Atoms([Timed(M)]) && Respellable([Timed(M)]);
    assert !RespelledLast([[Timed(M)], [Timed(DD)]], {Year}, 3);
  }

  /** Months rendered without a zero, above days: what is rendered comes in time order, but a tree
      that also holds a month spelled with one need not. */
  lemma TwoSpellingsDisorder()
    ensures RenderedInTimeOrder(YEARS_MONTHS_DAYS) && !AlwaysInTimeOrder(YEARS_MONTHS_DAYS)
  {
    hide RenderedInTimeOrder;
    hide AlwaysInTimeOrder;
    hide Neat;
    hide RespelledLast;
    YearsMonthsDaysValid();
    YearsMonthsDaysNeat();
    RenderedOrderExactly(YEARS_MONTHS_DAYS);
    TimeOrderExactly(YEARS_MONTHS_DAYS);
  }
}
