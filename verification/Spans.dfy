/** How an export run's requested range meets the exporter's files. */
module Spans {
  import opened Options
  import opened Calendar

  /** A range of time, inclusive start and exclusive end, `None` for an open bound. */
  datatype Span = Span(after: Option<Moment>, before: Option<Moment>)

  datatype RangeMode = Expand | Exact | Shrink

  /** A file by all the time it stands for, and by as much of that as is asked for. */
  datatype FileSpan = FileSpan(whole: Span, selected: Span)

  predicate Holds(span: Span, moment: Moment) {
    && (span.after.None? || span.after.value <= moment)
    && (span.before.None? || moment < span.before.value)
  }

  function Min(a: Moment, b: Moment): Moment { if a <= b then a else b }
  function Max(a: Moment, b: Moment): Moment { if a <= b then b else a }

  /** What a request for `[after, before)` is widened or narrowed to, `None` when that leaves no time. */
  function EffectiveSpan(period: Period, mode: RangeMode, after: Moment, before: Moment): Option<Span> {
    if period == All then
      match mode
      case Expand => Some(Span(None, None))
      case Exact => Some(Span(Some(after), Some(before)))
      case Shrink => None
    else
      var first, last := PeriodStart(period, after), PeriodStart(period, before);
      PeriodHolds(period, after);
      PeriodHolds(period, before);
      match mode
      case Expand =>
        var end := if last == before then last else NextPeriod(period, last);
        Some(Span(Some(first), Some(end)))
      case Exact => Some(Span(Some(after), Some(before)))
      case Shrink =>
        var start := if first == after then first else NextPeriod(period, first);
        if start < last then Some(Span(Some(start), Some(last))) else None
  }

  /** A nonempty range of whole periods. */
  predicate WholePeriods(period: Period, start: Moment, end: Moment) {
    Aligned(period, start) && Aligned(period, end) && start < end
  }

  /** `expand` is the least range of whole periods containing the request. */
  lemma ExpandIsLeast(period: Period, after: Moment, before: Moment)
    requires period != All && after < before
    ensures var span := EffectiveSpan(period, Expand, after, before);
            && span.Some? && span.value.after.Some? && span.value.before.Some?
            && WholePeriods(period, span.value.after.value, span.value.before.value)
            && span.value.after.value <= after && before <= span.value.before.value
            && forall start: Moment, end: Moment ::
                 WholePeriods(period, start, end) && start <= after && before <= end ==>
                   start <= span.value.after.value && span.value.before.value <= end
  {
    PeriodHolds(period, after);
    PeriodHolds(period, before);
    var span := EffectiveSpan(period, Expand, after, before).value;
    forall start: Moment, end: Moment | WholePeriods(period, start, end) && start <= after && before <= end
      ensures start <= span.after.value && span.before.value <= end
    {
      PeriodMonotone(period, start, after);
      var last := PeriodStart(period, before);
      NoStartBetween(period, last, end);
    }
  }

  /** `shrink` is the greatest range of whole periods inside the request, and nothing precisely
      when no whole period fits. */
  lemma ShrinkIsGreatest(period: Period, after: Moment, before: Moment)
    requires period != All && after < before
    ensures var span := EffectiveSpan(period, Shrink, after, before);
            match span
            case Some(found) =>
              && found.after.Some? && found.before.Some?
              && WholePeriods(period, found.after.value, found.before.value)
              && after <= found.after.value && found.before.value <= before
              && forall start: Moment, end: Moment ::
                   WholePeriods(period, start, end) && after <= start && end <= before ==>
                     found.after.value <= start && end <= found.before.value
            case None =>
              !exists start: Moment, end: Moment ::
                WholePeriods(period, start, end) && after <= start && end <= before
  {
    PeriodHolds(period, after);
    PeriodHolds(period, before);
    var first, last := PeriodStart(period, after), PeriodStart(period, before);
    var from := if first == after then first else NextPeriod(period, first);
    forall start: Moment, end: Moment | WholePeriods(period, start, end) && after <= start && end <= before
      ensures from <= start && end <= last
    {
      NoStartBetween(period, first, start);
      PeriodMonotone(period, end, before);
    }
  }

  // ---------------------------------------------------------------- the files of a span

  function FileOf(period: Period, start: Moment, after: Moment, before: Moment): FileSpan
    requires period != All && Aligned(period, start)
  {
    var end := NextPeriod(period, start);
    FileSpan(Span(Some(start), Some(end)), Span(Some(Max(start, after)), Some(Min(end, before))))
  }

  function FilesFrom(period: Period, start: Moment, after: Moment, before: Moment): (files: seq<FileSpan>)
    requires period != All && Aligned(period, start)
    decreases before - start
  {
    if start < before then
      NextIsLater(period, start);
      [FileOf(period, start, after, before)] + FilesFrom(period, NextPeriod(period, start), after, before)
    else []
  }

  /** Each file a span touches, in time order. */
  function SpanFiles(period: Period, span: Span): seq<FileSpan> {
    if period == All || span.after.None? || span.before.None? then
      [FileSpan(Span(None, None), span)]
    else
      PeriodHolds(period, span.after.value);
      FilesFrom(period, PeriodStart(period, span.after.value), span.after.value, span.before.value)
  }

  lemma NextFile(period: Period, start: Moment, after: Moment, before: Moment)
    requires period != All && Aligned(period, start) && start < before
    ensures start < NextPeriod(period, start) && Aligned(period, NextPeriod(period, start))
    ensures FilesFrom(period, start, after, before)
              == [FileOf(period, start, after, before)] + FilesFrom(period, NextPeriod(period, start), after, before)
  {
    NextIsLater(period, start);
    hide NextPeriod;
  }

  /** The generator loop that yields the files, collected. */
  method CollectFiles(period: Period, span: Span) returns (files: seq<FileSpan>)
    ensures files == SpanFiles(period, span)
  {
    if period == All || span.after.None? || span.before.None? {
      return [FileSpan(Span(None, None), span)];
    }
    var after, before := span.after.value, span.before.value;
    PeriodHolds(period, after);
    var start := PeriodStart(period, after);
    files := [];
    assert SpanFiles(period, span) == files + FilesFrom(period, start, after, before);
    hide SpanFiles;
    hide FilesFrom;
    hide Aligned;
    hide NextPeriod;
    hide PeriodStart;
    while start < before
      invariant Aligned(period, start)
      invariant SpanFiles(period, span) == files + FilesFrom(period, start, after, before)
      decreases before as int - start as int
    {
      NextFile(period, start, after, before);
      var end := NextPeriod(period, start);
      files := files + [FileSpan(Span(Some(start), Some(end)), Span(Some(Max(start, after)), Some(Min(end, before))))];
      start := end;
    }
    assert FilesFrom(period, start, after, before) == [] by { NoFile(period, start, after, before); }
  }

  lemma NoFile(period: Period, start: Moment, after: Moment, before: Moment)
    requires period != All && Aligned(period, start) && before <= start
    ensures FilesFrom(period, start, after, before) == []
  {
  }

  /** The selected parts of `files` run from `after` to `before` without gap or overlap, each
      inside a whole period of its own. */
  ghost predicate Tiles(period: Period, files: seq<FileSpan>, after: Moment, before: Moment) {
    && |files| > 0
    && (forall i :: 0 <= i < |files| ==> Bounded(period, files[i]))
    && files[0].selected.after.value == after
    && files[|files| - 1].selected.before.value == before
    && (forall i :: 0 <= i < |files| - 1 ==> Joined(files[i], files[i + 1]))
  }

  ghost predicate Bounded(period: Period, file: FileSpan) {
    && file.whole.after.Some? && file.whole.before.Some?
    && file.selected.after.Some? && file.selected.before.Some?
    && period != All
    && Aligned(period, file.whole.after.value)
    && file.whole.before.value == NextPeriod(period, file.whole.after.value)
    && file.whole.after.value <= file.selected.after.value < file.selected.before.value <= file.whole.before.value
  }

  /** One file ends where the next starts, in whole and in what is selected. */
  ghost predicate Joined(file: FileSpan, next: FileSpan) {
    && file.whole.before == next.whole.after
    && file.selected.before == next.selected.after == file.whole.before
  }

  lemma FileOfBounded(period: Period, start: Moment, after: Moment, before: Moment)
    requires period != All && Aligned(period, start)
    requires start < before && after < before && after < NextPeriod(period, start)
    ensures Bounded(period, FileOf(period, start, after, before))
  {
    NextIsLater(period, start);
  }

  lemma {:induction false} FilesFromTile(period: Period, start: Moment, after: Moment, before: Moment)
    requires period != All && Aligned(period, start)
    requires start < before && after < before && after < NextPeriod(period, start)
    ensures Tiles(period, FilesFrom(period, start, after, before), Max(start, after), before)
    ensures FilesFrom(period, start, after, before)[0] == FileOf(period, start, after, before)
    decreases before - start
  {
    hide Aligned;
    hide NextPeriod;
    NextIsLater(period, start);
    FileOfBounded(period, start, after, before);
    var next := NextPeriod(period, start);
    var files := FilesFrom(period, start, after, before);
    if next < before {
      NextIsLater(period, next);
      FilesFromTile(period, next, after, before);
      TilesExtend(period, FileOf(period, start, after, before), FilesFrom(period, next, after, before), next, before);
    } else {
      assert FilesFrom(period, next, after, before) == [];
      assert files == [FileOf(period, start, after, before)];
    }
  }

  lemma TilesExtend(period: Period, file: FileSpan, rest: seq<FileSpan>, middle: Moment, before: Moment)
    requires Bounded(period, file) && Tiles(period, rest, middle, before) && Joined(file, rest[0])
    ensures Tiles(period, [file] + rest, file.selected.after.value, before)
  {
    var files := [file] + rest;
    forall i | 0 <= i < |files| ensures Bounded(period, files[i]) {
      if i > 0 {
        assert Bounded(period, rest[i - 1]);
      }
    }
    forall i | 0 <= i < |files| - 1 ensures Joined(files[i], files[i + 1]) {
      if i > 0 {
        assert Joined(rest[i - 1], rest[i]);
      }
    }
  }

  /** The files of a closed span tile it. */
  lemma SpanFilesTile(period: Period, after: Moment, before: Moment)
    requires period != All && after < before
    ensures Tiles(period, SpanFiles(period, Span(Some(after), Some(before))), after, before)
  {
    PeriodHolds(period, after);
    FilesFromTile(period, PeriodStart(period, after), after, before);
  }

  lemma {:induction false} TilesAreOrdered(period: Period, files: seq<FileSpan>, after: Moment, before: Moment,
                                           i: nat, j: nat)
    requires Tiles(period, files, after, before) && i < j < |files|
    ensures files[i].selected.before.value <= files[j].selected.after.value
    ensures files[i].whole.before.value <= files[j].whole.after.value
    decreases j
  {
    assert Joined(files[j - 1], files[j]);
    assert Bounded(period, files[j - 1]);
    if i < j - 1 {
      TilesAreOrdered(period, files, after, before, i, j - 1);
    }
  }

  lemma {:induction false} TileHolding(period: Period, files: seq<FileSpan>, after: Moment, before: Moment,
                                       moment: Moment)
    returns (i: nat)
    requires Tiles(period, files, after, before) && after <= moment < before
    ensures i < |files| && Holds(files[i].selected, moment)
  {
    i := |files| - 1;
    while !Holds(files[i].selected, moment)
      invariant 0 <= i < |files| && moment < files[i].selected.before.value
      decreases i
    {
      assert Bounded(period, files[i]);
      if i > 0 {
        assert Joined(files[i - 1], files[i]);
      }
      i := i - 1;
    }
  }

  /** Every moment of a span lies in the selected part of exactly one of its files, and no file
      selects a moment outside the span. */
  lemma SelectedExactlyOnce(period: Period, after: Moment, before: Moment, moment: Moment)
    requires period != All && after < before
    ensures var files := SpanFiles(period, Span(Some(after), Some(before)));
            && (after <= moment < before <==>
                 exists i :: 0 <= i < |files| && Holds(files[i].selected, moment))
            && forall i, j | 0 <= i < |files| && 0 <= j < |files| ::
                 Holds(files[i].selected, moment) && Holds(files[j].selected, moment) ==> i == j
  {
    hide SpanFiles;
    hide NextPeriod;
    hide Aligned;
    SpanFilesTile(period, after, before);
    var files := SpanFiles(period, Span(Some(after), Some(before)));
    if after <= moment < before {
      var i := TileHolding(period, files, after, before, moment);
    }
    forall i | 0 <= i < |files| && Holds(files[i].selected, moment)
      ensures after <= moment < before
    {
      assert Bounded(period, files[i]);
      if 0 < i {
        TilesAreOrdered(period, files, after, before, 0, i);
        assert Bounded(period, files[0]);
      }
      if i < |files| - 1 {
        TilesAreOrdered(period, files, after, before, i, |files| - 1);
        assert Bounded(period, files[|files| - 1]);
      }
    }
    forall i, j | 0 <= i < |files| && 0 <= j < |files|
      && Holds(files[i].selected, moment) && Holds(files[j].selected, moment)
      ensures i == j
    {
      if i < j {
        TilesAreOrdered(period, files, after, before, i, j);
      } else if j < i {
        TilesAreOrdered(period, files, after, before, j, i);
      }
    }
  }

  lemma WholePeriodsTakeWholeFiles(period: Period, after: Moment, before: Moment, i: nat)
    requires period != All && WholePeriods(period, after, before)
    requires i < |SpanFiles(period, Span(Some(after), Some(before)))|
    ensures var file := SpanFiles(period, Span(Some(after), Some(before)))[i];
            file.whole == file.selected
  {
    hide NextPeriod;
    hide PeriodStart;
    PeriodHolds(period, after);
    SpanFilesTile(period, after, before);
    FilesFromTile(period, after, after, before);
    var files := SpanFiles(period, Span(Some(after), Some(before)));
    assert Bounded(period, files[i]);
    if i > 0 {
      assert Joined(files[i - 1], files[i]);
    }
    NoStartBetween(period, files[i].whole.after.value, before);
    if i < |files| - 1 {
      assert Joined(files[i], files[i + 1]);
    }
  }

  /** Under `expand` and `shrink` a run only ever takes whole files. */
  lemma AlignedModesTakeWholeFiles(period: Period, mode: RangeMode, after: Moment, before: Moment, i: nat)
    requires after < before && mode != Exact
    requires EffectiveSpan(period, mode, after, before).Some?
    requires i < |SpanFiles(period, EffectiveSpan(period, mode, after, before).value)|
    ensures var file := SpanFiles(period, EffectiveSpan(period, mode, after, before).value)[i];
            file.whole == file.selected
  {
    hide SpanFiles;
    var span := EffectiveSpan(period, mode, after, before).value;
    if period == All {
      assert SpanFiles(period, span) == [FileSpan(Span(None, None), span)] by {
        WholeFileOfAll(span);
      }
    } else {
      assert span.after.Some? && span.before.Some? && WholePeriods(period, span.after.value, span.before.value) by {
        ExpandIsLeast(period, after, before);
        ShrinkIsGreatest(period, after, before);
      }
      assert span == Span(Some(span.after.value), Some(span.before.value));
      WholePeriodsTakeWholeFiles(period, span.after.value, span.before.value, i);
    }
  }

  /** A range kept exact splits no file but the ones at its ends. */
  lemma OnlyEndsArePartial(period: Period, after: Moment, before: Moment, i: nat)
    requires period != All && after < before
    requires 0 < i < |SpanFiles(period, Span(Some(after), Some(before)))| - 1
    ensures var file := SpanFiles(period, Span(Some(after), Some(before)))[i];
            file.whole == file.selected
  {
    hide SpanFiles;
    SpanFilesTile(period, after, before);
    var files := SpanFiles(period, Span(Some(after), Some(before)));
    assert Joined(files[i - 1], files[i]) && Joined(files[i], files[i + 1]);
  }

  lemma WholeFileOfAll(span: Span)
    ensures SpanFiles(All, span) == [FileSpan(Span(None, None), span)]
  {
  }

  // ---------------------------------------------------------------- what a request selects

  /** What a request comes to: the files its mode leaves, none where no whole period fits. */
  function RunSpans(period: Period, mode: RangeMode, after: Moment, before: Moment): seq<FileSpan> {
    var span := EffectiveSpan(period, mode, after, before);
    if span.None? then [] else SpanFiles(period, span.value)
  }

  predicate SamePeriod(period: Period, a: Moment, b: Moment) {
    PeriodStart(period, a) == PeriodStart(period, b)
  }

  /** The moments a request asks for: its own, all of the periods it touches, or those of the
      periods it contains. */
  ghost predicate Asked(period: Period, mode: RangeMode, after: Moment, before: Moment, moment: Moment) {
    match mode
    case Exact => after <= moment < before
    case Expand => exists t: Moment :: after <= t < before && SamePeriod(period, t, moment)
    case Shrink => forall t: Moment :: SamePeriod(period, t, moment) ==> after <= t < before
  }

  /** The period holding a moment, its bounds and what lies between. */
  lemma OwnPeriod(period: Period, moment: Moment)
    requires period != All
    ensures var start := PeriodStart(period, moment);
            && Aligned(period, start) && Aligned(period, NextPeriod(period, start))
            && start <= moment < NextPeriod(period, start)
            && forall t: Moment :: SamePeriod(period, t, moment) <==> start <= t < NextPeriod(period, start)
  {
    var start := PeriodStart(period, moment);
    PeriodHolds(period, moment);
    hide PeriodStart;
    hide NextPeriod;
    forall t: Moment ensures SamePeriod(period, t, moment) <==> start <= t < NextPeriod(period, start) {
      InPeriod(period, start, t);
    }
  }

  lemma ExpandAsks(period: Period, after: Moment, before: Moment, moment: Moment)
    requires period != All && after < before
    ensures var span := EffectiveSpan(period, Expand, after, before);
            span.Some? && (Holds(span.value, moment) <==> Asked(period, Expand, after, before, moment))
  {
    ExpandIsLeast(period, after, before);
    var span := EffectiveSpan(period, Expand, after, before).value;
    var start, end := span.after.value, span.before.value;
    OwnPeriod(period, moment);
    var own := PeriodStart(period, moment);
    var next := NextPeriod(period, own);
    hide EffectiveSpan;
    if Holds(span, moment) {
      PeriodMonotone(period, start, moment);
      var from, until := PeriodStart(period, after), PeriodStart(period, before);
      LeastMeets(period, after, before, start, end, own);
      assert SamePeriod(period, if own <= after then after else own, moment);
    }
    if t: Moment :| after <= t < before && SamePeriod(period, t, moment) {
      PeriodMonotone(period, start, t);
      NoStartBetween(period, own, end);
    }
  }

  /** A period inside the least whole periods around a request shares a moment with the request. */
  lemma LeastMeets(period: Period, after: Moment, before: Moment, start: Moment, end: Moment, own: Moment)
    requires period != All && after < before && Aligned(period, own) && start <= own < end
    requires WholePeriods(period, start, end) && start <= after && before <= end
    requires forall s: Moment, e: Moment ::
               WholePeriods(period, s, e) && s <= after && before <= e ==> s <= start && end <= e
    ensures own < before && after < NextPeriod(period, own)
  {
    NextIsLater(period, own);
    var next := NextPeriod(period, own);
    if own >= before {
      PeriodHolds(period, after);
      PeriodMonotone(period, start, after);
      assert start < own;
      assert WholePeriods(period, start, own);
    }
    if after >= next {
      NoStartBetween(period, own, end);
      assert WholePeriods(period, next, end);
    }
  }

  lemma ShrinkAsks(period: Period, after: Moment, before: Moment, moment: Moment)
    requires period != All && after < before
    ensures var span := EffectiveSpan(period, Shrink, after, before);
            span.Some? && Holds(span.value, moment) <==> Asked(period, Shrink, after, before, moment)
  {
    ShrinkIsGreatest(period, after, before);
    var span := EffectiveSpan(period, Shrink, after, before);
    OwnPeriod(period, moment);
    var own := PeriodStart(period, moment);
    var next := NextPeriod(period, own);
    hide EffectiveSpan;
    hide PeriodStart;
    hide NextPeriod;
    if span.Some? && Holds(span.value, moment) {
      PeriodMonotone(period, span.value.after.value, moment);
      NoStartBetween(period, own, span.value.before.value);
    }
    if Asked(period, Shrink, after, before, moment) {
      assert SamePeriod(period, own, moment) && SamePeriod(period, (next - 1) as Moment, moment);
      assert WholePeriods(period, own, next);
    }
  }

  lemma EffectiveSpanAsks(period: Period, mode: RangeMode, after: Moment, before: Moment, moment: Moment)
    requires after < before
    ensures var span := EffectiveSpan(period, mode, after, before);
            span.Some? && Holds(span.value, moment) <==> Asked(period, mode, after, before, moment)
  {
    if mode != Exact {
      if period == All {
        assert SamePeriod(period, after, moment) && SamePeriod(period, before, moment);
      } else {
        ExpandAsks(period, after, before, moment);
        ShrinkAsks(period, after, before, moment);
      }
    }
  }

  lemma FilesStandForPeriods(period: Period, after: Moment, before: Moment, moment: Moment)
    requires period != All && after < before
    ensures var files := SpanFiles(period, Span(Some(after), Some(before)));
            forall i, t: Moment | 0 <= i < |files| && Holds(files[i].selected, moment) ::
              Holds(files[i].whole, t) <==> SamePeriod(period, t, moment)
  {
    SpanFilesTile(period, after, before);
    hide SpanFiles;
    hide NextPeriod;
    var files := SpanFiles(period, Span(Some(after), Some(before)));
    forall i, t: Moment | 0 <= i < |files| && Holds(files[i].selected, moment)
      ensures Holds(files[i].whole, t) <==> SamePeriod(period, t, moment)
    {
      assert Bounded(period, files[i]);
      InPeriod(period, files[i].whole.after.value, t);
      InPeriod(period, files[i].whole.after.value, moment);
    }
  }

  /** Under every mode a run's files select exactly the moments the request asks for, each in one
      file only, and that file stands for the moment's whole period. */
  lemma RunSelectsExactly(period: Period, mode: RangeMode, after: Moment, before: Moment, moment: Moment)
    requires after < before
    ensures var files := RunSpans(period, mode, after, before);
            && (Asked(period, mode, after, before, moment) <==>
                  exists i :: 0 <= i < |files| && Holds(files[i].selected, moment))
            && (forall i, j | 0 <= i < |files| && 0 <= j < |files| ::
                  Holds(files[i].selected, moment) && Holds(files[j].selected, moment) ==> i == j)
            && (forall i, t: Moment | 0 <= i < |files| && Holds(files[i].selected, moment) ::
                  Holds(files[i].whole, t) <==> SamePeriod(period, t, moment))
  {
    EffectiveSpanAsks(period, mode, after, before, moment);
    hide Asked;
    var span := EffectiveSpan(period, mode, after, before);
    var files := RunSpans(period, mode, after, before);
    if span.Some? {
      assert files == SpanFiles(period, span.value);
      if period == All {
        WholeFileOfAll(span.value);
        hide EffectiveSpan;
        hide SpanFiles;
        assert files[0].selected == span.value;
      } else {
        EffectiveIsClosed(period, mode, after, before);
        hide EffectiveSpan;
        hide SpanFiles;
        hide RunSpans;
        SelectedExactlyOnce(period, span.value.after.value, span.value.before.value, moment);
        FilesStandForPeriods(period, span.value.after.value, span.value.before.value, moment);
      }
    }
  }

  lemma EffectiveIsClosed(period: Period, mode: RangeMode, after: Moment, before: Moment)
    requires period != All && after < before && EffectiveSpan(period, mode, after, before).Some?
    ensures var span := EffectiveSpan(period, mode, after, before).value;
            span.after.Some? && span.before.Some? && span.after.value < span.before.value
            && span == Span(Some(span.after.value), Some(span.before.value))
  {
    ExpandIsLeast(period, after, before);
    ShrinkIsGreatest(period, after, before);
  }
}
