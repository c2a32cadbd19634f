/** Which of the folders the search finds some time renders: those without a number spelled with
    a zero that rendering leaves out. */
module Spellings {
  import opened Options
  import opened Calendar
  import opened Layouts
  import opened Units
  import opened Folders
  import opened Walk

  // ---------------------------------------------------------------- one text

  /** A number of variable width as it is rendered: without a zero before its last digit. */
  predicate Spelled(atom: Atom, text: string) {
    Variable(atom) && atom != MMMM && |text| == 2 ==> text[0] != '0'
  }

  lemma {:induction false} NumberPads(text: string)
    requires AllDigits(text)
    ensures Number(text) < Pow10(|text|) && Padded(Number(text), |text|) == text
  {
    if text != [] {
      var rest, last := text[..|text| - 1], text[|text| - 1];
      NumberPads(rest);
      DigitSpells(last);
      assert Number(text) / 10 == Number(rest) && Number(text) % 10 == DigitValue(last);
      assert rest + [last] == text;
    }
  }

  lemma DigitSpells(c: char)
    requires IsDigit(c)
    ensures DigitValue(c) < 10 && Digit(DigitValue(c)) == c
    ensures DigitValue(c) == 0 <==> c == '0'
  {
  }

  lemma TwoDigits(text: string)
    requires |text| == 2 && AllDigits(text)
    ensures Number(text) == 10 * DigitValue(text[0]) + DigitValue(text[1])
  {
    assert text[..1] == [text[0]] && [text[0]][..0] == [];
    assert Number([text[0]]) == DigitValue(text[0]);
  }

  lemma OneDigit(text: string)
    requires |text| == 1 && AllDigits(text)
    ensures Number(text) == DigitValue(text[0]) < 10
  {
    assert text[..0] == [];
  }

  lemma PlainSpells(text: string)
    requires 1 <= |text| <= 2 && AllDigits(text)
    ensures Number(text) < 100
    ensures Plain(Number(text)) == text <==> (|text| == 2 ==> text[0] != '0')
  {
    Powers();
    NumberPads(text);
    PaddedLength(Number(text), 1);
    hide Pow10;
    hide Number;
    hide Padded;
    if |text| == 1 {
      OneDigit(text);
    } else {
      TwoDigits(text);
      DigitSpells(text[0]);
      DigitSpells(text[1]);
    }
  }

  lemma {:induction false} PaddedLength(n: nat, width: nat)
    ensures |Padded(n, width)| == width
  {
    if width > 0 {
      PaddedLength(n / 10, width - 1);
    }
  }

  lemma {:induction false} IndexFinds(names: seq<string>, text: string)
    requires text in names
    ensures IndexOf(names, text) < |names| && names[IndexOf(names, text)] == text
  {
    if names[0] != text {
      IndexFinds(names[1..], text);
    }
  }

  lemma NameSpells(atom: Atom, text: string, c: Civil)
    requires Real(c) && atom in {MMM, MMMM, A} && Accepts(atom, text)
    requires Read(atom, text) == Value(c, FieldOf(atom))
    ensures text == Render(atom, c)
  {
    hide IndexOf;
    var names := if atom == MMM then SHORT_MONTHS else if atom == MMMM then LONG_MONTHS else MERIDIEMS;
    IndexFinds(names, text);
  }

  lemma WideSpells(atom: Atom, text: string, c: Civil)
    requires Real(c) && atom in {YYYY, DDD} && Accepts(atom, text) && Read(atom, text) == Value(c, FieldOf(atom))
    ensures text == Render(atom, c)
  {
    hide Padded;
    hide Number;
    hide DayOfYear;
    NumberPads(text);
  }

  lemma NumberSpells(atom: Atom, text: string, c: Civil)
    requires Real(c) && atom !in {MMM, MMMM, A, YYYY, DDD} && Accepts(atom, text)
    requires Read(atom, text) == Value(c, FieldOf(atom))
    ensures text == Render(atom, c) <==> Spelled(atom, text)
  {
    hide Render;
    hide Value;
    hide Number;
    hide Padded;
    hide Plain;
    hide AllDigits;
    hide Real;
    NumbersAre(atom, c);
    if Variable(atom) {
      PlainSpells(text);
    } else {
      NumberPads(text);
    }
  }

  /** A text that reads as a time's field is what the time renders exactly when it is spelled so. */
  lemma AtomSpells(atom: Atom, text: string, c: Civil)
    requires Real(c) && Accepts(atom, text) && Read(atom, text) == Value(c, FieldOf(atom))
    ensures text == Render(atom, c) <==> Spelled(atom, text)
  {
    hide Render;
    hide Read;
    hide Value;
    hide Real;
    hide Accepts;
    if atom in {MMM, MMMM, A} {
      NameSpells(atom, text, c);
    } else if atom in {YYYY, DDD} {
      WideSpells(atom, text, c);
    } else {
      NumberSpells(atom, text, c);
    }
  }

  // ---------------------------------------------------------------- one name

  predicate AllSpelled(atoms: seq<Atom>, texts: seq<string>) {
    |atoms| == |texts| && forall i :: 0 <= i < |atoms| ==> Spelled(atoms[i], texts[i])
  }

  ghost predicate AllAccepted(atoms: seq<Atom>, texts: seq<string>) {
    |atoms| == |texts| && forall i :: 0 <= i < |atoms| ==> Accepts(atoms[i], texts[i])
  }

  lemma {:induction false} FitsIsFilled(segment: Segment, name: string, texts: seq<string>)
    requires |texts| == |Atoms(segment)|
    ensures Fits(segment, name, texts) <==> AllAccepted(Atoms(segment), texts) && name == Filled(segment, texts)
    decreases |segment|
  {
    hide Accepts;
    if segment != [] {
      match segment[0]
      case Fixed(text) =>
        assert Atoms(segment) == [] + Atoms(segment[1..]) == Atoms(segment[1..]);
        if text <= name {
          FitsIsFilled(segment[1..], name[|text|..], texts);
          assert name == text + name[|text|..];
        }
      case Timed(atom) =>
        var atoms, rest := Atoms(segment), Atoms(segment[1..]);
        assert atoms == [atom] + rest;
        assert atoms[0] == atom && atoms[1..] == rest;
        assert texts == [texts[0]] + texts[1..];
        assert AllAccepted(atoms, texts) <==> Accepts(atom, texts[0]) && AllAccepted(rest, texts[1..]) by {
          AcceptedSplits(atoms, texts);
        }
        if texts[0] <= name {
          FitsIsFilled(segment[1..], name[|texts[0]|..], texts[1..]);
          assert name == texts[0] + name[|texts[0]|..];
        }
    }
  }

  lemma AcceptedSplits(atoms: seq<Atom>, texts: seq<string>)
    requires |atoms| == |texts| && atoms != []
    ensures AllAccepted(atoms, texts) <==> Accepts(atoms[0], texts[0]) && AllAccepted(atoms[1..], texts[1..])
  {
    hide Accepts;
    assert forall i :: 1 <= i < |atoms| ==> atoms[i] == atoms[1..][i - 1] && texts[i] == texts[1..][i - 1];
    assert forall i :: 0 <= i < |atoms| - 1 ==> atoms[1..][i] == atoms[i + 1] && texts[1..][i] == texts[i + 1];
  }

  /** Whether a name matches with every number spelled as it is rendered. */
  predicate NameSpelled(segment: Segment, name: string) {
    var texts := Match(segment, name);
    texts.Some? && AllSpelled(Atoms(segment), texts.value)
  }

  /** A name that reads as a time's fields is the one the time renders exactly when its numbers are
      spelled as they are rendered. */
  lemma NameRendersExactly(segment: Segment, name: string, texts: seq<string>, c: Civil)
    requires Real(c) && Readable(segment)
    requires Match(segment, name) == Some(texts) && ReadsAs(Atoms(segment), texts, c)
    ensures name == RenderSegment(segment, c) <==> NameSpelled(segment, name)
  {
    hide Match;
    hide Real;
    hide Render;
    hide Read;
    hide Value;
    hide Spelled;
    var atoms := Atoms(segment);
    MatchFits(segment, name);
    FitsCount(segment, name, texts);
    FitsIsFilled(segment, name, texts);
    RenderedReadsAs(atoms, c);
    forall i | 0 <= i < |atoms| ensures texts[i] == Render(atoms[i], c) <==> Spelled(atoms[i], texts[i]) {
      AtomSpells(atoms[i], texts[i], c);
    }
    MatchInvertsRender(segment, c);
    if AllSpelled(atoms, texts) {
      assert texts == RenderAtoms(atoms, c);
      RenderedFits(segment, c);
      FitsIsFilled(segment, RenderSegment(segment, c), texts);
    }
  }

  // ---------------------------------------------------------------- the day of the year, back again

  /** A day of a year counted to its month and day is the day of the year of that date. */
  lemma OrdinalDateCounts(year: nat, ordinal: nat)
    requires 1 <= year && 1 <= ordinal <= (if Leap(year) then 366 else 365)
    ensures var (month, day) := OrdinalDate(year, ordinal);
            && 1 <= month <= 12 && 1 <= day <= DaysInMonth(year, month)
            && DaysBeforeMonth(year, month) + day == ordinal
  {
    hide DaysBeforeMonth;
    hide DaysBeforeYear;
    hide Leap;
    hide DaysInMonth;
    var number := DaysBeforeYear(year) + ordinal - 1;
    var index := MonthOf(number);
    OrdinalYear(year, ordinal);
    hide MonthOf;
    var month := index % 12 + 1;
    assert index == 12 * year + month - 1 && index / 12 == year;
    MonthDayClosed(year, month);
    assert MonthDay(index + 1) == MonthDay(index) + MonthLength(index);
    hide MonthDay;
  }

  lemma OrdinalYear(year: nat, ordinal: nat)
    requires 1 <= year && 1 <= ordinal <= (if Leap(year) then 366 else 365)
    ensures var index := MonthOf(DaysBeforeYear(year) + ordinal - 1); 12 * year <= index < 12 * year + 12
  {
    hide DaysBeforeYear;
    hide Leap;
    hide MonthOf;
    var index := MonthOf(DaysBeforeYear(year) + ordinal - 1);
    MonthDayClosed(year, 1);
    MonthDayClosed(year + 1, 1);
    DaysInYear(year);
    hide MonthDay;
    if index < 12 * year {
      MonthsIncrease(index + 1, 12 * year);
    } else if 12 * year + 12 <= index {
      MonthsIncrease(12 * year + 12, index);
    }
  }

  /** A known day of a known year is the one its month and day are. */
  predicate OrdinalHolds(fields: Fields) {
    OrdinalDay in fields && Year in fields ==>
      && MonthOfYear in fields && DayOfMonth in fields && 1 <= fields[Year] <= 9999
      && 1 <= fields[OrdinalDay] <= (if Leap(fields[Year]) then 366 else 365)
      && OrdinalDate(fields[Year], fields[OrdinalDay]) == (fields[MonthOfYear], fields[DayOfMonth])
  }

  lemma NameHoldsOrdinal(segment: Segment, name: string, known: Fields)
    ensures var reading := ReadName(segment, name, known); reading.Merged? ==> OrdinalHolds(reading.fields)
  {
    hide Match;
    hide SetAll;
    hide MergeClock;
    hide OrdinalDate;
    hide Leap;
  }

  lemma {:induction false} ReachedHoldsOrdinal(layout: Layout, entry: Entry, known: Fields, path: seq<string>)
    requires OrdinalHolds(known)
    ensures var reached := Reached(layout, entry, known, path); reached.Some? ==> OrdinalHolds(reached.value)
    decreases |layout|
  {
    hide ReadName;
    hide OrdinalHolds;
    if layout != [] && Reached(layout, entry, known, path).Some? {
      NameHoldsOrdinal(layout[0], path[0], known);
      ReachedHoldsOrdinal(layout[1..], entry.entries[path[0]], ReadName(layout[0], path[0], known).fields, path[1..]);
    }
  }

  /** The fields of a found folder are those of the start of its period. */
  lemma StartAgrees(leaf: Fields)
    requires Real(StartOf(leaf)) && Year in leaf && Hour12 !in leaf && Meridiem !in leaf && OrdinalHolds(leaf)
    ensures Agrees(leaf, StartOf(leaf))
  {
    if OrdinalDay in leaf {
      OrdinalDateCounts(leaf[Year], leaf[OrdinalDay]);
      hide OrdinalDate;
    }
  }

  // ---------------------------------------------------------------- reading back

  lemma HalfRead(text: string)
    requires Accepts(A, text)
    ensures 1 <= Read(A, text) <= 2
  {
    IndexFinds(MERIDIEMS, text);
  }

  lemma HalvesBack(fields: Fields, c: Civil)
    requires Real(c) && Hour12 in fields && Meridiem in fields && 1 <= fields[Meridiem] <= 2
    requires MergeClock(fields).Merged? && MergeClock(fields).fields[HourOfDay] == c.hour
    ensures fields[Hour12] == Value(c, Hour12) && fields[Meridiem] == Value(c, Meridiem)
  {
  }

  /** When the fields a name leads to agree with a time, its texts read as the time's fields. */
  lemma NameReadsAs(segment: Segment, name: string, known: Fields, c: Civil)
    requires Real(c) && ReadName(segment, name, known).Merged? && Agrees(ReadName(segment, name, known).fields, c)
    requires Paired(FieldSet(Atoms(segment))) && Hour12 !in known && Meridiem !in known
    ensures Match(segment, name).Some? && ReadsAs(Atoms(segment), Match(segment, name).value, c)
  {
    hide Match;
    hide SetAll;
    hide Real;
    hide OrdinalDate;
    hide Fits;
    var texts, atoms := Match(segment, name).value, Atoms(segment);
    MatchFits(segment, name);
    FitsCount(segment, name, texts);
    FitsIsFilled(segment, name, texts);
    var all := SetAll(known, atoms, texts).fields;
    SetAllExactly(known, atoms, texts, all);
    ClockKeeps(all);
    OrdinalKeeps(MergeClock(all).fields);
    AllAgree(known, atoms, texts, all, ReadName(segment, name, known).fields, c);
  }

  lemma AllAgree(known: Fields, atoms: seq<Atom>, texts: seq<string>, all: Fields, fields: Fields, c: Civil)
    requires Real(c) && Joint(known, atoms, texts, all) && AllAccepted(atoms, texts) && Agrees(fields, c)
    requires Paired(FieldSet(atoms)) && Hour12 !in known && Meridiem !in known
    requires MergeClock(all).Merged? && Keeps(all, MergeClock(all).fields) && Keeps(MergeClock(all).fields, fields)
    ensures ReadsAs(atoms, texts, c)
  {
    hide Real;
    hide Accepts;
    hide Read;
    hide MergeClock;
    hide FieldOf;
    forall i | 0 <= i < |atoms| ensures Read(atoms[i], texts[i]) == Value(c, FieldOf(atoms[i])) {
      var field := FieldOf(atoms[i]);
      assert field in FieldSet(atoms);
      if field == Hour12 || field == Meridiem {
        ClockIsRead(atoms, texts, all, known);
        assert MergeClock(all).fields[HourOfDay] == c.hour by { ClockSetsHour(all); }
        HalvesBack(all, c);
      }
    }
  }

  lemma ClockSetsHour(all: Fields)
    requires Hour12 in all && Meridiem in all && MergeClock(all).Merged?
    ensures HourOfDay in MergeClock(all).fields
  {
  }

  lemma ClockIsRead(atoms: seq<Atom>, texts: seq<string>, all: Fields, known: Fields)
    requires Joint(known, atoms, texts, all) && AllAccepted(atoms, texts)
    requires Paired(FieldSet(atoms)) && (Hour12 in FieldSet(atoms) || Meridiem in FieldSet(atoms))
    ensures Hour12 in all && Meridiem in all && 1 <= all[Meridiem] <= 2
  {
    hide Accepts;
    hide Read;
    var atom :| atom in atoms && FieldOf(atom) == Meridiem;
    assert atom == A;
    var i :| 0 <= i < |atoms| && atoms[i] == atom;
    HalfRead(texts[i]);
  }

  // ---------------------------------------------------------------- whole paths

  /** Whether every name of a path is spelled as rendering would. */
  predicate PathSpelled(layout: Layout, path: seq<string>) {
    |path| == |layout| && forall i :: 0 <= i < |layout| ==> NameSpelled(layout[i], path[i])
  }

  lemma PathSplits(layout: Layout, path: seq<string>)
    requires |path| == |layout| > 0
    ensures PathSpelled(layout, path) <==> NameSpelled(layout[0], path[0]) && PathSpelled(layout[1..], path[1..])
  {
    hide NameSpelled;
    assert forall i :: 1 <= i < |layout| ==> layout[i] == layout[1..][i - 1] && path[i] == path[1..][i - 1];
    assert forall i :: 0 <= i < |layout| - 1 ==> layout[1..][i] == layout[i + 1] && path[1..][i] == path[i + 1];
  }

  lemma {:induction false} PathRendersExactly(layout: Layout, entry: Entry, known: Fields, path: seq<string>,
                                              c: Civil)
    requires Real(c) && ClockBeside(layout) && ReadableNames(layout) && Closed(known.Keys)
    requires Reached(layout, entry, known, path).Some? && Agrees(Reached(layout, entry, known, path).value, c)
    ensures |path| == |layout| && (path == RenderLayout(layout, c) <==> PathSpelled(layout, path))
    decreases |layout|
  {
    hide ReadName;
    hide Real;
    hide Value;
    hide NameSpelled;
    hide RenderSegment;
    hide KeysAfter;
    hide Closed;
    hide PathSpelled;
    if layout == [] {
      assert PathSpelled(layout, path) by { EmptyPathSpelled(); }
    } else {
      var child := entry.entries[path[0]];
      var fields := ReadName(layout[0], path[0], known).fields;
      NameKeeps(layout[0], path[0], known);
      ReachedKeeps(layout[1..], child, fields, path[1..]);
      StillClosed(layout, known.Keys);
      assert Agrees(fields, c) by { AgreesBefore(fields, Reached(layout, entry, known, path).value, c); }
      PathRendersExactly(layout[1..], child, fields, path[1..], c);
      assert Hour12 !in known && Meridiem !in known by { ClosedHasNoHalves(known.Keys); }
      NameReadsAs(layout[0], path[0], known, c);
      NameRendersExactly(layout[0], path[0], Match(layout[0], path[0]).value, c);
      PathSplits(layout, path);
      assert path == [path[0]] + path[1..];
      assert RenderLayout(layout, c) == [RenderSegment(layout[0], c)] + RenderLayout(layout[1..], c);
    }
  }

  lemma EmptyPathSpelled()
    ensures PathSpelled([], [])
  {
  }

  lemma ClosedHasNoHalves(keys: set<Field>)
    requires Closed(keys)
    ensures Hour12 !in keys && Meridiem !in keys
  {
  }

  lemma AgreesBefore(fields: Fields, leaf: Fields, c: Civil)
    requires Real(c) && Keeps(fields, leaf) && Agrees(leaf, c) && Closed(fields.Keys)
    ensures Agrees(fields, c)
  {
    hide Real;
    hide Value;
  }

  lemma StillClosed(layout: Layout, keys: set<Field>)
    requires layout != [] && ClockBeside(layout) && Closed(keys)
    ensures Closed(KeysAfter(keys, Atoms(layout[0]))) && ClockBeside(layout[1..])
  {
    CloseTwice(keys, FieldSet(Atoms(layout[0])), {});
    CloseIs(keys + FieldSet(Atoms(layout[0])));
  }

  /** A rendered path is spelled as rendering would. */
  lemma {:induction false} RenderedIsSpelled(layout: Layout, c: Civil)
    requires Real(c) && ReadableNames(layout)
    ensures PathSpelled(layout, RenderLayout(layout, c))
    decreases |layout|
  {
    hide Real;
    hide RenderSegment;
    hide NameSpelled;
    if layout != [] {
      RenderedIsSpelled(layout[1..], c);
      MatchInvertsRender(layout[0], c);
      RenderedReadsAs(Atoms(layout[0]), c);
      NameRendersExactly(layout[0], RenderSegment(layout[0], c), RenderAtoms(Atoms(layout[0]), c), c);
      assert RenderLayout(layout, c)[1..] == RenderLayout(layout[1..], c);
      PathSplits(layout, RenderLayout(layout, c));
    }
  }

  /** Of the folders the search finds, some time renders exactly those whose numbers are all spelled
      as rendering would. */
  lemma FoundIsRenderedExactly(layout: Layout, root: Entry, path: seq<string>, after: int, before: int)
    requires Valid(layout) && ReadableNames(layout) && layout != []
    requires Yields(layout, root, map[], path, after, before)
    ensures (exists c :: Real(c) && path == RenderLayout(layout, c)) <==> PathSpelled(layout, path)
  {
    hide Yields;
    hide Reached;
    hide PathSpelled;
    hide Gapless;
    hide Settled;
    hide RenderLayout;
    hide EndAfter;
    hide Seconds;
    hide Real;
    var none: Fields := map[];
    assert none.Keys == {};
    YieldedIsListed(layout, root, none, path, after, before);
    var leaf := Reached(layout, root, none, path).value;
    ReachedIsSettled(layout, root, path);
    ReachedHoldsOrdinal(layout, root, none, path);
    var c := LeafTime(layout, leaf, after, before);
    PathRendersExactly(layout, root, none, path, c);
    if other :| Real(other) && path == RenderLayout(layout, other) {
      RenderedIsSpelled(layout, other);
    }
  }

  /** A time whose fields a found folder's are. */
  lemma LeafTime(layout: Layout, leaf: Fields, after: int, before: int) returns (c: Civil)
    requires Valid(layout) && leaf.Keys == Settled(LayoutFields(layout)) && Gapless(leaf.Keys)
    requires OrdinalHolds(leaf) && Overlaps(PeriodOf(leaf), after, before)
    ensures Real(c) && Agrees(leaf, c)
  {
    if Year in leaf {
      c := StartOf(leaf);
      hide EndAfter;
      hide Seconds;
      hide OrdinalHolds;
      StartAgrees(leaf);
    } else {
      c := LAST;
      assert CALENDAR[0] == Year && CALENDAR[1] == MonthOfYear && CALENDAR[2] == DayOfMonth;
      assert CALENDAR[3] == HourOfDay && CALENDAR[4] == Minute && CALENDAR[5] == Second;
      assert MonthOfYear !in leaf && OrdinalDay !in leaf;
      assert DayOfMonth !in leaf && HourOfDay !in leaf && Minute !in leaf && Second !in leaf;
      assert Hour12 !in leaf && Meridiem !in leaf;
    }
  }

  // ---------------------------------------------------------------- numbers spelled wide

  /** What an atom renders, a number of variable width in two digits. */
  function Wide(atom: Atom, c: Civil): string
    requires Real(c)
  {
    if Variable(atom) && atom != MMMM then Padded(Value(c, FieldOf(atom)), 2) else Render(atom, c)
  }

  lemma WideReads(atom: Atom, c: Civil)
    requires Real(c)
    ensures TakenFirst(atom, Wide(atom, c)) && Read(atom, Wide(atom, c)) == Value(c, FieldOf(atom))
  {
    hide Render;
    hide Value;
    hide Padded;
    hide Number;
    hide AllDigits;
    hide IndexOf;
    RenderReads(atom, c);
    ValuesSmall(c, FieldOf(atom));
    hide Real;
    hide DayOfYear;
    Powers();
    hide Pow10;
    if Variable(atom) && atom != MMMM {
      PaddedIsDigits(Value(c, FieldOf(atom)), 2);
    }
  }

  function Wides(atoms: seq<Atom>, c: Civil): (texts: seq<string>)
    requires Real(c)
    ensures |texts| == |atoms| && forall i :: 0 <= i < |atoms| ==> texts[i] == Wide(atoms[i], c)
  {
    if atoms == [] then [] else [Wide(atoms[0], c)] + Wides(atoms[1..], c)
  }

  function WideName(segment: Segment, c: Civil): string
    requires Real(c)
  {
    Filled(segment, Wides(Atoms(segment), c))
  }

  /** A name with its numbers spelled wide reads as the same time, however many there are. */
  lemma WideNameReads(segment: Segment, c: Civil)
    requires Real(c)
    ensures Match(segment, WideName(segment, c)) == Some(Wides(Atoms(segment), c))
    ensures NameReadsTime(segment, WideName(segment, c), c)
  {
    hide Real;
    hide TakenFirst;
    hide Wide;
    hide Read;
    hide Value;
    hide Match;
    var atoms := Atoms(segment);
    forall i | 0 <= i < |atoms|
      ensures TakenFirst(atoms[i], Wides(atoms, c)[i]) &&
              Read(atoms[i], Wides(atoms, c)[i]) == Value(c, FieldOf(atoms[i]))
    {
      WideReads(atoms[i], c);
    }
    FilledMatches(segment, Wides(atoms, c));
  }

  const YEARS_AND_PLAIN_MONTHS: Layout := [[Timed(YYYY)], [Timed(M)]]

  const MAY: Civil := Civil(2024, 5, 1, 0, 0, 0)

  lemma MayNumbers()
    ensures Padded(2024, 4) == "2024" && Padded(5, 2) == "05"
  {
    assert Padded(0, 0) == "";
    hide Padded;
    PaddedStep(2, 1, "");
    PaddedStep(20, 2, "2");
    PaddedStep(202, 3, "20");
    PaddedStep(2024, 4, "202");
    PaddedStep(0, 1, "");
    PaddedStep(5, 2, "0");
  }

  lemma MayTexts()
    ensures Real(MAY) && Render(YYYY, MAY) == "2024" && Wide(M, MAY) == "05"
  {
    hide Padded;
    MayNumbers();
  }

  lemma MayNames()
    ensures Real(MAY) && NameReadsTime([Timed(YYYY)], "2024", MAY) && NameReadsTime([Timed(M)], "05", MAY)
    ensures Match([Timed(M)], "05") == Some(["05"])
  {
    MayTexts();
    hide Render;
    hide Wide;
    hide Padded;
    hide Match;
    hide NameReadsTime;
    assert RenderSegment([Timed(YYYY)], MAY) == "2024" + RenderSegment([], MAY) == "2024";
    assert Atoms([Timed(M)]) == [M] && Wides([M], MAY) == ["05"];
    assert Filled([Timed(M)], ["05"]) == "05" + Filled([], []) == "05";
    RenderedNameReads([Timed(YYYY)], MAY);
    WideNameReads([Timed(M)], MAY);
  }

  lemma YearsAndPlainMonths()
    ensures Valid(YEARS_AND_PLAIN_MONTHS) && ReadableNames(YEARS_AND_PLAIN_MONTHS) &&
            Finest(YEARS_AND_PLAIN_MONTHS) == 2
  {
    OneField(YYYY);
    OneField(M);
    assert Atoms([Timed(YYYY)]) == [YYYY] && Atoms([Timed(M)]) == [M];
    assert YEARS_AND_PLAIN_MONTHS[1..] == [[Timed(M)]];
    assert LayoutFields(YEARS_AND_PLAIN_MONTHS) == {Year, MonthOfYear};
    assert Settled({Year, MonthOfYear}) == {Year, MonthOfYear};
    assert CALENDAR == [Year, MonthOfYear, DayOfMonth, HourOfDay, Minute, Second];
    assert Readable([Timed(YYYY)]) && Readable([Timed(M)]);
  }

  /** Month 05 under a layout that renders month 5 is found in every range it meets, and no time
      renders it. */
  lemma UnrenderedIsFound(after: int, before: int)
    requires Overlaps(Between(UnitStart(MAY, 2), UnitEnd(MAY, 2)), after, before)
    ensures var root := Folder(map["2024" := Folder(map["05" := Folder(map[])])]);
            && Yields(YEARS_AND_PLAIN_MONTHS, root, map[], ["2024", "05"], after, before)
            && forall c :: Real(c) ==> RenderLayout(YEARS_AND_PLAIN_MONTHS, c) != ["2024", "05"]
  {
    hide RenderLayout;
    hide Yields;
    hide Spared;
    hide UnitStart;
    hide UnitEnd;
    hide Valid;
    hide Finest;
    hide ReadableNames;
    hide NameReadsTime;
    hide Match;
    var root, path := Folder(map["2024" := Folder(map["05" := Folder(map[])])]), ["2024", "05"];
    YearsAndPlainMonths();
    MayNames();
    EarlierYearsSpared(YEARS_AND_PLAIN_MONTHS, {}, MAY);
    assert path[1..] == ["05"] && ["05"][1..] == [];
    assert Present(root.entries["2024"].entries["05"], []);
    assert Present(root.entries["2024"], ["05"]);
    assert Present(root, path);
    assert PathReadsTime(YEARS_AND_PLAIN_MONTHS, path, MAY);
    PathFound(YEARS_AND_PLAIN_MONTHS, root, path, MAY, after, before);
    assert Atoms([Timed(M)]) == [M];
    assert !Spelled(M, "05");
    assert !NameSpelled(YEARS_AND_PLAIN_MONTHS[1], path[1]);
    FoundIsRenderedExactly(YEARS_AND_PLAIN_MONTHS, root, path, after, before);
  }
}
