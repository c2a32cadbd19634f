/** When the folder search meets the error it does not catch: a day of the year 0. */
module Raising {
  import opened Options
  import opened Layouts
  import opened Folders
  import opened Walk

  // ---------------------------------------------------------------- one name

  lemma {:induction false} SetAllNeverRaises(known: Fields, atoms: seq<Atom>, texts: seq<string>)
    requires |atoms| == |texts|
    ensures !SetAll(known, atoms, texts).Raises?
    decreases |atoms|
  {
    if atoms != [] {
      match SetDefault(known, FieldOf(atoms[0]), Read(atoms[0], texts[0]))
      case Merged(fields) => SetAllNeverRaises(fields, atoms[1..], texts[1..]);
      case _ =>
    }
  }

  /** Whether fields settle the year 0 and a day of it. */
  predicate YearZero(fields: Fields) {
    OrdinalDay in fields && Year in fields && fields[Year] == 0
  }

  /** An hour in two halves, if there is one, is an hour and the one known. */
  predicate ClockAgreed(fields: Fields) {
    Hour12 in fields && Meridiem in fields ==>
      && 1 <= fields[Hour12] <= 12
      && (HourOfDay in fields ==>
            fields[HourOfDay] == fields[Hour12] % 12 + 12 * if fields[Meridiem] == 0 then 0 else fields[Meridiem] - 1)
  }

  /** A name raises exactly when it matches, disagrees with nothing known, and settles a day of the
      year and the year 0, whatever is known already. */
  lemma RaisesExactly(segment: Segment, name: string, known: Fields)
    ensures ReadName(segment, name, known).Raises? <==>
            exists texts, all :: Match(segment, name) == Some(texts) && Joint(known, Atoms(segment), texts, all)
                                 && ClockAgreed(all) && YearZero(all)
  {
    hide Match;
    hide SetAll;
    hide OrdinalDate;
    hide Joint;
    var matched := Match(segment, name);
    if matched.Some? {
      var texts := matched.value;
      MatchFits(segment, name);
      FitsCount(segment, name, texts);
      SetAllNeverRaises(known, Atoms(segment), texts);
      forall all ensures SetAll(known, Atoms(segment), texts) == Merged(all) <==>
        Joint(known, Atoms(segment), texts, all) {
        SetAllExactly(known, Atoms(segment), texts, all);
      }
    }
  }

  // ---------------------------------------------------------------- names of the year 0

  /** A value for each field that any name can be made to read, the year 0 among them. */
  function SampleValue(field: Field): nat {
    match field
    case Year => 0
    case Meridiem => 1
    case OrdinalDay => 284
    case _ => 10
  }

  function Sample(atom: Atom): string {
    match atom
    case YYYY => "0000"
    case DDD => "284"
    case MMM => "Oct"
    case MMMM => "October"
    case A => "AM"
    case _ => "10"
  }

  lemma SampleNumbers()
    ensures Number("0000") == 0 && Number("284") == 284 && Number("10") == 10
  {
    assert Number("0") == 10 * Number("") + 0 == 0;
    assert "00"[..1] == "0" && "000"[..2] == "00" && "0000"[..3] == "000";
    assert Number("00") == 0;
    assert Number("000") == 0;
    assert "2"[..0] == "" && Number("2") == 2;
    assert "28"[..1] == "2" && Number("28") == 28;
    assert "284"[..2] == "28" && Number("284") == 284;
    assert "1"[..0] == "" && Number("1") == 1;
    assert "10"[..1] == "1";
  }

  lemma ShortSample()
    ensures "Oct" in SHORT_MONTHS && Read(MMM, "Oct") == 10
  {
    hide IndexOf;
    assert SHORT_MONTHS[9] == "Oct";
    ShortMonthsDiffer();
    IndexReads(SHORT_MONTHS, 9);
  }

  lemma LongSample()
    ensures "October" in LONG_MONTHS && Read(MMMM, "October") == 10
  {
    hide IndexOf;
    assert LONG_MONTHS[9] == "October";
    LongMonthsDiffer();
    IndexReads(LONG_MONTHS, 9);
  }

  lemma HalfSample()
    ensures "AM" in MERIDIEMS && Read(A, "AM") == 1
  {
    assert MERIDIEMS[0] == "AM";
  }

  lemma SampleReads(atom: Atom)
    ensures TakenFirst(atom, Sample(atom)) && Read(atom, Sample(atom)) == SampleValue(FieldOf(atom))
  {
    hide Number;
    hide IndexOf;
    if atom == MMM {
      ShortSample();
    } else if atom == MMMM {
      LongSample();
    } else if atom == A {
      HalfSample();
    } else {
      SampleNumbers();
    }
  }

  function Samples(atoms: seq<Atom>): (texts: seq<string>)
    ensures |texts| == |atoms| && forall i :: 0 <= i < |atoms| ==> texts[i] == Sample(atoms[i])
  {
    if atoms == [] then [] else [Sample(atoms[0])] + Samples(atoms[1..])
  }

  function SampleName(segment: Segment): string {
    Filled(segment, Samples(Atoms(segment)))
  }

  function SampleNames(layout: Layout): seq<string> {
    if layout == [] then [] else [SampleName(layout[0])] + SampleNames(layout[1..])
  }

  predicate Sampled(fields: Fields) {
    forall f :: f in fields ==> fields[f] == SampleValue(f)
  }

  lemma SampleNameMatches(segment: Segment)
    ensures Match(segment, SampleName(segment)) == Some(Samples(Atoms(segment)))
  {
    hide TakenFirst;
    hide Sample;
    var atoms := Atoms(segment);
    forall i | 0 <= i < |atoms| ensures TakenFirst(atoms[i], Samples(atoms)[i]) {
      SampleReads(atoms[i]);
    }
    FilledMatches(segment, Samples(atoms));
  }

  lemma SamplesSet(known: Fields, atoms: seq<Atom>)
    requires Sampled(known)
    ensures var setting := SetAll(known, atoms, Samples(atoms));
            setting.Merged? && Sampled(setting.fields) && setting.fields.Keys == known.Keys + FieldSet(atoms)
  {
    hide Sample;
    hide Read;
    hide SampleValue;
    hide FieldOf;
    var all := map f | f in known.Keys + FieldSet(atoms) :: SampleValue(f);
    forall i | 0 <= i < |atoms|
      ensures FieldOf(atoms[i]) in all && all[FieldOf(atoms[i])] == Read(atoms[i], Samples(atoms)[i])
    {
      SampleReads(atoms[i]);
    }
    SetAllExactly(known, atoms, Samples(atoms), all);
  }

  /** The fields a name has settled before a day of the year is counted. */
  function SettledBefore(keys: set<Field>, atoms: seq<Atom>): set<Field> {
    ClockKeys(keys + FieldSet(atoms))
  }

  lemma SampleClock(fields: Fields)
    requires Sampled(fields)
    ensures var merging := MergeClock(fields);
            merging.Merged? && Sampled(merging.fields) && merging.fields.Keys == ClockKeys(fields.Keys)
  {
  }

  /** Among sampled fields a name raises exactly when it brings year and day of the year together. */
  lemma SampleNameReads(segment: Segment, known: Fields)
    requires Sampled(known)
    ensures var reading := ReadName(segment, SampleName(segment), known);
            if {Year, OrdinalDay} <= SettledBefore(known.Keys, Atoms(segment)) then reading.Raises?
            else
              && reading.Merged? && Sampled(reading.fields)
              && reading.fields.Keys == KeysAfter(known.Keys, Atoms(segment))
  {
    hide SetAll;
    hide Match;
    hide OrdinalDate;
    hide FieldSet;
    SampleNameMatches(segment);
    SamplesSet(known, Atoms(segment));
    SampleClock(SetAll(known, Atoms(segment), Samples(Atoms(segment))).fields);
  }

  // ---------------------------------------------------------------- layouts that raise

  /** Whether some level brings year and day of the year together, and no level above it already
      names a period, which for the year 0 is none the search goes into. */
  predicate BringsTogether(layout: Layout, keys: set<Field>) {
    layout != []
    && ({Year, OrdinalDay} <= SettledBefore(keys, Atoms(layout[0])) ||
        var more := KeysAfter(keys, Atoms(layout[0]));
        !(Year in more && Gapless(more)) && BringsTogether(layout[1..], more))
  }

  lemma SampledPeriod(fields: Fields, after: int, before: int)
    requires Sampled(fields)
    ensures !(Year in fields && Gapless(fields.Keys)) ==> Overlaps(PeriodOf(fields), after, before)
  {
  }

  lemma {:induction false} SampleTreeTrips(layout: Layout, known: Fields, after: int, before: int)
    requires Sampled(known) && BringsTogether(layout, known.Keys)
    ensures Trips(layout, Nested(SampleNames(layout)), known, after, before)
    decreases |layout|
  {
    hide ReadName;
    hide KeysAfter;
    hide SettledBefore;
    hide Gapless;
    hide Overlaps;
    hide PeriodOf;
    hide Sampled;
    var name, root := SampleName(layout[0]), Nested(SampleNames(layout));
    assert SampleNames(layout)[1..] == SampleNames(layout[1..]);
    assert name in root.entries && root.entries[name] == Nested(SampleNames(layout[1..]));
    SampleNameReads(layout[0], known);
    var reading := ReadName(layout[0], name, known);
    if !reading.Raises? {
      SampledPeriod(reading.fields, after, before);
      SampleTreeTrips(layout[1..], reading.fields, after, before);
      assert TripsBelow(layout, root.entries[name], Opened(layout[0], name, root.entries[name], known, after, before),
                        after, before);
    }
  }

  lemma RaisesTogether(segment: Segment, name: string, known: Fields)
    requires ReadName(segment, name, known).Raises?
    ensures {Year, OrdinalDay} <= SettledBefore(known.Keys, Atoms(segment))
    ensures Year in known ==> known[Year] == 0
  {
    hide Match;
    hide FieldSet;
    RaisesExactly(segment, name, known);
    var texts, all :| Match(segment, name) == Some(texts) && Joint(known, Atoms(segment), texts, all)
                      && ClockAgreed(all) && YearZero(all);
  }

  lemma PeriodHasYear(fields: Fields, after: int, before: int)
    requires Year in fields && Gapless(fields.Keys) && Overlaps(PeriodOf(fields), after, before)
    ensures fields[Year] != 0
  {
    hide Gapless;
    hide EndAfter;
    hide Seconds;
  }

  /** A search raises only below folders that leave the year open or give it as 0. */
  lemma {:induction false} TripsTogether(layout: Layout, entry: Entry, known: Fields, after: int, before: int)
    requires Trips(layout, entry, known, after, before)
    ensures BringsTogether(layout, known.Keys)
    ensures Year in known ==> known[Year] == 0
    decreases |layout|
  {
    hide ReadName;
    hide Overlaps;
    hide PeriodOf;
    hide KeysAfter;
    hide SettledBefore;
    hide Gapless;
    var name :| name in entry.entries &&
      (ReadName(layout[0], name, known).Raises? ||
       TripsBelow(layout, entry.entries[name],
                  Opened(layout[0], name, entry.entries[name], known, after, before), after, before));
    var reading := ReadName(layout[0], name, known);
    if reading.Raises? {
      RaisesTogether(layout[0], name, known);
    } else {
      NameKeeps(layout[0], name, known);
      TripsTogether(layout[1..], entry.entries[name], reading.fields, after, before);
      if Year in reading.fields && Gapless(reading.fields.Keys) {
        PeriodHasYear(reading.fields, after, before);
      }
    }
  }

  /** Some tree makes a search under a layout raise, over any range, exactly when a level of the
      layout brings year and day of the year together before any level names a period. */
  lemma SearchRaisesExactly(layout: Layout, after: int, before: int)
    ensures (exists root :: Trips(layout, root, map[], after, before)) <==> BringsTogether(layout, {})
  {
    hide Trips;
    hide BringsTogether;
    var none: Fields := map[];
    assert none.Keys == {};
    if root :| Trips(layout, root, none, after, before) {
      TripsTogether(layout, root, none, after, before);
    }
    if BringsTogether(layout, {}) {
      SampleTreeTrips(layout, none, after, before);
    }
  }

  // ---------------------------------------------------------------- three layouts

  const YEAR_AND_DAY: Layout := [[Timed(YYYY), Fixed("_"), Timed(DDD)]]
  const YEAR_THEN_DAY: Layout := [[Timed(YYYY)], [Timed(DDD)]]
  const DAY_THEN_YEAR: Layout := [[Timed(DDD)], [Timed(YYYY)]]

  lemma TheirFields()
    ensures Atoms(YEAR_AND_DAY[0]) == [YYYY, DDD]
    ensures Atoms([Timed(YYYY)]) == [YYYY] && Atoms([Timed(DDD)]) == [DDD]
    ensures FieldSet([YYYY, DDD]) == {Year, OrdinalDay} && FieldSet([YYYY]) == {Year} &&
            FieldSet([DDD]) == {OrdinalDay}
  {
    assert YEAR_AND_DAY[0][1..] == [Fixed("_"), Timed(DDD)] && YEAR_AND_DAY[0][1..][1..] == [Timed(DDD)];
    OneField(YYYY);
    OneField(DDD);
    assert [YYYY, DDD][1..] == [DDD];
    FirstOfAtoms([YYYY, DDD]);
  }

  lemma TogetherOrNot()
    ensures BringsTogether(YEAR_AND_DAY, {}) && BringsTogether(DAY_THEN_YEAR, {}) &&
            !BringsTogether(YEAR_THEN_DAY, {})
  {
    TheirFields();
    assert {} + {Year} == {Year} && {} + {OrdinalDay} == {OrdinalDay} &&
           {} + {Year, OrdinalDay} == {Year, OrdinalDay};
    assert {OrdinalDay} + {Year} == {Year, OrdinalDay};
    assert KeysAfter({}, [YYYY]) == {Year} && KeysAfter({}, [DDD]) == {OrdinalDay};
    assert DAY_THEN_YEAR[1..] == [[Timed(YYYY)]] && DAY_THEN_YEAR[1..][0] == [Timed(YYYY)];
    assert SettledBefore({OrdinalDay}, [YYYY]) == {Year, OrdinalDay};
    assert BringsTogether([[Timed(YYYY)]], {OrdinalDay});
    assert CALENDAR == [Year, MonthOfYear, DayOfMonth, HourOfDay, Minute, Second];
    assert Gapless({Year});
  }

  /** Year and day in one name, or the day above the year, can raise. The year's folder above the
      day's never does, as the year 0 names no period. */
  lemma WhichRaise(after: int, before: int)
    ensures exists root :: Trips(YEAR_AND_DAY, root, map[], after, before)
    ensures exists root :: Trips(DAY_THEN_YEAR, root, map[], after, before)
    ensures forall root :: !Trips(YEAR_THEN_DAY, root, map[], after, before)
  {
    hide Trips;
    hide BringsTogether;
    TogetherOrNot();
    SearchRaisesExactly(YEAR_AND_DAY, after, before);
    SearchRaisesExactly(DAY_THEN_YEAR, after, before);
    SearchRaisesExactly(YEAR_THEN_DAY, after, before);
  }

  /** One folder of day 284 of the year 0 is such a tree. */
  lemma YearZeroTrips(after: int, before: int)
    ensures Trips(YEAR_AND_DAY, Folder(map["0000_284" := Folder(map[])]), map[], after, before)
  {
    hide Trips;
    var none: Fields := map[];
    assert none.Keys == {};
    TogetherOrNot();
    SampleTreeTrips(YEAR_AND_DAY, none, after, before);
    YearZeroName();
  }

  lemma YearZeroFilled()
    ensures Atoms(YEAR_AND_DAY[0]) == [YYYY, DDD] && Filled(YEAR_AND_DAY[0], ["0000", "284"]) == "0000_284"
  {
    TheirFields();
    var rest: Segment := [Fixed("_"), Timed(DDD)];
    assert YEAR_AND_DAY[0][1..] == rest && rest[1..] == [Timed(DDD)];
    assert ["0000", "284"][1..] == ["284"] && ["284"][1..] == [];
    assert Filled([Timed(DDD)], ["284"]) == "284" + Filled([], []) == "284";
    assert Atoms(rest) == [] + Atoms([Timed(DDD)]) == [DDD];
    assert Filled(rest, ["284"]) == "_" + Filled([Timed(DDD)], ["284"]) == "_284";
    assert Filled(YEAR_AND_DAY[0], ["0000", "284"]) == "0000" + Filled(rest, ["284"]);
  }

  lemma YearZeroName()
    ensures SampleNames(YEAR_AND_DAY) == ["0000_284"]
    ensures Nested(["0000_284"]) == Folder(map["0000_284" := Folder(map[])])
  {
    YearZeroFilled();
    hide Filled;
    assert Samples([YYYY, DDD]) == ["0000", "284"];
    assert YEAR_AND_DAY[1..] == [] && ["0000_284"][1..] == [];
  }
}
