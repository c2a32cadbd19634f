/** Dated folder names: what a layout renders for a time, and how a name is read back. */
module Layouts {
  import opened Options
  import opened Calendar

  // ---------------------------------------------------------------- times

  /** A UTC time by its calendar fields, whole seconds. */
  datatype Civil = Civil(year: nat, month: nat, day: nat, hour: nat, minute: nat, second: nat)

  predicate Real(c: Civil) {
    && 1 <= c.year <= 9999 && 1 <= c.month <= 12 && 1 <= c.day <= DaysInMonth(c.year, c.month)
    && c.hour < 24 && c.minute < 60 && c.second < 60
  }

  function MonthIndex(year: nat, month: nat): nat
    requires 1 <= year && 1 <= month <= 12
  {
    12 * year + month - 1
  }

  function DayNumber(c: Civil): nat
    requires Real(c)
  {
    MonthDay(MonthIndex(c.year, c.month)) + c.day - 1
  }

  function Seconds(c: Civil): nat
    requires Real(c)
  {
    86400 * DayNumber(c) + 3600 * c.hour + 60 * c.minute + c.second
  }

  function DayOfYear(c: Civil): nat
    requires Real(c)
  {
    DaysBeforeMonth(c.year, c.month) + c.day
  }

  // ---------------------------------------------------------------- atoms

  datatype Field = Year | MonthOfYear | DayOfMonth | HourOfDay | Minute | Second | OrdinalDay | Hour12 | Meridiem

  /** The time atoms a folder name can be read back from, a two-digit year left out. */
  datatype Atom = YYYY | MM | M | MMM | MMMM | DDD | DD | D | HH | H | Hh12 | H12 | A | Mins | SS

  function FieldOf(atom: Atom): Field {
    match atom
    case YYYY => Year
    case MM => MonthOfYear case M => MonthOfYear case MMM => MonthOfYear case MMMM => MonthOfYear
    case DDD => OrdinalDay
    case DD => DayOfMonth case D => DayOfMonth
    case HH => HourOfDay case H => HourOfDay
    case Hh12 => Hour12 case H12 => Hour12
    case A => Meridiem
    case Mins => Minute
    case SS => Second
  }

  function Hour12Of(hour: nat): nat {
    (hour - 1) % 12 + 1
  }

  /** The value of a field at a time. */
  function Value(c: Civil, field: Field): nat
    requires Real(c)
  {
    match field
    case Year => c.year
    case MonthOfYear => c.month
    case DayOfMonth => c.day
    case HourOfDay => c.hour
    case Minute => c.minute
    case Second => c.second
    case OrdinalDay => DayOfYear(c)
    case Hour12 => Hour12Of(c.hour)
    case Meridiem => if c.hour < 12 then 1 else 2
  }

  const LONG_MONTHS: seq<string> := ["January", "February", "March", "April", "May", "June", "July", "August",
                                     "September", "October", "November", "December"]
  const SHORT_MONTHS: seq<string> := ["Jan", "Feb", "Mar", "Apr", "May", "Jun", "Jul", "Aug", "Sep", "Oct",
                                      "Nov", "Dec"]
  const MERIDIEMS: seq<string> := ["AM", "PM"]

  // ---------------------------------------------------------------- numbers as text

  function Digit(n: nat): char
    requires n < 10
  {
    ['0', '1', '2', '3', '4', '5', '6', '7', '8', '9'][n]
  }

  predicate IsDigit(c: char) {
    '0' <= c <= '9'
  }

  function DigitValue(c: char): nat {
    if IsDigit(c) then (c as int - '0' as int) % 10 else 0
  }

  /** A number in exactly `width` digits. */
  function Padded(n: nat, width: nat): string {
    if width == 0 then "" else Padded(n / 10, width - 1) + [Digit(n % 10)]
  }

  function Number(text: string): nat {
    if text == "" then 0 else 10 * Number(text[..|text| - 1]) + DigitValue(text[|text| - 1])
  }

  function Pow10(width: nat): nat {
    if width == 0 then 1 else 10 * Pow10(width - 1)
  }

  lemma DigitReads(n: nat)
    requires n < 10
    ensures IsDigit(Digit(n)) && DigitValue(Digit(n)) == n
  {
  }

  lemma {:induction false} PaddedReads(n: nat, width: nat)
    requires n < Pow10(width)
    ensures |Padded(n, width)| == width && Number(Padded(n, width)) == n
    ensures forall i :: 0 <= i < width ==> IsDigit(Padded(n, width)[i])
  {
    if width > 0 {
      PaddedReads(n / 10, width - 1);
      DigitReads(n % 10);
      var text := Padded(n, width);
      assert text[..|text| - 1] == Padded(n / 10, width - 1);
    }
  }

  lemma PaddedStep(n: nat, width: nat, rest: string)
    requires width > 0 && Padded(n / 10, width - 1) == rest
    ensures Padded(n, width) == rest + [Digit(n % 10)]
  {
  }

  /** A number below a hundred without padding. */
  function Plain(n: nat): string {
    if n < 10 then Padded(n, 1) else Padded(n, 2)
  }

  // ---------------------------------------------------------------- rendering and patterns

  function Render(atom: Atom, c: Civil): string
    requires Real(c)
  {
    match atom
    case YYYY => Padded(c.year, 4)
    case MM => Padded(c.month, 2)
    case M => Plain(c.month)
    case MMM => SHORT_MONTHS[c.month - 1]
    case MMMM => LONG_MONTHS[c.month - 1]
    case DDD => Padded(DayOfYear(c), 3)
    case DD => Padded(c.day, 2)
    case D => Plain(c.day)
    case HH => Padded(c.hour, 2)
    case H => Plain(c.hour)
    case Hh12 => Padded(Hour12Of(c.hour), 2)
    case H12 => Plain(Hour12Of(c.hour))
    case A => MERIDIEMS[if c.hour < 12 then 0 else 1]
    case Mins => Padded(c.minute, 2)
    case SS => Padded(c.second, 2)
  }

  predicate AllDigits(text: string) {
    forall i :: 0 <= i < |text| ==> IsDigit(text[i])
  }

  /** What an atom's pattern takes. */
  predicate Accepts(atom: Atom, text: string) {
    match atom
    case YYYY => |text| == 4 && AllDigits(text)
    case DDD => |text| == 3 && AllDigits(text)
    case MMM => text in SHORT_MONTHS
    case MMMM => text in LONG_MONTHS
    case A => text in MERIDIEMS
    case M => 1 <= |text| <= 2 && AllDigits(text)
    case D => 1 <= |text| <= 2 && AllDigits(text)
    case H => 1 <= |text| <= 2 && AllDigits(text)
    case H12 => 1 <= |text| <= 2 && AllDigits(text)
    case _ => |text| == 2 && AllDigits(text)
  }

  predicate Variable(atom: Atom) {
    atom in {M, D, H, H12, MMMM}
  }

  function IndexOf(names: seq<string>, text: string): nat {
    if names == [] || names[0] == text then 0 else 1 + IndexOf(names[1..], text)
  }

  function Read(atom: Atom, text: string): nat {
    match atom
    case MMM => IndexOf(SHORT_MONTHS, text) + 1
    case MMMM => IndexOf(LONG_MONTHS, text) + 1
    case A => IndexOf(MERIDIEMS, text) + 1
    case _ => Number(text)
  }

  lemma Powers()
    ensures Pow10(1) == 10 && Pow10(2) == 100 && Pow10(3) == 1000 && Pow10(4) == 10000
  {
    assert Pow10(2) == 10 * Pow10(1);
    assert Pow10(3) == 10 * Pow10(2);
  }

  lemma PlainReads(n: nat)
    requires n < 100
    ensures 1 <= |Plain(n)| <= 2 && AllDigits(Plain(n)) && Number(Plain(n)) == n
  {
    Powers();
    PaddedReads(n, if n < 10 then 1 else 2);
  }

  lemma {:induction false} IndexReads(names: seq<string>, i: nat)
    requires i < |names| && forall j, k :: 0 <= j < k < |names| ==> names[j] != names[k]
    ensures IndexOf(names, names[i]) == i
  {
    if i > 0 {
      IndexReads(names[1..], i - 1);
    }
  }

  lemma LongMonthsDiffer()
    ensures |LONG_MONTHS| == 12 && forall j, k :: 0 <= j < k < 12 ==> LONG_MONTHS[j] != LONG_MONTHS[k]
  {
    assert forall i :: 0 <= i < 12 ==> |LONG_MONTHS[i]| >= 3;
    forall j, k | 0 <= j < k < 12 ensures LONG_MONTHS[j] != LONG_MONTHS[k] {
      assert LONG_MONTHS[j][..3] != LONG_MONTHS[k][..3] by {
        assert LONG_MONTHS[j][0] != LONG_MONTHS[k][0] || LONG_MONTHS[j][1] != LONG_MONTHS[k][1] ||
               LONG_MONTHS[j][2] != LONG_MONTHS[k][2];
      }
    }
  }

  lemma DayOfYearSmall(c: Civil)
    requires Real(c)
    ensures 1 <= DayOfYear(c) <= 366
  {
  }

  lemma ShortMonthsDiffer()
    ensures |SHORT_MONTHS| == 12 && forall j, k :: 0 <= j < k < 12 ==> SHORT_MONTHS[j] != SHORT_MONTHS[k]
  {
    forall j, k | 0 <= j < k < 12 ensures SHORT_MONTHS[j] != SHORT_MONTHS[k] {
      assert SHORT_MONTHS[j][0] != SHORT_MONTHS[k][0] || SHORT_MONTHS[j][1] != SHORT_MONTHS[k][1] ||
             SHORT_MONTHS[j][2] != SHORT_MONTHS[k][2];
    }
  }

  /** Each atom's pattern takes what the atom renders, and reads its field back from it. */
  lemma RenderReads(atom: Atom, c: Civil)
    requires Real(c)
    ensures Accepts(atom, Render(atom, c)) && Read(atom, Render(atom, c)) == Value(c, FieldOf(atom))
  {
    match atom
    case MMM =>
      ShortMonthsDiffer();
      IndexReads(SHORT_MONTHS, c.month - 1);
    case MMMM =>
      LongMonthsDiffer();
      IndexReads(LONG_MONTHS, c.month - 1);
    case A => MeridiemReads(c);
    case _ => NumberReads(atom, c);
  }

  lemma OneDigit(n: nat)
    ensures Padded(n, 1) == [Digit(n % 10)]
  {
    assert Padded(n / 10, 0) == "";
  }

  lemma TwoDigits(n: nat)
    ensures Padded(n, 2) == [Digit(n / 10 % 10), Digit(n % 10)]
  {
    OneDigit(n / 10);
    assert Padded(n, 2) == Padded(n / 10, 1) + [Digit(n % 10)];
  }

  lemma ThreeDigits(n: nat)
    ensures Padded(n, 3) == [Digit(n / 10 / 10 % 10), Digit(n / 10 % 10), Digit(n % 10)]
  {
    TwoDigits(n / 10);
    assert Padded(n, 3) == Padded(n / 10, 2) + [Digit(n % 10)];
  }

  const MORNING: Civil := Civil(2001, 2, 3, 4, 5, 6)
  const EVENING: Civil := Civil(2024, 12, 31, 22, 50, 59)
  const MIDNIGHT: Civil := Civil(2024, 5, 1, 0, 0, 0)

  lemma YearTexts()
    ensures Padded(2001, 4) == "2001" && Padded(34, 3) == "034" && Padded(366, 3) == "366"
  {
    hide Padded;
    ThreeDigits(34);
    ThreeDigits(366);
    ThreeDigits(200);
    assert Padded(200, 3) == "200";
    PaddedStep(2001, 4, "200");
  }

  lemma MonthTexts()
    ensures Padded(2, 2) == "02" && Plain(2) == "2" && Plain(12) == "12"
    ensures Padded(3, 2) == "03" && Plain(3) == "3" && Plain(31) == "31"
  {
    TwoDigits(2);
    TwoDigits(12);
    TwoDigits(3);
    TwoDigits(31);
    OneDigit(2);
    OneDigit(3);
    hide Padded;
  }

  lemma DatesAreReal()
    ensures Real(MORNING) && DayOfYear(MORNING) == 34
    ensures Real(EVENING) && DayOfYear(EVENING) == 366
  {
  }

  /** What the date's atoms render at some times. */
  lemma DatesRender()
    ensures Real(MORNING) && Real(EVENING)
    ensures Render(YYYY, MORNING) == "2001" && Render(DDD, MORNING) == "034" && Render(DDD, EVENING) == "366"
    ensures Render(MM, MORNING) == "02" && Render(M, MORNING) == "2" && Render(M, EVENING) == "12"
    ensures Render(MMM, MORNING) == "Feb" && Render(MMMM, MORNING) == "February" && Render(MMMM, EVENING) == "December"
    ensures Render(DD, MORNING) == "03" && Render(D, MORNING) == "3" && Render(D, EVENING) == "31"
  {
    hide Padded;
    hide Plain;
    hide DayOfYear;
    hide Real;
    YearTexts();
    MonthTexts();
    DatesAreReal();
  }

  /** What the clock's atoms render at some times. */
  lemma ClocksRender()
    ensures Real(MORNING) && Real(EVENING) && Real(MIDNIGHT)
    ensures Render(HH, MORNING) == "04" && Render(H, MORNING) == "4" && Render(H, EVENING) == "22"
    ensures Render(Hh12, MORNING) == "04" && Render(H12, MORNING) == "4" && Render(H12, EVENING) == "10"
    ensures Render(Hh12, MIDNIGHT) == "12" && Render(H12, MIDNIGHT) == "12"
    ensures Render(A, MORNING) == "AM" && Render(A, EVENING) == "PM" && Render(A, MIDNIGHT) == "AM"
    ensures Render(Mins, MORNING) == "05" && Render(Mins, EVENING) == "50"
    ensures Render(SS, MORNING) == "06" && Render(SS, EVENING) == "59"
  {
    TwoDigits(4);
    TwoDigits(22);
    TwoDigits(10);
    TwoDigits(12);
    TwoDigits(5);
    TwoDigits(50);
    TwoDigits(6);
    TwoDigits(59);
    OneDigit(4);
    hide Padded;
  }

  lemma MeridiemReads(c: Civil)
    requires Real(c)
    ensures Accepts(A, Render(A, c)) && Read(A, Render(A, c)) == Value(c, Meridiem)
  {
    assert "AM"[0] != "PM"[0];
    IndexReads(MERIDIEMS, if c.hour < 12 then 0 else 1);
  }

  /** Fields take at most two digits, but for the year and the day of the year. */
  lemma ValuesSmall(c: Civil, field: Field)
    requires Real(c)
    ensures field != Year && field != OrdinalDay ==> Value(c, field) < 100
    ensures c.year < 10000 && DayOfYear(c) < 1000
  {
    DayOfYearSmall(c);
  }

  lemma NumberReads(atom: Atom, c: Civil)
    requires Real(c) && atom !in {MMM, MMMM, A}
    ensures Accepts(atom, Render(atom, c)) && Read(atom, Render(atom, c)) == Value(c, FieldOf(atom))
  {
    hide Pow10;
    hide Padded;
    hide Number;
    hide DayOfYear;
    hide Plain;
    hide AllDigits;
    hide DaysInMonth;
    var value := Value(c, FieldOf(atom));
    ValuesSmall(c, FieldOf(atom));
    Powers();
    if atom == YYYY {
      PaddedIsDigits(c.year, 4);
    } else if atom == DDD {
      PaddedIsDigits(DayOfYear(c), 3);
    } else if Variable(atom) {
      PlainReads(value);
      NumbersAre(atom, c);
    } else {
      PaddedIsDigits(value, 2);
      NumbersAre(atom, c);
    }
  }

  lemma NumbersAre(atom: Atom, c: Civil)
    requires Real(c) && atom !in {MMM, MMMM, A, YYYY, DDD}
    ensures var value := Value(c, FieldOf(atom));
            Render(atom, c) == if Variable(atom) then Plain(value) else Padded(value, 2)
  {
    hide Padded;
    hide Plain;
  }

  lemma PaddedIsDigits(n: nat, width: nat)
    requires n < Pow10(width)
    ensures |Padded(n, width)| == width && AllDigits(Padded(n, width)) && Number(Padded(n, width)) == n
  {
    PaddedReads(n, width);
  }

  // ---------------------------------------------------------------- segments

  /** A piece of a folder name: fixed text, a name's value included, or a time atom. */
  datatype Part = Fixed(text: string) | Timed(atom: Atom)

  type Segment = seq<Part>

  function RenderSegment(segment: Segment, c: Civil): string
    requires Real(c)
  {
    if segment == [] then ""
    else
      (match segment[0] case Fixed(text) => text case Timed(atom) => Render(atom, c))
      + RenderSegment(segment[1..], c)
  }

  function Atoms(segment: Segment): seq<Atom> {
    if segment == [] then []
    else (match segment[0] case Fixed(_) => [] case Timed(atom) => [atom]) + Atoms(segment[1..])
  }

  /** Whether a name is the segment's text with these texts for its atoms, as its pattern matches. */
  predicate Fits(segment: Segment, name: string, texts: seq<string>)
    decreases |segment|
  {
    if segment == [] then name == "" && texts == []
    else
      match segment[0]
      case Fixed(text) => text <= name && Fits(segment[1..], name[|text|..], texts)
      case Timed(atom) =>
        && texts != [] && texts[0] <= name && Accepts(atom, texts[0])
        && Fits(segment[1..], name[|texts[0]|..], texts[1..])
  }

  function RenderAtoms(atoms: seq<Atom>, c: Civil): seq<string>
    requires Real(c)
  {
    if atoms == [] then [] else [Render(atoms[0], c)] + RenderAtoms(atoms[1..], c)
  }

  /** A rendered name fits with the texts its atoms rendered. */
  lemma {:induction false} RenderedFits(segment: Segment, c: Civil)
    requires Real(c)
    ensures Fits(segment, RenderSegment(segment, c), RenderAtoms(Atoms(segment), c))
  {
    hide Render;
    hide Accepts;
    hide Real;
    if segment != [] {
      RenderedFits(segment[1..], c);
      var rest := RenderSegment(segment[1..], c);
      match segment[0]
      case Fixed(text) =>
        assert (text + rest)[|text|..] == rest;
        assert Atoms(segment) == [] + Atoms(segment[1..]) == Atoms(segment[1..]);
      case Timed(atom) =>
        RenderReads(atom, c);
        var text := Render(atom, c);
        assert (text + rest)[|text|..] == rest;
        assert Atoms(segment) == [atom] + Atoms(segment[1..]);
        assert Atoms(segment)[1..] == Atoms(segment[1..]);
        assert RenderAtoms(Atoms(segment), c) == [text] + RenderAtoms(Atoms(segment[1..]), c);
    }
  }

  function Width(atom: Atom): nat {
    match atom case YYYY => 4 case DDD => 3 case MMM => 3 case _ => 2
  }

  lemma FixedWidth(atom: Atom, text: string)
    requires Accepts(atom, text) && !Variable(atom)
    ensures |text| == Width(atom)
  {
    if atom == MMM {
      assert forall i :: 0 <= i < 12 ==> |SHORT_MONTHS[i]| == 3;
    } else if atom == A {
      assert forall i :: 0 <= i < 2 ==> |MERIDIEMS[i]| == 2;
    }
  }

  predicate IsName(atom: Atom) {
    atom in {MMM, MMMM, A}
  }

  /** How many numbers of variable width stand among the digits that what a segment matches begins
      with. */
  function Ahead(segment: Segment): nat {
    if segment == [] then 0
    else
      match segment[0]
      case Fixed(text) => if AllDigits(text) then Ahead(segment[1..]) else 0
      case Timed(atom) => if IsName(atom) then 0 else (if Variable(atom) then 1 else 0) + Ahead(segment[1..])
  }

  /** Whether no run of digits in a name holds two numbers of variable width, so that how the name is
      read is never in doubt. */
  predicate Readable(segment: Segment) {
    segment != [] ==>
      && Readable(segment[1..])
      && (segment[0].Timed? && Variable(segment[0].atom) && !IsName(segment[0].atom) ==> Ahead(segment[1..]) == 0)
  }

  /** The digits a text begins with. */
  function Leading(text: string): nat {
    if text == "" || !IsDigit(text[0]) then 0 else 1 + Leading(text[1..])
  }

  function LeadingWidth(segment: Segment): nat {
    if segment == [] then 0
    else
      match segment[0]
      case Fixed(text) => if AllDigits(text) then |text| + LeadingWidth(segment[1..]) else Leading(text)
      case Timed(atom) => if IsName(atom) then 0 else Width(atom) + LeadingWidth(segment[1..])
  }

  lemma {:induction false} LeadingJoin(a: string, b: string)
    ensures Leading(a + b) == if AllDigits(a) then |a| + Leading(b) else Leading(a)
    decreases |a|
  {
    if a == "" {
      assert a + b == b;
    } else {
      assert (a + b)[1..] == a[1..] + b;
      LeadingJoin(a[1..], b);
      assert AllDigits(a) <==> IsDigit(a[0]) && AllDigits(a[1..]) by { DigitsSplit(a); }
    }
  }

  lemma DigitsSplit(text: string)
    requires text != ""
    ensures AllDigits(text) <==> IsDigit(text[0]) && AllDigits(text[1..])
  {
    assert forall i :: 1 <= i < |text| ==> text[i] == text[1..][i - 1];
    assert forall i :: 0 <= i < |text| - 1 ==> text[1..][i] == text[i + 1];
  }

  lemma NamesAreNoDigits(atom: Atom, text: string)
    requires IsName(atom) && Accepts(atom, text)
    ensures text != "" && !IsDigit(text[0])
  {
    assert forall i :: 0 <= i < 12 ==> SHORT_MONTHS[i] != "" && !IsDigit(SHORT_MONTHS[i][0]);
    assert forall i :: 0 <= i < 12 ==> LONG_MONTHS[i] != "" && !IsDigit(LONG_MONTHS[i][0]);
    assert forall i :: 0 <= i < 2 ==> MERIDIEMS[i] != "" && !IsDigit(MERIDIEMS[i][0]);
  }

  lemma NumbersAreDigits(atom: Atom, text: string)
    requires !IsName(atom) && Accepts(atom, text)
    ensures AllDigits(text)
  {
  }

  /** A name begins with as many digits as its segment says, when no number of variable width is
      among them. */
  lemma {:induction false} FitsLeading(segment: Segment, name: string, texts: seq<string>)
    requires Fits(segment, name, texts) && Ahead(segment) == 0
    ensures Leading(name) == LeadingWidth(segment)
    decreases |segment|
  {
    hide Accepts;
    hide Width;
    hide AllDigits;
    if segment != [] {
      match segment[0]
      case Fixed(text) =>
        LeadingJoin(text, name[|text|..]);
        assert name == text + name[|text|..];
        if AllDigits(text) {
          FitsLeading(segment[1..], name[|text|..], texts);
        }
      case Timed(atom) =>
        var text, rest := texts[0], name[|texts[0]|..];
        assert name == text + rest;
        if IsName(atom) {
          NamesAreNoDigits(atom, text);
        } else {
          NumbersAreDigits(atom, text);
          LeadingJoin(text, rest);
          FixedWidth(atom, text);
          FitsLeading(segment[1..], rest, texts[1..]);
        }
    }
  }

  /** No month's name starts with another's. */
  lemma MonthsStartApart(a: string, b: string)
    requires a in LONG_MONTHS && b in LONG_MONTHS && a <= b
    ensures a == b
  {
    assert forall i :: 0 <= i < 12 ==> |LONG_MONTHS[i]| >= 3;
    var j :| 0 <= j < 12 && LONG_MONTHS[j] == a;
    var k :| 0 <= k < 12 && LONG_MONTHS[k] == b;
    assert a[0] == b[0] && a[1] == b[1] && a[2] == b[2];
  }

  /** The text an atom takes at the front of a name that its rest decides. */
  lemma FirstOneWay(segment: Segment, name: string, a: seq<string>, b: seq<string>)
    requires segment != [] && segment[0].Timed? && Readable(segment)
    requires Fits(segment, name, a) && Fits(segment, name, b)
    ensures a[0] == b[0]
  {
    hide Accepts;
    hide Width;
    hide AllDigits;
    var atom := segment[0].atom;
    assert a[0] == name[..|a[0]|] && b[0] == name[..|b[0]|];
    if atom == MMMM {
      MonthOneWay(a[0], b[0], name);
    } else if Variable(atom) {
      NumbersAreDigits(atom, a[0]);
      NumbersAreDigits(atom, b[0]);
      LeadingJoin(a[0], name[|a[0]|..]);
      LeadingJoin(b[0], name[|b[0]|..]);
      assert name == a[0] + name[|a[0]|..] && name == b[0] + name[|b[0]|..];
      FitsLeading(segment[1..], name[|a[0]|..], a[1..]);
      FitsLeading(segment[1..], name[|b[0]|..], b[1..]);
    } else {
      FixedWidth(atom, a[0]);
      FixedWidth(atom, b[0]);
    }
  }

  lemma MonthOneWay(a: string, b: string, name: string)
    requires Accepts(MMMM, a) && Accepts(MMMM, b) && a <= name && b <= name
    ensures a == b
  {
    hide LONG_MONTHS;
    if |a| <= |b| {
      assert a <= b;
      MonthsStartApart(a, b);
    } else {
      assert b <= a;
      MonthsStartApart(b, a);
    }
  }

  /** A name can be matched one way only when no run of digits in it holds two numbers of variable
      width. */
  lemma {:induction false} FitsOneWay(segment: Segment, name: string, a: seq<string>, b: seq<string>)
    requires Fits(segment, name, a) && Fits(segment, name, b) && Readable(segment)
    ensures a == b
    decreases |segment|
  {
    hide Accepts;
    if segment != [] {
      match segment[0]
      case Fixed(text) => FitsOneWay(segment[1..], name[|text|..], a, b);
      case Timed(_) =>
        FirstOneWay(segment, name, a, b);
        FitsOneWay(segment[1..], name[|a[0]|..], a[1..], b[1..]);
        assert a == [a[0]] + a[1..] && b == [b[0]] + b[1..];
    }
  }

  /** The widths an atom's pattern may take, the widest number first. */
  function Widths(atom: Atom): seq<nat> {
    if atom == MMMM then [3, 4, 5, 6, 7, 8, 9]
    else if Variable(atom) then [2, 1]
    else [Width(atom)]
  }

  /** The texts a name's match captures, `None` when its pattern does not match the whole name. */
  function Match(segment: Segment, name: string): Option<seq<string>>
    decreases |segment|, 1, 0
  {
    if segment == [] then (if name == "" then Some([]) else None)
    else
      match segment[0]
      case Fixed(text) => if text <= name then Match(segment[1..], name[|text|..]) else None
      case Timed(atom) => MatchAtom(atom, segment[1..], name, Widths(atom))
  }

  /** Tries an atom's widths in turn until the rest of the pattern matches too. */
  function MatchAtom(atom: Atom, rest: Segment, name: string, widths: seq<nat>): Option<seq<string>>
    decreases |rest| + 1, 0, |widths|
  {
    if widths == [] then None
    else
      var width := widths[0];
      var others := MatchAtom(atom, rest, name, widths[1..]);
      if width <= |name| && Accepts(atom, name[..width]) then
        match Match(rest, name[width..])
        case Some(texts) => Some([name[..width]] + texts)
        case None => others
      else others
  }

  lemma {:induction false} FitsCount(segment: Segment, name: string, texts: seq<string>)
    requires Fits(segment, name, texts)
    ensures |texts| == |Atoms(segment)|
    decreases |segment|
  {
    if segment != [] {
      match segment[0]
      case Fixed(text) => FitsCount(segment[1..], name[|text|..], texts);
      case Timed(_) => FitsCount(segment[1..], name[|texts[0]|..], texts[1..]);
    }
  }

  lemma LongMonthWidth(text: string)
    requires text in LONG_MONTHS
    ensures 3 <= |text| <= 9
  {
    assert forall i :: 0 <= i < 12 ==> 3 <= |LONG_MONTHS[i]| <= 9;
  }

  lemma AcceptedWidth(atom: Atom, text: string)
    requires Accepts(atom, text)
    ensures |text| in Widths(atom)
  {
    if atom == MMMM {
      LongMonthWidth(text);
    } else if !Variable(atom) {
      FixedWidth(atom, text);
    }
  }

  /** What a match captures fits. */
  lemma {:induction false} MatchFits(segment: Segment, name: string)
    ensures var texts := Match(segment, name); texts.Some? ==> Fits(segment, name, texts.value)
    decreases |segment|, 1, 0
  {
    hide Accepts;
    hide Widths;
    if segment != [] {
      match segment[0]
      case Fixed(text) =>
        if text <= name {
          MatchFits(segment[1..], name[|text|..]);
        }
      case Timed(atom) => MatchAtomFits(segment, name, Widths(atom));
    }
  }

  lemma {:induction false} MatchAtomFits(segment: Segment, name: string, widths: seq<nat>)
    requires segment != [] && segment[0].Timed?
    ensures var texts := MatchAtom(segment[0].atom, segment[1..], name, widths);
            texts.Some? ==> Fits(segment, name, texts.value)
    decreases |segment|, 0, |widths|
  {
    hide Accepts;
    if widths != [] {
      var atom, width := segment[0].atom, widths[0];
      if width <= |name| && Accepts(atom, name[..width]) {
        MatchFits(segment[1..], name[width..]);
        var below := Match(segment[1..], name[width..]);
        if below.Some? {
          assert ([name[..width]] + below.value)[1..] == below.value;
        }
      }
      MatchAtomFits(segment, name, widths[1..]);
    }
  }

  /** A name that fits in any way is matched. */
  lemma {:induction false} FitsMatch(segment: Segment, name: string, texts: seq<string>)
    requires Fits(segment, name, texts)
    ensures Match(segment, name).Some?
    decreases |segment|
  {
    hide Accepts;
    hide Widths;
    if segment != [] {
      match segment[0]
      case Fixed(text) => FitsMatch(segment[1..], name[|text|..], texts);
      case Timed(atom) =>
        FitsMatch(segment[1..], name[|texts[0]|..], texts[1..]);
        AcceptedWidth(atom, texts[0]);
        assert name[..|texts[0]|] == texts[0];
        SomeWidthMatches(atom, segment[1..], name, |texts[0]|, Widths(atom));
    }
  }

  lemma {:induction false} SomeWidthMatches(atom: Atom, rest: Segment, name: string, width: nat, widths: seq<nat>)
    requires width in widths && width <= |name|
    requires Accepts(atom, name[..width]) && Match(rest, name[width..]).Some?
    ensures MatchAtom(atom, rest, name, widths).Some?
    decreases |widths|
  {
    hide Accepts;
    if widths[0] != width {
      SomeWidthMatches(atom, rest, name, width, widths[1..]);
    }
  }

  /** Matching a rendered name captures what each atom rendered. */
  lemma MatchInvertsRender(segment: Segment, c: Civil)
    requires Real(c) && Readable(segment)
    ensures Match(segment, RenderSegment(segment, c)) == Some(RenderAtoms(Atoms(segment), c))
  {
    hide Fits;
    hide Match;
    var name, texts := RenderSegment(segment, c), RenderAtoms(Atoms(segment), c);
    RenderedFits(segment, c);
    FitsMatch(segment, name, texts);
    MatchFits(segment, name);
    FitsOneWay(segment, name, Match(segment, name).value, texts);
  }

  // ---------------------------------------------------------------- matching the widest first

  /** The name a segment's fixed text and some texts for its atoms make. */
  function Filled(segment: Segment, texts: seq<string>): string
    requires |texts| == |Atoms(segment)|
  {
    if segment == [] then ""
    else
      match segment[0]
      case Fixed(text) => text + Filled(segment[1..], texts)
      case Timed(_) => texts[0] + Filled(segment[1..], texts[1..])
  }

  /** A text that an atom's pattern takes and would take first. */
  predicate TakenFirst(atom: Atom, text: string) {
    Accepts(atom, text) && (Variable(atom) && atom != MMMM ==> |text| == 2)
  }

  predicate AllTakenFirst(atoms: seq<Atom>, texts: seq<string>) {
    |atoms| == |texts| && forall i :: 0 <= i < |atoms| ==> TakenFirst(atoms[i], texts[i])
  }

  lemma {:induction false} MonthTakenFirst(rest: Segment, name: string, text: string, widths: seq<nat>)
    requires text in LONG_MONTHS && text <= name && |text| in widths && Match(rest, name[|text|..]).Some?
    ensures MatchAtom(MMMM, rest, name, widths) == Some([text] + Match(rest, name[|text|..]).value)
    decreases |widths|
  {
    var width := widths[0];
    assert name[..|text|] == text;
    if width != |text| {
      if width <= |name| && Accepts(MMMM, name[..width]) {
        if width < |text| {
          MonthsStartApart(name[..width], text);
        } else {
          MonthsStartApart(text, name[..width]);
        }
      }
      MonthTakenFirst(rest, name, text, widths[1..]);
    }
  }

  lemma WidthTakenFirst(atom: Atom, rest: Segment, name: string, text: string)
    requires TakenFirst(atom, text) && text <= name && Match(rest, name[|text|..]).Some?
    ensures MatchAtom(atom, rest, name, Widths(atom)) == Some([text] + Match(rest, name[|text|..]).value)
  {
    hide Match;
    AcceptedWidth(atom, text);
    if atom == MMMM {
      MonthTakenFirst(rest, name, text, Widths(atom));
    } else {
      assert name[..|text|] == text;
      if !Variable(atom) {
        FixedWidth(atom, text);
      }
      assert Widths(atom)[0] == |text|;
    }
  }

  /** Texts that would each be taken first are what a name made of them matches with, however many
      atoms of variable width it has. */
  lemma {:induction false} FilledMatches(segment: Segment, texts: seq<string>)
    requires AllTakenFirst(Atoms(segment), texts)
    ensures Match(segment, Filled(segment, texts)) == Some(texts)
    decreases |segment|
  {
    hide TakenFirst;
    hide Widths;
    hide MatchAtom;
    if segment != [] {
      match segment[0]
      case Fixed(text) =>
        assert Atoms(segment) == [] + Atoms(segment[1..]) == Atoms(segment[1..]);
        FilledMatches(segment[1..], texts);
        assert (text + Filled(segment[1..], texts))[|text|..] == Filled(segment[1..], texts);
      case Timed(atom) =>
        assert Atoms(segment) == [atom] + Atoms(segment[1..]);
        assert Atoms(segment)[0] == atom && Atoms(segment)[1..] == Atoms(segment[1..]);
        FilledMatches(segment[1..], texts[1..]);
        var rest := Filled(segment[1..], texts[1..]);
        assert (texts[0] + rest)[|texts[0]|..] == rest;
        WidthTakenFirst(atom, segment[1..], texts[0] + rest, texts[0]);
        assert [texts[0]] + texts[1..] == texts;
    }
  }

  // ---------------------------------------------------------------- a name read in another way

  const MONTH_ONE_DAY: Segment := [Timed(M), Fixed("1"), Timed(D)]

  const MAY_TENTH: Civil := Civil(2024, 5, 10, 0, 0, 0)

  lemma MayTenthRenders()
    ensures Real(MAY_TENTH) && RenderSegment(MONTH_ONE_DAY, MAY_TENTH) == "5110"
    ensures RenderAtoms([M, D], MAY_TENTH) == ["5", "10"]
  {
    assert Padded(0, 0) == "";
    hide Padded;
    PaddedStep(5, 1, "");
    PaddedStep(1, 1, "");
    PaddedStep(10, 2, "1");
    assert Render(M, MAY_TENTH) == "5" && Render(D, MAY_TENTH) == "10";
    hide Render;
    assert MONTH_ONE_DAY[1..] == [Fixed("1"), Timed(D)] && MONTH_ONE_DAY[1..][1..] == [Timed(D)];
    assert RenderSegment([Timed(D)], MAY_TENTH) == "10" + RenderSegment([], MAY_TENTH) == "10";
    assert RenderSegment([Fixed("1"), Timed(D)], MAY_TENTH) == "110";
    assert [M, D][1..] == [D] && [D][1..] == [];
  }

  /** A layout that construction takes may hold two numbers of variable width with digits between
      them. What it renders for 10 May then matches as month 51 and day 0. */
  lemma MayTenthIsMisread()
    ensures !Readable(MONTH_ONE_DAY) && Atoms(MONTH_ONE_DAY) == [M, D]
    ensures Match(MONTH_ONE_DAY, RenderSegment(MONTH_ONE_DAY, MAY_TENTH)) == Some(["51", "0"])
    ensures RenderAtoms([M, D], MAY_TENTH) != ["51", "0"]
  {
    MayTenthRenders();
    var rest: Segment := [Fixed("1"), Timed(D)];
    assert MONTH_ONE_DAY[1..] == rest && rest[1..] == [Timed(D)];
    assert Ahead([Timed(D)]) == 1 && Ahead(rest) == 1;
    assert Atoms([Timed(D)]) == [D] && Atoms(rest) == [] + [D] == [D];
    assert TakenFirst(M, "51");
    assert Fits([Timed(D)], "0", ["0"]) by { assert "0"[1..] == "" && ["0"][1..] == []; }
    FitsMatch([Timed(D)], "0", ["0"]);
    MatchFits([Timed(D)], "0");
    assert Readable([Timed(D)]);
    FitsOneWay([Timed(D)], "0", Match([Timed(D)], "0").value, ["0"]);
    assert "10"[1..] == "0";
    assert Match(rest, "10") == Some(["0"]);
    assert "5110"[..2] == "51" && "5110"[2..] == "10" && "51" <= "5110";
    WidthTakenFirst(M, rest, "5110", "51");
    hide MatchAtom;
    assert Match(MONTH_ONE_DAY, "5110") == MatchAtom(M, rest, "5110", Widths(M));
    assert ["51"] + ["0"] == ["51", "0"];
  }

  // ---------------------------------------------------------------- merging fields

  type Fields = map<Field, nat>

  /** What merging a name's fields into the known ones gives: more fields, a disagreement, or an
      error the caller does not catch. */
  datatype Merging = Merged(fields: Fields) | Disagrees | Raises

  function SetDefault(fields: Fields, field: Field, value: nat): Merging {
    if field in fields && fields[field] != value then Disagrees else Merged(fields[field := value])
  }

  function SetAll(known: Fields, atoms: seq<Atom>, texts: seq<string>): Merging
    requires |atoms| == |texts|
    decreases |atoms|
  {
    if atoms == [] then Merged(known)
    else
      match SetDefault(known, FieldOf(atoms[0]), Read(atoms[0], texts[0]))
      case Merged(fields) => SetAll(fields, atoms[1..], texts[1..])
      case other => other
  }

  /** A 12-hour hour and its half of the day become the hour. */
  function MergeClock(fields: Fields): Merging {
    if Hour12 in fields && Meridiem in fields then
      if !(1 <= fields[Hour12] <= 12) then Disagrees
      else
        var half := if fields[Meridiem] == 0 then 0 else fields[Meridiem] - 1;
        SetDefault(fields - {Hour12, Meridiem}, HourOfDay, fields[Hour12] % 12 + 12 * half)
    else Merged(fields)
  }

  /** The month and day some days into a year. */
  function OrdinalDate(year: nat, ordinal: nat): (nat, nat)
    requires 1 <= year && 1 <= ordinal
  {
    var number := DaysBeforeYear(year) + ordinal - 1;
    var index := MonthOf(number);
    (index % 12 + 1, number - MonthDay(index) + 1)
  }

  /** A day of the year becomes the month and day, beside which it stays. */
  function MergeOrdinal(fields: Fields): Merging {
    if OrdinalDay in fields && Year in fields then
      var year, ordinal := fields[Year], fields[OrdinalDay];
      if year == 0 then Raises
      else if year > 9999 || ordinal == 0 || ordinal > (if Leap(year) then 366 else 365) then Disagrees
      else
        var (month, day) := OrdinalDate(year, ordinal);
        match SetDefault(fields, MonthOfYear, month)
        case Merged(more) => SetDefault(more, DayOfMonth, day)
        case other => other
    else Merged(fields)
  }

  function Merge(known: Fields, atoms: seq<Atom>, texts: seq<string>): Merging
    requires |atoms| == |texts|
  {
    match SetAll(known, atoms, texts)
    case Merged(all) =>
      (match MergeClock(all)
       case Merged(clock) => MergeOrdinal(clock)
       case other => other)
    case other => other
  }

  ghost predicate Agrees(fields: Fields, c: Civil)
    requires Real(c)
  {
    forall f :: f in fields ==> fields[f] == Value(c, f)
  }

  function FieldSet(atoms: seq<Atom>): set<Field> {
    set atom | atom in atoms :: FieldOf(atom)
  }

  function ClockKeys(keys: set<Field>): set<Field> {
    if Hour12 in keys && Meridiem in keys then keys - {Hour12, Meridiem} + {HourOfDay} else keys
  }

  function OrdinalKeys(keys: set<Field>): set<Field> {
    if OrdinalDay in keys && Year in keys then keys + {MonthOfYear, DayOfMonth} else keys
  }

  /** The fields known once a name's atoms are merged. */
  function KeysAfter(keys: set<Field>, atoms: seq<Atom>): set<Field> {
    OrdinalKeys(ClockKeys(keys + FieldSet(atoms)))
  }

  /** Fields that are what was known and what each text reads as, all agreeing. */
  ghost predicate Joint(known: Fields, atoms: seq<Atom>, texts: seq<string>, all: Fields) {
    && |atoms| == |texts| && all.Keys == known.Keys + FieldSet(atoms)
    && (forall f :: f in known ==> all[f] == known[f])
    && (forall i :: 0 <= i < |atoms| ==> all[FieldOf(atoms[i])] == Read(atoms[i], texts[i]))
  }

  lemma FirstOfAtoms(atoms: seq<Atom>)
    requires atoms != []
    ensures FieldSet(atoms) == {FieldOf(atoms[0])} + FieldSet(atoms[1..])
  {
    assert atoms == [atoms[0]] + atoms[1..];
  }

  /** Setting fields one by one gives them exactly when they are joint. */
  lemma {:induction false} SetAllExactly(known: Fields, atoms: seq<Atom>, texts: seq<string>, all: Fields)
    requires |atoms| == |texts|
    ensures SetAll(known, atoms, texts) == Merged(all) <==> Joint(known, atoms, texts, all)
    decreases |atoms|
  {
    hide Read;
    hide FieldOf;
    if atoms == [] {
      assert FieldSet(atoms) == {};
      assert Joint(known, atoms, texts, all) ==> all == known;
    } else {
      var field, value := FieldOf(atoms[0]), Read(atoms[0], texts[0]);
      FirstOfAtoms(atoms);
      if field in known && known[field] != value {
        assert !Joint(known, atoms, texts, all);
      } else {
        SetAllExactly(known[field := value], atoms[1..], texts[1..], all);
        JointRest(known, atoms, texts, all);
      }
    }
  }

  lemma JointRest(known: Fields, atoms: seq<Atom>, texts: seq<string>, all: Fields)
    requires |atoms| == |texts| && atoms != []
    requires FieldOf(atoms[0]) in known ==> known[FieldOf(atoms[0])] == Read(atoms[0], texts[0])
    ensures Joint(known, atoms, texts, all) <==>
            Joint(known[FieldOf(atoms[0]) := Read(atoms[0], texts[0])], atoms[1..], texts[1..], all)
  {
    hide Read;
    hide FieldOf;
    FirstOfAtoms(atoms);
    hide FieldSet;
    var field, value := FieldOf(atoms[0]), Read(atoms[0], texts[0]);
    if Joint(known[field := value], atoms[1..], texts[1..], all) {
      forall i | 0 <= i < |atoms| ensures FieldOf(atoms[i]) in all &&
        all[FieldOf(atoms[i])] == Read(atoms[i], texts[i]) {
        assert i > 0 ==> atoms[i] == atoms[1..][i - 1] && texts[i] == texts[1..][i - 1];
      }
    }
  }

  /** Each text reads as its atom's field at a time. */
  ghost predicate ReadsAs(atoms: seq<Atom>, texts: seq<string>, c: Civil)
    requires Real(c)
  {
    |texts| == |atoms| && forall i :: 0 <= i < |atoms| ==> Read(atoms[i], texts[i]) == Value(c, FieldOf(atoms[i]))
  }

  lemma {:induction false} RenderedReadsAs(atoms: seq<Atom>, c: Civil)
    requires Real(c)
    ensures ReadsAs(atoms, RenderAtoms(atoms, c), c)
    ensures forall i :: 0 <= i < |atoms| ==> RenderAtoms(atoms, c)[i] == Render(atoms[i], c)
  {
    hide Real;
    hide Render;
    hide Read;
    hide Value;
    hide FieldOf;
    hide Accepts;
    if atoms != [] {
      RenderReads(atoms[0], c);
      RenderedReadsAs(atoms[1..], c);
    }
  }

  lemma SetAllAgrees(known: Fields, atoms: seq<Atom>, texts: seq<string>, c: Civil)
    requires Real(c) && Agrees(known, c) && ReadsAs(atoms, texts, c)
    ensures var merging := SetAll(known, atoms, texts);
            merging.Merged? && Agrees(merging.fields, c) && merging.fields.Keys == known.Keys + FieldSet(atoms)
  {
    hide Real;
    hide Read;
    hide Value;
    hide FieldOf;
    hide SetAll;
    var all := map f | f in known.Keys + FieldSet(atoms) :: Value(c, f);
    SetAllExactly(known, atoms, texts, all);
  }

  lemma ClockAgrees(fields: Fields, c: Civil)
    requires Real(c) && Agrees(fields, c)
    ensures var merging := MergeClock(fields);
            merging.Merged? && Agrees(merging.fields, c) && merging.fields.Keys == ClockKeys(fields.Keys)
  {
    if Hour12 in fields && Meridiem in fields {
      assert fields[Hour12] == Hour12Of(c.hour);
      assert fields[Meridiem] == if c.hour < 12 then 1 else 2;
      assert fields[Hour12] % 12 + 12 * (fields[Meridiem] - 1) == c.hour;
    }
  }

  /** A time's day lies in its month. */
  lemma DayInMonth(c: Civil)
    requires Real(c)
    ensures MonthOf(DayNumber(c)) == MonthIndex(c.year, c.month)
    ensures DayNumber(c) - MonthDay(MonthIndex(c.year, c.month)) + 1 == c.day
  {
    var index := MonthIndex(c.year, c.month);
    assert index / 12 == c.year && index % 12 + 1 == c.month;
    assert MonthDay(index + 1) == MonthDay(index) + MonthLength(index);
    MonthIsUnique(DayNumber(c), index);
  }

  lemma OrdinalCounts(c: Civil)
    requires Real(c)
    ensures 1 <= DayOfYear(c) <= (if Leap(c.year) then 366 else 365)
    ensures DaysBeforeYear(c.year) + DayOfYear(c) - 1 == DayNumber(c)
  {
    MonthDayClosed(c.year, c.month);
  }

  /** Counting days through the year leads back to the month and day. */
  lemma OrdinalLeadsBack(c: Civil)
    requires Real(c)
    ensures 1 <= DayOfYear(c) <= (if Leap(c.year) then 366 else 365)
    ensures OrdinalDate(c.year, DayOfYear(c)) == (c.month, c.day)
  {
    hide DayNumber;
    hide MonthDay;
    hide MonthOf;
    hide DaysBeforeYear;
    hide DayOfYear;
    hide DaysInMonth;
    hide Leap;
    OrdinalCounts(c);
    DayInMonth(c);
    var index := MonthIndex(c.year, c.month);
    assert index / 12 == c.year && index % 12 + 1 == c.month;
  }

  lemma OrdinalAgrees(fields: Fields, c: Civil)
    requires Real(c) && Agrees(fields, c)
    ensures var merging := MergeOrdinal(fields);
            merging.Merged? && Agrees(merging.fields, c) && merging.fields.Keys == OrdinalKeys(fields.Keys)
  {
    OrdinalLeadsBack(c);
    hide DayOfYear;
    hide OrdinalDate;
    hide DaysInMonth;
    hide Leap;
    if OrdinalDay in fields && Year in fields {
      assert fields[Year] == c.year && fields[OrdinalDay] == DayOfYear(c);
      assert fields[MonthOfYear := c.month][DayOfMonth := c.day].Keys == fields.Keys + {MonthOfYear, DayOfMonth};
    }
  }

  /** Merging texts that read as a time's fields into fields that agree with the time never fails
      and gives more fields that agree with it. */
  lemma MergeAgrees(known: Fields, atoms: seq<Atom>, texts: seq<string>, c: Civil)
    requires Real(c) && Agrees(known, c) && ReadsAs(atoms, texts, c)
    ensures var merging := Merge(known, atoms, texts);
            merging.Merged? && Agrees(merging.fields, c) && merging.fields.Keys == KeysAfter(known.Keys, atoms)
  {
    SetAllAgrees(known, atoms, texts, c);
    var all := SetAll(known, atoms, texts).fields;
    ClockAgrees(all, c);
    OrdinalAgrees(MergeClock(all).fields, c);
    hide SetAll;
    hide MergeClock;
    hide MergeOrdinal;
  }

  // ---------------------------------------------------------------- periods

  const CALENDAR: seq<Field> := [Year, MonthOfYear, DayOfMonth, HourOfDay, Minute, Second]

  /** The number of leading calendar fields that are all known. */
  function Depth(keys: set<Field>): (depth: nat)
    ensures depth <= 6
  {
    if Year !in keys then 0
    else if MonthOfYear !in keys then 1
    else if DayOfMonth !in keys then 2
    else if HourOfDay !in keys then 3
    else if Minute !in keys then 4
    else if Second !in keys then 5
    else 6
  }

  /** Known calendar fields that end where the depth says. */
  predicate Gapless(keys: set<Field>) {
    forall i :: Depth(keys) <= i < 6 ==> CALENDAR[i] !in keys
  }

  function Get(fields: Fields, field: Field, default: nat): nat {
    if field in fields then fields[field] else default
  }

  function StartOf(fields: Fields): Civil {
    Civil(Get(fields, Year, 0), Get(fields, MonthOfYear, 1), Get(fields, DayOfMonth, 1), Get(fields, HourOfDay, 0),
          Get(fields, Minute, 0), Get(fields, Second, 0))
  }

  /** The span fields name, in seconds, none for no calendar prefix, or no real date. */
  datatype Period = NoPeriod | Impossible | Between(start: nat, end: nat)

  /** The first second after the last representable one. */
  const END_OF_TIME := 86400 * DaysBeforeYear(10000)

  function UnitSeconds(depth: nat): nat {
    if depth == 3 then 86400 else if depth == 4 then 3600 else if depth == 5 then 60 else 1
  }

  /** The end of the unit starting at `c`: the same day next year, the first of the month 32 days
      on, or one unit later. */
  function EndAfter(c: Civil, depth: nat): nat
    requires Real(c) && 1 <= depth <= 6
  {
    if depth == 1 then 86400 * MonthDay(MonthIndex(c.year + 1, 1))
    else if depth == 2 then 86400 * MonthDay(MonthOf(DayNumber(c) + 32))
    else Seconds(c) + UnitSeconds(depth)
  }

  function PeriodOf(fields: Fields): Period {
    var depth := Depth(fields.Keys);
    if depth == 0 || !Gapless(fields.Keys) then NoPeriod
    else
      var start := StartOf(fields);
      if !Real(start) || EndAfter(start, depth) >= END_OF_TIME then Impossible
      else Between(Seconds(start), EndAfter(start, depth))
  }
}
