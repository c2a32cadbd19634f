/** The order in which the folder search yields folders, and when it is the order of their times. */
module Ordering {
  import opened Calendar
  import opened Layouts
  import opened Units
  import opened Folders
  import opened Walk
  import opened Spellings

  // ---------------------------------------------------------------- comparing tuples

  /** The order of tuples and texts: the first difference decides, and a prefix comes first. */
  predicate LexLess(x: seq<int>, y: seq<int>) {
    if y == [] then false
    else if x == [] then true
    else if x[0] != y[0] then x[0] < y[0]
    else LexLess(x[1..], y[1..])
  }

  lemma {:induction false} LexIrreflexive(x: seq<int>)
    ensures !LexLess(x, x)
  {
    if x != [] {
      LexIrreflexive(x[1..]);
    }
  }

  lemma {:induction false} LexTotal(x: seq<int>, y: seq<int>)
    requires x != y
    ensures LexLess(x, y) || LexLess(y, x)
    decreases |x|
  {
    if x != [] && y != [] && x[0] == y[0] {
      assert x == [x[0]] + x[1..] && y == [y[0]] + y[1..];
      LexTotal(x[1..], y[1..]);
    }
  }

  lemma {:induction false} LexTransitive(x: seq<int>, y: seq<int>, z: seq<int>)
    requires LexLess(x, y) && LexLess(y, z)
    ensures LexLess(x, z)
    decreases |x|
  {
    if x != [] && y != [] && z != [] && x[0] == y[0] == z[0] {
      LexTransitive(x[1..], y[1..], z[1..]);
    }
  }

  /** A common start changes nothing. */
  lemma {:induction false} LexAfter(start: seq<int>, x: seq<int>, y: seq<int>)
    ensures LexLess(start + x, start + y) <==> LexLess(x, y)
    decreases |start|
  {
    if start == [] {
      assert start + x == x && start + y == y;
    } else {
      assert (start + x)[1..] == start[1..] + x && (start + y)[1..] == start[1..] + y;
      LexAfter(start[1..], x, y);
    }
  }

  /** Where a lesser tuple first differs. */
  lemma {:induction false} LexFirst(x: seq<int>, y: seq<int>) returns (i: nat)
    requires LexLess(x, y)
    ensures i <= |x| && i < |y| && x[..i] == y[..i] && (i < |x| ==> x[i] < y[i])
    decreases |x|
  {
    if x == [] || x[0] != y[0] {
      return 0;
    }
    i := LexFirst(x[1..], y[1..]);
    assert x[..i + 1] == [x[0]] + x[1..][..i] && y[..i + 1] == [y[0]] + y[1..][..i];
    i := i + 1;
  }

  // ---------------------------------------------------------------- the order of folders

  function Codes(name: string): (codes: seq<int>)
    ensures |codes| == |name| && forall i :: 0 <= i < |name| ==> codes[i] == name[i] as int
  {
    seq(|name|, i requires 0 <= i < |name| => name[i] as int)
  }

  /** What folders are sorted by: the calendar fields and the day of the year, 0 where not known. */
  function OrderKey(fields: Fields): (key: seq<int>)
    ensures |key| == 7
  {
    [Get(fields, Year, 0), Get(fields, MonthOfYear, 0), Get(fields, DayOfMonth, 0), Get(fields, HourOfDay, 0),
     Get(fields, Minute, 0), Get(fields, Second, 0), Get(fields, OrdinalDay, 0)]
  }

  /** That and then the name. The key's length never varies, so the pair compares as one tuple. */
  function Rank(name: string, fields: Fields): seq<int> {
    OrderKey(fields) + Codes(name)
  }

  lemma SameRankSameName(a: string, aFields: Fields, b: string, bFields: Fields)
    requires Rank(a, aFields) == Rank(b, bFields)
    ensures a == b
  {
    assert Codes(a) == Rank(a, aFields)[7..] && Codes(b) == Rank(b, bFields)[7..];
    forall i | 0 <= i < |a| ensures a[i] == b[i] {
      assert Codes(a)[i] == Codes(b)[i];
    }
  }

  /** Whether the search yields one folder ahead of another: by rank where their paths part. */
  ghost predicate Precedes(layout: Layout, known: Fields, p: seq<string>, q: seq<string>)
    decreases |layout|
  {
    && layout != [] && p != [] && q != []
    && var a, b := ReadName(layout[0], p[0], known), ReadName(layout[0], q[0], known);
       && a.Merged? && b.Merged?
       && if p[0] == q[0] then Precedes(layout[1..], a.fields, p[1..], q[1..])
          else LexLess(Rank(p[0], a.fields), Rank(q[0], b.fields))
  }

  // ---------------------------------------------------------------- earlier times

  /** The calendar fields of a time in order. */
  function Parts(c: Civil): (parts: seq<nat>)
    ensures |parts| == 6
  {
    [c.year, c.month, c.day, c.hour, c.minute, c.second]
  }

  lemma EarlierDay(a: Civil, b: Civil)
    requires Real(a) && Real(b) && a.year == b.year && a.month == b.month && a.day < b.day
    ensures Seconds(a) < Seconds(b)
  {
    hide MonthDay;
    hide DaysInMonth;
  }

  lemma EarlierYearOrMonth(a: Civil, b: Civil)
    requires Real(a) && Real(b) && (a.year < b.year || (a.year == b.year && a.month < b.month))
    ensures Seconds(a) < Seconds(b)
  {
    hide Seconds;
    hide UnitStart;
    hide UnitEnd;
    if a.year < b.year {
      YearsApart(a, b);
      UnitHolds(a, 1);
      UnitHolds(b, 1);
    } else {
      MonthsApart(a, b);
      UnitHolds(a, 2);
      UnitHolds(b, 2);
    }
  }

  /** The first field in which two times differ decides which is earlier. */
  lemma EarlierPart(a: Civil, b: Civil, i: nat)
    requires Real(a) && Real(b) && i < 6 && Parts(a)[..i] == Parts(b)[..i] && Parts(a)[i] < Parts(b)[i]
    ensures Seconds(a) < Seconds(b)
  {
    hide DayNumber;
    hide DaysInMonth;
    SamePrefix(a, b, i);
    if i <= 1 {
      EarlierYearOrMonth(a, b);
    } else if i == 2 {
      EarlierDay(a, b);
    } else {
      SameDay(a, b);
    }
  }

  lemma SamePrefix(a: Civil, b: Civil, i: nat)
    requires i <= 6 && Parts(a)[..i] == Parts(b)[..i]
    ensures forall j :: 0 <= j < i ==> Parts(a)[j] == Parts(b)[j]
    ensures SameUnit(a, b, i) || i == 0
  {
    forall j | 0 <= j < i ensures Parts(a)[j] == Parts(b)[j] {
      assert Parts(a)[..i][j] == Parts(b)[..i][j];
    }
    assert i > 0 ==> Parts(a)[0] == Parts(b)[0];
    assert i > 1 ==> Parts(a)[1] == Parts(b)[1];
    assert i > 2 ==> Parts(a)[2] == Parts(b)[2];
    assert i > 3 ==> Parts(a)[3] == Parts(b)[3];
    assert i > 4 ==> Parts(a)[4] == Parts(b)[4];
    assert i > 5 ==> Parts(a)[5] == Parts(b)[5];
  }

  // ---------------------------------------------------------------- orderly layouts

  /** Fields that sort as their times do: calendar fields without a gap, and no day of a year still
      unknown. */
  predicate Sortable(keys: set<Field>) {
    Gapless(keys) && (OrdinalDay in keys ==> Year in keys)
  }

  /** Whether the fields settled down to each level sort as their times do. */
  predicate Neat(layout: Layout, keys: set<Field>) {
    if layout == [] then true
    else
      var more := KeysAfter(keys, Atoms(layout[0]));
      Sortable(more) && Neat(layout[1..], more)
  }

  /** Whether a name holds a number that can also be spelled with a zero before it. */
  predicate Respellable(segment: Segment) {
    exists atom :: atom in Atoms(segment) && Variable(atom) && atom != MMMM
  }

  /** Whether a level whose names can be spelled in two ways has no finer field below it. */
  predicate RespelledLast(layout: Layout, keys: set<Field>, finest: nat) {
    if layout == [] then true
    else
      var more := KeysAfter(keys, Atoms(layout[0]));
      (Respellable(layout[0]) ==> Depth(more) == finest) && RespelledLast(layout[1..], more, finest)
  }

  predicate Orderly(layout: Layout) {
    Neat(layout, {}) && RespelledLast(layout, {}, Finest(layout))
  }

  // ---------------------------------------------------------------- orderly layouts keep time order

  /** The fields of a folder on the way that agree with what its leaf's start tells. */
  lemma OnTheWay(fields: Fields, leaf: Fields)
    requires Keeps(fields, leaf) && Closed(fields.Keys) && Closed(leaf.Keys)
    requires Real(StartOf(leaf)) && Year in leaf && OrdinalHolds(leaf)
    ensures Agrees(fields, StartOf(leaf))
  {
    StartAgrees(leaf);
    AgreesBefore(fields, leaf, StartOf(leaf));
  }

  /** Without a number to spell in two ways, names that read as the same time's fields are the same. */
  lemma ReadAlikeIsSame(segment: Segment, p: string, q: string, c: Civil)
    requires Real(c) && NameReadsTime(segment, p, c) && NameReadsTime(segment, q, c) && !Respellable(segment)
    ensures p == q
  {
    hide Real;
    hide Match;
    hide Render;
    hide Read;
    hide Value;
    hide Accepts;
    var atoms, a, b := Atoms(segment), Match(segment, p).value, Match(segment, q).value;
    MatchFits(segment, p);
    MatchFits(segment, q);
    FitsIsFilled(segment, p, a);
    FitsIsFilled(segment, q, b);
    forall i | 0 <= i < |atoms| ensures a[i] == b[i] {
      assert atoms[i] in atoms;
      AtomSpells(atoms[i], a[i], c);
      AtomSpells(atoms[i], b[i], c);
    }
    assert a == b;
  }

  lemma KeyParts(fields: Fields)
    requires Sortable(fields.Keys)
    ensures forall i :: Depth(fields.Keys) <= i < 6 ==> OrderKey(fields)[i] == 0
    ensures forall i :: 0 <= i < Depth(fields.Keys) ==>
            CALENDAR[i] in fields && OrderKey(fields)[i] == fields[CALENDAR[i]]
  {
    assert CALENDAR[0] == Year && CALENDAR[1] == MonthOfYear && CALENDAR[2] == DayOfMonth;
    assert CALENDAR[3] == HourOfDay && CALENDAR[4] == Minute && CALENDAR[5] == Second;
  }

  lemma StartParts(leaf: Fields)
    ensures forall i :: 0 <= i < 6 && CALENDAR[i] in leaf ==> Parts(StartOf(leaf))[i] == leaf[CALENDAR[i]]
  {
    assert CALENDAR[0] == Year && CALENDAR[1] == MonthOfYear && CALENDAR[2] == DayOfMonth;
    assert CALENDAR[3] == HourOfDay && CALENDAR[4] == Minute && CALENDAR[5] == Second;
  }

  /** Where two folders part whose fields sort, one sorted earlier by a calendar field leads to
      earlier times. */
  lemma PartingTimes(a: Fields, b: Fields, aLeaf: Fields, bLeaf: Fields, i: nat)
    requires a.Keys == b.Keys && Sortable(a.Keys) && Keeps(a, aLeaf) && Keeps(b, bLeaf)
    requires i < 6 && OrderKey(a)[..i] == OrderKey(b)[..i] && OrderKey(a)[i] < OrderKey(b)[i]
    requires Real(StartOf(aLeaf)) && Real(StartOf(bLeaf))
    ensures Seconds(StartOf(aLeaf)) < Seconds(StartOf(bLeaf))
  {
    hide Real;
    hide StartOf;
    hide Seconds;
    hide OrderKey;
    hide Sortable;
    hide Parts;
    KeyParts(a);
    KeyParts(b);
    StartParts(aLeaf);
    StartParts(bLeaf);
    assert i < Depth(a.Keys);
    assert CALENDAR == [Year, MonthOfYear, DayOfMonth, HourOfDay, Minute, Second];
    var x, y := Parts(StartOf(aLeaf)), Parts(StartOf(bLeaf));
    forall j | 0 <= j < i ensures x[j] == y[j] {
      assert OrderKey(a)[..i][j] == OrderKey(b)[..i][j];
    }
    assert x[..i] == y[..i];
    EarlierPart(StartOf(aLeaf), StartOf(bLeaf), i);
  }

  lemma SameParts(a: Fields, b: Fields)
    requires a.Keys == b.Keys && Sortable(a.Keys) && OrderKey(a)[..6] == OrderKey(b)[..6]
    ensures forall f :: f in a && f in CALENDAR ==> a[f] == b[f]
  {
    hide OrderKey;
    KeyParts(a);
    KeyParts(b);
    hide Sortable;
    forall f | f in a && f in CALENDAR ensures a[f] == b[f] {
      var i :| 0 <= i < 6 && CALENDAR[i] == f;
      assert OrderKey(a)[..6][i] == OrderKey(b)[..6][i];
      SortableIndex(a.Keys, i);
    }
  }

  lemma SortableIndex(keys: set<Field>, i: nat)
    requires Sortable(keys) && i < 6
    ensures CALENDAR[i] in keys <==> i < Depth(keys)
  {
    assert CALENDAR[0] == Year && CALENDAR[1] == MonthOfYear && CALENDAR[2] == DayOfMonth;
    assert CALENDAR[3] == HourOfDay && CALENDAR[4] == Minute && CALENDAR[5] == Second;
  }

  /** Settled fields whose calendar fields are the same are the same. */
  lemma SameFields(a: Fields, b: Fields)
    requires a.Keys == b.Keys && Sortable(a.Keys) && OrderKey(a)[..6] == OrderKey(b)[..6]
    requires Closed(a.Keys) && OrdinalHolds(a) && OrdinalHolds(b)
    ensures a == b
  {
    SameParts(a, b);
    hide OrderKey;
    hide Gapless;
    assert CALENDAR == [Year, MonthOfYear, DayOfMonth, HourOfDay, Minute, Second];
    if OrdinalDay in a {
      assert a[Year] == b[Year] && a[MonthOfYear] == b[MonthOfYear] && a[DayOfMonth] == b[DayOfMonth];
      OrdinalDateCounts(a[Year], a[OrdinalDay]);
      OrdinalDateCounts(b[Year], b[OrdinalDay]);
    }
    hide OrdinalDate;
    hide DaysBeforeMonth;
    hide Leap;
    forall f | f in a ensures a[f] == b[f] {
      assert f in CALENDAR || f == OrdinalDay;
    }
  }

  /** A layout's folders read down to their leaves from what is known above them. */
  ghost predicate Leads(layout: Layout, known: Fields, path: seq<string>, leaf: Fields) {
    |path| == |layout| && ReadNames(layout, path, known) == Merged(leaf)
  }

  lemma LeadsDown(layout: Layout, known: Fields, path: seq<string>, leaf: Fields)
    requires layout != [] && Leads(layout, known, path, leaf) && ClockBeside(layout) && Closed(known.Keys)
    ensures var reading := ReadName(layout[0], path[0], known);
            && reading.Merged? && Leads(layout[1..], reading.fields, path[1..], leaf)
            && reading.fields.Keys == KeysAfter(known.Keys, Atoms(layout[0])) && Closed(reading.fields.Keys)
            && ClockBeside(layout[1..]) && OrdinalHolds(reading.fields)
  {
    hide ReadName;
    hide KeysAfter;
    hide OrdinalHolds;
    NameKeeps(layout[0], path[0], known);
    NameHoldsOrdinal(layout[0], path[0], known);
    StillClosed(layout, known.Keys);
  }

  lemma {:induction false} LeadsKeeps(layout: Layout, known: Fields, path: seq<string>, leaf: Fields)
    requires Leads(layout, known, path, leaf) && ClockBeside(layout) && Closed(known.Keys) && OrdinalHolds(known)
    ensures Keeps(known, leaf) && leaf.Keys == KeysDown(layout, known.Keys) && Closed(leaf.Keys) && OrdinalHolds(leaf)
    decreases |layout|
  {
    hide ReadName;
    hide KeysAfter;
    hide OrdinalHolds;
    hide Closed;
    if layout != [] {
      LeadsDown(layout, known, path, leaf);
      NameKeeps(layout[0], path[0], known);
      LeadsKeeps(layout[1..], ReadName(layout[0], path[0], known).fields, path[1..], leaf);
    }
  }

  lemma NameReadsLeaf(segment: Segment, name: string, known: Fields, leaf: Fields)
    requires ReadName(segment, name, known).Merged? && Keeps(ReadName(segment, name, known).fields, leaf)
    requires Closed(ReadName(segment, name, known).fields.Keys) && Closed(known.Keys) && Closed(leaf.Keys)
    requires Paired(FieldSet(Atoms(segment)))
    requires Real(StartOf(leaf)) && Year in leaf && OrdinalHolds(leaf)
    ensures NameReadsTime(segment, name, StartOf(leaf))
  {
    hide ReadName;
    hide OrdinalHolds;
    hide Real;
    hide Keeps;
    hide Paired;
    hide Match;
    OnTheWay(ReadName(segment, name, known).fields, leaf);
    NameReadsAs(segment, name, known, StartOf(leaf));
  }

  /** Where two folders' paths part with their fields the same, the leaves start together. */
  lemma PartingAlike(layout: Layout, known: Fields, p: seq<string>, q: seq<string>, a: Fields, b: Fields, finest: nat)
    requires layout != [] && ClockBeside(layout) && Closed(known.Keys)
    requires Leads(layout, known, p, a) && Leads(layout, known, q, b) && p[0] != q[0]
    requires ReadName(layout[0], p[0], known) == ReadName(layout[0], q[0], known)
    requires Respellable(layout[0]) ==> Depth(KeysAfter(known.Keys, Atoms(layout[0]))) == finest
    requires a.Keys == b.Keys && Gapless(a.Keys) && Depth(a.Keys) == finest
    requires Year in a && Real(StartOf(a)) && Real(StartOf(b))
    ensures StartOf(a) == StartOf(b)
  {
    assert |p| == |q| == |layout|;
    hide ReadName;
    hide Real;
    hide Gapless;
    hide Respellable;
    hide KeysAfter;
    hide StartOf;
    hide Leads;
    hide OrdinalHolds;
    hide Keeps;
    LeadsDown(layout, known, p, a);
    LeadsDown(layout, known, q, b);
    var fields := ReadName(layout[0], p[0], known).fields;
    LeadsKeeps(layout[1..], fields, p[1..], a);
    LeadsKeeps(layout[1..], fields, q[1..], b);
    if Respellable(layout[0]) {
      SameStart(fields, a, b);
    } else {
      NameReadsLeaf(layout[0], p[0], known, a);
      NameReadsLeaf(layout[0], q[0], known, a);
      ReadAlikeIsSame(layout[0], p[0], q[0], StartOf(a));
    }
  }

  lemma SameStart(fields: Fields, a: Fields, b: Fields)
    requires Keeps(fields, a) && Keeps(fields, b) && a.Keys == b.Keys && Gapless(a.Keys)
    requires Depth(fields.Keys) == Depth(a.Keys)
    ensures StartOf(a) == StartOf(b)
  {
    assert CALENDAR[0] == Year && CALENDAR[1] == MonthOfYear && CALENDAR[2] == DayOfMonth;
    assert CALENDAR[3] == HourOfDay && CALENDAR[4] == Minute && CALENDAR[5] == Second;
  }

  lemma RankParts(p: string, a: Fields, q: string, b: Fields) returns (i: nat)
    requires LexLess(Rank(p, a), Rank(q, b))
    ensures i <= 6 && OrderKey(a)[..i] == OrderKey(b)[..i] && (i < 6 ==> OrderKey(a)[i] < OrderKey(b)[i])
  {
    hide OrderKey;
    hide LexLess;
    i := LexFirst(Rank(p, a), Rank(q, b));
    var x, y := OrderKey(a), OrderKey(b);
    var at := if i < 6 then i else 6;
    assert Rank(p, a)[..i][..at] == x[..at] && Rank(q, b)[..i][..at] == y[..at];
    if i < 6 {
      assert Rank(p, a)[i] == x[i] && Rank(q, b)[i] == y[i];
    }
    i := at;
  }

  /** What one name of a path that leads to a leaf gives. */
  lemma LeadsFirst(layout: Layout, known: Fields, path: seq<string>, leaf: Fields)
    requires layout != [] && Leads(layout, known, path, leaf) && ClockBeside(layout) && Closed(known.Keys)
    ensures var reading := ReadName(layout[0], path[0], known);
            && reading.Merged? && Keeps(reading.fields, leaf) && Closed(reading.fields.Keys)
            && reading.fields.Keys == KeysAfter(known.Keys, Atoms(layout[0])) && OrdinalHolds(reading.fields)
  {
    assert |path| == |layout|;
    hide ReadName;
    hide KeysAfter;
    hide OrdinalHolds;
    hide Closed;
    hide Keeps;
    hide Leads;
    hide ClockBeside;
    LeadsDown(layout, known, path, leaf);
    LeadsKeeps(layout[1..], ReadName(layout[0], path[0], known).fields, path[1..], leaf);
  }

  /** Two paths that part at the first of some levels whose fields sort, and lead to leaves. */
  ghost predicate PathsPart(layout: Layout, known: Fields, p: seq<string>, q: seq<string>, a: Fields, b: Fields) {
    && layout != [] && ClockBeside(layout) && Closed(known.Keys)
    && Sortable(KeysAfter(known.Keys, Atoms(layout[0])))
    && Leads(layout, known, p, a) && Leads(layout, known, q, b) && p[0] != q[0]
    && Year in a && Real(StartOf(a)) && Real(StartOf(b))
  }

  lemma PartingEarlier(layout: Layout, known: Fields, p: seq<string>, q: seq<string>, a: Fields, b: Fields, i: nat)
    requires PathsPart(layout, known, p, q, a, b)
    requires ReadName(layout[0], p[0], known).Merged? && ReadName(layout[0], q[0], known).Merged?
    requires var x, y := ReadName(layout[0], p[0], known).fields, ReadName(layout[0], q[0], known).fields;
             i < 6 && OrderKey(x)[..i] == OrderKey(y)[..i] && OrderKey(x)[i] < OrderKey(y)[i]
    ensures Seconds(StartOf(a)) < Seconds(StartOf(b))
  {
    hide ReadName;
    hide Real;
    hide Sortable;
    hide KeysAfter;
    hide StartOf;
    hide Seconds;
    hide OrdinalHolds;
    hide Keeps;
    hide Closed;
    hide ClockBeside;
    hide OrderKey;
    LeadsFirst(layout, known, p, a);
    LeadsFirst(layout, known, q, b);
    PartingTimes(ReadName(layout[0], p[0], known).fields, ReadName(layout[0], q[0], known).fields, a, b, i);
  }

  lemma PartingTogether(layout: Layout, known: Fields, p: seq<string>, q: seq<string>, a: Fields, b: Fields,
                        finest: nat)
    requires PathsPart(layout, known, p, q, a, b)
    requires Respellable(layout[0]) ==> Depth(KeysAfter(known.Keys, Atoms(layout[0]))) == finest
    requires ReadName(layout[0], p[0], known).Merged? && ReadName(layout[0], q[0], known).Merged?
    requires var x, y := ReadName(layout[0], p[0], known).fields, ReadName(layout[0], q[0], known).fields;
             OrderKey(x)[..6] == OrderKey(y)[..6]
    requires a.Keys == b.Keys && Gapless(a.Keys) && Depth(a.Keys) == finest
    ensures StartOf(a) == StartOf(b)
  {
    hide ReadName;
    hide Real;
    hide Gapless;
    hide Respellable;
    hide Sortable;
    hide KeysAfter;
    hide StartOf;
    hide OrdinalHolds;
    hide Keeps;
    hide Closed;
    hide ClockBeside;
    hide OrderKey;
    hide Depth;
    LeadsFirst(layout, known, p, a);
    LeadsFirst(layout, known, q, b);
    SameFields(ReadName(layout[0], p[0], known).fields, ReadName(layout[0], q[0], known).fields);
    PartingAlike(layout, known, p, q, a, b, finest);
  }

  /** Where two paths part the one sorted first leads to the folder that starts no later. */
  lemma Parting(layout: Layout, known: Fields, p: seq<string>, q: seq<string>, a: Fields, b: Fields, finest: nat)
    requires PathsPart(layout, known, p, q, a, b)
    requires Respellable(layout[0]) ==> Depth(KeysAfter(known.Keys, Atoms(layout[0]))) == finest
    requires ReadName(layout[0], p[0], known).Merged? && ReadName(layout[0], q[0], known).Merged?
    requires LexLess(Rank(p[0], ReadName(layout[0], p[0], known).fields),
                     Rank(q[0], ReadName(layout[0], q[0], known).fields))
    requires a.Keys == b.Keys && Gapless(a.Keys) && Depth(a.Keys) == finest
    ensures Seconds(StartOf(a)) <= Seconds(StartOf(b))
  {
    hide ReadName;
    hide Real;
    hide Gapless;
    hide Respellable;
    hide KeysAfter;
    hide StartOf;
    hide Seconds;
    hide OrderKey;
    hide LexLess;
    hide Rank;
    hide Depth;
    var i := RankParts(p[0], ReadName(layout[0], p[0], known).fields, q[0], ReadName(layout[0], q[0], known).fields);
    if i < 6 {
      PartingEarlier(layout, known, p, q, a, b, i);
    } else {
      PartingTogether(layout, known, p, q, a, b, finest);
    }
  }

  /** Of two folders the earlier yielded one starts no later. */
  lemma {:induction false} OrderlyDown(layout: Layout, known: Fields, p: seq<string>, q: seq<string>, a: Fields,
                                       b: Fields, finest: nat)
    requires ClockBeside(layout) && Closed(known.Keys) && OrdinalHolds(known)
    requires Neat(layout, known.Keys) && RespelledLast(layout, known.Keys, finest)
    requires Leads(layout, known, p, a) && Leads(layout, known, q, b) && Precedes(layout, known, p, q)
    requires a.Keys == b.Keys && Gapless(a.Keys) && Depth(a.Keys) == finest
    requires Year in a && Real(StartOf(a)) && Real(StartOf(b))
    ensures Seconds(StartOf(a)) <= Seconds(StartOf(b))
    decreases |layout|
  {
    assert |p| == |q| == |layout|;
    hide ReadName;
    hide Real;
    hide Gapless;
    hide Respellable;
    hide Sortable;
    hide KeysAfter;
    hide StartOf;
    hide Seconds;
    hide Leads;
    hide OrdinalHolds;
    hide Keeps;
    hide Closed;
    hide ClockBeside;
    hide Rank;
    hide LexLess;
    LeadsDown(layout, known, p, a);
    LeadsDown(layout, known, q, b);
    if p[0] == q[0] {
      OrderlyDown(layout[1..], ReadName(layout[0], p[0], known).fields, p[1..], q[1..], a, b, finest);
    } else {
      Parting(layout, known, p, q, a, b, finest);
    }
  }

  // ---------------------------------------------------------------- time order

  /** The time a folder's period starts at. */
  function StartTime(layout: Layout, path: seq<string>): Civil
    requires |path| == |layout| && ReadNames(layout, path, map[]).Merged?
  {
    StartOf(ReadNames(layout, path, map[]).fields)
  }

  /** Whether one folder starts no later than another, as any two without a time do. */
  predicate NoLater(layout: Layout, p: seq<string>, q: seq<string>) {
    Finest(layout) > 0 ==>
      && |p| == |q| == |layout| && ReadNames(layout, p, map[]).Merged? && ReadNames(layout, q, map[]).Merged?
      && Real(StartTime(layout, p)) && Real(StartTime(layout, q))
      && Seconds(StartTime(layout, p)) <= Seconds(StartTime(layout, q))
  }

  /** Whether every tree's folders, over every range, are yielded in the order of their times. */
  ghost predicate AlwaysInTimeOrder(layout: Layout) {
    forall root, p, q, after, before ::
      Yields(layout, root, map[], p, after, before) && Yields(layout, root, map[], q, after, before) &&
      Precedes(layout, map[], p, q) ==>
        NoLater(layout, p, q)
  }

  lemma {:induction false} ReachedLeads(layout: Layout, entry: Entry, known: Fields, path: seq<string>)
    requires Reached(layout, entry, known, path).Some?
    ensures Leads(layout, known, path, Reached(layout, entry, known, path).value)
    decreases |layout|
  {
    hide ReadName;
    if layout != [] {
      ReachedLeads(layout[1..], entry.entries[path[0]], ReadName(layout[0], path[0], known).fields, path[1..]);
    }
  }

  /** A yielded folder's fields, its start among them, when its layout names times. */
  lemma YieldedLeads(layout: Layout, root: Entry, path: seq<string>, after: int, before: int) returns (leaf: Fields)
    requires Valid(layout) && layout != [] && Finest(layout) > 0
    requires Yields(layout, root, map[], path, after, before)
    ensures Leads(layout, map[], path, leaf) && Year in leaf && Real(StartOf(leaf))
    ensures leaf.Keys == Settled(LayoutFields(layout)) && Gapless(leaf.Keys) && Depth(leaf.Keys) == Finest(layout)
  {
    hide Gapless;
    hide Settled;
    hide Real;
    hide Seconds;
    hide EndAfter;
    YieldedIsListed(layout, root, map[], path, after, before);
    ReachedIsSettled(layout, root, path);
    leaf := Reached(layout, root, map[], path).value;
    ReachedLeads(layout, root, map[], path);
  }

  /** Under an orderly layout folders come in time order, whatever the tree and however its names
      are spelled. */
  lemma OrderlyInTime(layout: Layout)
    requires Valid(layout) && layout != [] && Orderly(layout)
    ensures AlwaysInTimeOrder(layout)
  {
    hide Neat;
    hide RespelledLast;
    hide Yields;
    hide Precedes;
    hide Gapless;
    hide Settled;
    hide Real;
    hide ReadNames;
    hide StartOf;
    hide Seconds;
    var none: Fields := map[];
    assert none.Keys == {};
    forall root, p, q, after, before |
      Yields(layout, root, none, p, after, before) && Yields(layout, root, none, q, after, before) &&
        Precedes(layout, none, p, q)
      ensures NoLater(layout, p, q)
    {
      if Finest(layout) > 0 {
        var a := YieldedLeads(layout, root, p, after, before);
        var b := YieldedLeads(layout, root, q, after, before);
        OrderlyDown(layout, none, p, q, a, b, Finest(layout));
      }
    }
  }
}
