/** Alert counts rolled up the component tree: every address totals its subtree. */
module Statistics {
  import opened Options
  import opened Addresses

  type Level = int

  /** The alerts one address holds at one level. */
  datatype Row = Row(address: Address, level: Level, count: nat)

  datatype Stats = Stats(count: nat, levels: seq<(Level, nat)>)

  /** An address's path: itself, and for a component every ancestor component. */
  function PathOf(a: Address): seq<Address> {
    match a
    case Engine => [Engine]
    case Component(names) => seq(|names|, i requires 0 <= i < |names| => Component(names[..i + 1]))
  }

  predicate OnPath(a: Address, below: Address) {
    a == below || (a.Component? && below.Component? && a.names != [] && a.names <= below.names)
  }

  /** The texts of a path are those the address itself computes. */
  lemma PathTexts(a: Address, i: nat)
    requires Valid(a) && i < |PathOf(a)|
    ensures |PathText(Text(a))| == |PathOf(a)| && PathText(Text(a))[i] == Text(PathOf(a)[i])
  {
    match a
    case Engine => EngineHasNoParent();
    case Component(names) =>
      hide PathText;
      hide Text;
      hide AreNames;
      PathIsPrefixes(names, i);
  }

  lemma EngineHasNoParent()
    ensures PathText(Text(Engine)) == [Text(Engine)]
  {
    NoParent(Text(Engine));
  }

  lemma PathMembers(a: Address, x: Address)
    requires Valid(a)
    ensures x in PathOf(a) <==> OnPath(x, a)
    ensures forall i, j :: 0 <= i < j < |PathOf(a)| ==> PathOf(a)[i] != PathOf(a)[j]
  {
    if a.Component? {
      var names := a.names;
      if OnPath(x, a) {
        assert names[..|names|] == names;
        assert x.names == names[..|x.names|];
        assert PathOf(a)[|x.names| - 1] == x;
      }
      forall i, j | 0 <= i < j < |names| ensures PathOf(a)[i] != PathOf(a)[j] {
        assert |names[..i + 1]| != |names[..j + 1]|;
      }
    }
  }

  predicate UnderRoot(root: Option<Address>, a: Address) {
    root.None? || Contains(root.value, a)
  }

  // ---------------------------------------------------------------- level entries

  predicate Sorted(levels: seq<(Level, nat)>) {
    forall i, j :: 0 <= i < j < |levels| ==> levels[i].0 < levels[j].0
  }

  /** Adding to the level's entry, or a new entry where it belongs. */
  function AddLevel(levels: seq<(Level, nat)>, level: Level, count: nat): seq<(Level, nat)> {
    if levels == [] || level < levels[0].0 then [(level, count)] + levels
    else if levels[0].0 == level then [(level, levels[0].1 + count)] + levels[1..]
    else [levels[0]] + AddLevel(levels[1..], level, count)
  }

  function Insert(levels: seq<(Level, nat)>, entry: (Level, nat)): seq<(Level, nat)> {
    if levels == [] || entry.0 < levels[0].0 then [entry] + levels
    else [levels[0]] + Insert(levels[1..], entry)
  }

  function SortLevels(levels: seq<(Level, nat)>): seq<(Level, nat)> {
    if levels == [] then [] else Insert(SortLevels(levels[..|levels| - 1]), levels[|levels| - 1])
  }

  lemma {:induction false} InsertLast(levels: seq<(Level, nat)>, entry: (Level, nat))
    requires forall i :: 0 <= i < |levels| ==> levels[i].0 < entry.0
    ensures Insert(levels, entry) == levels + [entry]
  {
    if levels != [] {
      InsertLast(levels[1..], entry);
    }
  }

  lemma {:induction false} SortedStays(levels: seq<(Level, nat)>)
    requires Sorted(levels)
    ensures SortLevels(levels) == levels
  {
    if levels != [] {
      var before := levels[..|levels| - 1];
      SortedStays(before);
      InsertLast(before, levels[|levels| - 1]);
    }
  }

  lemma {:induction false} InsertIsAdd(levels: seq<(Level, nat)>, level: Level, count: nat)
    requires forall i :: 0 <= i < |levels| ==> levels[i].0 != level
    ensures Insert(levels, (level, count)) == AddLevel(levels, level, count)
  {
    if levels != [] {
      InsertIsAdd(levels[1..], level, count);
    }
  }

  lemma {:induction false} UpdateIsAdd(levels: seq<(Level, nat)>, i: nat, count: nat)
    requires Sorted(levels) && i < |levels|
    ensures AddLevel(levels, levels[i].0, count) == levels[i := (levels[i].0, levels[i].1 + count)]
  {
    if i > 0 {
      UpdateIsAdd(levels[1..], i - 1, count);
      assert levels[0].0 < levels[i].0;
    }
  }

  /** The loop over a result's entries, which adds to one or appends and sorts. */
  method AddEntry(levels: seq<(Level, nat)>, level: Level, count: nat) returns (added: seq<(Level, nat)>)
    requires Sorted(levels)
    ensures added == AddLevel(levels, level, count)
  {
    for i := 0 to |levels|
      invariant forall j :: 0 <= j < i ==> levels[j].0 != level
    {
      if levels[i].0 == level {
        UpdateIsAdd(levels, i, count);
        return levels[i := (level, levels[i].1 + count)];
      }
    }
    var appended := levels + [(level, count)];
    assert appended[..|appended| - 1] == levels;
    SortedStays(levels);
    InsertIsAdd(levels, level, count);
    return SortLevels(appended);
  }

  ghost predicate Above(levels: seq<(Level, nat)>, low: Level) {
    forall i :: 0 <= i < |levels| ==> low < levels[i].0
  }

  lemma {:induction false} AddStaysAbove(levels: seq<(Level, nat)>, level: Level, count: nat, low: Level)
    requires Above(levels, low) && low < level
    ensures Above(AddLevel(levels, level, count), low)
  {
    if levels != [] && levels[0].0 < level {
      AddStaysAbove(levels[1..], level, count, low);
    }
  }

  lemma {:induction false} AddKeepsSorted(levels: seq<(Level, nat)>, level: Level, count: nat)
    requires Sorted(levels)
    ensures Sorted(AddLevel(levels, level, count))
  {
    if levels != [] && levels[0].0 < level {
      AddKeepsSorted(levels[1..], level, count);
      AddStaysAbove(levels[1..], level, count, levels[0].0);
    }
  }

  // ---------------------------------------------------------------- the totals

  /** What the rows give one address, row after row. */
  function StatsOf(rows: seq<Row>, a: Address): Stats {
    if rows == [] then Stats(0, [])
    else
      var before, row := StatsOf(rows[..|rows| - 1], a), rows[|rows| - 1];
      if OnPath(a, row.address) then Stats(before.count + row.count, AddLevel(before.levels, row.level, row.count))
      else before
  }

  /** Whether an address is reported: it is the root or below it, and on the path of some row. */
  predicate Reported(rows: seq<Row>, root: Option<Address>, a: Address) {
    && (root.None? || root.value.Engine? || (a.Component? && root.value.names <= a.names))
    && exists i :: 0 <= i < |rows| && OnPath(a, rows[i].address)
  }

  ghost predicate Rolled(results: map<Address, Stats>, rows: seq<Row>, root: Option<Address>, a: Address) {
    && (a in results <==> Reported(rows, root, a))
    && (a in results ==> results[a] == StatsOf(rows, a) && Sorted(results[a].levels))
  }

  /** Where the inner loop stands: the path's first `j` addresses have the row, the others not. */
  ghost predicate RolledTo(results: map<Address, Stats>, rows: seq<Row>, i: nat, root: Option<Address>,
                           path: seq<Address>, j: nat)
    requires i < |rows| && j <= |path|
  {
    forall a :: Rolled(results, Seen(rows, i, path, j, a), root, a)
  }

  /** The rows an address has so far. */
  ghost function Seen(rows: seq<Row>, i: nat, path: seq<Address>, j: nat, a: Address): seq<Row>
    requires i < |rows| && j <= |path|
  {
    if a in path[..j] then rows[..i + 1] else rows[..i]
  }

  ghost predicate AllRolled(results: map<Address, Stats>, rows: seq<Row>, root: Option<Address>) {
    forall a :: Rolled(results, rows, root, a)
  }

  lemma AncestorRolled(results: map<Address, Stats>, rows: seq<Row>, i: nat, root: Option<Address>,
                       path: seq<Address>, j: nat,
                       after: map<Address, Stats>)
    requires i < |rows| && j < |path| && path[j] !in path[..j] && RolledTo(results, rows, i, root, path, j)
    requires forall a :: a != path[j] ==> (a in after <==> a in results) && (a in after ==> after[a] == results[a])
    requires Rolled(after, rows[..i + 1], root, path[j])
    ensures RolledTo(after, rows, i, root, path, j + 1)
  {
    hide Reported;
    hide StatsOf;
    assert path[..j + 1] == path[..j] + [path[j]];
    var k := j + 1;
    forall a ensures Rolled(after, Seen(rows, i, path, k, a), root, a) {
      assert Rolled(results, Seen(rows, i, path, j, a), root, a);
    }
  }

  /** What an ancestor's entry becomes with one more row. */
  method AddRow(results: map<Address, Stats>, ghost rows: seq<Row>, row: Row, ghost i: nat, root: Option<Address>,
                ancestor: Address)
    returns (after: map<Address, Stats>)
    requires i < |rows| && rows[i] == row && OnPath(ancestor, row.address)
    requires Rolled(results, rows[..i], root, ancestor)
    ensures forall a :: a != ancestor ==> (a in after <==> a in results) && (a in after ==> after[a] == results[a])
    ensures Rolled(after, rows[..i + 1], root, ancestor)
  {
    RowAdds(rows, i, root, ancestor);
    if !UnderRoot(root, ancestor) {
      return results;
    }
    UnreportedIsEmpty(rows[..i], root, ancestor);
    StatsSorted(rows[..i], ancestor);
    hide StatsOf;
    hide OnPath;
    var current := if ancestor in results then results[ancestor] else Stats(0, []);
    AddKeepsSorted(current.levels, row.level, row.count);
    var levels := AddEntry(current.levels, row.level, row.count);
    after := results[ancestor := Stats(current.count + row.count, levels)];
  }

  /** Rolling rows up to every ancestor under the root gives each reported address what the rows
      below it hold. */
  method GetAll(rows: seq<Row>, root: Option<Address>) returns (results: map<Address, Stats>)
    requires forall i :: 0 <= i < |rows| ==> Valid(rows[i].address)
    ensures AllRolled(results, rows, root)
  {
    hide StatsOf;
    hide PathOf;
    hide OnPath;
    results := map[];
    assert rows[..0] == [];
    NothingReported(root);
    for i := 0 to |rows|
      invariant AllRolled(results, rows[..i], root)
    {
      hide Rolled;
      var path := PathOf(rows[i].address);
      assert path[..0] == [];
      for j := 0 to |path|
        invariant RolledTo(results, rows, i, root, path, j)
      {
        PathMembers(rows[i].address, path[j]);
        assert Rolled(results, Seen(rows, i, path, j, path[j]), root, path[j]);
        var after := AddRow(results, rows, rows[i], i, root, path[j]);
        AncestorRolled(results, rows, i, root, path, j, after);
        results := after;
      }
      RowRolled(results, rows, i, root, path);
    }
    assert rows[..|rows|] == rows;
  }

  lemma NothingReported(root: Option<Address>)
    ensures AllRolled(map[], [], root)
  {
  }

  lemma RowRolled(results: map<Address, Stats>, rows: seq<Row>, i: nat, root: Option<Address>, path: seq<Address>)
    requires i < |rows| && Valid(rows[i].address) && path == PathOf(rows[i].address)
    requires RolledTo(results, rows, i, root, path, |path|)
    ensures AllRolled(results, rows[..i + 1], root)
  {
    hide PathOf;
    hide StatsOf;
    assert path[..|path|] == path;
    var next := rows[..i + 1];
    forall a ensures Rolled(results, next, root, a) {
      assert Rolled(results, Seen(rows, i, path, |path|, a), root, a);
      PathMembers(rows[i].address, a);
      if a !in path {
        RowSkips(rows, i, root, a);
      }
    }
  }

  lemma RowAdds(rows: seq<Row>, i: nat, root: Option<Address>, a: Address)
    requires i < |rows| && OnPath(a, rows[i].address)
    ensures Reported(rows[..i + 1], root, a) <==> UnderRoot(root, a)
    ensures StatsOf(rows[..i + 1], a)
              == Stats(StatsOf(rows[..i], a).count + rows[i].count,
                       AddLevel(StatsOf(rows[..i], a).levels, rows[i].level, rows[i].count))
  {
    assert rows[..i + 1][..i] == rows[..i] && rows[..i + 1][i] == rows[i];
  }

  lemma RowSkips(rows: seq<Row>, i: nat, root: Option<Address>, a: Address)
    requires i < |rows| && !OnPath(a, rows[i].address)
    ensures Reported(rows[..i + 1], root, a) <==> Reported(rows[..i], root, a)
    ensures StatsOf(rows[..i + 1], a) == StatsOf(rows[..i], a)
  {
    assert rows[..i + 1][..i] == rows[..i] && rows[..i + 1][i] == rows[i];
    forall j | 0 <= j < i ensures rows[..i + 1][j] == rows[..i][j] {
    }
  }

  lemma {:induction false} StatsSorted(rows: seq<Row>, a: Address)
    ensures Sorted(StatsOf(rows, a).levels)
  {
    if rows != [] {
      StatsSorted(rows[..|rows| - 1], a);
      AddKeepsSorted(StatsOf(rows[..|rows| - 1], a).levels, rows[|rows| - 1].level, rows[|rows| - 1].count);
    }
  }

  lemma {:induction false} UnreportedIsEmpty(rows: seq<Row>, root: Option<Address>, a: Address)
    requires UnderRoot(root, a)
    ensures !Reported(rows, root, a) ==> StatsOf(rows, a) == Stats(0, [])
  {
    if rows != [] && !Reported(rows, root, a) {
      var before := rows[..|rows| - 1];
      assert forall i :: 0 <= i < |before| ==> before[i] == rows[i];
      UnreportedIsEmpty(before, root, a);
    }
  }

  // ---------------------------------------------------------------- conservation

  /** The alerts of some rows at an address and below. */
  function Total(rows: seq<Row>, a: Address): nat {
    if rows == [] then 0
    else (if OnPath(a, rows[0].address) then rows[0].count else 0) + Total(rows[1..], a)
  }

  function LevelTotal(rows: seq<Row>, a: Address, level: Level): nat {
    if rows == [] then 0
    else
      (if OnPath(a, rows[0].address) && rows[0].level == level then rows[0].count else 0)
      + LevelTotal(rows[1..], a, level)
  }

  function LevelCount(levels: seq<(Level, nat)>, level: Level): nat {
    if levels == [] then 0
    else (if levels[0].0 == level then levels[0].1 else 0) + LevelCount(levels[1..], level)
  }

  function Sum(levels: seq<(Level, nat)>): nat {
    if levels == [] then 0 else levels[0].1 + Sum(levels[1..])
  }

  lemma {:induction false} AddLevelCounts(levels: seq<(Level, nat)>, level: Level, count: nat, other: Level)
    ensures Sum(AddLevel(levels, level, count)) == Sum(levels) + count
    ensures LevelCount(AddLevel(levels, level, count), other) ==
            LevelCount(levels, other) + if other == level then count else 0
  {
    if levels != [] && levels[0].0 < level {
      AddLevelCounts(levels[1..], level, count, other);
    }
  }

  lemma {:induction false} TotalsAppend(rows: seq<Row>, row: Row, a: Address, level: Level)
    ensures Total(rows + [row], a) == Total(rows, a) + if OnPath(a, row.address) then row.count else 0
    ensures LevelTotal(rows + [row], a, level)
              == LevelTotal(rows, a, level) + if OnPath(a, row.address) && row.level == level then row.count else 0
  {
    if rows == [] {
      assert rows + [row] == [row];
    } else {
      assert (rows + [row])[1..] == rows[1..] + [row];
      TotalsAppend(rows[1..], row, a, level);
    }
  }

  /** Roll-up conserves: an address's count is the sum over the rows it contains, its entry for a
      level the sum over those of that level, and the entries, sorted and distinct, add up to the
      count. */
  lemma {:induction false} RollUpConserves(rows: seq<Row>, a: Address, level: Level)
    ensures var stats := StatsOf(rows, a);
            && stats.count == Total(rows, a) == Sum(stats.levels)
            && LevelCount(stats.levels, level) == LevelTotal(rows, a, level)
            && Sorted(stats.levels)
  {
    StatsSorted(rows, a);
    if rows != [] {
      var before, row := rows[..|rows| - 1], rows[|rows| - 1];
      RollUpConserves(before, a, level);
      TotalsAppend(before, row, a, level);
      assert rows == before + [row];
      AddLevelCounts(StatsOf(before, a).levels, row.level, row.count, level);
    }
  }
}
