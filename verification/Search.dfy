/** The folder search itself: it lists a folder, sorts what it goes down into, and visits that. */
module Search {
  import opened Options
  import opened Layouts
  import opened Folders
  import opened Walk
  import opened Ordering

  // ---------------------------------------------------------------- sorting

  /** An entry the search goes down into, with the fields it then knows. */
  datatype Found = Found(name: string, fields: Fields)

  predicate SortsBefore(a: Found, b: Found) {
    LexLess(Rank(a.name, a.fields), Rank(b.name, b.fields))
  }

  ghost predicate Sorted(found: seq<Found>) {
    forall i, j :: 0 <= i < j < |found| ==> SortsBefore(found[i], found[j])
  }

  ghost predicate NamedOnce(found: seq<Found>) {
    forall i, j :: 0 <= i < j < |found| ==> found[i].name != found[j].name
  }

  lemma SortsOneWay(a: Found, b: Found)
    requires a.name != b.name
    ensures SortsBefore(a, b) || SortsBefore(b, a)
  {
    if Rank(a.name, a.fields) == Rank(b.name, b.fields) {
      SameRankSameName(a.name, a.fields, b.name, b.fields);
    } else {
      LexTotal(Rank(a.name, a.fields), Rank(b.name, b.fields));
    }
  }

  lemma SortsThrough(a: Found, b: Found, c: Found)
    requires SortsBefore(a, b) && SortsBefore(b, c)
    ensures SortsBefore(a, c)
  {
    LexTransitive(Rank(a.name, a.fields), Rank(b.name, b.fields), Rank(c.name, c.fields));
  }

  function Inserted(sorted: seq<Found>, item: Found): (more: seq<Found>)
    ensures multiset(more) == multiset(sorted) + multiset{item}
  {
    if sorted == [] then [item]
    else if SortsBefore(item, sorted[0]) then [item] + sorted
    else
      assert sorted == [sorted[0]] + sorted[1..];
      [sorted[0]] + Inserted(sorted[1..], item)
  }

  lemma InMultiset(x: seq<Found>, y: seq<Found>)
    requires multiset(x) == multiset(y)
    ensures forall item :: item in x <==> item in y
  {
    assert forall item :: item in x <==> item in multiset(x);
    assert forall item :: item in y <==> item in multiset(y);
  }

  lemma {:induction false} InsertedSorted(sorted: seq<Found>, item: Found)
    requires Sorted(sorted) && forall other :: other in sorted ==> other.name != item.name
    ensures Sorted(Inserted(sorted, item))
    decreases |sorted|
  {
    hide SortsBefore;
    if sorted != [] {
      var rest := sorted[1..];
      assert sorted[0] in sorted && forall other :: other in rest ==> other in sorted;
      SortsOneWay(item, sorted[0]);
      if SortsBefore(item, sorted[0]) {
        forall i | 0 < i < |sorted| ensures SortsBefore(item, sorted[i]) {
          SortsThrough(item, sorted[0], sorted[i]);
        }
      } else {
        InsertedSorted(rest, item);
        var more := Inserted(rest, item);
        InMultiset(more, rest + [item]);
        forall other | other in more ensures SortsBefore(sorted[0], other) {
          assert other == item || other in rest;
        }
      }
    }
  }

  /** What was found, by its fields and then its name. */
  function SortFound(found: seq<Found>): (sorted: seq<Found>)
    ensures multiset(sorted) == multiset(found)
  {
    if found == [] then []
    else
      assert found == found[..|found| - 1] + [found[|found| - 1]];
      Inserted(SortFound(found[..|found| - 1]), found[|found| - 1])
  }

  lemma {:induction false} SortFoundSorts(found: seq<Found>)
    requires NamedOnce(found)
    ensures Sorted(SortFound(found)) && NamedOnce(SortFound(found))
    ensures forall item :: item in SortFound(found) <==> item in found
    decreases |found|
  {
    hide SortsBefore;
    if found != [] {
      var before, last := found[..|found| - 1], found[|found| - 1];
      SortFoundSorts(before);
      forall other | other in SortFound(before) ensures other.name != last.name {
        var i :| 0 <= i < |before| && before[i] == other;
      }
      InsertedSorted(SortFound(before), last);
    }
    InMultiset(SortFound(found), found);
    SortedNamesOnce(SortFound(found), found);
  }

  lemma SortedNamesOnce(sorted: seq<Found>, found: seq<Found>)
    requires Sorted(sorted) && NamedOnce(found) && forall item :: item in sorted <==> item in found
    ensures NamedOnce(sorted)
  {
    forall i, j | 0 <= i < j < |sorted| ensures sorted[i].name != sorted[j].name {
      assert SortsBefore(sorted[i], sorted[j]);
      LexIrreflexive(Rank(sorted[i].name, sorted[i].fields));
      assert sorted[i] in found && sorted[j] in found;
      var m :| 0 <= m < |found| && found[m] == sorted[i];
      var n :| 0 <= n < |found| && found[n] == sorted[j];
      assert m != n;
    }
  }

  // ---------------------------------------------------------------- listing a folder

  /** The entries of one folder the search goes down into, sorted. */
  method OpenEntries(segment: Segment, entries: map<string, Entry>, known: Fields, after: int, before: int)
    returns (found: seq<Found>, raised: bool)
    ensures raised <==> exists name :: name in entries && ReadName(segment, name, known).Raises?
    ensures !raised ==> Sorted(found) && NamedOnce(found)
    ensures !raised ==> forall item :: item in found <==>
              item.name in entries &&
                Opened(segment, item.name, entries[item.name], known, after, before) == Some(item.fields)
  {
    hide LexLess;
    hide Rank;
    var unread := entries.Keys;
    var listed: seq<Found> := [];
    while unread != {}
      invariant unread <= entries.Keys
      invariant forall name :: name in entries && name !in unread ==> !ReadName(segment, name, known).Raises?
      invariant NamedOnce(listed)
      invariant forall item :: item in listed <==>
                  item.name in entries && item.name !in unread
                  && Opened(segment, item.name, entries[item.name], known, after, before) == Some(item.fields)
      decreases unread
    {
      var name :| name in unread;
      unread := unread - {name};
      match ReadName(segment, name, known)
      case Raises => return [], true;
      case Disagrees =>
      case Merged(fields) =>
        if Overlaps(PeriodOf(fields), after, before) && entries[name].Folder? {
          listed := listed + [Found(name, fields)];
        }
    }
    SortFoundSorts(listed);
    return SortFound(listed), false;
  }

  // ---------------------------------------------------------------- the search

  function Prefixed(name: string, paths: seq<seq<string>>): (longer: seq<seq<string>>)
    ensures |longer| == |paths|
    ensures forall i :: 0 <= i < |paths| ==> longer[i] == [name] + paths[i]
  {
    if paths == [] then [] else [[name] + paths[0]] + Prefixed(name, paths[1..])
  }

  /** Whether paths stand in the order the search yields them in. */
  ghost predicate InOrder(layout: Layout, known: Fields, paths: seq<seq<string>>) {
    forall i, j :: 0 <= i < j < |paths| ==> Precedes(layout, known, paths[i], paths[j])
  }

  /** What a folder's listing must be for the search: its opened entries, sorted. */
  ghost predicate Lists(layout: Layout, entry: Entry, known: Fields, after: int, before: int, found: seq<Found>) {
    && layout != [] && entry.Folder? && Sorted(found) && NamedOnce(found)
    && forall item :: item in found <==>
         item.name in entry.entries
         && Opened(layout[0], item.name, entry.entries[item.name], known, after, before) == Some(item.fields)
  }

  ghost predicate VisitedBefore(found: seq<Found>, i: nat, path: seq<string>)
    requires i <= |found|
  {
    path != [] && exists k :: 0 <= k < i && found[k].name == path[0]
  }

  lemma OpenedReads(segment: Segment, name: string, entry: Entry, known: Fields, after: int, before: int)
    ensures var opened_ := Opened(segment, name, entry, known, after, before);
            opened_.Some? ==> ReadName(segment, name, known) == Merged(opened_.value)
  {
    hide ReadName;
    hide PeriodOf;
    hide Overlaps;
  }

  lemma StillInOrder(layout: Layout, entry: Entry, known: Fields, after: int, before: int, found: seq<Found>, i: nat,
                     paths: seq<seq<string>>, below: seq<seq<string>>)
    requires Lists(layout, entry, known, after, before, found) && i < |found|
    requires InOrder(layout, known, paths) && forall path :: path in paths ==> VisitedBefore(found, i, path)
    requires InOrder(layout[1..], found[i].fields, below)
    ensures InOrder(layout, known, paths + Prefixed(found[i].name, below))
  {
    hide ReadName;
    hide Opened;
    hide LexLess;
    hide Rank;
    var name := found[i].name;
    var all := paths + Prefixed(name, below);
    assert found[i] in found;
    OpenedReads(layout[0], name, entry.entries[name], known, after, before);
    forall m, n | 0 <= m < n < |all| ensures Precedes(layout, known, all[m], all[n]) {
      if |paths| <= m {
        assert all[m] == [name] + below[m - |paths|] && all[n] == [name] + below[n - |paths|];
        assert all[m][1..] == below[m - |paths|] && all[n][1..] == below[n - |paths|];
      } else if |paths| <= n {
        assert all[m] in paths && all[n] == [name] + below[n - |paths|];
        var k :| 0 <= k < i && found[k].name == all[m][0];
        assert found[k] in found && SortsBefore(found[k], found[i]);
        OpenedReads(layout[0], found[k].name, entry.entries[found[k].name], known, after, before);
      }
    }
  }

  /** Yields the folders below an entry, each once and in order, until a name raises. */
  method Visit(layout: Layout, entry: Entry, known: Fields, after: int, before: int)
    returns (paths: seq<seq<string>>, raised: bool)
    ensures raised <==> Trips(layout, entry, known, after, before)
    ensures forall path :: path in paths ==> Yields(layout, entry, known, path, after, before)
    ensures !raised ==> forall path :: Yields(layout, entry, known, path, after, before) ==> path in paths
    ensures EachOnce(paths) && InOrder(layout, known, paths)
    decreases |layout|
  {
    hide ReadName;
    hide Overlaps;
    hide PeriodOf;
    hide Opened;
    hide LexLess;
    hide Rank;
    hide Trips;
    hide Yields;
    hide Precedes;
    NothingToList(layout, entry, known, after, before);
    if layout == [] {
      return [[]], false;
    }
    if entry.File? {
      return [], false;
    }
    var found;
    found, raised := OpenEntries(layout[0], entry.entries, known, after, before);
    paths := [];
    if raised {
      TripsHere(layout, entry, known, after, before);
      return;
    }
    assert Lists(layout, entry, known, after, before, found);
    for i := 0 to |found|
      invariant !raised
      invariant forall k :: 0 <= k < i ==>
                  !Trips(layout[1..], entry.entries[found[k].name], found[k].fields, after, before)
      invariant forall path :: path in paths ==>
                  Yields(layout, entry, known, path, after, before) && VisitedBefore(found, i, path)
      invariant forall path :: Yields(layout, entry, known, path, after, before) && VisitedBefore(found, i, path) ==>
                  path in paths
      invariant EachOnce(paths) && InOrder(layout, known, paths)
    {
      var name, fields := found[i].name, found[i].fields;
      assert found[i] in found;
      var below;
      below, raised := Visit(layout[1..], entry.entries[name], fields, after, before);
      PrefixedYields(layout, entry, known, name, fields, below, after, before);
      StillDistinct(paths, name, below);
      StillInOrder(layout, entry, known, after, before, found, i, paths, below);
      paths := paths + Prefixed(name, below);
      if raised {
        TripsInside(layout, entry, known, after, before, found, i);
        return;
      }
    }
    TripsNowhere(layout, entry, known, after, before, found);
    AllVisited(layout, entry, known, after, before, found);
  }

  lemma NothingToList(layout: Layout, entry: Entry, known: Fields, after: int, before: int)
    ensures layout == [] ==> !Trips(layout, entry, known, after, before)
    ensures layout == [] ==> forall path :: Yields(layout, entry, known, path, after, before) <==> path == []
    ensures layout != [] && entry.File? ==> !Trips(layout, entry, known, after, before)
    ensures layout != [] && entry.File? ==> forall path :: !Yields(layout, entry, known, path, after, before)
  {
  }

  lemma TripsHere(layout: Layout, entry: Entry, known: Fields, after: int, before: int)
    requires layout != [] && entry.Folder?
    requires exists name :: name in entry.entries && ReadName(layout[0], name, known).Raises?
    ensures Trips(layout, entry, known, after, before)
  {
    hide ReadName;
    hide Opened;
  }

  lemma TripsInside(layout: Layout, entry: Entry, known: Fields, after: int, before: int, found: seq<Found>, i: nat)
    requires Lists(layout, entry, known, after, before, found) && i < |found|
    requires Trips(layout[1..], entry.entries[found[i].name], found[i].fields, after, before)
    ensures Trips(layout, entry, known, after, before)
  {
    hide Opened;
    hide ReadName;
    var name := found[i].name;
    assert found[i] in found;
    assert TripsBelow(layout, entry.entries[name], Opened(layout[0], name, entry.entries[name], known, after, before),
                      after, before);
  }

  lemma TripsNowhere(layout: Layout, entry: Entry, known: Fields, after: int, before: int, found: seq<Found>)
    requires Lists(layout, entry, known, after, before, found)
    requires forall name :: name in entry.entries ==> !ReadName(layout[0], name, known).Raises?
    requires forall k :: 0 <= k < |found| ==>
               !Trips(layout[1..], entry.entries[found[k].name], found[k].fields, after, before)
    ensures !Trips(layout, entry, known, after, before)
  {
    hide Opened;
    hide ReadName;
    forall name | name in entry.entries
      ensures !TripsBelow(layout, entry.entries[name],
                          Opened(layout[0], name, entry.entries[name], known, after, before), after, before)
    {
      var fields := Opened(layout[0], name, entry.entries[name], known, after, before);
      if fields.Some? {
        assert Found(name, fields.value) in found;
      }
    }
  }

  lemma AllVisited(layout: Layout, entry: Entry, known: Fields, after: int, before: int, found: seq<Found>)
    requires Lists(layout, entry, known, after, before, found)
    ensures forall path :: Yields(layout, entry, known, path, after, before) ==> VisitedBefore(found, |found|, path)
  {
    hide Opened;
    forall path | Yields(layout, entry, known, path, after, before) ensures VisitedBefore(found, |found|, path) {
      var fields := Opened(layout[0], path[0], entry.entries[path[0]], known, after, before).value;
      assert Found(path[0], fields) in found;
    }
  }

  /** Putting a folder's name before what is found in it gives what is found below its parent. */
  lemma PrefixedYields(layout: Layout, entry: Entry, known: Fields, name: string, fields: Fields,
                       below: seq<seq<string>>, after: int, before: int)
    requires layout != [] && entry.Folder? && name in entry.entries
    requires Opened(layout[0], name, entry.entries[name], known, after, before) == Some(fields)
    requires forall path :: path in below ==> Yields(layout[1..], entry.entries[name], fields, path, after, before)
    ensures forall path :: path in Prefixed(name, below) ==>
              Yields(layout, entry, known, path, after, before) && path[0] == name && path[1..] in below
    ensures forall path :: Yields(layout, entry, known, path, after, before) && path[0] == name ==>
              Yields(layout[1..], entry.entries[name], fields, path[1..], after, before)
              && (path[1..] in below ==> path in Prefixed(name, below))
  {
    hide Opened;
    forall path | path in Prefixed(name, below)
      ensures Yields(layout, entry, known, path, after, before) && path[0] == name && path[1..] in below
    {
      var i :| 0 <= i < |below| && path == Prefixed(name, below)[i];
      assert ([name] + below[i])[1..] == below[i];
    }
    forall path | Yields(layout, entry, known, path, after, before) && path[0] == name && path[1..] in below
      ensures path in Prefixed(name, below)
    {
      var i :| 0 <= i < |below| && path[1..] == below[i];
      assert Prefixed(name, below)[i] == [path[0]] + path[1..] == path;
    }
  }

  predicate EachOnce(paths: seq<seq<string>>) {
    forall i, j :: 0 <= i < j < |paths| ==> paths[i] != paths[j]
  }

  lemma StillDistinct(paths: seq<seq<string>>, name: string, below: seq<seq<string>>)
    requires EachOnce(paths) && EachOnce(below)
    requires forall path :: path in paths ==> path != [] && path[0] != name
    ensures EachOnce(paths + Prefixed(name, below))
  {
    var all := paths + Prefixed(name, below);
    forall i, j | 0 <= i < j < |all|
      ensures all[i] != all[j]
    {
      if |paths| <= i {
        assert all[i] == [name] + below[i - |paths|] && all[j] == [name] + below[j - |paths|];
        assert all[i][1..] == below[i - |paths|] && all[j][1..] == below[j - |paths|];
      } else if |paths| <= j {
        assert all[i] in paths && all[j] == [name] + below[j - |paths|];
      }
    }
  }
}
