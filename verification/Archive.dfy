/** Rewriting a file never drops archived records, and what of the database that rests on. */
module Archive {
  import opened Options
  import opened Calendar
  import opened Spans
  import opened Keys
  import opened Decisions
  import opened Live
  import opened LiveSafety

  /** Where what is stored begins: nothing is known of files that start earlier. */
  function History(db: set<Key>): Option<Moment> {
    if db == {} then None else Some(Least(db).time)
  }

  /** The database holds every record ever stored from its oldest one on. */
  ghost predicate Complete(db: set<Key>, stored: set<Key>) {
    db <= stored && forall lost, key :: lost in stored - db && key in db ==> lost.time < key.time
  }

  /** Files hold stored records of their own period. */
  ghost predicate Archived(period: Period, files: Files, stored: set<Key>) {
    forall start, key :: start in files && key in files[start].records ==> key in stored && Home(period, key) == start
  }

  /** A rewrite's content includes all the file held, and no other file changes. */
  ghost predicate KeepsAll(before: Files, after: Files) {
    forall start, key :: start in before && key in before[start].records ==>
      start in after && key in after[start].records
  }

  /** Whether an `overwrite` run would write the file of this record's period again. */
  predicate Rewritten(period: Period, db: set<Key>, key: Key) {
    PeriodStartIsAligned(period, key.time);
    var bounds := Bounds(period, Home(period, key));
    Query(db, bounds) != {} && !BeforeHistory(bounds, History(db))
  }

  lemma PeriodStartIsAligned(period: Period, moment: Moment)
    ensures Aligned(period, PeriodStart(period, moment))
  {
    if period != All {
      PeriodHolds(period, moment);
    }
  }

  lemma CompleteMeansKept(period: Period, db: set<Key>, stored: set<Key>, lost: Key)
    requires Complete(db, stored) && lost in stored - db
    ensures !Rewritten(period, db, lost)
  {
    PeriodStartIsAligned(period, lost.time);
    if period != All && db != {} {
      PeriodHolds(period, lost.time);
      assert lost.time < Least(db).time;
    }
  }

  lemma RewriteKeeps(period: Period, s: State, stored: set<Key>, start: Moment, conflict: Conflict, selected: Span,
                     key: Key)
    requires Aligned(period, start) && Within(selected, Bounds(period, start)) && conflict != Purge
    requires Archived(period, s.files, stored) && start in s.files && key in s.files[start].records
    requires key !in s.db ==> !Rewritten(period, s.db, key)
    ensures var after := ExportFile(period, s, start, conflict, selected, History(s.db));
            start in after.files && key in after.files[start].records
  {
    hide Aligned;
    hide History;
    hide Archived;
    hide BeforeHistory;
    ContentEmpty(s.db, selected);
    RewriteSelects(period, s, stored, start, key);
    hide Bounds;
    hide Home;
    hide Within;
    hide Rewritten;
    hide Sorted;
    assert key in s.db && selected == Bounds(period, start) ==> key in Sorted(Query(s.db, selected));
  }

  /** A stored record of a file is selected by a rewrite of the whole file, and one the database
      has lost belongs to a period that a run does not rewrite. */
  lemma RewriteSelects(period: Period, s: State, stored: set<Key>, start: Moment, key: Key)
    requires Aligned(period, start) && Archived(period, s.files, stored)
    requires start in s.files && key in s.files[start].records
    requires key !in s.db ==> !Rewritten(period, s.db, key)
    ensures key in s.db ==> key in Query(s.db, Bounds(period, start))
    ensures key !in s.db ==>
            Query(s.db, Bounds(period, start)) == {} || BeforeHistory(Bounds(period, start), History(s.db))
  {
    BoundsHold(period, start, key.time);
    assert Home(period, key) == start;
    hide History;
    hide BeforeHistory;
    hide Bounds;
  }

  lemma ContentEmpty(db: set<Key>, span: Span)
    ensures Sorted(Query(db, span)) == [] <==> Query(db, span) == {}
  {
    var content := Sorted(Query(db, span));
    if content != [] {
      assert content[0] in content;
    }
    if Query(db, span) != {} {
      assert Least(Query(db, span)) in content;
    }
  }

  /** No `overwrite` run on this database drops a record, whichever files it meets. */
  ghost predicate OverwritesKeep(period: Period, db: set<Key>, stored: set<Key>) {
    forall s: State, start: Moment, selected: Span |
      && s.db == db && Archived(period, s.files, stored)
      && Aligned(period, start) && Within(selected, Bounds(period, start)) ::
      KeepsAll(s.files, ExportFile(period, s, start, Overwrite, selected, History(db)).files)
  }

  /** `overwrite` drops no record of any file written from stored records exactly when it would
      rewrite no period one of whose records the database has lost. */
  lemma OverwriteKeepsExactly(period: Period, db: set<Key>, stored: set<Key>)
    requires db <= stored
    ensures OverwritesKeep(period, db, stored) <==>
            (forall lost :: lost in stored - db ==> !Rewritten(period, db, lost))
  {
    if lost :| lost in stored - db && Rewritten(period, db, lost) {
      var start := Home(period, lost);
      PeriodStartIsAligned(period, lost.time);
      var bounds := Bounds(period, start);
      var s := Fresh(db).(files := map[start := File([lost], false)]);
      assert Archived(period, s.files, stored);
      var after := ExportFile(period, s, start, Overwrite, bounds, History(db));
      var content := Sorted(Query(db, bounds));
      assert Least(Query(db, bounds)) in content;
      assert after.files[start].records == content && lost !in content;
      assert lost in s.files[start].records;
      assert Within(bounds, bounds);
      assert !KeepsAll(s.files, after.files);
    } else {
      forall s: State, start: Moment, selected: Span |
        && s.db == db && Archived(period, s.files, stored)
        && Aligned(period, start) && Within(selected, Bounds(period, start))
        ensures KeepsAll(s.files, ExportFile(period, s, start, Overwrite, selected, History(db)).files)
      {
        RunKeepsAll(period, s, stored, start, Overwrite, selected);
      }
    }
  }

  lemma RunKeepsAll(period: Period, s: State, stored: set<Key>, start: Moment, conflict: Conflict, selected: Span)
    requires Archived(period, s.files, stored) && conflict != Purge
    requires Aligned(period, start) && Within(selected, Bounds(period, start))
    requires forall lost :: lost in stored - s.db ==> !Rewritten(period, s.db, lost)
    ensures KeepsAll(s.files, ExportFile(period, s, start, conflict, selected, History(s.db)).files)
  {
    var after := ExportFile(period, s, start, conflict, selected, History(s.db));
    forall other, key | other in s.files && key in s.files[other].records
      ensures other in after.files && key in after.files[other].records
    {
      if other == start {
        RewriteKeeps(period, s, stored, start, conflict, selected, key);
      } else {
        OthersStay(period, s, start, conflict, selected, other);
      }
    }
  }

  lemma OthersStay(period: Period, s: State, start: Moment, conflict: Conflict, selected: Span, other: Moment)
    requires Aligned(period, start) && other != start && other in s.files
    ensures var after := ExportFile(period, s, start, conflict, selected, History(s.db));
            other in after.files && after.files[other] == s.files[other]
  {
    hide Decide;
    hide Bounds;
  }

  // ---------------------------------------------------------------- whole histories

  function Since(db: set<Key>, before: Moment): set<Key> {
    set k | k in db && before <= k.time
  }

  datatype Event =
    | Insert(key: Key)
    | PruneOldest(before: Moment)
    | RunFile(start: Moment, conflict: Conflict, selected: Span)

  /** A database, its files, and every record ever stored in it. */
  datatype World = World(s: State, stored: set<Key>)

  predicate Possible(period: Period, event: Event) {
    event.RunFile? ==> Aligned(period, event.start) && Within(event.selected, Bounds(period, event.start))
  }

  ghost function After(period: Period, w: World, event: Event): World
    requires Possible(period, event)
  {
    match event
    case Insert(key) => World(w.s.(db := w.s.db + {key}), w.stored + {key})
    case PruneOldest(before) => World(w.s.(db := Since(w.s.db, before)), w.stored)
    case RunFile(start, conflict, selected) =>
      World(ExportFile(period, w.s, start, conflict, selected, History(w.s.db)), w.stored)
  }

  predicate AllPossible(period: Period, events: seq<Event>) {
    forall i :: 0 <= i < |events| ==> Possible(period, events[i])
  }

  ghost function AfterAll(period: Period, w: World, events: seq<Event>): World
    requires AllPossible(period, events)
    decreases |events|
  {
    if events == [] then w else AfterAll(period, After(period, w, events[0]), events[1..])
  }

  /** An event that leaves files what they hold: a run is no purge, and is taken while the database
      is complete. */
  ghost predicate Sparing(w: World, event: Event) {
    event.RunFile? ==> event.conflict != Purge && Complete(w.s.db, w.stored)
  }

  ghost predicate AllSparing(period: Period, w: World, events: seq<Event>)
    requires AllPossible(period, events)
    decreases |events|
  {
    events == [] || (Sparing(w, events[0]) && AllSparing(period, After(period, w, events[0]), events[1..]))
  }

  lemma EventKeeps(period: Period, w: World, event: Event)
    requires Possible(period, event) && Sparing(w, event)
    requires w.s.db <= w.stored && Archived(period, w.s.files, w.stored)
    ensures var next := After(period, w, event);
            && next.s.db <= next.stored && Archived(period, next.s.files, next.stored)
            && KeepsAll(w.s.files, next.s.files)
  {
    if event.RunFile? {
      forall lost | lost in w.stored - w.s.db ensures !Rewritten(period, w.s.db, lost) {
        CompleteMeansKept(period, w.s.db, w.stored, lost);
      }
      RunKeepsAll(period, w.s, w.stored, event.start, event.conflict, event.selected);
      RunArchives(period, w.s, w.stored, event.start, event.conflict, event.selected);
    }
  }

  lemma RunArchives(period: Period, s: State, stored: set<Key>, start: Moment, conflict: Conflict, selected: Span)
    requires Aligned(period, start) && Within(selected, Bounds(period, start))
    requires s.db <= stored && Archived(period, s.files, stored)
    ensures var after := ExportFile(period, s, start, conflict, selected, History(s.db));
            after.db == s.db && Archived(period, after.files, stored)
  {
    PutArchived(period, s, stored, start, selected);
    hide Archived;
    hide Home;
    hide Bounds;
    hide Decide;
    hide Query;
    hide Within;
    hide BeforeHistory;
  }

  lemma PutArchived(period: Period, s: State, stored: set<Key>, start: Moment, selected: Span)
    requires Aligned(period, start) && Within(selected, Bounds(period, start))
    requires s.db <= stored && Archived(period, s.files, stored)
    ensures Archived(period, s.files[start := File(Sorted(Query(s.db, selected)), false)], stored)
    ensures Archived(period, s.files - {start}, stored)
  {
    forall key | key in Sorted(Query(s.db, selected)) ensures Home(period, key) == start && key in stored {
      if period != All {
        InPeriod(period, start, key.time);
      }
    }
    hide Home;
    hide Bounds;
    hide Query;
  }

  /** Over any inserts, oldest-first prunes and runs that are no purge, taken while the database
      holds every record from its oldest on, no record ever leaves a file. */
  lemma {:induction false} NothingLeavesTheArchive(period: Period, w: World, events: seq<Event>)
    requires AllPossible(period, events) && AllSparing(period, w, events)
    requires w.s.db <= w.stored && Archived(period, w.s.files, w.stored)
    ensures KeepsAll(w.s.files, AfterAll(period, w, events).s.files)
    decreases |events|
  {
    if events != [] {
      EventKeeps(period, w, events[0]);
      NothingLeavesTheArchive(period, After(period, w, events[0]), events[1..]);
    }
  }

  /** Pruning oldest first leaves the database complete, whatever the cut. */
  lemma PruningKeepsComplete(db: set<Key>, stored: set<Key>, before: Moment)
    requires Complete(db, stored)
    ensures Complete(Since(db, before), stored)
  {
  }

  /** Storing a record leaves it complete exactly when every record pruned so far is older. */
  lemma InsertKeepsComplete(db: set<Key>, stored: set<Key>, key: Key)
    requires Complete(db, stored)
    ensures Complete(db + {key}, stored + {key}) <==>
            forall lost :: lost in stored - db - {key} ==> lost.time < key.time
  {
    var db', stored' := db + {key}, stored + {key};
    assert forall k :: k in stored' - db' <==> k in stored - db - {key};
    if Complete(db', stored') {
      assert key in db';
    }
  }

  // ---------------------------------------------------------------- a record that leaves the archive

  const H := TICKS_PER_HOUR
  const EARLY := Key(TICKS_PER_HOUR + 5, 0)
  const KEPT := Key(TICKS_PER_HOUR + 9, 1)
  const STRAY := Key(1, 2)

  lemma HourOfWitness()
    ensures Aligned(Hour, H) && Bounds(Hour, H) == Span(Some(H), Some(2 * H))
    ensures Home(Hour, EARLY) == Home(Hour, KEPT) == H
  {
  }

  /** A whole file is written from what is stored of its time, unless it is there and starts before
      anything stored. */
  lemma OverwriteWrites(s: State)
    requires Aligned(Hour, H) && Bounds(Hour, H) == Span(Some(H), Some(2 * H)) && KEPT in s.db
    requires H in s.files ==> History(s.db) == Some(STRAY.time)
    ensures ExportFile(Hour, s, H, Overwrite, Bounds(Hour, H), History(s.db)).db == s.db
    ensures ExportFile(Hour, s, H, Overwrite, Bounds(Hour, H), History(s.db)).files
              == s.files[H := File(Sorted(Query(s.db, Bounds(Hour, H))), false)]
  {
    hide Aligned;
    assert KEPT in Query(s.db, Bounds(Hour, H));
    ContentEmpty(s.db, Bounds(Hour, H));
    hide History;
    hide Bounds;
    hide Query;
  }

  lemma StrayIsOldest(db: set<Key>)
    requires db == {KEPT, STRAY}
    ensures History(db) == Some(STRAY.time)
  {
    assert STRAY in db && AtMost(Least(db), STRAY);
  }

  /** One more event happens after all before it. */
  lemma {:induction false} OneMore(period: Period, w: World, events: seq<Event>, event: Event)
    requires AllPossible(period, events) && Possible(period, event)
    ensures AllPossible(period, events + [event])
    ensures AfterAll(period, w, events + [event]) == After(period, AfterAll(period, w, events), event)
    ensures AllSparing(period, w, events + [event]) <==>
            AllSparing(period, w, events) && Sparing(AfterAll(period, w, events), event)
    decreases |events|
  {
    hide After;
    hide Possible;
    hide Sparing;
    var all := events + [event];
    assert AllPossible(period, all);
    if events == [] {
      assert all[1..] == [];
    } else {
      assert all[1..] == events[1..] + [event];
      OneMore(period, After(period, w, events[0]), events[1..], event);
    }
  }

  const RUN := RunFile(H, Overwrite, Span(Some(H), Some(2 * H)))

  const BEFORE_LOSS: seq<Event> := [Insert(EARLY), Insert(KEPT), RUN, PruneOldest(H + 6), Insert(STRAY)]

  /** An hour's two records are exported, the older is pruned with all before it, and a record of an
      hour long past is stored. */
  lemma BeforeLoss()
    ensures Aligned(Hour, H) && Possible(Hour, RUN) && AllPossible(Hour, BEFORE_LOSS)
    ensures AllSparing(Hour, World(Fresh({}), {}), BEFORE_LOSS)
    ensures var w := AfterAll(Hour, World(Fresh({}), {}), BEFORE_LOSS);
            w.s.db == {KEPT, STRAY} && H in w.s.files && EARLY in w.s.files[H].records
  {
    HourOfWitness();
    hide Aligned;
    hide Bounds;
    hide ExportFile;
    hide AfterAll;
    hide AllSparing;
    hide AllPossible;
    var w0 := World(Fresh({}), {});
    assert AllPossible(Hour, []) && AllSparing(Hour, w0, []) && AfterAll(Hour, w0, []) == w0 by { NothingYet(w0); }
    OneMore(Hour, w0, [], Insert(EARLY));
    assert [] + [Insert(EARLY)] == [Insert(EARLY)];
    OneMore(Hour, w0, [Insert(EARLY)], Insert(KEPT));
    assert [Insert(EARLY)] + [Insert(KEPT)] == BEFORE_LOSS[..2];
    var w2 := AfterAll(Hour, w0, BEFORE_LOSS[..2]);
    assert w2.s.db == {EARLY, KEPT} == w2.stored;
    OneMore(Hour, w0, BEFORE_LOSS[..2], RUN);
    assert BEFORE_LOSS[..2] + [RUN] == BEFORE_LOSS[..3];
    OverwriteWrites(w2.s);
    assert EARLY in Query(w2.s.db, RUN.selected);
    OneMore(Hour, w0, BEFORE_LOSS[..3], PruneOldest(H + 6));
    assert BEFORE_LOSS[..3] + [PruneOldest(H + 6)] == BEFORE_LOSS[..4];
    assert AfterAll(Hour, w0, BEFORE_LOSS[..4]).s.db == {KEPT};
    OneMore(Hour, w0, BEFORE_LOSS[..4], Insert(STRAY));
    assert BEFORE_LOSS[..4] + [Insert(STRAY)] == BEFORE_LOSS;
  }

  lemma NothingYet(w: World)
    ensures AllPossible(Hour, []) && AllSparing(Hour, w, []) && AfterAll(Hour, w, []) == w
  {
  }

  /** Then the database seems to reach back before the file, and an `overwrite` run writes the file
      again without the record that was pruned. */
  lemma OverwriteLoses()
    ensures AllPossible(Hour, BEFORE_LOSS) && AllPossible(Hour, BEFORE_LOSS + [RUN])
    ensures var empty := World(Fresh({}), {});
            var before := AfterAll(Hour, empty, BEFORE_LOSS).s.files;
            var after := AfterAll(Hour, empty, BEFORE_LOSS + [RUN]).s.files;
            && AllSparing(Hour, empty, BEFORE_LOSS)
            && H in before && EARLY in before[H].records && H in after && EARLY !in after[H].records
  {
    BeforeLoss();
    HourOfWitness();
    hide Aligned;
    hide Bounds;
    hide ExportFile;
    hide AfterAll;
    hide AllSparing;
    hide AllPossible;
    var empty := World(Fresh({}), {});
    var w := AfterAll(Hour, empty, BEFORE_LOSS);
    OneMore(Hour, empty, BEFORE_LOSS, RUN);
    StrayIsOldest(w.s.db);
    OverwriteWrites(w.s);
    assert EARLY !in Query(w.s.db, RUN.selected);
  }
}
