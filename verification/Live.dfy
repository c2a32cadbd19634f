/** The live exporter of a resumable line writer, as a state machine.

    A flush notifies keys, a wake takes them and appends each period's new records to its file, a
    failed wake gives its ranges back, a crash may cut an append anywhere and forgets everything
    kept in memory, and export runs replace or remove whole files in between. */
module Live {
  import opened Options
  import opened Calendar
  import opened Spans
  import opened Keys
  import opened Decisions

  /** A file's complete records, and whether part of one more follows them. */
  datatype File = File(records: seq<Key>, torn: bool)

  /** Two keys and every key between them. */
  datatype Range = Range(first: Key, last: Key)

  type Ranges = map<Moment, Range>
  type Files = map<Moment, File>

  /** The stored records, the files by period start, and one exporter's memory.

      `notified` holds the stored records the exporter has heard of since it started. It follows what
      happened and decides nothing. */
  datatype State = State(
    db: set<Key>,
    files: Files,
    pending: Ranges,
    working: Ranges,
    last: map<Moment, Option<Key>>,
    late: set<Moment>,
    notified: set<Key>)

  // ---------------------------------------------------------------- notifications

  function Home(period: Period, key: Key): Moment {
    PeriodStart(period, key.time)
  }

  function Join(a: Range, b: Range): Range {
    Range(MinKey(a.first, b.first), MaxKey(a.last, b.last))
  }

  function AddRange(ranges: Ranges, start: Moment, range: Range): Ranges {
    ranges[start := if start in ranges then Join(ranges[start], range) else range]
  }

  function Notified(period: Period, ranges: Ranges, keys: seq<Key>): Ranges
    decreases |keys|
  {
    if keys == [] then ranges
    else Notified(period, AddRange(ranges, Home(period, keys[0]), Range(keys[0], keys[0])), keys[1..])
  }

  /** The pending ranges once a failed wake has given its own back. */
  function Restored(pending: Ranges, working: Ranges): Ranges {
    map start | start in pending.Keys + working.Keys ::
      if start !in working then pending[start]
      else if start !in pending then working[start]
      else Join(pending[start], working[start])
  }

  // ---------------------------------------------------------------- queries

  /** The whole range of the file starting at `start`. */
  function Bounds(period: Period, start: Moment): Span
    requires Aligned(period, start)
  {
    if period == All then Span(None, None) else Span(Some(start), Some(NextPeriod(period, start)))
  }

  function Until(span: Span, through: Moment): Span {
    Span(span.after, Some(if span.before.None? then through else Min(span.before.value, through)))
  }

  function Query(db: set<Key>, span: Span): set<Key> {
    set key | key in db && Holds(span, key.time)
  }

  function InRange(db: set<Key>, range: Range): set<Key> {
    set key | key in db && AtMost(range.first, key) && AtMost(key, range.last)
  }

  function After(keys: seq<Key>, bound: Key): (newer: seq<Key>)
    ensures forall k :: k in newer <==> k in keys && Less(bound, k)
    ensures Increasing(keys) ==> Increasing(newer)
  {
    if keys == [] then []
    else
      var rest := After(keys[1..], bound);
      if Less(bound, keys[0]) then
        assert Increasing(keys) ==> forall k :: k in rest ==> Less(keys[0], k) by {
          if Increasing(keys) {
            forall k | k in rest ensures Less(keys[0], k) {
              var i :| 0 <= i < |keys[1..]| && keys[1..][i] == k;
            }
          }
        }
        [keys[0]] + rest
      else rest
  }

  // ---------------------------------------------------------------- appends

  function Records(files: Files, start: Moment): seq<Key> {
    if start in files then files[start].records else []
  }

  /** Reading where a file ends cuts off the torn record it may end in. */
  function Untorn(files: Files, start: Moment): Files {
    if start in files then files[start := File(files[start].records, false)] else files
  }

  /** Appending `count` of some records, and part of the next when the append is cut there, to a file
      that does not end in part of one already. */
  function Appended(files: Files, start: Moment, newer: seq<Key>, count: nat, torn: bool): Files
    requires count <= |newer|
  {
    files[start := File(Records(files, start) + newer[..count], torn)]
  }

  /** The key a wake appends after: the remembered one, or the last in the file. */
  function Previous(s: State, start: Moment): Option<Key> {
    if start in s.last then s.last[start] else LastOf(Records(s.files, start))
  }

  function Opened(s: State, start: Moment): Files {
    if start in s.last then s.files else Untorn(s.files, start)
  }

  function NewLast(previous: Option<Key>, newest: Key): Option<Key> {
    Some(if previous.None? then newest else MaxKey(previous.value, newest))
  }

  predicate Late(found: seq<Key>, previous: Option<Key>) {
    found != [] && previous.Some? && AtMost(found[0], previous.value)
  }

  function Found(s: State, start: Moment): seq<Key>
    requires start in s.working
  {
    Sorted(InRange(s.db, s.working[start]))
  }

  /** The records found that sort after the file's last key. */
  function Newer(found: seq<Key>, previous: Option<Key>): seq<Key> {
    if Late(found, previous) then After(found, previous.value) else found
  }

  /** The records a wake appends to one period's file. */
  function WakeKeys(s: State, start: Moment): seq<Key>
    requires start in s.working
  {
    Newer(Found(s, start), Previous(s, start))
  }

  /** What a wake does for a period. Records that sort up to the file's last key are left out of the
      file, and the period is marked late for them. */
  function WritePeriod(s: State, start: Moment): State
    requires start in s.working
  {
    var done := s.(working := s.working - {start});
    var found := Found(s, start);
    if found == [] then done
    else
      var previous := Previous(s, start);
      var newer := WakeKeys(s, start);
      var marked := done.(files := Opened(s, start),
                          late := if Late(found, previous) then s.late + {start} else s.late);
      if newer == [] then marked
      else
        var newest := newer[|newer| - 1];
        marked.(files := Appended(Opened(s, start), start, newer, |newer|, false),
                last := s.last[start := NewLast(previous, newest)])
  }

  /** The stored records of a period after a key. */
  function ResumeAfter(period: Period, db: set<Key>, start: Moment, last: Option<Key>, through: Moment): seq<Key>
    requires Aligned(period, start)
  {
    var bounds := Bounds(period, start);
    var after := if last.None? then bounds.after else Some(last.value.time);
    var found := Sorted(Query(db, Until(Span(after, bounds.before), through)));
    if last.None? then found else After(found, last.value)
  }

  /** The records the check at start appends to an existing file. */
  function ResumeKeys(period: Period, s: State, start: Moment, through: Moment): seq<Key>
    requires Aligned(period, start)
  {
    ResumeAfter(period, s.db, start, LastOf(Records(s.files, start)), through)
  }

  /** What the check at start does for a period: no file yet means all its records are written, and a
      file is continued past its last key. `through` cuts off what is stored later. */
  function CheckPeriod(period: Period, s: State, start: Moment, through: Moment): State
    requires Aligned(period, start)
  {
    if start !in s.files then
      var content := Sorted(Query(s.db, Until(Bounds(period, start), through)));
      if content == [] then s else s.(files := s.files[start := File(content, false)])
    else
      var last := LastOf(s.files[start].records);
      var newer := ResumeKeys(period, s, start, through);
      var trimmed := s.(files := Untorn(s.files, start), last := s.last[start := last]);
      if newer == [] then trimmed
      else trimmed.(files := Appended(trimmed.files, start, newer, |newer|, false),
                   last := s.last[start := Some(newer[|newer| - 1])])
  }

  // ---------------------------------------------------------------- export runs

  function Applied(s: State, start: Moment, content: seq<Key>, decision: Decision): State {
    match decision
    case Refused => s
    case Decided(action, _) =>
      match action
      case Keep => s
      case Remove => s.(files := s.files - {start}, last := s.last - {start}, late := s.late - {start})
      case Nothing => s.(last := s.last - {start}, late := s.late - {start})
      case _ => s.(files := s.files[start := File(content, false)], last := s.last - {start}, late := s.late - {start})
  }

  /** One file of an export run. Whatever it does but keep the file, the exporter forgets what it
      knew of it. */
  function ExportFile(period: Period, s: State, start: Moment, conflict: Conflict, selected: Span,
                      history: Option<Moment>): State
    requires Aligned(period, start)
  {
    var content := Sorted(Query(s.db, selected));
    var whole := Bounds(period, start);
    Applied(s, start, content,
            Decide(conflict, start in s.files, content != [], whole != selected, BeforeHistory(whole, history)))
  }

  // ---------------------------------------------------------------- the machine

  /** What a crash interrupts: nothing, a wake's append, or an append of the check at start. An
      interrupted append leaves `count` whole records, and part of the next when `torn`. */
  datatype Cut =
    | Idle
    | DuringWake(start: Moment, count: nat, torn: bool)
    | DuringCheck(start: Moment, through: Moment, count: nat, torn: bool)

  datatype Step =
    | Store(key: Key)
    | Prune(key: Key)
    | Notify(keys: seq<Key>)
    | Take
    | Write(start: Moment)
    | Trim(kept: set<Moment>)
    | Fail
    | FailAppending(start: Moment, count: nat, torn: bool)
    | Crash(cut: Cut)
    | Check(start: Moment, through: Moment)
    | FailChecking(start: Moment, through: Moment)
    | Export(start: Moment, conflict: Conflict, selected: Span, history: Option<Moment>)

  predicate Cuts(newer: seq<Key>, count: nat, torn: bool) {
    count <= |newer| && (torn ==> count < |newer|)
  }

  predicate Within(selected: Span, whole: Span) {
    && (whole.after.Some? ==> selected.after.Some? && whole.after.value <= selected.after.value)
    && (whole.before.Some? ==> selected.before.Some? && selected.before.value <= whole.before.value)
  }

  /** When the code can take a step. An append of a wake that fails part way is only in the machine
      while the file's last key is not remembered, see `RememberedKeyOutlivesFailedAppend`, and one
      of a check only while nothing has reached the file, see `FailedCheck`. */
  predicate Enabled(period: Period, s: State, step: Step) {
    match step
    case Store(_) => true
    case Prune(_) => true
    case Notify(_) => true
    case Take => s.working == map[]
    case Write(start) => start in s.working
    case Trim(_) => true
    case Fail => true
    case FailAppending(start, count, torn) =>
      start in s.working && start !in s.last && Cuts(WakeKeys(s, start), count, torn)
    case Crash(cut) =>
      (match cut
       case Idle => true
       case DuringWake(start, count, torn) => start in s.working && Cuts(WakeKeys(s, start), count, torn)
       case DuringCheck(start, through, count, torn) =>
         Aligned(period, start) && start in s.files && Cuts(ResumeKeys(period, s, start, through), count, torn))
    case Check(start, _) => Aligned(period, start)
    case FailChecking(start, _) => Aligned(period, start) && start in s.files
    case Export(start, _, selected, _) => Aligned(period, start) && Within(selected, Bounds(period, start))
  }

  function Restarted(s: State): State {
    s.(pending := map[], working := map[], last := map[], late := {}, notified := {})
  }

  function Failed(s: State): State {
    s.(pending := Restored(s.pending, s.working), working := map[])
  }

  function CutWake(s: State, start: Moment, count: nat, torn: bool): State
    requires start in s.working && Cuts(WakeKeys(s, start), count, torn)
  {
    s.(files := Appended(Opened(s, start), start, WakeKeys(s, start), count, torn))
  }

  function CutCheck(period: Period, s: State, start: Moment, through: Moment, count: nat, torn: bool): State
    requires Aligned(period, start) && Cuts(ResumeKeys(period, s, start, through), count, torn)
  {
    s.(files := Appended(Untorn(s.files, start), start, ResumeKeys(period, s, start, through), count, torn))
  }

  /** A check whose append fails part way in process: it has already remembered the key it read. */
  function CheckCut(period: Period, s: State, start: Moment, through: Moment, count: nat, torn: bool): State
    requires Aligned(period, start) && start in s.files && Cuts(ResumeKeys(period, s, start, through), count, torn)
  {
    CutCheck(period, s, start, through, count, torn).(last := s.last[start := LastOf(s.files[start].records)])
  }

  function Next(period: Period, s: State, step: Step): State
    requires Enabled(period, s, step)
  {
    match step
    case Store(key) => s.(db := s.db + {key})
    case Prune(key) => s.(db := s.db - {key}, notified := s.notified - {key})
    case Notify(keys) =>
      s.(pending := Notified(period, s.pending, keys), notified := s.notified + set k | k in keys && k in s.db)
    case Take => s.(pending := map[], working := s.pending)
    case Write(start) => WritePeriod(s, start)
    case Trim(kept) => s.(last := map start | start in s.last && start in kept :: s.last[start])
    case Fail => Failed(s)
    case FailAppending(start, count, torn) => Failed(CutWake(s, start, count, torn))
    case Crash(cut) =>
      (match cut
       case Idle => Restarted(s)
       case DuringWake(start, count, torn) => Restarted(CutWake(s, start, count, torn))
       case DuringCheck(start, through, count, torn) =>
         Restarted(CutCheck(period, s, start, through, count, torn)))
    case Check(start, through) => CheckPeriod(period, s, start, through)
    case FailChecking(start, through) => Failed(CheckCut(period, s, start, through, 0, false))
    case Export(start, conflict, selected, history) =>
      ExportFile(period, s, start, conflict, selected, history)
  }

  /** Whether the steps can be taken one after the other from `s`. */
  ghost predicate Runs(period: Period, s: State, steps: seq<Step>)
    decreases |steps|
  {
    steps == [] || (Enabled(period, s, steps[0]) && Runs(period, Next(period, s, steps[0]), steps[1..]))
  }

  ghost function StateAfter(period: Period, s: State, steps: seq<Step>): State
    requires Runs(period, s, steps)
    decreases |steps|
  {
    if steps == [] then s else StateAfter(period, Next(period, s, steps[0]), steps[1..])
  }

  /** A machine about to start on any stored records and no files. */
  function Fresh(db: set<Key>): State {
    State(db, map[], map[], map[], map[], {}, {})
  }
}
